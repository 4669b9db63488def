/** What the in-place delete of `lookup_fto` achieves on a list it rendered
    itself: the pressed request's blocks disappear and nothing else changes,
    so the patched modal is the rendering of the remaining requests. */
module LookupFtoProofs {
  import opened Wrappers
  import opened Strings
  import opened Slack
  import opened FtoRequestsDatastore
  import opened LookupFto

  /** The scan can be cut where a block is not a context block right after
      a pressed one. */
  lemma {:induction false} FilteredAppend(s1: seq<Block>, s2: seq<Block>, target: string)
    requires |s1| == 0 || |s2| == 0 || !(Matches(s1[|s1| - 1], target) && s2[0].Context?)
    ensures Filtered(s1 + s2, target) == Filtered(s1, target) + Filtered(s2, target)
    decreases |s2|
  {
    if |s2| == 0 {
      assert s1 + s2 == s1;
    } else {
      var s := s1 + s2;
      var n2 := |s2| - 1;
      assert s[..|s| - 1] == s1 + s2[..n2];
      FilteredAppend(s1, s2[..n2], target);
      assert Kept(s, target, |s| - 1) == Kept(s2, target, n2);
    }
  }

  /** Without the pressed block, the scan keeps everything. */
  lemma {:induction false} FilteredNoMatch(s: seq<Block>, target: string)
    requires forall i :: 0 <= i < |s| ==> !Matches(s[i], target)
    ensures Filtered(s, target) == s
    decreases |s|
  {
    if |s| > 0 {
      FilteredNoMatch(s[..|s| - 1], target);
      assert s[..|s| - 1] + [s[|s| - 1]] == s;
    }
  }

  lemma {:induction false} LastMatchNoMatch(s1: seq<Block>, s2: seq<Block>, target: string)
    requires forall i :: 0 <= i < |s2| ==> !Matches(s2[i], target)
    ensures LastMatch(s1 + s2, target) == LastMatch(s1, target)
    decreases |s2|
  {
    if |s2| == 0 {
      assert s1 + s2 == s1;
    } else {
      var s := s1 + s2;
      assert s[..|s| - 1] == s1 + s2[..|s2| - 1];
      LastMatchNoMatch(s1, s2[..|s2| - 1], target);
    }
  }

  lemma {:induction false} EntryListAppend(x: seq<Request>, y: seq<Request>)
    ensures EntryListBlocks(x + y) == EntryListBlocks(x) + EntryListBlocks(y)
  {
    if |x| == 0 {
      assert x + y == y;
    } else {
      assert (x + y)[0] == x[0] && (x + y)[1..] == x[1..] + y;
      EntryListAppend(x[1..], y);
    }
  }

  /** Rendered blocks carry no `block_id` of their own. */
  lemma {:induction false} EntryListUnnamed(rs: seq<Request>)
    ensures forall i :: 0 <= i < |EntryListBlocks(rs)| ==> EntryListBlocks(rs)[i].blockId == None
  {
    if |rs| > 0 {
      EntryListUnnamed(rs[1..]);
      var e := EntryBlocks(rs[0]);
      assert EntryListBlocks(rs) == e + EntryListBlocks(rs[1..]);
    }
  }

  /** Stamped blocks that had no id match only their own id. */
  lemma StampedNoMatch(bs: seq<Block>, ids: seq<string>, target: string)
    requires |ids| == |bs|
    requires forall i :: 0 <= i < |bs| ==> bs[i].blockId == None
    requires target !in ids
    ensures forall i :: 0 <= i < |bs| ==> !Matches(Stamp(bs, ids)[i], target)
  {
    forall i | 0 <= i < |bs|
      ensures !Matches(Stamp(bs, ids)[i], target)
    {
      StampAt(bs, ids, i);
      assert ids[i] in ids;
    }
  }

  /** The scan drops a pressed line and its context block. */
  lemma LineDropped(SB: seq<Block>, target: string)
    requires 1 <= |SB| <= 2 && Matches(SB[0], target)
    requires |SB| == 2 ==> SB[1].Context?
    ensures Filtered(SB, target) == []
  {
    if |SB| == 2 {
      assert SB[..1] == [SB[0]];
      assert Filtered([SB[0]], target) == [];
    }
  }

  /** After a pressed line and its unpressed context block, the last pressed
      block is the line. */
  lemma LineRemembered(SA: seq<Block>, SB: seq<Block>, target: string)
    requires 1 <= |SB| <= 2 && Matches(SB[0], target)
    requires |SB| == 2 ==> !Matches(SB[1], target)
    ensures LastMatch(SA + SB, target) == Some(SB[0])
  {
    assert LastMatch(SA + [SB[0]], target) == Some(SB[0]) by {
      assert (SA + [SB[0]])[..|SA|] == SA;
    }
    if |SB| == 2 {
      LastMatchNoMatch(SA + [SB[0]], [SB[1]], target);
      assert SA + SB == (SA + [SB[0]]) + [SB[1]];
    } else {
      assert SB == [SB[0]];
    }
  }

  /** A pressed line, with at most its own context block after it, between
      two runs of unpressed blocks: the scan removes exactly the line and its
      context, and remembers the line. */
  lemma FilterAroundLine(SA: seq<Block>, SB: seq<Block>, SC: seq<Block>, target: string)
    requires forall i :: 0 <= i < |SA| ==> !Matches(SA[i], target)
    requires forall i :: 0 <= i < |SC| ==> !Matches(SC[i], target)
    requires 1 <= |SB| <= 2 && Matches(SB[0], target) && SB[0].Section?
    requires |SB| == 2 ==> SB[1].Context? && !Matches(SB[1], target)
    requires |SC| > 0 ==> SC[0].Section?
    ensures Filtered(SA + SB + SC, target) == SA + SC
    ensures LastMatch(SA + SB + SC, target) == Some(SB[0])
  {
    assert Filtered(SA + SB, target) == SA by {
      FilteredNoMatch(SA, target);
      LineDropped(SB, target);
      FilteredAppend(SA, SB, target);
    }
    assert Filtered(SA + SB + SC, target) == SA + SC by {
      FilteredNoMatch(SC, target);
      FilteredAppend(SA + SB, SC, target);
    }
    LineRemembered(SA, SB, target);
    LastMatchNoMatch(SA + SB, SC, target);
  }

  lemma EntryListAround(before: seq<Request>, r: Request, after: seq<Request>)
    ensures EntryListBlocks(before + [r] + after)
            == EntryListBlocks(before) + EntryBlocks(r) + EntryListBlocks(after)
  {
    EntryListAppend(before + [r], after);
    EntryListAppend(before, [r]);
    EntryListOne(r);
  }

  lemma EntryListOne(r: Request)
    ensures EntryListBlocks([r]) == EntryBlocks(r)
  {
    assert [r][1..] == [];
  }

  /** Blocks the app sent without a `block_id`. */
  ghost predicate Unnamed(bs: seq<Block>)
  {
    forall i :: 0 <= i < |bs| ==> bs[i].blockId == None
  }

  /** Deleting by the id Slack gave the line `B[0]` of a view `L == A + B + C`
      leaves `L' == A + C` as Slack had stamped it. */
  lemma DeleteStampedLine(L: seq<Block>, L': seq<Block>, A: seq<Block>, B: seq<Block>, C: seq<Block>, ids: seq<string>, p: nat, q: nat)
    requires L == A + B + C && L' == A + C && |ids| == |L|
    requires p == |A| && q == p + |B|
    requires Unnamed(A) && Unnamed(B) && Unnamed(C)
    requires 1 <= |B| <= 2 && B[0].Section? && (|B| == 2 ==> B[1].Context?)
    requires |C| > 0 ==> C[0].Section?
    requires ids[p] !in ids[..p] && ids[p] !in ids[q..]
    requires |B| == 2 ==> ids[p + 1] != ids[p]
    ensures Filtered(Stamp(L, ids), ids[p]) == Stamp(L', ids[..p] + ids[q..])
    ensures LastMatch(Stamp(L, ids), ids[p]) == Some(StampOne(B[0], ids[p]))
  {
    var ia, ib, ic := ids[..p], ids[p..q], ids[q..];
    SplitThree(ids, p, q);
    assert ib[0] == ids[p];
    StampAppend(A, ia, B, ib);
    StampAppend(A + B, ia + ib, C, ic);
    StampAppend(A, ia, C, ic);
    StampedNoMatch(A, ia, ib[0]);
    StampedNoMatch(C, ic, ib[0]);
    StampAt(B, ib, 0);
    if |B| == 2 {
      StampAt(B, ib, 1);
    }
    FilterAroundLine(Stamp(A, ia), Stamp(B, ib), Stamp(C, ic), ib[0]);
  }

  /** Rendered entries, and a header without an id, are unnamed. */
  lemma ListUnnamed(header: Block, rs: seq<Request>)
    requires header.blockId == None
    ensures Unnamed([header] + EntryListBlocks(rs))
  {
    EntryListUnnamed(rs);
  }

  lemma SplitAt<T>(s: seq<T>, k: nat)
    requires k < |s|
    ensures s == s[..k] + [s[k]] + s[k + 1..]
  {
  }

  lemma ConsAssoc<T>(h: T, x: seq<T>, y: seq<T>, z: seq<T>)
    ensures [h] + (x + y + z) == [h] + x + y + z
    ensures [h] + (x + z) == [h] + x + z
  {
  }

  lemma PairParts<T>(x: T, y: T)
    ensures [x, y][0] == x && [x, y][1] == y
    ensures [x, y][..0] == [] && [x, y][..1] == [x]
    ensures [x, y][..0] + [x, y][1..] == [y] && [x, y][..1] + [x, y][2..] == [x]
  {
    assert [x, y][1..] == [y];
    assert [x, y][2..] == [];
  }

  lemma SingleParts<T>(x: T)
    ensures [x][0] == x && [x][..0] == [] && [x][..0] + [x][1..] == []
  {
    assert [x][1..] == [];
  }

  lemma FirstOnly<T>(s: seq<T>)
    requires |s| >= 1
    ensures s[..1] + s[|s|..] == [s[0]]
  {
  }

  lemma PairConcat<T>(x: T, y: T)
    ensures [x] + [y] == [x, y]
  {
  }

  lemma SplitThree<T>(s: seq<T>, p: nat, q: nat)
    requires p <= q <= |s|
    ensures s == s[..p] + s[p..q] + s[q..]
  {
  }

  /** In a list of distinct ids, the one at `p` occurs neither before nor after. */
  lemma DistinctSplit(ids: seq<string>, p: nat, q: nat)
    requires p < q <= |ids| && Distinct(ids)
    ensures ids[p] !in ids[..p] && ids[p] !in ids[q..]
    ensures q == p + 2 ==> ids[p + 1] != ids[p]
  {
    DistinctPairs(ids);
    forall i | 0 <= i < p ensures ids[..p][i] != ids[p] { }
    forall i | 0 <= i < |ids| - q ensures ids[q..][i] != ids[p] { assert ids[q..][i] == ids[q + i]; }
  }

  /** The request at position `k` sits between the requests before it and
      the requests after it. */
  lemma EntryAt(rs: seq<Request>, k: nat)
    requires k < |rs|
    ensures EntryListBlocks(rs) == EntryListBlocks(rs[..k]) + EntryBlocks(rs[k]) + EntryListBlocks(rs[k + 1..])
    ensures EntryListBlocks(rs[..k] + rs[k + 1..]) == EntryListBlocks(rs[..k]) + EntryListBlocks(rs[k + 1..])
  {
    SplitAt(rs, k);
    EntryListAround(rs[..k], rs[k], rs[k + 1..]);
    EntryListAppend(rs[..k], rs[k + 1..]);
  }

  /** The three parts around position `k` are unnamed, and the part after
      it starts with a request's line. */
  lemma EntryAtUnnamed(header: Block, rs: seq<Request>, k: nat)
    requires header.blockId == None && k < |rs|
    ensures Unnamed([header] + EntryListBlocks(rs[..k]))
    ensures Unnamed(EntryBlocks(rs[k]))
    ensures Unnamed(EntryListBlocks(rs[k + 1..]))
    ensures |EntryListBlocks(rs[k + 1..])| > 0 ==> EntryListBlocks(rs[k + 1..])[0].Section?
  {
    ListUnnamed(header, rs[..k]);
    EntryListUnnamed(rs[k + 1..]);
  }

  /** Where the line of the request at position `k` sits in its list. */
  function LinePos(rs: seq<Request>, k: nat): nat
    requires k <= |rs|
  {
    1 + BlockCount(rs[..k])
  }

  /** The situation of a delete press: the list of `rs` under `header` was
      shown and stamped with the distinct `ids`, the pressed line is that of
      request `k`, which occupies positions `p` up to `q`, and `rest` are the
      other requests in their order. */
  ghost predicate Deletion(header: Block, rs: seq<Request>, k: nat, ids: seq<string>, p: nat, q: nat, rest: seq<Request>)
  {
    && header.blockId == None
    && k < |rs|
    && |ids| == 1 + BlockCount(rs) && Distinct(ids)
    && p == LinePos(rs, k) && q == p + |EntryBlocks(rs[k])| && rest == rs[..k] + rs[k + 1..]
  }

  /** Deleting the request at position `k` of a list (under `header`), by the
      id Slack gave its line, leaves the list of the other requests, every
      block keeping its id; the block remembered for the notice is that
      request's line. */
  lemma DeleteEntry(header: Block, rs: seq<Request>, k: nat, ids: seq<string>, p: nat, q: nat, rest: seq<Request>)
    requires Deletion(header, rs, k, ids, p, q, rest)
    ensures q <= |ids|
    ensures Filtered(Stamp([header] + EntryListBlocks(rs), ids), ids[p])
            == Stamp([header] + EntryListBlocks(rest), ids[..p] + ids[q..])
    ensures LastMatch(Stamp([header] + EntryListBlocks(rs), ids), ids[p]) == Some(StampOne(EntryBlocks(rs[k])[0], ids[p]))
  {
    var A, B, C := [header] + EntryListBlocks(rs[..k]), EntryBlocks(rs[k]), EntryListBlocks(rs[k + 1..]);
    var L, L' := [header] + EntryListBlocks(rs), [header] + EntryListBlocks(rest);
    assert L == A + B + C && L' == A + C by {
      EntryAt(rs, k);
      ConsAssoc(header, EntryListBlocks(rs[..k]), B, C);
    }
    EntryAtUnnamed(header, rs, k);
    assert |A| == p;
    DistinctSplit(ids, p, q);
    DeleteStampedLine(L, L', A, B, C, ids, p, q);
  }

  /** The line of request `r` once Slack has given it `id`. */
  lemma StampedLine(r: Request, id: string)
    ensures StampOne(EntryBlocks(r)[0], id) == Section(Some(id), EntryText(r), Some(DeleteButton(r.requestId)))
  {
  }

  /** The whole patch: the remaining list, or, once its last request is
      gone, the header followed by the placeholder block. */
  lemma PatchDeletesEntry(header: Block, rs: seq<Request>, k: nat, ids: seq<string>, p: nat, q: nat, rest: seq<Request>)
    requires Deletion(header, rs, k, ids, p, q, rest)
    ensures q <= |ids|
    ensures Patched(Stamp([header] + EntryListBlocks(rs), ids), ids[p])
            == if |rest| == 0 then Stamp([header] + EntryListBlocks(rest), ids[..p] + ids[q..]) + [EmptyBlock]
               else Stamp([header] + EntryListBlocks(rest), ids[..p] + ids[q..])
  {
    DeleteEntry(header, rs, k, ids, p, q, rest);
    var remaining := Stamp([header] + EntryListBlocks(rest), ids[..p] + ids[q..]);
    PatchedAfterFilter(Stamp([header] + EntryListBlocks(rs), ids), ids[p], remaining);
    NonEmptyCount(rest);
  }

  /** While other requests remain, the patch is just their stamped list. */
  lemma PatchKeepsRest(header: Block, rs: seq<Request>, k: nat, ids: seq<string>, p: nat, q: nat, rest: seq<Request>)
    requires Deletion(header, rs, k, ids, p, q, rest) && |rest| > 0
    ensures q <= |ids|
    ensures Patched(Stamp([header] + EntryListBlocks(rs), ids), ids[p])
            == Stamp([header] + EntryListBlocks(rest), ids[..p] + ids[q..])
  {
    PatchDeletesEntry(header, rs, k, ids, p, q, rest);
  }

  /** The placeholder goes in exactly when the filter leaves one block. */
  lemma PatchedAfterFilter(view: seq<Block>, target: string, kept: seq<Block>)
    requires Filtered(view, target) == kept
    ensures Patched(view, target) == if |kept| == 1 then kept + [EmptyBlock] else kept
  {
  }

  lemma NonEmptyCount(rs: seq<Request>)
    ensures BlockCount(rs) == 0 <==> |rs| == 0
  {
  }

  /** Sorting two requests gives them in one order or the other. */
  lemma SortTwo(a: Request, b: Request)
    ensures SortByStart([a, b]) == [a, b] || SortByStart([a, b]) == [b, a]
    ensures SortByStart([b]) == [b]
  {
    assert [a, b][1..] == [b];
    assert [b][1..] == [];
  }

  /** The list of two requests, and of the second alone. */
  lemma RenderTwo(employee: string, a: Request, b: Request)
    ensures RenderList(employee, [a, b]) == [ListHeader(employee)] + EntryListBlocks(SortByStart([a, b]))
    ensures RenderList(employee, [b]) == [ListHeader(employee)] + EntryListBlocks([b])
  {
    SortTwo(a, b);
  }

  lemma BlockCountOne(r: Request)
    ensures BlockCount([r]) == |EntryBlocks(r)|
  {
    assert [r][1..] == [];
  }

  /** Pressing the first line of a two-request list. */
  lemma FirstOfTwo(header: Block, a: Request, b: Request, ids: seq<string>)
    requires header.blockId == None
    requires |ids| == 1 + BlockCount([a, b]) && Distinct(ids)
    ensures Deletion(header, [a, b], 0, ids, 1, 1 + |EntryBlocks(a)|, [b])
  {
    PairParts(a, b);
  }

  /** Pressing the second line of a two-request list. */
  lemma SecondOfTwo(header: Block, b: Request, a: Request, ids: seq<string>)
    requires header.blockId == None
    requires |ids| == 1 + BlockCount([b, a]) && Distinct(ids)
    ensures Deletion(header, [b, a], 1, ids, 1 + |EntryBlocks(b)|, 1 + |EntryBlocks(b)| + |EntryBlocks(a)|, [b])
  {
    PairParts(b, a);
    BlockCountOne(b);
  }

  /** Deleting the first of two entries under `header`. */
  lemma DeleteFirstEntryOfTwo(header: Block, a: Request, b: Request, ids: seq<string>, p: nat, q: nat)
    requires header.blockId == None
    requires |ids| == 1 + BlockCount([a, b]) && Distinct(ids)
    requires p == 1 && q == p + |EntryBlocks(a)|
    ensures q <= |ids|
    ensures Patched(Stamp([header] + EntryListBlocks([a, b]), ids), ids[p])
            == Stamp([header] + EntryListBlocks([b]), ids[..p] + ids[q..])
  {
    FirstOfTwo(header, a, b, ids);
    PatchKeepsRest(header, [a, b], 0, ids, p, q, [b]);
  }

  /** Deleting the second of two entries under `header`. */
  lemma DeleteSecondEntryOfTwo(header: Block, b: Request, a: Request, ids: seq<string>, p: nat, q: nat)
    requires header.blockId == None
    requires |ids| == 1 + BlockCount([b, a]) && Distinct(ids)
    requires p == 1 + |EntryBlocks(b)| && q == p + |EntryBlocks(a)|
    ensures q <= |ids|
    ensures Patched(Stamp([header] + EntryListBlocks([b, a]), ids), ids[p])
            == Stamp([header] + EntryListBlocks([b]), ids[..p] + ids[q..])
  {
    SecondOfTwo(header, b, a, ids);
    PatchKeepsRest(header, [b, a], 1, ids, p, q, [b]);
  }

  /** Where the line of `a` sits in the rendered list of `[a, b]`: right
      after the header when the sort put `a` first, else after `b`'s blocks. */
  function FirstLinePos(a: Request, b: Request): nat
  {
    if SortByStart([a, b]) == [a, b] then 1 else 1 + |EntryBlocks(b)|
  }

  /** Deleting one of two listed requests, by the id Slack gave its line at
      position `p`, leaves the modal showing exactly the list rendered for
      the other one, every remaining block keeping its id. */
  lemma DeleteFromTwoEntryList(employee: string, a: Request, b: Request, ids: seq<string>, p: nat, q: nat)
    requires |ids| == |RenderList(employee, [a, b])| && Distinct(ids)
    requires p == FirstLinePos(a, b) && q == p + |EntryBlocks(a)|
    ensures q <= |ids|
    ensures Patched(Stamp(RenderList(employee, [a, b]), ids), ids[p])
            == Stamp(RenderList(employee, [b]), ids[..p] + ids[q..])
  {
    SortTwo(a, b);
    RenderTwo(employee, a, b);
    if SortByStart([a, b]) == [a, b] {
      DeleteFirstEntryOfTwo(ListHeader(employee), a, b, ids, p, q);
    } else {
      DeleteSecondEntryOfTwo(ListHeader(employee), b, a, ids, p, q);
    }
  }

  /** Pressing the line of a one-request list. */
  lemma OneEntry(header: Block, a: Request, ids: seq<string>)
    requires header.blockId == None
    requires |ids| == 1 + BlockCount([a]) && Distinct(ids)
    ensures |ids| >= 2
    ensures Deletion(header, [a], 0, ids, 1, |ids|, [])
  {
    SingleParts(a);
    BlockCountOne(a);
  }

  /** Deleting the only entry under `header` leaves the header and the
      placeholder. */
  lemma DeleteOnlyEntryUnder(header: Block, a: Request, ids: seq<string>)
    requires header.blockId == None
    requires |ids| == 1 + BlockCount([a]) && Distinct(ids)
    ensures |ids| >= 2
    ensures Patched(Stamp([header] + EntryListBlocks([a]), ids), ids[1]) == [StampOne(header, ids[0]), EmptyBlock]
  {
    OneEntry(header, a, ids);
    PatchDeletesEntry(header, [a], 0, ids, 1, |ids|, []);
    HeaderLeft(header, ids);
  }

  /** What is left of a list whose only entry went: its stamped header, then
      the placeholder. */
  lemma HeaderLeft(header: Block, ids: seq<string>)
    requires |ids| >= 1
    ensures Stamp([header] + EntryListBlocks([]), ids[..1] + ids[|ids|..]) + [EmptyBlock]
            == [StampOne(header, ids[0]), EmptyBlock]
  {
    FirstOnly(ids);
    assert [header] + EntryListBlocks([]) == [header];
    StampSingle(header, ids[0]);
    PairConcat(StampOne(header, ids[0]), EmptyBlock);
  }

  /** Deleting the only entry under `header` remembers its line. */
  lemma DeleteOnlyEntryRemembers(header: Block, a: Request, ids: seq<string>)
    requires header.blockId == None
    requires |ids| == 1 + BlockCount([a]) && Distinct(ids)
    ensures |ids| >= 2
    ensures LastMatch(Stamp([header] + EntryListBlocks([a]), ids), ids[1])
            == Some(Section(Some(ids[1]), EntryText(a), Some(DeleteButton(a.requestId))))
  {
    OneEntry(header, a, ids);
    DeleteEntry(header, [a], 0, ids, 1, |ids|, []);
    assert [a][0] == a;
    StampedLine(a, ids[1]);
  }

  /** The list of a single request. */
  lemma RenderOne(employee: string, a: Request)
    ensures RenderList(employee, [a]) == [ListHeader(employee)] + EntryListBlocks([a])
  {
    assert [a][1..] == [];
  }

  /** Deleting the only listed request leaves the header and the placeholder,
      and the notice names that request's dates. */
  lemma DeleteOnlyEntry(employee: string, a: Request, ids: seq<string>)
    requires |ids| == |RenderList(employee, [a])| && Distinct(ids)
    requires Free(DateRange(a), "  ")
    ensures |ids| >= 2
    ensures Patched(Stamp(RenderList(employee, [a]), ids), ids[1])
            == [StampOne(ListHeader(employee), ids[0]), EmptyBlock]
    ensures RemovalNotice(LastMatch(Stamp(RenderList(employee, [a]), ids), ids[1]))
            == Some("Your FTO request for " + a.startDate + " - " + a.endDate + " has been removed")
  {
    RenderOne(employee, a);
    DeleteOnlyEntryUnder(ListHeader(employee), a, ids);
    DeleteOnlyEntryRemembers(ListHeader(employee), a, ids);
    NoticeNamesDates(a, Some(ids[1]));
  }
}

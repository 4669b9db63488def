/** `lookup_fto`: lists an employee's FTO requests in a modal, and edits that
    modal in place when one of the listed requests is deleted. */
module LookupFto {
  import opened Wrappers
  import opened Strings
  import opened Slack
  import opened FtoRequestsDatastore

  const DeleteActionId := "delete_request"
  const PendingGlyph := ":black_square_for_stop:"
  const ApprovedGlyph := ":white_check_mark:"
  const DeniedGlyph := ":x:"
  const EmptyBlockId := "empty_block"

  // ---------------------------------------------------------------------
  // Ordering the queried records by start date

  /** The comparator puts `a` first exactly when its start date is earlier;
      it never answers "equal". */
  predicate StartsBefore(a: Request, b: Request)
  {
    LexLess(a.startDate, b.startDate)
  }

  ghost predicate SortedByStart(rs: seq<Request>)
  {
    forall i, j :: 0 <= i < j < |rs| ==> !StartsBefore(rs[j], rs[i])
  }

  lemma SortedPrepend(x: Request, rs: seq<Request>)
    requires SortedByStart(rs)
    requires |rs| > 0 ==> StartsBefore(x, rs[0])
    ensures SortedByStart([x] + rs)
  {
    forall j | 0 <= j < |rs|
      ensures !StartsBefore(rs[j], x)
    {
      if StartsBefore(rs[j], x) {
        LexLessTransitive(rs[j].startDate, x.startDate, rs[0].startDate);
        if j == 0 {
          LexLessIrreflexive(rs[0].startDate);
        }
      }
    }
  }

  lemma SortedAfterHead(rs: seq<Request>, x: Request, t: seq<Request>)
    requires |rs| > 0 && SortedByStart(rs) && SortedByStart(t)
    requires !StartsBefore(x, rs[0])
    requires multiset(t) == multiset(rs[1..]) + multiset{x}
    ensures SortedByStart([rs[0]] + t)
  {
    forall j | 0 <= j < |t|
      ensures !StartsBefore(t[j], rs[0])
    {
      assert t[j] in multiset(t);
      if t[j] != x {
        assert t[j] in multiset(rs[1..]);
        var k :| 0 <= k < |rs[1..]| && rs[1..][k] == t[j];
        assert rs[k + 1] == t[j];
      }
    }
  }

  /** Inserts `x` before the first record it starts before. */
  function InsertByStart(x: Request, rs: seq<Request>): (r: seq<Request>)
    requires SortedByStart(rs)
    ensures SortedByStart(r)
    ensures multiset(r) == multiset(rs) + multiset{x}
  {
    if |rs| == 0 then [x]
    else if StartsBefore(x, rs[0]) then
      SortedPrepend(x, rs);
      [x] + rs
    else
      var t := InsertByStart(x, rs[1..]);
      SortedAfterHead(rs, x, t);
      assert rs == [rs[0]] + rs[1..];
      [rs[0]] + t
  }

  /** `items.sort(...)`: a permutation of the items, non-decreasing by start
      date. Records with equal start dates may come in any order in the
      source; this model fixes one. */
  function SortByStart(items: seq<Request>): (r: seq<Request>)
    ensures SortedByStart(r)
    ensures multiset(r) == multiset(items)
  {
    if |items| == 0 then []
    else
      assert items == [items[0]] + items[1..];
      InsertByStart(items[0], SortByStart(items[1..]))
  }

  // ---------------------------------------------------------------------
  // Rendering one request

  /** The status glyph: approved, denied, or still pending (no decision stored). */
  function StatusGlyph(approved: Option<bool>): (g: string)
    ensures g == ApprovedGlyph <==> approved == Some(true)
    ensures g == DeniedGlyph <==> approved == Some(false)
    ensures g == PendingGlyph <==> approved == None
    ensures ' ' !in g
  {
    match approved
    case Some(decision) => if decision then ApprovedGlyph else DeniedGlyph
    case None => PendingGlyph
  }

  /** `if (req.reason)`: a reason that is present and not the empty string. */
  predicate HasReason(r: Request)
  {
    r.reason.Some? && r.reason.value != []
  }

  function DateRange(r: Request): string
  {
    r.startDate + " - " + r.endDate
  }

  function EntryText(r: Request): string
  {
    StatusGlyph(r.approved) + "  " + DateRange(r)
  }

  function DeleteButton(requestId: string): Button
  {
    Button("Delete", DeleteActionId, Some(requestId), None)
  }

  /** The blocks one request contributes to the list: its line with a Delete
      button, then its reason as a context block when it has one. */
  function EntryBlocks(r: Request): (bs: seq<Block>)
    ensures 1 <= |bs| <= 2
    ensures bs[0].Section? && bs[0].blockId == None
    ensures bs[0].accessory == Some(DeleteButton(r.requestId))
    ensures |bs| == 2 <==> HasReason(r)
    ensures |bs| == 2 ==> bs[1] == Context(None, [r.reason.value])
  {
    var line := Section(None, EntryText(r), Some(DeleteButton(r.requestId)));
    if HasReason(r) then [line, Context(None, [r.reason.value])] else [line]
  }

  /** How many blocks the requests take: one each, two with a reason. */
  function BlockCount(rs: seq<Request>): nat
  {
    if |rs| == 0 then 0 else (if HasReason(rs[0]) then 2 else 1) + BlockCount(rs[1..])
  }

  /** The `flatMap` over the sorted requests. */
  function EntryListBlocks(rs: seq<Request>): (bs: seq<Block>)
    ensures |bs| == BlockCount(rs)
    ensures |rs| > 0 ==> bs[0] == EntryBlocks(rs[0])[0]
  {
    if |rs| == 0 then [] else EntryBlocks(rs[0]) + EntryListBlocks(rs[1..])
  }

  lemma {:induction false} BlockCountInsert(x: Request, rs: seq<Request>)
    requires SortedByStart(rs)
    ensures BlockCount(InsertByStart(x, rs)) == BlockCount(rs) + BlockCount([x])
  {
    if |rs| > 0 && !StartsBefore(x, rs[0]) {
      BlockCountInsert(x, rs[1..]);
      assert ([rs[0]] + InsertByStart(x, rs[1..]))[1..] == InsertByStart(x, rs[1..]);
    } else if |rs| > 0 {
      assert ([x] + rs)[1..] == rs;
    }
  }

  lemma {:induction false} BlockCountSort(items: seq<Request>)
    ensures BlockCount(SortByStart(items)) == BlockCount(items)
  {
    if |items| > 0 {
      BlockCountSort(items[1..]);
      BlockCountInsert(items[0], SortByStart(items[1..]));
    }
  }

  function ListHeader(employee: string): Block
  {
    Section(None, "FTO requests for <@" + employee + ">", None)
  }

  function NoRequestsPlaceholder(employee: string): Block
  {
    Section(None, "No FTO requests have been created for <@" + employee + ">", None)
  }

  /** The blocks of a non-empty list whose requests are already in order. */
  function ListBlocks(employee: string, rs: seq<Request>): seq<Block>
  {
    [ListHeader(employee)] + EntryListBlocks(rs)
  }

  /** The modal's blocks for the queried `items`: a header then every request
      in start-date order, or a single placeholder when there are none. Never
      empty. */
  function RenderList(employee: string, items: seq<Request>): (blocks: seq<Block>)
    ensures |blocks| >= 1
    ensures |items| == 0 ==> blocks == [NoRequestsPlaceholder(employee)]
    ensures |items| > 0 ==> blocks[0] == ListHeader(employee) && |blocks| == 1 + BlockCount(items)
  {
    if |items| > 0 then
      BlockCountSort(items);
      ListBlocks(employee, SortByStart(items))
    else
      [NoRequestsPlaceholder(employee)]
  }

  // ---------------------------------------------------------------------
  // Reading a rendered list back

  /** What the searcher is shown of one request. */
  datatype Shown = Shown(requestId: string, approved: Option<bool>, dates: string, reason: Option<string>)

  function Summary(r: Request): Shown
  {
    Shown(r.requestId, r.approved, DateRange(r), if HasReason(r) then r.reason else None)
  }

  function Summaries(rs: seq<Request>): (ss: seq<Shown>)
    ensures |ss| == |rs|
  {
    if |rs| == 0 then [] else [Summary(rs[0])] + Summaries(rs[1..])
  }

  function GlyphStatus(g: string): Option<bool>
  {
    if g == ApprovedGlyph then Some(true) else if g == DeniedGlyph then Some(false) else None
  }

  /** Reads the requests out of a block list: every section whose accessory
      carries a request id is one entry, and a context block right after it
      is its reason. */
  function ReadEntries(blocks: seq<Block>): seq<Shown>
    decreases |blocks|
  {
    if |blocks| == 0 then []
    else match blocks[0]
      case Section(_, text, Some(Button(_, _, Some(id), _))) =>
        var parts := Split(text, "  ");
        var dates := if |parts| > 1 then parts[1] else [];
        if |blocks| > 1 && blocks[1].Context? && |blocks[1].elements| == 1 then
          [Shown(id, GlyphStatus(parts[0]), dates, Some(blocks[1].elements[0]))] + ReadEntries(blocks[2..])
        else
          [Shown(id, GlyphStatus(parts[0]), dates, None)] + ReadEntries(blocks[1..])
      case _ => ReadEntries(blocks[1..])
  }

  /** Dates whose range text has no double space (true of ISO dates). */
  ghost predicate PlainDates(rs: seq<Request>)
  {
    forall i :: 0 <= i < |rs| ==> Free(DateRange(rs[i]), "  ")
  }

  /** Splitting a request's line on the double space gives its glyph and
      its date range. */
  lemma EntryTextSplit(r: Request)
    requires Free(DateRange(r), "  ")
    ensures Split(EntryText(r), "  ") == [StatusGlyph(r.approved), DateRange(r)]
  {
    SplitOnDoubleSpace(StatusGlyph(r.approved), DateRange(r));
  }

  lemma {:induction false} ReadEntryList(rs: seq<Request>)
    requires PlainDates(rs)
    ensures ReadEntries(EntryListBlocks(rs)) == Summaries(rs)
  {
    if |rs| > 0 {
      var r := rs[0];
      var bs := EntryListBlocks(rs);
      var tail := EntryListBlocks(rs[1..]);
      EntryTextSplit(r);
      assert GlyphStatus(StatusGlyph(r.approved)) == r.approved;
      assert PlainDates(rs[1..]) by {
        forall i | 0 <= i < |rs[1..]| ensures Free(DateRange(rs[1..][i]), "  ") {
          assert rs[1..][i] == rs[i + 1];
        }
      }
      ReadEntryList(rs[1..]);
      if HasReason(r) {
        assert bs[2..] == tail;
      } else {
        assert bs[1..] == tail;
        assert |tail| > 0 ==> tail[0].Section?;
      }
    }
  }

  /** The list shows each queried request once, in start-date order, with its
      id, status, dates and (non-empty) reason. */
  lemma RenderListShowsRequests(employee: string, items: seq<Request>)
    requires PlainDates(items)
    ensures ReadEntries(RenderList(employee, items)) == Summaries(SortByStart(items))
  {
    var rs := SortByStart(items);
    assert PlainDates(rs) by {
      forall i | 0 <= i < |rs| ensures Free(DateRange(rs[i]), "  ") {
        assert rs[i] in multiset(items);
      }
    }
    ReadEntryList(rs);
    if |items| > 0 {
      assert RenderList(employee, items)[1..] == EntryListBlocks(rs);
    }
  }

  // ---------------------------------------------------------------------
  // Deleting one request from the shown list

  /** Block `b` is the one whose button was pressed. */
  predicate Matches(b: Block, target: string)
  {
    b.blockId == Some(target)
  }

  /** The scan keeps the block at `i`: it is not the pressed one, and it is
      not a context block right after the pressed one. */
  predicate Kept(blocks: seq<Block>, target: string, i: nat)
    requires i < |blocks|
  {
    !Matches(blocks[i], target) && !(i > 0 && Matches(blocks[i - 1], target) && blocks[i].Context?)
  }

  /** The blocks the scan keeps, in their order. */
  function Filtered(blocks: seq<Block>, target: string): seq<Block>
    decreases |blocks|
  {
    if |blocks| == 0 then []
    else
      var n := |blocks| - 1;
      Filtered(blocks[..n], target) + (if Kept(blocks, target, n) then [blocks[n]] else [])
  }

  /** The positions the scan keeps, increasing. */
  function KeptPositions(blocks: seq<Block>, target: string): (ps: seq<nat>)
    ensures forall k :: 0 <= k < |ps| ==> ps[k] < |blocks|
    ensures forall k, l :: 0 <= k < l < |ps| ==> ps[k] < ps[l]
    ensures forall i :: 0 <= i < |blocks| ==> (Kept(blocks, target, i) <==> i in ps)
    decreases |blocks|
  {
    if |blocks| == 0 then []
    else
      var n := |blocks| - 1;
      var front := KeptPositions(blocks[..n], target);
      assert forall i :: 0 <= i < n ==> (Kept(blocks, target, i) <==> Kept(blocks[..n], target, i));
      front + (if Kept(blocks, target, n) then [n] else [])
  }

  /** The filter returns exactly the kept blocks, in order. */
  lemma {:induction false} FilteredSelectsKept(blocks: seq<Block>, target: string)
    ensures |Filtered(blocks, target)| == |KeptPositions(blocks, target)|
    ensures forall k :: 0 <= k < |Filtered(blocks, target)| ==>
              Filtered(blocks, target)[k] == blocks[KeptPositions(blocks, target)[k]]
    decreases |blocks|
  {
    if |blocks| > 0 {
      var n := |blocks| - 1;
      var front := blocks[..n];
      FilteredSelectsKept(front, target);
      var kept, ps := Filtered(blocks, target), KeptPositions(blocks, target);
      assert kept == Filtered(front, target) + (if Kept(blocks, target, n) then [blocks[n]] else []);
      assert ps == KeptPositions(front, target) + (if Kept(blocks, target, n) then [n] else []);
      forall k | 0 <= k < |kept|
        ensures kept[k] == blocks[ps[k]]
      {
        if k < |Filtered(front, target)| {
          assert front[KeptPositions(front, target)[k]] == blocks[ps[k]];
        }
      }
    }
  }

  const EmptyBlock := Section(Some(EmptyBlockId), "No FTO requests have been created", None)

  /** The new view: the kept blocks, with a placeholder added when exactly
      one of them is left. */
  function Patched(blocks: seq<Block>, target: string): seq<Block>
  {
    var kept := Filtered(blocks, target);
    if |kept| == 1 then kept + [EmptyBlock] else kept
  }

  /** The last pressed block seen by the scan, if any. */
  function LastMatch(blocks: seq<Block>, target: string): Option<Block>
    decreases |blocks|
  {
    if |blocks| == 0 then None
    else if Matches(blocks[|blocks| - 1], target) then Some(blocks[|blocks| - 1])
    else LastMatch(blocks[..|blocks| - 1], target)
  }

  /** The `filter` with its `withContext` flag, then the placeholder push. */
  method PatchView(view: seq<Block>, target: string) returns (blocks: seq<Block>, requestBlock: Option<Block>)
    ensures blocks == Patched(view, target)
    ensures requestBlock == LastMatch(view, target)
  {
    var withContext := false;
    requestBlock := None;
    blocks := [];
    var i := 0;
    while i < |view|
      invariant 0 <= i <= |view|
      invariant blocks == Filtered(view[..i], target)
      invariant withContext == (i > 0 && Matches(view[i - 1], target))
      invariant requestBlock == LastMatch(view[..i], target)
    {
      var b := view[i];
      assert view[..i + 1][..i] == view[..i];
      if b.blockId == Some(target) {
        withContext := true;
        requestBlock := Some(b);
      } else if withContext && b.Context? {
        withContext := false;
      } else {
        withContext := false;
        blocks := blocks + [b];
      }
      i := i + 1;
    }
    assert view[..i] == view;
    if |blocks| == 1 {
      blocks := blocks + [EmptyBlock];
    }
  }

  /** The text of the removal notice: `requestBlock?.text.text.split("  ")[1]`
      inside its template. `None` when that expression throws, which is the
      case when the pressed block has no text object. */
  function RemovalNotice(requestBlock: Option<Block>): (n: Option<string>)
    ensures requestBlock.None? ==> n == Some(NoticeFor("undefined"))
    ensures n.None? <==> requestBlock.Some? && (requestBlock.value.Context? || requestBlock.value.Actions?)
  {
    match requestBlock
    case None => Some(NoticeFor("undefined"))
    case Some(Section(_, text, _)) => Some(NoticeFor(SecondPart(text)))
    case Some(Header(_, text)) => Some(NoticeFor(SecondPart(text)))
    case Some(_) => None
  }

  function SecondPart(text: string): string
  {
    var parts := Split(text, "  ");
    if |parts| > 1 then parts[1] else "undefined"
  }

  function NoticeFor(range: string): string
  {
    "Your FTO request for " + range + " has been removed"
  }

  /** A pressed block whose text has no double space gives the notice
      "undefined" for its dates. */
  lemma NoticeWithoutDates(id: Option<string>, text: string, accessory: Option<Button>)
    requires Free(text, "  ")
    ensures RemovalNotice(Some(Section(id, text, accessory))) == Some(NoticeFor("undefined"))
    ensures RemovalNotice(Some(Header(id, text))) == Some(NoticeFor("undefined"))
  {
    SplitFromFree(text, "  ", []);
    assert [] + text == text;
  }

  /** The notice for a deleted request's line names that request's dates. */
  lemma NoticeNamesDates(r: Request, id: Option<string>)
    requires Free(DateRange(r), "  ")
    ensures RemovalNotice(Some(Section(id, EntryText(r), Some(DeleteButton(r.requestId)))))
            == Some("Your FTO request for " + r.startDate + " - " + r.endDate + " has been removed")
  {
    EntryTextSplit(r);
    assert NoticeFor(DateRange(r))
           == "Your FTO request for " + r.startDate + " - " + r.endDate + " has been removed";
  }

  // ---------------------------------------------------------------------
  // The handlers

  /** The function body: query, render, open the modal. */
  method Lookup(employee: string, query: Response<seq<Request>>, openReply: Response<()>)
    returns (result: Completion, modal: Option<seq<Block>>)
    ensures query.Failure? ==> result == Error("Failed to get requests: " + query.error) && modal == None
    ensures query.Success? ==> modal == Some(RenderList(employee, query.value))
    ensures query.Success? && openReply.Failure? ==> result == Error("Failed to open modal: " + openReply.error)
    ensures query.Success? && openReply.Success? ==> result == Incomplete
  {
    if query.Failure? {
      return Error("Failed to get requests: " + query.error), None;
    }
    var blocks := RenderList(employee, query.value);
    modal := Some(blocks);
    if openReply.Failure? {
      return Error("Failed to open modal: " + openReply.error), modal;
    }
    result := Incomplete;
  }

  /** A notice to the employee the list was looked up for. */
  datatype Notice = Notice(channel: string, text: string)

  /** The `delete_request` handler: delete the record, patch the modal,
      update it, tell the employee. */
  method DeleteRequest(store: RequestStore, employee: string, action: BlockAction, view: seq<Block>,
                       deleted: Response<()>, updated: Response<()>, notified: Response<()>)
    returns (result: Completion, newView: Option<seq<Block>>, notice: Option<Notice>)
    requires store.Valid()
    modifies store
    ensures store.Valid()
    ensures store.records == if deleted.Success? then old(store.records) - {action.value} else old(store.records)
    ensures deleted.Failure? ==>
              result == Error("Failed to delete requests: " + deleted.error) && newView == None && notice == None
    ensures deleted.Success? ==> newView == Some(Patched(view, action.blockId))
    ensures deleted.Success? && updated.Failure? ==>
              result == CompleteError("Failed to update message: " + updated.error) && notice == None
    ensures deleted.Success? && updated.Success? && RemovalNotice(LastMatch(view, action.blockId)).None? ==>
              result == Thrown && notice == None
    ensures deleted.Success? && updated.Success? && RemovalNotice(LastMatch(view, action.blockId)).Some? ==>
              notice == Some(Notice(employee, RemovalNotice(LastMatch(view, action.blockId)).value))
              && result == (if notified.Success? then Incomplete
                            else CompleteError("Failed to send deletion message: " + notified.error))
  {
    store.Delete(action.value, deleted);
    if deleted.Failure? {
      return Error("Failed to delete requests: " + deleted.error), None, None;
    }
    var blocks, requestBlock := PatchView(view, action.blockId);
    newView := Some(blocks);
    if updated.Failure? {
      return CompleteError("Failed to update message: " + updated.error), newView, None;
    }
    var text := RemovalNotice(requestBlock);
    if text.None? {
      return Thrown, newView, None;
    }
    notice := Some(Notice(employee, text.value));
    if notified.Failure? {
      return CompleteError("Failed to send deletion message: " + notified.error), newView, notice;
    }
    result := Incomplete;
  }
}

/** The part of Slack's Block Kit and function runtime that the core builds
    or reacts to. Text objects are kept as their string: section text is
    always mrkdwn, header, button and context texts always plain_text. */
module Slack {
  import opened Wrappers

  /** A button element; `value` travels back with the press. */
  datatype Button = Button(text: string, actionId: string, value: Option<string>, style: Option<string>)

  /** A layout block. Every kind carries the `block_id` Slack identifies it by:
      absent when the app does not set one. */
  datatype Block =
    | Header(blockId: Option<string>, text: string)
    | Section(blockId: Option<string>, text: string, accessory: Option<Button>)
    | Context(blockId: Option<string>, elements: seq<string>)
    | Actions(blockId: Option<string>, buttons: seq<Button>)

  /** A `chat.postMessage` call. */
  datatype Message = Message(channel: string, text: string, blocks: seq<Block>)

  /** What an interaction with a pressed button carries: `action.value` and
      `action.block_id`. */
  datatype BlockAction = BlockAction(value: string, blockId: string)

  /** How a function handler ends. */
  datatype Completion =
    | Error(message: string)          // the handler returns `{ error }`
    | CompleteError(message: string)  // the handler calls `functions.completeError`
    | Outputs                         // the handler returns `{ outputs: {} }`
    | Incomplete                      // the function stays open for further interactions
    | Thrown                          // the handler throws a TypeError

  /** The block Slack holds for `b` once it has given it `id`, unless it had one. */
  function StampOne(b: Block, id: string): Block
  {
    if b.blockId.None? then b.(blockId := Some(id)) else b
  }

  /** A view as Slack hands it back to the app: each of the first `|ids|`
      blocks without a `block_id` receives the corresponding one of `ids`. */
  function Stamp(blocks: seq<Block>, ids: seq<string>): (r: seq<Block>)
    ensures |r| == |blocks|
  {
    if |blocks| == 0 then []
    else if |ids| == 0 then blocks
    else [StampOne(blocks[0], ids[0])] + Stamp(blocks[1..], ids[1..])
  }

  /** Block `i` of the stamped view. */
  lemma {:induction false} StampAt(blocks: seq<Block>, ids: seq<string>, i: nat)
    requires i < |blocks|
    ensures Stamp(blocks, ids)[i] == if i < |ids| then StampOne(blocks[i], ids[i]) else blocks[i]
  {
    if i > 0 && |ids| > 0 {
      StampAt(blocks[1..], ids[1..], i - 1);
    }
  }

  lemma StampSingle(b: Block, id: string)
    ensures Stamp([b], [id]) == [StampOne(b, id)]
  {
    assert [b][1..] == [];
  }

  /** Stamping distributes over concatenation when the ids line up. */
  lemma {:induction false} StampAppend(b1: seq<Block>, i1: seq<string>, b2: seq<Block>, i2: seq<string>)
    requires |i1| == |b1|
    ensures Stamp(b1 + b2, i1 + i2) == Stamp(b1, i1) + Stamp(b2, i2)
  {
    if |b1| > 0 {
      assert (b1 + b2)[1..] == b1[1..] + b2;
      assert (i1 + i2)[1..] == i1[1..] + i2;
      StampAppend(b1[1..], i1[1..], b2, i2);
    } else {
      assert b1 + b2 == b2 && i1 + i2 == i2;
    }
  }

  /** Block ids Slack hands out are unique within a view: no id occurs again
      after its first position. */
  predicate Distinct(ids: seq<string>)
  {
    |ids| == 0 || (ids[0] !in ids[1..] && Distinct(ids[1..]))
  }

  /** Distinct ids differ pairwise. */
  lemma {:induction false} DistinctPairs(ids: seq<string>)
    requires Distinct(ids)
    ensures forall i, j :: 0 <= i < j < |ids| ==> ids[i] != ids[j]
  {
    if |ids| > 0 {
      DistinctPairs(ids[1..]);
      forall i, j | 0 <= i < j < |ids|
        ensures ids[i] != ids[j]
      {
        assert ids[j] == ids[1..][j - 1];
        if i > 0 {
          assert ids[i] == ids[1..][i - 1];
        }
      }
    }
  }
}

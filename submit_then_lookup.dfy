/** How the two functions meet: a request stored by `request_fto` shows up in
    the list `lookup_fto` renders for its employee, as pending. */
module SubmitThenLookup {
  import opened Wrappers
  import opened Slack
  import opened FtoRequestsDatastore
  import opened LookupFto
  import opened RequestFto

  /** Every listed request contributes its line to the flattened list. */
  lemma {:induction false} LineListed(rs: seq<Request>, r: Request)
    requires r in rs
    ensures EntryBlocks(r)[0] in EntryListBlocks(rs)
  {
    if rs[0] != r {
      LineListed(rs[1..], r);
    }
  }

  /** The stored record is among the sorted query answers. */
  lemma RecordQueried(records: map<string, Request>, inputs: SubmitInputs, freshId: string, items: seq<Request>)
    requires IsQueryResult(records[freshId := NewRecord(inputs, freshId)], inputs.employee, items)
    ensures NewRecord(inputs, freshId) in SortByStart(items)
  {
    var r := NewRecord(inputs, freshId);
    assert records[freshId := r][freshId] == r;
    assert r in multiset(items);
  }

  /** The line of a request with no decision yet. */
  lemma PendingLine(inputs: SubmitInputs, freshId: string)
    ensures EntryBlocks(NewRecord(inputs, freshId))[0]
            == Section(None, PendingGlyph + "  " + inputs.startDate + " - " + inputs.endDate, Some(DeleteButton(freshId)))
  {
  }

  /** After a successful submit the store holds `records[freshId := NewRecord(...)]`;
      any answer to the employee's lookup query then renders the new request
      as a pending line with its dates and a Delete button for its id. */
  lemma SubmittedRequestListedAsPending(records: map<string, Request>, inputs: SubmitInputs, freshId: string,
                                        items: seq<Request>)
    requires IsQueryResult(records[freshId := NewRecord(inputs, freshId)], inputs.employee, items)
    ensures Section(None, PendingGlyph + "  " + inputs.startDate + " - " + inputs.endDate, Some(DeleteButton(freshId)))
            in RenderList(inputs.employee, items)
  {
    RecordQueried(records, inputs, freshId, items);
    LineListed(SortByStart(items), NewRecord(inputs, freshId));
    PendingLine(inputs, freshId);
    assert RenderList(inputs.employee, items)[1..] == EntryListBlocks(SortByStart(items));
  }

  /** The two functions read an empty reason differently: the manager sees an
      empty Reason line (`??` only replaces a missing reason), while the list
      shows no reason block at all (`if (req.reason)` treats "" as absent). */
  lemma EmptyReasonReadTwoWays(inputs: SubmitInputs, freshId: string)
    requires inputs.reason == Some("")
    ensures ManagerMessage(inputs).blocks[3].text == "*Reason:* "
    ensures EntryBlocks(NewRecord(inputs, freshId)) == [Section(None, EntryText(NewRecord(inputs, freshId)), Some(DeleteButton(freshId)))]
  {
    assert "*Reason:* " + "" == "*Reason:* ";
  }
}

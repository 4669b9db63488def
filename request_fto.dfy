/** `request_fto`: tells the manager about a new time-off request, then
    stores the request. */
module RequestFto {
  import opened Wrappers
  import opened Slack
  import opened FtoRequestsDatastore

  /** The function's inputs; `reason` is the one optional input. */
  datatype SubmitInputs = SubmitInputs(
    manager: string,
    employee: string,
    startDate: string,
    endDate: string,
    reason: Option<string>)

  const Headline := "A new time-off request has been submitted"
  const NoReason := "_none provided_"
  const DecisionBlockId := "approve-deny-buttons"
  const ApproveActionId := "approve_request"
  const DenyActionId := "deny_request"

  /** `reason ?? "_none provided_"`: only a missing reason is replaced; an
      empty one stays empty. */
  function ReasonText(reason: Option<string>): (t: string)
    ensures reason.Some? ==> t == reason.value
    ensures reason.None? ==> t == NoReason
  {
    match reason
    case Some(given) => given
    case None => NoReason
  }

  /** The Approve and Deny buttons, in that order. They carry no value. */
  function DecisionButtons(): (bs: seq<Button>)
    ensures |bs| == 2
    ensures bs[0].actionId == ApproveActionId && bs[0].style == Some("primary")
    ensures bs[1].actionId == DenyActionId && bs[1].style == Some("danger")
    ensures forall i :: 0 <= i < |bs| ==> bs[i].value == None
  {
    [Button("Approve", ApproveActionId, None, Some("primary")),
     Button("Deny", DenyActionId, None, Some("danger"))]
  }

  /** The message posted to the manager: a header, the From, Dates and Reason
      lines, and the Approve/Deny actions, which alone carry a `block_id`. */
  function ManagerMessage(inputs: SubmitInputs): (m: Message)
    ensures m.channel == inputs.manager && m.text == Headline
    ensures |m.blocks| == 5
    ensures m.blocks[0].Header? && m.blocks[1].Section? && m.blocks[2].Section? && m.blocks[3].Section?
    ensures m.blocks[4] == Actions(Some(DecisionBlockId), DecisionButtons())
    ensures forall i :: 0 <= i < 4 ==> m.blocks[i].blockId == None
    ensures forall i :: 1 <= i < 4 ==> m.blocks[i].accessory == None
  {
    Message(inputs.manager, Headline, [
      Header(None, Headline),
      Section(None, "*From:* <@" + inputs.employee + ">", None),
      Section(None, "*Dates:* " + inputs.startDate + " to " + inputs.endDate, None),
      Section(None, "*Reason:* " + ReasonText(inputs.reason), None),
      Actions(Some(DecisionBlockId), DecisionButtons())
    ])
  }

  /** What follows `prefix` at the start of `text`, if `text` starts with it. */
  function FieldValue(text: string, prefix: string): (v: Option<string>)
    ensures v.Some? <==> prefix <= text
    ensures v.Some? ==> prefix + v.value == text
  {
    if prefix <= text then Some(text[|prefix|..]) else None
  }

  /** The manager can read off whom the request is from, its dates and its
      reason, the fallback showing exactly when no reason was given. */
  lemma {:induction false} ManagerMessageShowsRequest(inputs: SubmitInputs)
    ensures var bs := ManagerMessage(inputs).blocks;
            && FieldValue(bs[1].text, "*From:* ") == Some("<@" + inputs.employee + ">")
            && FieldValue(bs[2].text, "*Dates:* ") == Some(inputs.startDate + " to " + inputs.endDate)
            && FieldValue(bs[3].text, "*Reason:* ") == Some(ReasonText(inputs.reason))
  {
    var bs := ManagerMessage(inputs).blocks;
    PrefixValue("*From:* ", "<@" + inputs.employee + ">");
    assert bs[1].text == "*From:* " + ("<@" + inputs.employee + ">");
    PrefixValue("*Dates:* ", inputs.startDate + " to " + inputs.endDate);
    assert bs[2].text == "*Dates:* " + (inputs.startDate + " to " + inputs.endDate);
    PrefixValue("*Reason:* ", ReasonText(inputs.reason));
  }

  lemma PrefixValue(prefix: string, rest: string)
    ensures FieldValue(prefix + rest, prefix) == Some(rest)
  {
    assert prefix <= prefix + rest;
    assert (prefix + rest)[|prefix|..] == rest;
  }

  /** The record handed to `datastore.put`: the inputs under a fresh id, with
      no decision yet. */
  function NewRecord(inputs: SubmitInputs, freshId: string): (r: Request)
    ensures r.requestId == freshId && r.approved == None
    ensures r.employee == inputs.employee && r.manager == inputs.manager
    ensures r.startDate == inputs.startDate && r.endDate == inputs.endDate && r.reason == inputs.reason
  {
    Request(freshId, inputs.employee, inputs.manager, inputs.startDate, inputs.endDate, inputs.reason, None)
  }

  /** The function body: post to the manager, and only once that succeeded
      store the request. `posted` and `stored` are the platform's replies;
      `freshId` is the id `crypto.randomUUID` produced. */
  method Submit(store: RequestStore, inputs: SubmitInputs, freshId: string, posted: Response<()>, stored: Response<()>)
    returns (result: Completion, sent: Message)
    requires store.Valid()
    modifies store
    ensures store.Valid()
    ensures sent == ManagerMessage(inputs)
    ensures posted.Failure? ==>
              result == Error("Failed to send message: " + posted.error) && store.records == old(store.records)
    ensures posted.Success? && stored.Failure? ==>
              result == Error("Failed to store request: " + stored.error) && store.records == old(store.records)
    ensures posted.Success? && stored.Success? ==>
              result == Outputs && store.records == old(store.records)[freshId := NewRecord(inputs, freshId)]
  {
    sent := ManagerMessage(inputs);
    if posted.Failure? {
      return Error("Failed to send message: " + posted.error), sent;
    }
    store.Put(NewRecord(inputs, freshId), stored);
    if stored.Failure? {
      return Error("Failed to store request: " + stored.error), sent;
    }
    result := Outputs;
  }
}

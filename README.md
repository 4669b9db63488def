# FTOBot request list and submit step, in Dafny

FTOBot is a Slack app for flexible-time-off (FTO) requests. This project models its two functions that hold logic:

- `lookup_fto` queries an employee's stored requests and renders them as a modal list. The list has a header, then one line per request in start-date order with a status glyph, the date range and a Delete button. A context block follows a line when the request has a non-empty reason. With no requests, a single placeholder is shown. Pressing Delete removes the record. It then edits the open modal in place: a one-pass scan with a `withContext` flag drops the pressed line and the context block right after it. A placeholder is added when exactly one block is left. Finally a notice tells the employee which dates were removed; the date range is cut out of the line's text with `split("  ")[1]`.
- `request_fto` posts a fixed five-block message to the manager (header, From, Dates, Reason, then Approve/Deny buttons). Only when that succeeds does it store the request, with a fresh id and no decision.

Modules:

- `Wrappers`: `Option` and `Response`, the latter standing for a platform reply that succeeded or failed with an error string.
- `Strings`: JavaScript's `split` with a non-empty separator, and the lexicographic order used for ISO dates.
- `Slack`: blocks, buttons, messages and how a handler ends. It also has `Stamp`, which models Slack giving a `block_id` to every block the app sent without one.
- `FtoRequestsDatastore`: the `Request` record, and the store as a class over a map.
- `LookupFto`:
  - the rendering functions;
  - the declarative filter and the `PatchView` loop method proved equal to it;
  - the removal notice;
  - the two handlers.
- `LookupFtoProofs`: theorems that the in-place delete turns the rendered list of some requests into the rendered list of the others.
- `RequestFto`: the manager message, the stored record and the `Submit` method.
- `SubmitThenLookup`: how a submitted request appears in a later lookup.

## Model

| member | source | states |
|---|---|---|
| LookupFto.SortByStart | functions/lookup_fto.ts:52-56 | the sorted list is a permutation of the queried items, and no record starts strictly before one placed ahead of it |
| LookupFto.InsertByStart | functions/lookup_fto.ts:52-56 | inserting into a start-ordered list keeps it start-ordered and adds exactly that record to its multiset |
| LookupFto.SortedPrepend | functions/lookup_fto.ts:52-56 | a record that starts before the head of a start-ordered list can be put in front of it and the list stays ordered |
| LookupFto.SortedAfterHead | functions/lookup_fto.ts:52-56 | the head of an ordered list may stay first when the rest, with a later record inserted, is ordered |
| Strings.LexLessTransitive | functions/lookup_fto.ts:53-55 | the "earlier date" order is transitive, so the comparator sorts consistently |
| Strings.LexLessIrreflexive | functions/lookup_fto.ts:53-55 | no date is earlier than itself |
| LookupFto.StatusGlyph | functions/lookup_fto.ts:57-59 | check mark exactly when approved, cross exactly when a decision is stored and it is a denial, stop square exactly when no decision is stored; the glyph has no space |
| LookupFto.EntryBlocks | functions/lookup_fto.ts:61-98 | every request gives its line first: a section without an id, with a Delete button carrying its id; a second block follows exactly when the reason is non-empty, and it is the context block holding that reason |
| LookupFto.EntryListBlocks | functions/lookup_fto.ts:56-99 | the flattened list has as many blocks as the requests take, and starts with the first request's line |
| LookupFto.BlockCountInsert | functions/lookup_fto.ts:52-99 | inserting a request into the order adds exactly its own blocks to the count |
| LookupFto.BlockCountSort | functions/lookup_fto.ts:52-99 | sorting does not change how many blocks the requests take |
| LookupFto.RenderList | functions/lookup_fto.ts:51-116 | the view is never empty; with no items it is exactly the placeholder naming the employee; otherwise the header comes first, followed by 1 + (1 if the reason is non-empty) blocks per item |
| LookupFto.EntryTextSplit | functions/lookup_fto.ts:77 | splitting a rendered line on the double space gives exactly its glyph and its date range, when the dates hold no double space |
| Strings.SplitOnDoubleSpace | functions/lookup_fto.ts:199-201 | `split("  ")` of `g + "  " + r` is `[g, r]` when `g` has no space and `r` no double space |
| Strings.SplitFromFree | functions/lookup_fto.ts:199-201 | a string without the separator splits into itself alone |
| Strings.SplitFromAt | functions/lookup_fto.ts:199-201 | the split cuts at the first occurrence of the separator |
| LookupFto.ReadEntryList | functions/lookup_fto.ts:56-99 | reading the flattened blocks back gives each request once, in order, with its id, status, dates and non-empty reason |
| LookupFto.RenderListShowsRequests | functions/lookup_fto.ts:51-116 | the rendered list shows every queried request once, in start-date order, with its id, status, dates and non-empty reason, and nothing else |
| LookupFto.KeptPositions | functions/lookup_fto.ts:153-164 | the kept positions are increasing and in range, and a position is kept if and only if its block is not the pressed one and is not a context block right after the pressed one |
| LookupFto.FilteredSelectsKept | functions/lookup_fto.ts:153-164 | the filter's result is exactly the blocks at the kept positions, in order: an order-preserving subsequence |
| LookupFto.PatchView | functions/lookup_fto.ts:150-175 | the scan with its `withContext` flag returns the kept blocks, with the placeholder added exactly when one block is left, and remembers the last pressed block |
| LookupFto.RemovalNotice | functions/lookup_fto.ts:196-201 | with no pressed block the notice reads "undefined" for the dates; the expression throws (no notice) exactly when the pressed block is a context or actions block, which has no text object |
| LookupFto.NoticeWithoutDates | functions/lookup_fto.ts:199-201 | a pressed section or header whose text has no double space gives the notice "undefined" for the dates, since `split("  ")[1]` is undefined |
| Strings.Split | functions/lookup_fto.ts:200 | `split` with a non-empty separator always returns at least one piece |
| LookupFto.NoticeNamesDates | functions/lookup_fto.ts:196-201 | the notice for a deleted request's line reads "Your FTO request for START - END has been removed" |
| LookupFto.Lookup | functions/lookup_fto.ts:32-137 | a failed query ends with its error and opens nothing; otherwise the modal shows the rendered list, and the function stays open unless opening failed |
| LookupFto.DeleteRequest | functions/lookup_fto.ts:139-209 | the store loses the record exactly when the delete succeeds; a failed delete changes no view and sends nothing; then come the patched view, the failure of the update, a TypeError when the pressed block has no text, and the notice to the employee and its failure |
| FtoRequestsDatastore.RequestStore.Delete | functions/lookup_fto.ts:141-148 | a successful delete removes the key, a failed one changes nothing, and every record stays under its own id |
| FtoRequestsDatastore.RequestStore.Put | functions/request_fto.ts:100-110 | a successful put stores the record at its id, a failed one changes nothing, and every record stays under its own id |
| LookupFtoProofs.FilteredAppend | functions/lookup_fto.ts:153-164 | the scan can be split between two runs of blocks, unless the first ends with the pressed block and the second starts with a context block |
| LookupFtoProofs.FilteredNoMatch | functions/lookup_fto.ts:153-164 | without the pressed block, the filter keeps every block |
| LookupFtoProofs.LastMatchNoMatch | functions/lookup_fto.ts:154-157 | unpressed blocks after a run do not change the remembered block |
| LookupFtoProofs.LineDropped | functions/lookup_fto.ts:154-161 | a pressed line and its context block both go |
| LookupFtoProofs.LineRemembered | functions/lookup_fto.ts:154-157 | the pressed line is the block remembered for the notice |
| LookupFtoProofs.FilterAroundLine | functions/lookup_fto.ts:153-164 | between runs of unpressed blocks, the filter removes exactly the pressed line and its context block and remembers the line |
| LookupFtoProofs.EntryListAppend | functions/lookup_fto.ts:56-99 | the flattened blocks of two runs of requests are the blocks of the first run followed by those of the second |
| LookupFtoProofs.EntryListAround | functions/lookup_fto.ts:56-99 | the blocks of one request sit between those of the requests before it and those after it |
| LookupFtoProofs.EntryListUnnamed | functions/lookup_fto.ts:56-99 | the app sends no `block_id` on the rendered entries |
| LookupFtoProofs.StampedNoMatch | functions/lookup_fto.ts:154 | once stamped with ids other than the target, no block matches the target |
| LookupFtoProofs.DeleteStampedLine | functions/lookup_fto.ts:153-164 | deleting by the id Slack gave a line drops exactly that line and its context block; every other block keeps its id, and the line is remembered |
| LookupFtoProofs.DeleteEntry | functions/lookup_fto.ts:153-164 | in a rendered list with distinct ids, deleting request k leaves the stamped rendering of the other requests in their order, and remembers request k's line |
| LookupFtoProofs.PatchDeletesEntry | functions/lookup_fto.ts:150-175 | the patched view is the stamped rendering of the remaining requests, with the placeholder added exactly when none remain |
| LookupFtoProofs.DeleteFromTwoEntryList | functions/lookup_fto.ts:51-175 | deleting `a` from the rendered list of `[a, b]`, by the id Slack gave its line, gives exactly the stamped rendered list of `[b]`. The line sits right after the header when the sort put `a` first, else after `b`'s blocks |
| LookupFtoProofs.DeleteOnlyEntry | functions/lookup_fto.ts:150-201 | deleting the only listed request leaves the header and the placeholder, and the notice names that request's dates |
| LookupFtoProofs.DeleteOnlyEntryRemembers | functions/lookup_fto.ts:153-164 | the block remembered when the only request is deleted is that request's line |
| RequestFto.ReasonText | functions/request_fto.ts:71 | a missing reason shows `_none provided_`; a given reason, even an empty one, is shown as given |
| RequestFto.DecisionButtons | functions/request_fto.ts:76-92 | exactly two buttons: Approve (`approve_request`, primary), then Deny (`deny_request`, danger); neither carries a value |
| RequestFto.ManagerMessage | functions/request_fto.ts:46-93 | the message goes to the manager with the headline text; it has five blocks: header, three text sections without a button, then the actions block `approve-deny-buttons`, the only block with an id |
| RequestFto.FieldValue | functions/request_fto.ts:56-72 | a field is read off a line exactly when the line starts with its label, and label plus value give back the line |
| RequestFto.ManagerMessageShowsRequest | functions/request_fto.ts:56-72 | the manager can read off the employee, the dates and the reason text (or the fallback) from the message |
| RequestFto.NewRecord | functions/request_fto.ts:100-110 | the stored record copies employee, manager, dates and reason unchanged, takes the fresh id, and carries no decision |
| RequestFto.Submit | functions/request_fto.ts:43-117 | the message is posted first. If the post fails, the result is "Failed to send message" and the store is unchanged. If the put fails, the result is "Failed to store request" and the store is unchanged. Otherwise the result is empty outputs and the store gains exactly the new record |
| SubmitThenLookup.SubmittedRequestListedAsPending | functions/request_fto.ts:100-110 | after a successful submit, every lookup answer for the employee renders the new request as a pending line with its dates and a Delete button for its id |
| SubmitThenLookup.EmptyReasonReadTwoWays | functions/request_fto.ts:71 | an empty reason appears as an empty Reason line to the manager but as no reason block in the lookup list |

## Left out

- The Slack platform calls are not modelled: `datastore.query/put/delete`, `views.open/update`, `chat.postMessage` and `functions.completeError`. Each call's outcome is a `Response` parameter, and what the app sends is returned as a value (the modal blocks, the notice, the manager message).
- Slack giving ids to blocks is not modelled as a platform behaviour. The model takes the ids as a parameter through `Stamp`. The delete theorems assume they are distinct within a view.
- JavaScript `Date` parsing is not modelled. Start dates are ISO `YYYY-MM-DD` strings compared lexicographically.
- The order of equal start dates is left open. The comparator never returns 0, so the source leaves that order unspecified. The model's insertion sort fixes one order, and only sortedness and permutation are claimed.
- Block Kit text objects, `emoji` flags and mrkdwn rendering are not modelled. Each text is its string.
- The view-closed handler (functions/lookup_fto.ts:210-215) is not modelled: it only reports completion to the platform.
- The `interactivity_pointer`, view title, callback id and `notify_on_close` are not modelled. They are fixed values passed to the platform.
- functions/remove_fto.ts is not part of this model. It is one `datastore.delete` call with an error check; `RequestStore.Delete` models that call.
- Approving and denying are not modelled. The buttons have no handler in the source, and the manager message carries no request id.
- The function and datastore definitions, workflows, triggers and the manifest are not modelled. They are declarative wiring.
- `crypto.randomUUID` is not modelled: the fresh id is a parameter. `Submit` does not require it to be unused, and like `put`, it overwrites a record stored under that id.
- SubmitThenLookup.SubmittedRequestListedAsPending: shows that the new request's line is in the list, not that it appears only once. That follows from a query answer listing each id once, but it is not stated as a separate lemma.
- The code posts to the manager before storing the request, and the manager message carries no request id. `Submit` follows that order.
- The placeholder is added whenever exactly one block survives the filter, whatever that block is.
- A stored `approved` of `null` is not modelled. The lookup shows it as a denial, because `null !== undefined`. `approved` here is `Option<bool>`: either no decision or a boolean.
- LookupFto.DeleteRequest: takes the view's blocks as a parameter, so it does not model the `body.view?` path where the interaction carries no view.

# crowdsh workflow driver — a Dafny model

crowdsh publishes rows of an Airtable view as Mechanical Turk HITs, collects the
submitted answers back into the rows, and keeps per-worker approve/reject counters
in a DynamoDB table to block workers whose work is poor. This project models the
sequential logic of `crowdsh/__init__.py`:

- `Records` — the data model: dataset records, configured field definitions,
  parsed answers and assignments, what the marketplace answers (`Responses`), and
  the calls the driver issues (`Call`: HIT creation, assignment listing, HIT
  lookup, expiry extension, worker block, assignment rejection, record update).
- `Reputation` — the reputation table (`CrowdReputation`, a class whose `store`
  maps worker keys to approved/rejected counters), get-or-create increments, and
  the blocking policy in integer form with its exact-rational equivalence.
- `Form` — the per-field part of `questionXml`: the sanitised value (characters at
  or above 0x80 removed; "" when the row lacks the field) and the control each
  field type selects, as abstract controls rather than HTML.
- `Transitions` — the per-record state machine as pure functions
  (`RecordEffect`: status, HIT id, marketplace answers, reputation table -> calls
  issued, new table, whether an uncaught error ends the iteration) and `Run`, the
  fold over the fetched records, with the lemmas about them. The fold is written
  once for any per-record step (`RunWith`); `Run` is that fold with
  `RecordEffect`, and each fact about `Run` is proved for every step that has the
  one or two properties of `RecordEffect` it needs.
- `Driver` — class `Crowd`: `Approve`, `Reject`, `BlockBadWorkers`, and `Iter`,
  the imperative loop over the fetched records, proved equal to `Run`.

The model follows the code, including where its behaviour may surprise a reader:

- an Approved record whose HIT lists no submitted or approved assignment makes
  `approve` raise at line 237; nothing catches it, so the iteration ends there
  without yielding that record or any later one (`Transitions.RunYieldsInOrder`);
- Draft records are handled exactly like Working ones, and a Draft record that
  already has a HIT id goes down the assignment-checking path (line 288 tests only
  the HIT id);
- the Approved branch tests that the HIT id key is present, so a present but
  empty HIT id still calls `approve` (line 365);
- a status that is present but empty is not treated as "no status": it falls
  through to the final `else` and is only yielded;
- the Rejected update blanks every non-Label configured field after setting the
  HIT id and status, so a non-Label field named like the status column turns the
  status into "" rather than null (Python `{**a, **b}` lets the later entry win).

The reject path is modelled as intended (see Findings): `Crowd.Reject` credits the
worker with a rejection through the reputation table and then applies the blocking
policy; the code as written is `Transitions.RejectAsWritten`.

## Model

| member | source | states |
|---|---|---|
| `Records.ParseType` | crowdsh/__init__.py:136-207 | each of the eight type names the renderer compares against (Hidden, Image, Label, LongText, Checkbox, Radio, Select, ShortText) selects its own type and is the only name that does; any other name is kept as an unrecognised type, which therefore never carries a known name |
| `Records.Field.Kind` | crowdsh/__init__.py:136-207 | a field's type is selected from its configured type name, so it is always well formed |
| `Form.Strip` | crowdsh/__init__.py:131-133 | the sanitised value holds only characters below 0x80 and is no longer than the input |
| `Form.StripFixedPoint` | crowdsh/__init__.py:131-133 | sanitising leaves a value unchanged exactly when it is already all ASCII |
| `Form.StripIdempotent` | crowdsh/__init__.py:131-133 | sanitising twice is sanitising once |
| `Form.StripKeepsAscii` | crowdsh/__init__.py:131-133 | an all-ASCII value is kept as it is |
| `Form.StripConcat` | crowdsh/__init__.py:131-133 | characters are removed one by one in place, keeping the order of the rest |
| `Form.StripCounts` | crowdsh/__init__.py:131-133 | every ASCII character keeps its number of occurrences and no other character survives |
| `Form.FieldValue` | crowdsh/__init__.py:129-133 | a field missing from the row renders as ""; otherwise the value is the row value with every character at or above 0x80 removed (`Strip`), all ASCII |
| `Form.GroupShape` | crowdsh/__init__.py:135-207 | a heading with name and description iff the type is not Hidden; Hidden renders one hidden input and ShortText one text input named after the field, LongText one text area named after the field, Image one image and Label one linkified text, each carrying the sanitised value; Radio gives one input per option, Select one box with all options, Checkbox a fixed "yes" value, an unknown type no control |
| `Form.ChoiceIgnoresRow` | crowdsh/__init__.py:169-199 | Checkbox, Radio and Select groups do not depend on the row |
| `Form.QuestionFor` | crowdsh/__init__.py:128-207 | the form keeps the configured title and description and has one group per configured field, group i being the group of field i built from this row |
| `Form.QuestionIsAscii` | crowdsh/__init__.py:128-207 | no character at or above 0x80 from a row reaches any control of the form |
| `Reputation.WorkerKey` | crowdsh/__init__.py:237-238 | a worker's counters live under the key whose first six characters are "MTurk:" and whose rest is the worker id |
| `Reputation.WorkerKeyInjective` | crowdsh/__init__.py:247 | distinct workers never share counters |
| `Reputation.CreditedCounts` | crowdsh/__init__.py:35-47 | an increment adds the amount to approved for "Approved", to rejected for "Rejected", to neither otherwise; a new worker starts at 0/0; other workers' entries are unchanged |
| `Reputation.ApprovalsAccumulate` | crowdsh/__init__.py:233-238 | approving the same worker twice adds two: approval is not idempotent |
| `Reputation.ShouldBlockIsRateTest` | crowdsh/__init__.py:254-261 | the integer test (count floored to 1, count > 3, 4·rejected > count) is exactly the source's test count > 3 and (1 − rejected/count)·100 < 75 over the rationals |
| `Reputation.RateBelow75` | crowdsh/__init__.py:258-261 | for a positive count c, (1 − r/c)·100 < 75 holds exactly when 4r > c |
| `Reputation.MultiplyBothSides` | crowdsh/__init__.py:258-261 | multiplying by a positive count preserves the rate comparison |
| `Reputation.BlockingBoundaries` | crowdsh/__init__.py:254-261 | 0/3 and 0/0 are not blocked, 2/2 and 0/4 are, and 3/1 (exactly 75%) is not |
| `Reputation.RejectionKeepsBlock` | crowdsh/__init__.py:254-261 | one more rejection never lifts a block |
| `Reputation.CrowdReputation.Increment` | crowdsh/__init__.py:35-47 | the store afterwards is the old store with the worker's fetched-or-fresh counters bumped by the amount for the status |
| `Reputation.CrowdReputation.Approve` | crowdsh/__init__.py:26-28 | credits `amount` approvals |
| `Reputation.CrowdReputation.Reject` | crowdsh/__init__.py:30-32 | credits `amount` rejections |
| `Transitions.MatchAnswersSpec` | crowdsh/__init__.py:328-335 | an answer is written iff a configured field has its identifier, and each written field holds the text of the last answer for it |
| `Transitions.MatchAnswersKeys` | crowdsh/__init__.py:328-335 | a key is written iff it is configured and some answer has it as identifier |
| `Transitions.MatchAnswersValues` | crowdsh/__init__.py:328-335 | each written key holds the text of the last answer with that identifier |
| `Transitions.FinishedUpdateSpec` | crowdsh/__init__.py:322-337 | the submission update ends with status Finished even when a configured field shares the status name; every other key is a configured answered field with its last answer |
| `Transitions.RejectedUpdateSpec` | crowdsh/__init__.py:379-396 | the Rejected update writes HIT id "", status null (or "" if a non-Label field shares its name) and "" for every non-Label configured field, and nothing else |
| `Transitions.Request` | crowdsh/__init__.py:290-305 | a created HIT carries the configured reward, title, keywords and description and this record's form built from the configured title, description and fields; it has one assignment, a 600 s assignment duration, a one-day auto-approval delay and lifetime |
| `Transitions.CreatePath` | crowdsh/__init__.py:288-313 | Draft/Working without a HIT id: one create call, then exactly {HitID: id, Status: Working} on success, exactly {Status: Error} on a parameter validation error, no update on another client error |
| `Transitions.FinishPath` | crowdsh/__init__.py:314-337 | Draft/Working with a HIT id and a submission: list the assignments, then write the first assignment's Finished update |
| `Transitions.OnlyFirstAssignment` | crowdsh/__init__.py:322-324 | assignments after the first never affect the outcome |
| `Transitions.WaitPath` | crowdsh/__init__.py:338-359 | with no submission, a Disposed HIT gets exactly {HitID: "", Status: null}; any other HIT only has its expiry extended and no update is issued |
| `Transitions.ApprovedPath` | crowdsh/__init__.py:364-374 | Approved with the HIT id key present: the first listed worker gets one approval and the update is exactly {HitID: ""}; without the key nothing happens |
| `Transitions.RejectedPath` | crowdsh/__init__.py:375-398 | Rejected issues exactly: the Rejected update alone without a HIT id; the filtered listing then the update when nothing is listed; otherwise the listing, the worker block and assignment rejection with "Bad Work Quality" iff the worker's counters after one more rejection fail the policy, then the update; the table gains one rejection for that worker only |
| `Transitions.PassivePath` | crowdsh/__init__.py:360-363 | Finished, Manual, absent and any other status are only yielded: no call, no reputation change |
| `Transitions.StepAborts` | crowdsh/__init__.py:364-366 | a record ends the iteration exactly when it is Approved with a HIT id key and no listed assignment |
| `Transitions.RunYieldsInOrder` | crowdsh/__init__.py:274-400 | the yielded records are the fetched records themselves, each once, in order, up to the first record whose approval raises |
| `Transitions.RunWithYieldsInOrder` | crowdsh/__init__.py:274-400 | the same order and abort facts for any step that aborts exactly on a failing approval |
| `Transitions.YieldsAllUnlessApprovalFails` | crowdsh/__init__.py:277-400 | with no failing approval, every fetched record is yielded and the iteration completes |
| `Transitions.RunStaysAborted` | crowdsh/__init__.py:366 | after the uncaught error nothing further happens |
| `Transitions.RunWithStaysAborted` | crowdsh/__init__.py:366 | for any step, once aborted the loop state no longer changes |
| `Transitions.RunAppendsCalls` | crowdsh/__init__.py:274-400 | a pass only appends to the log of calls issued |
| `Transitions.RunWithAppendsCalls` | crowdsh/__init__.py:274-400 | for any step, the loop only appends to the call log |
| `Transitions.StepCreations` | crowdsh/__init__.py:286-305 | a record issues one HIT creation iff it is Draft/Working without a HIT id, none otherwise |
| `Transitions.PendingCreations` | crowdsh/__init__.py:286-359 | a Draft/Working record issues one HIT creation iff it has no HIT id |
| `Transitions.RunCreations` | crowdsh/__init__.py:286-305 | one pass creates exactly one HIT per yielded record that needs one |
| `Transitions.RunWithCreations` | crowdsh/__init__.py:286-305 | for any step creating one HIT exactly for records that need one, and none for a record that aborts, the creations in the log equal the yielded records that need a HIT |
| `Transitions.RejectAsWrittenIgnoresReputation` | crowdsh/__init__.py:240-251 | as written, reject never changes the reputation table and never blocks |
| `Transitions.RejectNameErrorWitness` | crowdsh/__init__.py:248 | a worker at 0/3 whose next submission is rejected stays 0/3 unblocked as written, and becomes 0/4 and blocked as intended |
| `Transitions.RejectEffectSpec` | crowdsh/__init__.py:240-272 | intended reject never aborts; with nothing listed it only lists and changes no counter; otherwise the first listed worker gets exactly one more rejection, no other entry changes, and the calls are exactly the listing followed by the worker block and the assignment rejection, both with "Bad Work Quality", iff the updated counters fail the policy |
| `Driver.Crowd.constructor` | crowdsh/__init__.py:79 | the records are fetched once when the driver is built; no call has been issued yet |
| `Driver.Crowd.Approve` | crowdsh/__init__.py:233-238 | lists the HIT's assignments; with one listed, the first worker gets exactly one approval; with none it fails and no counter changes |
| `Driver.Crowd.Reject` | crowdsh/__init__.py:240-251 | the new table and calls are those of the intended reject, whose properties `RejectEffectSpec` states |
| `Driver.Crowd.BlockBadWorkers` | crowdsh/__init__.py:253-272 | issues the block and the assignment rejection iff the stored counters fail the policy |
| `Driver.Crowd.Advance` | crowdsh/__init__.py:286-359 | the Draft/Working branch issues its marketplace calls and writes `updated_fields` back iff it is non-empty |
| `Driver.Crowd.Process` | crowdsh/__init__.py:281-400 | one record's calls, table change and abort are exactly its transition |
| `Driver.Crowd.Iter` | crowdsh/__init__.py:274-400 | the records yielded, the calls issued and the reputation table are those of `Run` over the fetched records |

## Left out

- Marketplace calls (`create_hit`, `list_assignments_for_hit`, `get_hit`, `update_expiration_for_hit`, `create_worker_block`, `reject_assignment`) are foreign I/O: their results are inputs (`Responses`, one per record, fixed for the pass) and the calls are recorded in the call log.
- An error other than `botocore.exceptions.ClientError` from `create_hit` (a connection or endpoint error, or a response without `HIT.HITId`) escapes the `except` at line 310 and ends the iteration after the record was yielded; `CreateResult` has no such outcome. Likewise a DynamoDB `get` or `save` failure inside `approve` (lines 38 and 47, reached from line 238) is uncaught and not modelled: table operations always succeed.
- Failures of `list_assignments_for_hit` and `get_hit` in the Draft/Working branch (uncaught in the source), of `update_expiration_for_hit` (a ClientError is caught at line 355, any other error escapes and ends the iteration), and of `create_worker_block` or `reject_assignment` (swallowed) are not modelled: the calls always count as issued.
- Airtable `get_all` and `update`: the fetched records are a constructor argument and updates are `UpdateRecord` calls in the log. A failed `update` (lines 359, 367 and 383, inside no `try`) is uncaught and would end the iteration, on the Approved path after the counter was credited and before the record is yielded; the model treats every update as succeeding.
- DynamoDB through pynamodb: the reputation table is an in-memory map.
- The session and endpoint setup of the constructor and `balance`: they only forward configuration.
- HTML text: yattag, markdown rendering, link rendering, the page chrome, the fixed notice and submit button, and the `HTMLQuestion` envelope; controls are abstract.
- Parsing the answer XML: answers are given as (identifier, text) pairs; a missing `questionidentifier` or `freetext` element, or an empty one, is not modelled.
- The expiry timestamp (now + 18 hours): `ExtendExpiration` records only the HIT id.
- Floating point: the rate test is modelled over integers, with its equivalence to the exact rational test proved; double rounding is not modelled.
- Generator laziness: `Iter` processes every record; a caller that stops early, and the yield-before-update order of the Draft/Working branch, are not modelled; callers are assumed not to mutate a yielded record.
- Logging through `print`.
- Record field values are strings; Airtable's list and attachment values are not modelled. A Radio or Select field without `Options` (a KeyError in the source) is not modelled.
- Reputation.CrowdReputation.Increment: `amount` is a natural number; the source accepts any number.
- Driver.Crowd.Reject: models the intended `CrowdReputation.reject` followed by the block check rather than the code as written, which `Transitions.RejectAsWritten` models (see Findings).

## Findings

| source | as written | input that shows it | evidently intended | confidence | as-written member | corrected member |
|---|---|---|---|---|---|---|
| crowdsh/__init__.py:248 | `reject` calls `Reputation.reject`, a name no module defines; the NameError is swallowed by the bare `except` at lines 250-251, so a rejection is never counted and the blocking policy never runs from this path | worker "MTurk:W1" at 0 approved / 3 rejected, HIT "H1" listing one assignment of W1: the counters stay 0/3 and no block is issued | `CrowdReputation.reject` then `block_bad_workers`: counters 0/4 and the worker is blocked | high; not executed | `Transitions.RejectAsWritten`, shown by `Transitions.RejectNameErrorWitness` and `Transitions.RejectAsWrittenIgnoresReputation` | `Driver.Crowd.Reject` with `Transitions.RejectEffect`, proved by `Transitions.RejectEffectSpec` |

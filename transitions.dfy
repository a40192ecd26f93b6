/** The per-record workflow state machine as pure functions: given a fetched
    record, what the marketplace answers, and the reputation table, which calls
    are issued (marketplace and dataset) and what the table becomes. `Run`
    folds the step over the fetched records in order; the driver's loop is
    proved equal to it. */
module Transitions {
  import opened Records
  import opened Reputation
  import Form

  /** The feedback and block reason the blocking policy sends. */
  const BadWork: string := "Bad Work Quality"

  /** The externally visible state: the reputation table and the calls issued so far. */
  datatype World = World(store: map<string, Kpi>, calls: seq<Call>)

  /** What processing one record does: the reputation table afterwards, the
      calls it issues in order, and whether an uncaught error ended the iteration. */
  datatype Effect = Effect(store: map<string, Kpi>, issued: seq<Call>, aborted: bool)

  /** The Draft/Working branch before its dataset update: the marketplace calls
      issued and the `updated_fields` map built. */
  datatype Pending = Pending(calls: seq<Call>, update: map<string, Cell>)

  predicate IsConfigured(fields: seq<Field>, name: string) {
    exists i :: 0 <= i < |fields| && fields[i].name == name
  }

  /** The answers of one submission written into `updated_fields`, in answer
      order: an answer is kept only when a configured field has its identifier,
      and a later answer for the same identifier overwrites an earlier one. */
  function MatchAnswers(fields: seq<Field>, answers: seq<Answer>): (m: map<string, Cell>)
    decreases |answers|
  {
    if answers == [] then map[]
    else
      var m := MatchAnswers(fields, answers[..|answers| - 1]);
      var a := answers[|answers| - 1];
      if IsConfigured(fields, a.identifier) then m[a.identifier := Text(a.freetext)] else m
  }

  /** `j` is the last position of `answers` whose identifier is `k`. */
  predicate LastAnswerAt(answers: seq<Answer>, k: string, j: int) {
    0 <= j < |answers| && answers[j].identifier == k &&
    forall j' :: j < j' < |answers| ==> answers[j'].identifier != k
  }

  /** A key is written exactly when it is configured and answered, and it holds
      the text of the last answer with that identifier. */
  lemma MatchAnswersSpec(fields: seq<Field>, answers: seq<Answer>)
    ensures var m := MatchAnswers(fields, answers);
      forall k :: k in m <==> IsConfigured(fields, k) && exists j :: 0 <= j < |answers| && answers[j].identifier == k
    ensures var m := MatchAnswers(fields, answers);
      forall k :: k in m ==> exists j :: LastAnswerAt(answers, k, j) && m[k] == Text(answers[j].freetext)
  {
    MatchAnswersKeys(fields, answers);
    MatchAnswersValues(fields, answers);
  }

  lemma {:induction false} MatchAnswersKeys(fields: seq<Field>, answers: seq<Answer>)
    ensures var m := MatchAnswers(fields, answers);
      forall k :: k in m <==> IsConfigured(fields, k) && exists j :: 0 <= j < |answers| && answers[j].identifier == k
    decreases |answers|
  {
    if answers != [] {
      var n := |answers| - 1;
      var init := answers[..n];
      MatchAnswersKeys(fields, init);
      var m0 := MatchAnswers(fields, init);
      var m := MatchAnswers(fields, answers);
      forall k
        ensures k in m <==> IsConfigured(fields, k) && exists j :: 0 <= j < |answers| && answers[j].identifier == k
      {
        if k in m && k != answers[n].identifier {
          assert k in m0;
          var j :| 0 <= j < |init| && init[j].identifier == k;
          assert answers[j] == init[j];
        }
        if IsConfigured(fields, k) && exists j :: 0 <= j < |answers| && answers[j].identifier == k {
          var j :| 0 <= j < |answers| && answers[j].identifier == k;
          if j < n {
            assert init[j] == answers[j];
          }
        }
      }
    }
  }

  /** Every key of `m` holds the text of the last answer with that identifier. */
  ghost predicate HoldsLastAnswers(m: map<string, Cell>, answers: seq<Answer>) {
    forall k :: k in m ==> exists j :: LastAnswerAt(answers, k, j) && m[k] == Text(answers[j].freetext)
  }

  lemma {:induction false} MatchAnswersValues(fields: seq<Field>, answers: seq<Answer>)
    ensures HoldsLastAnswers(MatchAnswers(fields, answers), answers)
    decreases |answers|
  {
    if answers != [] {
      var n := |answers| - 1;
      var init := answers[..n];
      MatchAnswersValues(fields, init);
      var m0 := MatchAnswers(fields, init);
      var m := MatchAnswers(fields, answers);
      var a := answers[n];
      assert m == if IsConfigured(fields, a.identifier) then m0[a.identifier := Text(a.freetext)] else m0;
      forall k | k in m
        ensures exists j :: LastAnswerAt(answers, k, j) && m[k] == Text(answers[j].freetext)
      {
        if k == a.identifier && IsConfigured(fields, k) {
          assert LastAnswerAt(answers, k, n);
        } else if k == a.identifier {
          MatchAnswersKeys(fields, init);
          assert false;
        } else {
          assert k in m0 && m[k] == m0[k];
          var j :| LastAnswerAt(init, k, j) && m0[k] == Text(init[j].freetext);
          assert answers[j] == init[j];
          assert LastAnswerAt(answers, k, j);
        }
      }
    }
  }

  /** The update for a record whose HIT has a submission: the matched answers,
      then the status forced to Finished. */
  function FinishedUpdate(fields: seq<Field>, answers: seq<Answer>): (u: map<string, Cell>) {
    MatchAnswers(fields, answers)[StatusKey := Text("Finished")]
  }

  /** The Finished update ends with status Finished even when a configured field
      shares the status column's name; every other key is a configured,
      answered field holding its last answer's text. */
  lemma FinishedUpdateSpec(fields: seq<Field>, answers: seq<Answer>)
    ensures var u := FinishedUpdate(fields, answers);
      && u[StatusKey] == Text("Finished")
      && (forall k :: k != StatusKey ==>
            (k in u <==> IsConfigured(fields, k) && exists j :: 0 <= j < |answers| && answers[j].identifier == k))
      && (forall k :: k in u && k != StatusKey ==>
            exists j :: LastAnswerAt(answers, k, j) && u[k] == Text(answers[j].freetext))
  {
    MatchAnswersSpec(fields, answers);
  }

  /** The map written back for a Rejected record: the HIT id blanked, the
      status cleared, then "" for every configured field whose type is not
      Label, the later entries overriding the earlier ones. */
  function RejectedUpdate(fields: seq<Field>): (u: map<string, Cell>)
  {
    map[HitKey := Text(""), StatusKey := Null] +
    map i | 0 <= i < |fields| && fields[i].typeName != "Label" :: fields[i].name := Text("")
  }

  predicate IsBlanked(fields: seq<Field>, name: string) {
    exists i :: 0 <= i < |fields| && fields[i].name == name && fields[i].typeName != "Label"
  }

  /** The Rejected update touches the HIT id, the status and the non-Label
      fields, nothing else; it never writes a Label-only or unconfigured field. */
  lemma RejectedUpdateSpec(fields: seq<Field>)
    ensures var u := RejectedUpdate(fields);
      && (forall k :: k in u <==> k == HitKey || k == StatusKey || IsBlanked(fields, k))
      && u[HitKey] == Text("")
      && u[StatusKey] == (if IsBlanked(fields, StatusKey) then Text("") else Null)
      && (forall k :: k in u && k != StatusKey ==> u[k] == Text(""))
  {
    var u := RejectedUpdate(fields);
    forall k ensures k in u <==> k == HitKey || k == StatusKey || IsBlanked(fields, k) {
      if IsBlanked(fields, k) {
        var i :| 0 <= i < |fields| && fields[i].name == k && fields[i].typeName != "Label";
        assert fields[i].name in u;
      }
    }
  }

  /** A Draft/Working record needs a HIT when its HIT id is absent or "". */
  predicate NeedsHit(fields: map<string, string>) {
    HitKey !in fields || fields[HitKey] == ""
  }

  /** The `create_hit` request for a record: the configured reward, title,
      keywords and description, a one-day auto-approval delay and lifetime, a
      ten-minute assignment duration, one assignment, and the record's form. */
  function Request(config: Config, fields: map<string, string>): (req: HitRequest)
    ensures req.maxAssignments == 1 && req.assignmentDurationSeconds == 600
    ensures req.autoApprovalDelaySeconds == req.lifetimeSeconds == 86400
    ensures req.reward == config.reward && req.title == config.title
    ensures req.keywords == config.keywords && req.description == config.description
    ensures req.question == Form.QuestionFor(config.title, config.description, config.fields, fields)
    ensures |req.question.groups| == |config.fields|
  {
    HitRequest(config.reward, config.title, config.keywords, config.description,
               86400, 600, 1, 86400,
               Form.QuestionFor(config.title, config.description, config.fields, fields))
  }

  /** The Draft/Working branch: create a HIT when there is none; otherwise read
      the first submission if there is one, or drop a disposed HIT, or extend
      the HIT's expiry. */
  function PendingStep(config: Config, fields: map<string, string>, resp: Responses): (p: Pending) {
    if NeedsHit(fields) then
      var create := CreateHit(Request(config, fields));
      match resp.created
      case Created(id) => Pending([create], map[HitKey := Text(id), StatusKey := Text("Working")])
      case ParameterValidationError => Pending([create], map[StatusKey := Text("Error")])
      case OtherClientError => Pending([create], map[])
    else
      var hit := fields[HitKey];
      if |resp.assignments| > 0 then
        Pending([ListAssignments(hit, false)], FinishedUpdate(config.fields, resp.assignments[0].answers))
      else if resp.hitStatus == "Disposed" then
        Pending([ListAssignments(hit, false), GetHit(hit)], map[HitKey := Text(""), StatusKey := Null])
      else
        Pending([ListAssignments(hit, false), GetHit(hit), ExtendExpiration(hit)], map[])
  }

  /** `Crowd.approve`: list the HIT's submitted/approved assignments and credit
      the first one's worker; with none listed, indexing fails and nothing
      catches the error. */
  function ApproveEffect(hitId: string, listed: seq<Assignment>, store: map<string, Kpi>): (e: Effect) {
    var calls := [ListAssignments(hitId, true)];
    if |listed| == 0 then Effect(store, calls, true)
    else Effect(Credited(store, WorkerKey(listed[0].workerId), "Approved", 1), calls, false)
  }

  /** `Crowd.block_bad_workers` after the counters are read: block the worker
      and reject the assignment when the policy says so. A missing entry makes
      the lookup fail, which the caller swallows. */
  function BlockCalls(store: map<string, Kpi>, kpiName: string, workerId: string, assignmentId: string): (cs: seq<Call>) {
    if kpiName in store && ShouldBlock(store[kpiName])
    then [CreateWorkerBlock(workerId, BadWork), RejectAssignment(assignmentId, BadWork)]
    else []
  }

  /** `Crowd.reject` as intended: credit the first listed worker with one
      rejection in the reputation table, then apply the blocking policy to the
      updated counters; with none listed, the error is swallowed. */
  function RejectEffect(hitId: string, listed: seq<Assignment>, store: map<string, Kpi>): (e: Effect) {
    var calls := [ListAssignments(hitId, true)];
    if |listed| == 0 then Effect(store, calls, false)
    else
      var key := WorkerKey(listed[0].workerId);
      var store' := Credited(store, key, "Rejected", 1);
      Effect(store', calls + BlockCalls(store', key, listed[0].workerId, listed[0].assignmentId), false)
  }

  /** `Crowd.reject` as written: the call to the undefined name `Reputation`
      raises before any counter changes or any block, and the bare `except`
      swallows it. */
  function RejectAsWritten(hitId: string, listed: seq<Assignment>, store: map<string, Kpi>): (e: Effect) {
    Effect(store, [ListAssignments(hitId, true)], false)
  }

  /** What one fetched record does, chosen by its status. */
  function RecordEffect(config: Config, rec: Record, resp: Responses, store: map<string, Kpi>): (e: Effect) {
    var fields := rec.fields;
    if StatusKey !in fields then Effect(store, [], false)
    else
      var status := fields[StatusKey];
      if status == "Draft" || status == "Working" then
        var p := PendingStep(config, fields, resp);
        Effect(store, p.calls + (if |p.update| > 0 then [UpdateRecord(rec.id, p.update)] else []), false)
      else if status == "Finished" || status == "Manual" then Effect(store, [], false)
      else if status == "Approved" then
        if HitKey in fields then
          var e := ApproveEffect(fields[HitKey], resp.reviewable, store);
          if e.aborted then e
          else Effect(e.store, e.issued + [UpdateRecord(rec.id, map[HitKey := Text("")])], false)
        else Effect(store, [], false)
      else if status == "Rejected" then
        var e := if HitKey in fields then RejectEffect(fields[HitKey], resp.reviewable, store) else Effect(store, [], false);
        Effect(e.store, e.issued + [UpdateRecord(rec.id, RejectedUpdate(config.fields))], false)
      else Effect(store, [], false)
  }

  /** The state after the first `n` fetched records: the records yielded, the
      world, and whether an uncaught error ended the iteration. */
  datatype RunState = RunState(yielded: seq<Record>, world: World, aborted: bool)

  /** What one record does to the world, given the reputation table before it. */
  type Step = (Record, Responses, map<string, Kpi>) -> Effect

  /** The loop of `iter` over the first `n` records, for any per-record step:
      each record's effect is applied in order, and a record whose step aborts
      ends the loop without being yielded. */
  function RunWith(step: Step, records: seq<Record>, responses: seq<Responses>, n: nat, w0: World): (r: RunState)
    requires n <= |records| && |responses| == |records|
  {
    if n == 0 then RunState([], w0, false)
    else
      var prev := RunWith(step, records, responses, n - 1, w0);
      if prev.aborted then prev
      else
        var e := step(records[n - 1], responses[n - 1], prev.world.store);
        RunState(if e.aborted then prev.yielded else prev.yielded + [records[n - 1]],
                 World(e.store, prev.world.calls + e.issued), e.aborted)
  }

  /** The step of this workflow: `RecordEffect` under the given configuration. */
  function StepOf(config: Config): (step: Step) {
    (rec, resp, store) => RecordEffect(config, rec, resp, store)
  }

  /** The loop of `iter` with the step of this workflow. */
  function Run(config: Config, records: seq<Record>, responses: seq<Responses>, n: nat, w0: World): (r: RunState)
    requires n <= |records| && |responses| == |records|
  {
    RunWith(StepOf(config), records, responses, n, w0)
  }

  /** The only uncaught error the model keeps: an Approved record with a HIT
      id whose HIT lists no submitted or approved assignment. */
  predicate AbortsAt(rec: Record, resp: Responses) {
    StatusKey in rec.fields && rec.fields[StatusKey] == "Approved" &&
    HitKey in rec.fields && |resp.reviewable| == 0
  }

  lemma StepAborts(config: Config, rec: Record, resp: Responses, store: map<string, Kpi>)
    ensures RecordEffect(config, rec, resp, store).aborted <==> AbortsAt(rec, resp)
  {
  }

  /** `iter` yields the fetched records themselves, each once, in their order,
      up to the first record whose approval raises; with no such record it
      yields them all. */
  lemma RunYieldsInOrder(config: Config, records: seq<Record>, responses: seq<Responses>, n: nat, w0: World)
    requires n <= |records| && |responses| == |records|
    ensures var r := Run(config, records, responses, n, w0);
      && |r.yielded| <= n
      && r.yielded == records[..|r.yielded|]
      && (forall j :: 0 <= j < |r.yielded| ==> !AbortsAt(records[j], responses[j]))
      && (r.aborted <==> |r.yielded| < n)
      && (r.aborted ==> AbortsAt(records[|r.yielded|], responses[|r.yielded|]))
  {
    var step := StepOf(config);
    forall rec, resp, store
      ensures step(rec, resp, store).aborted <==> AbortsAt(rec, resp)
    {
      StepAborts(config, rec, resp, store);
    }
    RunWithYieldsInOrder(step, records, responses, n, w0);
  }

  /** The same for any step that aborts exactly where `AbortsAt` holds. */
  lemma {:induction false} RunWithYieldsInOrder(step: Step, records: seq<Record>, responses: seq<Responses>, n: nat, w0: World)
    requires n <= |records| && |responses| == |records|
    requires forall rec, resp, store :: step(rec, resp, store).aborted <==> AbortsAt(rec, resp)
    ensures var r := RunWith(step, records, responses, n, w0);
      && |r.yielded| <= n
      && r.yielded == records[..|r.yielded|]
      && (forall j :: 0 <= j < |r.yielded| ==> !AbortsAt(records[j], responses[j]))
      && (r.aborted <==> |r.yielded| < n)
      && (r.aborted ==> AbortsAt(records[|r.yielded|], responses[|r.yielded|]))
  {
    if n > 0 {
      RunWithYieldsInOrder(step, records, responses, n - 1, w0);
      var prev := RunWith(step, records, responses, n - 1, w0);
      if !prev.aborted {
        assert records[..n] == records[..n - 1] + [records[n - 1]];
      }
    }
  }

  /** Once an error ends the iteration, later records change nothing. */
  lemma RunStaysAborted(config: Config, records: seq<Record>, responses: seq<Responses>, k: nat, n: nat, w0: World)
    requires k <= n <= |records| && |responses| == |records|
    requires Run(config, records, responses, k, w0).aborted
    ensures Run(config, records, responses, n, w0) == Run(config, records, responses, k, w0)
  {
    RunWithStaysAborted(StepOf(config), records, responses, k, n, w0);
  }

  lemma {:induction false} RunWithStaysAborted(step: Step, records: seq<Record>, responses: seq<Responses>, k: nat, n: nat, w0: World)
    requires k <= n <= |records| && |responses| == |records|
    requires RunWith(step, records, responses, k, w0).aborted
    ensures RunWith(step, records, responses, n, w0) == RunWith(step, records, responses, k, w0)
    decreases n - k
  {
    if k < n {
      RunWithStaysAborted(step, records, responses, k, n - 1, w0);
    }
  }

  /** Every record is yielded when no record's approval fails. */
  lemma YieldsAllUnlessApprovalFails(config: Config, records: seq<Record>, responses: seq<Responses>, w0: World)
    requires |responses| == |records|
    requires forall j :: 0 <= j < |records| ==> !AbortsAt(records[j], responses[j])
    ensures Run(config, records, responses, |records|, w0).yielded == records
    ensures !Run(config, records, responses, |records|, w0).aborted
  {
    RunYieldsInOrder(config, records, responses, |records|, w0);
  }

  /** The call log only grows: a run appends to the log it starts with. */
  lemma RunAppendsCalls(config: Config, records: seq<Record>, responses: seq<Responses>, n: nat, w0: World)
    requires n <= |records| && |responses| == |records|
    ensures var r := Run(config, records, responses, n, w0);
      |w0.calls| <= |r.world.calls| && r.world.calls[..|w0.calls|] == w0.calls
  {
    RunWithAppendsCalls(StepOf(config), records, responses, n, w0);
  }

  lemma {:induction false} RunWithAppendsCalls(step: Step, records: seq<Record>, responses: seq<Responses>, n: nat, w0: World)
    requires n <= |records| && |responses| == |records|
    ensures var r := RunWith(step, records, responses, n, w0);
      |w0.calls| <= |r.world.calls| && r.world.calls[..|w0.calls|] == w0.calls
  {
    if n > 0 {
      RunWithAppendsCalls(step, records, responses, n - 1, w0);
      var prev := RunWith(step, records, responses, n - 1, w0);
      if !prev.aborted {
        var e := step(records[n - 1], responses[n - 1], prev.world.store);
        assert (prev.world.calls + e.issued)[..|w0.calls|] == prev.world.calls[..|w0.calls|];
      }
    }
  }

  /** The number of HIT creations in a call log. */
  function Creations(calls: seq<Call>): (count: nat) {
    if calls == [] then 0 else (if calls[0].CreateHit? then 1 else 0) + Creations(calls[1..])
  }

  lemma {:induction false} CreationsAppend(a: seq<Call>, b: seq<Call>)
    ensures Creations(a + b) == Creations(a) + Creations(b)
  {
    if a == [] {
      assert a + b == b;
    } else {
      assert (a + b)[0] == a[0];
      assert (a + b)[1..] == a[1..] + b;
      CreationsAppend(a[1..], b);
    }
  }

  lemma {:induction false} NoCreations(calls: seq<Call>)
    requires forall i :: 0 <= i < |calls| ==> !calls[i].CreateHit?
    ensures Creations(calls) == 0
  {
    if calls != [] {
      NoCreations(calls[1..]);
    }
  }

  /** A record whose step creates a HIT: Draft or Working without a HIT id. */
  predicate CreatesHit(rec: Record) {
    StatusKey in rec.fields && rec.fields[StatusKey] in {"Draft", "Working"} && NeedsHit(rec.fields)
  }

  function CreatingRecords(recs: seq<Record>): (count: nat) {
    if recs == [] then 0
    else CreatingRecords(recs[..|recs| - 1]) + (if CreatesHit(recs[|recs| - 1]) then 1 else 0)
  }

  /** A record issues one `create_hit` exactly when it needs a HIT, and none otherwise. */
  lemma StepCreations(config: Config, rec: Record, resp: Responses, store: map<string, Kpi>)
    ensures Creations(RecordEffect(config, rec, resp, store).issued) == if CreatesHit(rec) then 1 else 0
  {
    if IsPending(rec) {
      PendingCreations(config, rec, resp, store);
    } else {
      NoCreations(RecordEffect(config, rec, resp, store).issued);
    }
  }

  lemma PendingCreations(config: Config, rec: Record, resp: Responses, store: map<string, Kpi>)
    requires IsPending(rec)
    ensures Creations(RecordEffect(config, rec, resp, store).issued) == if NeedsHit(rec.fields) then 1 else 0
  {
    var p := PendingStep(config, rec.fields, resp);
    var update := if |p.update| > 0 then [UpdateRecord(rec.id, p.update)] else [];
    assert RecordEffect(config, rec, resp, store).issued == p.calls + update;
    CreationsAppend(p.calls, update);
    NoCreations(update);
    if NeedsHit(rec.fields) {
      assert p.calls[1..] == [];
    } else {
      NoCreations(p.calls);
    }
  }

  /** One pass creates exactly one HIT per yielded record that needs one. */
  lemma RunCreations(config: Config, records: seq<Record>, responses: seq<Responses>, n: nat, w0: World)
    requires n <= |records| && |responses| == |records|
    ensures var r := Run(config, records, responses, n, w0);
      Creations(r.world.calls) == Creations(w0.calls) + CreatingRecords(r.yielded)
  {
    var step := StepOf(config);
    forall rec, resp, store
      ensures Creations(step(rec, resp, store).issued) == (if CreatesHit(rec) then 1 else 0)
      ensures step(rec, resp, store).aborted ==> !CreatesHit(rec)
    {
      StepCreations(config, rec, resp, store);
      StepAborts(config, rec, resp, store);
    }
    RunWithCreations(step, records, responses, n, w0);
  }

  /** The count for any step that creates one HIT exactly for the records that
      need one, and never for a record that aborts. */
  lemma {:induction false} RunWithCreations(step: Step, records: seq<Record>, responses: seq<Responses>, n: nat, w0: World)
    requires n <= |records| && |responses| == |records|
    requires forall rec, resp, store :: Creations(step(rec, resp, store).issued) == (if CreatesHit(rec) then 1 else 0)
    requires forall rec, resp, store :: step(rec, resp, store).aborted ==> !CreatesHit(rec)
    ensures var r := RunWith(step, records, responses, n, w0);
      Creations(r.world.calls) == Creations(w0.calls) + CreatingRecords(r.yielded)
  {
    if n > 0 {
      RunWithCreations(step, records, responses, n - 1, w0);
      var prev := RunWith(step, records, responses, n - 1, w0);
      if !prev.aborted {
        var rec := records[n - 1];
        var e := step(rec, responses[n - 1], prev.world.store);
        CreationsAppend(prev.world.calls, e.issued);
        if !e.aborted {
          assert (prev.yielded + [rec])[..|prev.yielded|] == prev.yielded;
        }
      }
    }
  }

  /** The status of a record, or "" when the status column is absent. */
  function StatusOf(rec: Record): (status: string) {
    if StatusKey in rec.fields then rec.fields[StatusKey] else ""
  }

  predicate IsPending(rec: Record) {
    StatusKey in rec.fields && rec.fields[StatusKey] in {"Draft", "Working"}
  }

  /** A Draft or Working record without a HIT id creates one: on success the
      update is exactly the new HIT id and status Working, on a parameter
      validation error exactly status Error, on any other client error nothing
      is written. */
  lemma CreatePath(config: Config, rec: Record, resp: Responses, store: map<string, Kpi>)
    requires IsPending(rec) && NeedsHit(rec.fields)
    ensures var e := RecordEffect(config, rec, resp, store);
      && e.store == store && !e.aborted
      && e.issued == [CreateHit(Request(config, rec.fields))] +
           match resp.created
           case Created(id) => [UpdateRecord(rec.id, map[HitKey := Text(id), StatusKey := Text("Working")])]
           case ParameterValidationError => [UpdateRecord(rec.id, map[StatusKey := Text("Error")])]
           case OtherClientError => []
  {
  }

  /** A Draft or Working record with a HIT id and a submission reads the first
      assignment only and writes its Finished update. */
  lemma FinishPath(config: Config, rec: Record, resp: Responses, store: map<string, Kpi>)
    requires IsPending(rec) && !NeedsHit(rec.fields) && |resp.assignments| > 0
    ensures RecordEffect(config, rec, resp, store) ==
      Effect(store, [ListAssignments(rec.fields[HitKey], false),
                     UpdateRecord(rec.id, FinishedUpdate(config.fields, resp.assignments[0].answers))], false)
  {
    assert StatusKey in FinishedUpdate(config.fields, resp.assignments[0].answers);
  }

  /** Assignments after the first one never matter. */
  lemma OnlyFirstAssignment(config: Config, rec: Record, resp: Responses, store: map<string, Kpi>)
    requires |resp.assignments| > 0
    ensures RecordEffect(config, rec, resp, store) ==
            RecordEffect(config, rec, resp.(assignments := resp.assignments[..1]), store)
  {
  }

  /** A Draft or Working record with a HIT id and no submission: a Disposed HIT
      is dropped with exactly {HitID: "", Status: null}; any other HIT has its
      expiry extended and no dataset update is issued. */
  lemma WaitPath(config: Config, rec: Record, resp: Responses, store: map<string, Kpi>)
    requires IsPending(rec) && !NeedsHit(rec.fields) && |resp.assignments| == 0
    ensures var hit := rec.fields[HitKey];
      RecordEffect(config, rec, resp, store) ==
      if resp.hitStatus == "Disposed" then
        Effect(store, [ListAssignments(hit, false), GetHit(hit),
                       UpdateRecord(rec.id, map[HitKey := Text(""), StatusKey := Null])], false)
      else
        Effect(store, [ListAssignments(hit, false), GetHit(hit), ExtendExpiration(hit)], false)
  {
  }

  /** An Approved record whose HIT id key is present (even as "") credits the
      first listed worker with one approval and blanks the HIT id; without the
      key nothing happens. */
  lemma ApprovedPath(config: Config, rec: Record, resp: Responses, store: map<string, Kpi>)
    requires StatusOf(rec) == "Approved" && !AbortsAt(rec, resp)
    ensures var e := RecordEffect(config, rec, resp, store);
      && !e.aborted
      && (HitKey !in rec.fields ==> e == Effect(store, [], false))
      && (HitKey in rec.fields ==>
            && e.store == Credited(store, WorkerKey(resp.reviewable[0].workerId), "Approved", 1)
            && e.issued == [ListAssignments(rec.fields[HitKey], true), UpdateRecord(rec.id, map[HitKey := Text("")])])
  {
  }

  /** A Rejected record always ends with the Rejected update, with or without a
      HIT id; with a HIT id and a listed assignment the worker is credited one
      rejection and blocked exactly when the updated counters call for it. */
  lemma RejectedPath(config: Config, rec: Record, resp: Responses, store: map<string, Kpi>)
    requires StatusOf(rec) == "Rejected"
    ensures var e := RecordEffect(config, rec, resp, store);
      var update := UpdateRecord(rec.id, RejectedUpdate(config.fields));
      && !e.aborted
      && (HitKey !in rec.fields || |resp.reviewable| == 0 ==> e.store == store)
      && (HitKey !in rec.fields ==> e.issued == [update])
      && (HitKey in rec.fields && |resp.reviewable| == 0 ==>
            e.issued == [ListAssignments(rec.fields[HitKey], true), update])
      && (HitKey in rec.fields && |resp.reviewable| > 0 ==>
            var a := resp.reviewable[0];
            var key := WorkerKey(a.workerId);
            && e.store == Credited(store, key, "Rejected", 1)
            && e.issued == [ListAssignments(rec.fields[HitKey], true)] +
                 (if ShouldBlock(e.store[key])
                  then [CreateWorkerBlock(a.workerId, BadWork), RejectAssignment(a.assignmentId, BadWork)]
                  else []) +
                 [update])
  {
    var e := RecordEffect(config, rec, resp, store);
    if HitKey in rec.fields && |resp.reviewable| > 0 {
      var a := resp.reviewable[0];
      var key := WorkerKey(a.workerId);
      var store' := Credited(store, key, "Rejected", 1);
      var update := UpdateRecord(rec.id, RejectedUpdate(config.fields));
      assert e.issued == [ListAssignments(rec.fields[HitKey], true)] + BlockCalls(store', key, a.workerId, a.assignmentId) + [update];
      if ShouldBlock(store'[key]) {
        assert e.issued[1] == CreateWorkerBlock(a.workerId, BadWork);
      }
    }
  }

  /** Records with no status, or with Finished, Manual or any status other than
      Draft, Working, Approved and Rejected, are only yielded. */
  lemma PassivePath(config: Config, rec: Record, resp: Responses, store: map<string, Kpi>)
    requires StatusOf(rec) !in {"Draft", "Working", "Approved", "Rejected"}
    ensures RecordEffect(config, rec, resp, store) == Effect(store, [], false)
  {
  }

  /** As written, reject never changes the reputation table and never blocks. */
  lemma RejectAsWrittenIgnoresReputation(hitId: string, listed: seq<Assignment>, store: map<string, Kpi>)
    ensures var e := RejectAsWritten(hitId, listed, store);
      e.store == store && forall c :: c in e.issued ==> !c.CreateWorkerBlock?
  {
  }

  /** A worker with three rejections whose fourth submission is rejected: as
      written the counters stay at 0/3 and no block is issued; as intended they
      become 0/4 and the worker is blocked. */
  lemma RejectNameErrorWitness()
    ensures var store := map[WorkerKey("W1") := Kpi(0, 3)];
      var listed := [Assignment("W1", "A1", [])];
      && RejectAsWritten("H1", listed, store).store[WorkerKey("W1")] == Kpi(0, 3)
      && CreateWorkerBlock("W1", BadWork) !in RejectAsWritten("H1", listed, store).issued
      && RejectEffect("H1", listed, store).store[WorkerKey("W1")] == Kpi(0, 4)
      && CreateWorkerBlock("W1", BadWork) in RejectEffect("H1", listed, store).issued
  {
    var store := map[WorkerKey("W1") := Kpi(0, 3)];
    var listed := [Assignment("W1", "A1", [])];
    var e := RejectEffect("H1", listed, store);
    assert e.store[WorkerKey("W1")] == Kpi(0, 4);
    assert ShouldBlock(Kpi(0, 4));
    assert e.issued[1] == CreateWorkerBlock("W1", BadWork);
  }

  /** As intended, reject credits the listed worker one rejection and blocks
      exactly when the updated counters cross the policy's threshold. */
  lemma RejectEffectSpec(hitId: string, listed: seq<Assignment>, store: map<string, Kpi>)
    ensures var e := RejectEffect(hitId, listed, store);
      && !e.aborted
      && (|listed| == 0 ==> e.store == store && e.issued == [ListAssignments(hitId, true)])
      && (|listed| > 0 ==>
            var w := listed[0];
            var key := WorkerKey(w.workerId);
            && key in e.store
            && e.store[key].rejected == Counters(store, key).rejected + 1
            && e.store[key].approved == Counters(store, key).approved
            && e.store.Keys == store.Keys + {key}
            && (forall k :: k in store && k != key ==> e.store[k] == store[k])
            && e.issued == [ListAssignments(hitId, true)] +
                 (if ShouldBlock(e.store[key])
                  then [CreateWorkerBlock(w.workerId, BadWork), RejectAssignment(w.assignmentId, BadWork)]
                  else []))
  {
    if |listed| > 0 {
      CreditedCounts(store, WorkerKey(listed[0].workerId), "Rejected", 1);
    }
  }

}

/** The workflow driver: the records fetched once at construction, the
    marketplace and dataset calls it issues, and the reputation table it
    updates while it walks the records. */
module Driver {
  import opened Records
  import opened Reputation
  import opened Transitions

  class Crowd {
    const config: Config
    /** The records of the configured view, fetched when the driver is built. */
    const records: seq<Record>
    const reputation: CrowdReputation
    /** Every marketplace call and dataset update issued so far, in order. */
    var calls: seq<Call>

    constructor (config: Config, fetched: seq<Record>, reputation: CrowdReputation)
      ensures this.config == config && records == fetched && this.reputation == reputation
      ensures calls == []
    {
      this.config := config;
      records := fetched;
      this.reputation := reputation;
      calls := [];
    }

    /** The externally visible state: reputation table and call log. */
    function State(): (w: World)
      reads this, reputation
    {
      World(reputation.store, calls)
    }

    /** Credit the worker of the HIT's first submitted or approved assignment
        with one approval. `listed` is what the marketplace lists; with nothing
        listed the indexing raises and `ok` is false. */
    method Approve(hitId: string, listed: seq<Assignment>) returns (ok: bool)
      modifies this, reputation
      ensures calls == old(calls) + [ListAssignments(hitId, true)]
      ensures ok <==> |listed| > 0
      ensures ok ==> reputation.store == Credited(old(reputation.store), WorkerKey(listed[0].workerId), "Approved", 1)
      ensures !ok ==> reputation.store == old(reputation.store)
    {
      calls := calls + [ListAssignments(hitId, true)];
      if |listed| == 0 {
        return false;
      }
      var workerId := listed[0].workerId;
      reputation.Approve(WorkerKey(workerId), 1);
      ok := true;
    }

    /** Reject as intended: credit the worker of the HIT's first listed
        assignment with one rejection, then apply the blocking policy. The code
        as written calls an undefined `Reputation` here, and its bare `except`
        swallows the resulting error, so neither happens there; that behaviour
        is `Transitions.RejectAsWritten`. Any error (nothing listed) is swallowed. */
    method Reject(hitId: string, listed: seq<Assignment>)
      modifies this, reputation
      ensures State() == old(State()).(store := RejectEffect(hitId, listed, old(reputation.store)).store,
                                       calls := old(calls) + RejectEffect(hitId, listed, old(reputation.store)).issued)
    {
      calls := calls + [ListAssignments(hitId, true)];
      if |listed| == 0 {
        return;
      }
      var workerId := listed[0].workerId;
      var assignmentId := listed[0].assignmentId;
      var kpiName := WorkerKey(workerId);
      reputation.Reject(kpiName, 1);
      BlockBadWorkers(kpiName, workerId, assignmentId);
    }

    /** Block the worker and reject the assignment when the worker's counters
        fail the policy. A worker with no entry makes the lookup fail; that
        error ends the method and is swallowed by the caller. */
    method BlockBadWorkers(kpiName: string, workerId: string, assignmentId: string)
      modifies this
      ensures calls == old(calls) + BlockCalls(reputation.store, kpiName, workerId, assignmentId)
    {
      if kpiName !in reputation.store {
        return;
      }
      var kpi := reputation.store[kpiName];
      var count := kpi.approved + kpi.rejected;
      if count == 0 {
        count := 1;
      }
      if count > 3 && 4 * kpi.rejected > count {
        calls := calls + [CreateWorkerBlock(workerId, BadWork), RejectAssignment(assignmentId, BadWork)];
      }
    }

    /** The Draft/Working branch of `iter`: create a HIT when the record has
        none; otherwise collect the first submission's answers, or drop a
        disposed HIT, or extend the HIT's expiry; then write `updated_fields`
        back when it is non-empty. */
    method Advance(record: Record, resp: Responses)
      modifies this
      ensures var p := PendingStep(config, record.fields, resp);
        calls == old(calls) + p.calls + (if |p.update| > 0 then [UpdateRecord(record.id, p.update)] else [])
    {
      var fields := record.fields;
      var updated: map<string, Cell> := map[];
      ghost var p := PendingStep(config, fields, resp);
      if HitKey !in fields || fields[HitKey] == "" {
        calls := calls + [CreateHit(Request(config, fields))];
        match resp.created {
          case Created(id) =>
            updated := updated[HitKey := Text(id)];
            updated := updated[StatusKey := Text("Working")];
          case ParameterValidationError =>
            updated := updated[StatusKey := Text("Error")];
          case OtherClientError =>
        }
      } else {
        var hit := fields[HitKey];
        calls := calls + [ListAssignments(hit, false)];
        if |resp.assignments| > 0 {
          updated := MatchAnswers(config.fields, resp.assignments[0].answers);
          updated := updated[StatusKey := Text("Finished")];
        } else {
          calls := calls + [GetHit(hit)];
          if resp.hitStatus == "Disposed" {
            updated := updated[HitKey := Text("")];
            updated := updated[StatusKey := Null];
          } else {
            calls := calls + [ExtendExpiration(hit)];
          }
        }
      }
      assert updated == p.update && calls == old(calls) + p.calls;
      if |updated| > 0 {
        calls := calls + [UpdateRecord(record.id, updated)];
      }
    }

    /** One pass of the loop in `iter` for one fetched record: issue the calls
        its status calls for, and update the reputation table. `resp` is what
        the marketplace answers meanwhile. `aborted` is true when an approval
        raised, which ends the iteration before the record is yielded. */
    method Process(record: Record, resp: Responses) returns (aborted: bool)
      modifies this, reputation
      ensures var e := RecordEffect(config, record, resp, old(reputation.store));
        aborted == e.aborted && reputation.store == e.store && calls == old(calls) + e.issued
    {
      var fields := record.fields;
      aborted := false;
      if StatusKey !in fields {
        // no status: only yielded
      } else if fields[StatusKey] == "Draft" || fields[StatusKey] == "Working" {
        Advance(record, resp);
      } else if fields[StatusKey] == "Finished" {
        // only yielded
      } else if fields[StatusKey] == "Manual" {
        // only yielded
      } else if fields[StatusKey] == "Approved" {
        if HitKey in fields {
          var ok := Approve(fields[HitKey], resp.reviewable);
          if !ok {
            return true;
          }
          calls := calls + [UpdateRecord(record.id, map[HitKey := Text("")])];
        }
      } else if fields[StatusKey] == "Rejected" {
        if HitKey in fields {
          Reject(fields[HitKey], resp.reviewable);
        }
        calls := calls + [UpdateRecord(record.id, RejectedUpdate(config.fields))];
      }
      // any other status: only yielded
    }

    /** Walk the fetched records in order, process each one and return the
        records yielded. `responses[i]` is what the marketplace answers while
        record `i` is processed. `finished` is false when an approval raised,
        which ends the iteration early. */
    method Iter(responses: seq<Responses>) returns (yielded: seq<Record>, finished: bool)
      requires |responses| == |records|
      modifies this, reputation
      ensures var r := Run(config, records, responses, |records|, old(State()));
        yielded == r.yielded && finished == !r.aborted && State() == r.world
    {
      ghost var w0 := State();
      var i := 0;
      yielded := [];
      finished := true;
      while i < |records|
        invariant 0 <= i <= |records|
        invariant Run(config, records, responses, i, w0) == RunState(yielded, State(), false)
      {
        var record := records[i];
        var aborted := Process(record, responses[i]);
        if aborted {
          finished := false;
          RunStaysAborted(config, records, responses, i + 1, |records|, w0);
          return;
        }
        yielded := yielded + [record];
        i := i + 1;
      }
    }
  }
}

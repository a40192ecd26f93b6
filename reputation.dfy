/** Worker reputation: the per-worker approved/rejected counters kept in the
    reputation table, and the policy that decides when a worker is blocked. */
module Reputation {

  /** The counters stored for one worker key. */
  datatype Kpi = Kpi(approved: nat, rejected: nat)

  /** The key under which a marketplace worker's counters are stored. */
  function WorkerKey(workerId: string): (key: string)
    ensures |key| == |workerId| + 6 && key[..6] == "MTurk:" && key[6..] == workerId
  {
    "MTurk:" + workerId
  }

  /** Distinct workers never share counters. */
  lemma WorkerKeyInjective(a: string, b: string)
    ensures WorkerKey(a) == WorkerKey(b) ==> a == b
  {
    if WorkerKey(a) == WorkerKey(b) {
      assert a == WorkerKey(a)[6..] == WorkerKey(b)[6..] == b;
    }
  }

  /** Get-or-create: the stored counters, or fresh 0/0 counters. */
  function Counters(store: map<string, Kpi>, worker: string): (k: Kpi) {
    if worker in store then store[worker] else Kpi(0, 0)
  }

  /** The counters after adding `amount` for `status`; any status other than
      "Approved" and "Rejected" adds nothing. */
  function Bumped(k: Kpi, status: string, amount: nat): (b: Kpi) {
    if status == "Approved" then k.(approved := k.approved + amount)
    else if status == "Rejected" then k.(rejected := k.rejected + amount)
    else k
  }

  /** The store after one increment-and-save. */
  function Credited(store: map<string, Kpi>, worker: string, status: string, amount: nat): (s: map<string, Kpi>) {
    store[worker := Bumped(Counters(store, worker), status, amount)]
  }

  /** An increment adds `amount` to the approved counter for "Approved", to the
      rejected counter for "Rejected", and to neither otherwise; an unknown
      worker starts from 0/0; the worker is stored afterwards, and every other
      worker's entry is as it was. */
  lemma CreditedCounts(store: map<string, Kpi>, worker: string, status: string, amount: nat)
    ensures var s := Credited(store, worker, status, amount);
      && s.Keys == store.Keys + {worker}
      && s[worker].approved == (if worker in store then store[worker].approved else 0) + (if status == "Approved" then amount else 0)
      && s[worker].rejected == (if worker in store then store[worker].rejected else 0) + (if status == "Rejected" then amount else 0)
      && forall w :: w in store && w != worker ==> s[w] == store[w]
  {
  }

  /** Approving is not idempotent: each approval of the same worker counts. */
  lemma ApprovalsAccumulate(store: map<string, Kpi>, worker: string)
    ensures Credited(Credited(store, worker, "Approved", 1), worker, "Approved", 1)[worker].approved
            == Counters(store, worker).approved + 2
  {
  }

  /** The blocking policy over naturals: the sample count, floored to 1, is
      above 3 and more than a quarter of the samples were rejected. */
  predicate ShouldBlock(k: Kpi) {
    var count := if k.approved + k.rejected == 0 then 1 else k.approved + k.rejected;
    count > 3 && 4 * k.rejected > count
  }

  /** The integer form agrees with the source's rate test in exact rationals:
      count > 3 and (1 - rejected / count) * 100 < 75. */
  lemma ShouldBlockIsRateTest(k: Kpi)
    ensures var count := if k.approved + k.rejected == 0 then 1 else k.approved + k.rejected;
      ShouldBlock(k) <==> count > 3 && (1.0 - (k.rejected as real) / (count as real)) * 100.0 < 75.0
  {
    var count := if k.approved + k.rejected == 0 then 1 else k.approved + k.rejected;
    RateBelow75(k.rejected as real, count as real);
  }

  /** Over the rationals, (1 - r / c) * 100 < 75 holds exactly when 4r > c. */
  lemma RateBelow75(r: real, c: real)
    requires c > 0.0
    ensures (1.0 - r / c) * 100.0 < 75.0 <==> 4.0 * r > c
  {
    var q := r / c;
    assert r == q * c;
    MultiplyBothSides(1.0, 4.0 * q, c);
    assert 4.0 * q * c == 4.0 * r;
  }

  lemma MultiplyBothSides(a: real, b: real, c: real)
    requires c > 0.0
    ensures a < b <==> a * c < b * c
  {
    if a < b {
      assert (b - a) * c > 0.0;
    } else {
      assert (a - b) * c >= 0.0;
    }
  }

  /** The boundaries of the policy: three samples never block, four all
      rejected or half rejected block, and exactly 75% success does not. */
  lemma BlockingBoundaries()
    ensures !ShouldBlock(Kpi(0, 3))
    ensures ShouldBlock(Kpi(2, 2)) && ShouldBlock(Kpi(0, 4))
    ensures !ShouldBlock(Kpi(3, 1))
    ensures !ShouldBlock(Kpi(0, 0))
  {
  }

  /** One more rejection never lifts a block. */
  lemma RejectionKeepsBlock(k: Kpi)
    requires ShouldBlock(k)
    ensures ShouldBlock(Bumped(k, "Rejected", 1))
  {
  }

  /** The reputation table: worker key -> counters. */
  class CrowdReputation {
    var store: map<string, Kpi>

    constructor (initial: map<string, Kpi>)
      ensures store == initial
    {
      store := initial;
    }

    /** Fetch or create the worker's counters, add `amount` to the one named by
        `status`, and save. */
    method Increment(worker: string, status: string, amount: nat)
      modifies this
      ensures store == old(store)[worker := Bumped(Counters(old(store), worker), status, amount)]
      ensures worker in store
    {
      var kpi: Kpi;
      if worker in store {
        kpi := store[worker];
      } else {
        kpi := Kpi(0, 0);
      }
      if status == "Approved" {
        kpi := kpi.(approved := kpi.approved + amount);
      } else if status == "Rejected" {
        kpi := kpi.(rejected := kpi.rejected + amount);
      }
      store := store[worker := kpi];
    }

    method Approve(worker: string, amount: nat)
      modifies this
      ensures store == Credited(old(store), worker, "Approved", amount)
    {
      Increment(worker, "Approved", amount);
    }

    method Reject(worker: string, amount: nat)
      modifies this
      ensures store == Credited(old(store), worker, "Rejected", amount)
    {
      Increment(worker, "Rejected", amount);
    }
  }
}

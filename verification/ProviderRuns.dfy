/** Whole runs of provider calls: telemetry conservation, the end-to-end rate bound, and
    fail-fast behaviour of the circuit. */
module ProviderRuns {
  import opened SlidingWindow
  import opened BudgetStores
  import opened Circuits
  import opened ControlPlanes
  import opened ProviderRuntime

  function Run(s: RuntimeState, calls: seq<Call>): RuntimeState
    decreases |calls|
  {
    if calls == [] then s else Run(Execute(s, calls[0]).state, calls[1..])
  }

  const START := RuntimeState(map[], map[], map[], map[], [], [], [])

  // ---------- calls on other keys ----------

  /** Everything the runtime keeps about `k` is the same in both states. */
  ghost predicate SameFor(s: RuntimeState, s': RuntimeState, k: Key) {
    && TelemetryOf(s'.telemetry, k) == TelemetryOf(s.telemetry, k)
    && Deque(s'.budgets, k) == Deque(s.budgets, k)
    && CircuitOf(s'.circuits, k) == CircuitOf(s.circuits, k)
    && Stamps(s'.starts, k) == Stamps(s.starts, k)
    && Replay(s'.ended, k) == Replay(s.ended, k)
  }

  lemma FinishLeavesOthers(s: RuntimeState, call: Call, status: Status, n: nat, retries: nat, k: Key)
    requires k != call.key
    ensures SameFor(s, Finish(s, call, status, n, retries), k)
  {
    assert (s.ended + [EventOf(call, status, n, retries)])[..|s.ended|] == s.ended;
  }

  lemma AfterStartLeavesOthers(s: RuntimeState, call: Call, attempt: nat, k: Key)
    requires k != call.key
    ensures SameFor(s, Asked(s, call, attempt).0, k) && SameFor(s, AfterStart(s, call, attempt), k)
    ensures SameFor(s, AfterRun(s, call, attempt), k)
  {
    assert (s.starts + [Start(call.key, call.attempts(attempt).now)])[..|s.starts|] == s.starts;
  }

  lemma EndLeavesOthers(s: RuntimeState, call: Call, attempt: nat, k: Key)
    requires k != call.key
    ensures SameFor(s, EndAt(s, call, attempt).state, k)
  {
    var a, s1, s2 := call.attempts(attempt), Asked(s, call, attempt).0, AfterRun(s, call, attempt);
    AfterStartLeavesOthers(s, call, attempt, k);
    if !Asked(s, call, attempt).1 {
      FinishLeavesOthers(s1, call, LocalRateLimit, attempt, attempt, k);
    } else {
      match a.outcome
      case Returned(value) =>
        FinishLeavesOthers(Succeeded(s2, call, value, a.filledAt), call, Success, attempt + 1, attempt, k);
      case Raised(_, _) =>
        FinishLeavesOthers(FailedAt(s2, call, a.failedAt), call, Failed, attempt + 1, attempt, k);
      case Interrupted =>
        FinishLeavesOthers(AfterStart(s, call, attempt), call, Unrecorded, attempt + 1, attempt, k);
    }
  }

  lemma {:induction false} AttemptsLeaveOthers(s: RuntimeState, call: Call, attempt: nat, k: Key)
    requires attempt <= call.config.maxRetries && k != call.key
    ensures SameFor(s, Attempts(s, call, attempt).state, k)
    decreases call.config.maxRetries - attempt
  {
    if GoesRound(s, call, attempt) {
      AfterStartLeavesOthers(s, call, attempt, k);
      AttemptsLeaveOthers(NextTry(s, call, attempt), call, attempt + 1, k);
    } else {
      EndLeavesOthers(s, call, attempt, k);
    }
  }

  /** Calls on one key do not touch the telemetry, budget, circuit or events of another. */
  lemma ExecuteLeavesOthers(s: RuntimeState, call: Call, k: Key)
    requires k != call.key
    ensures SameFor(s, Execute(s, call).state, k)
  {
    var s1, s2, s' := CallCounted(s, call.key), BeforeAttempts(s, call), Execute(s, call).state;
    assert SameFor(s, s1, k) && SameFor(s, s2, k);
    if CachedValue(s, call).Some? {
      assert s' == Finish(s1, call, CacheHit, 0, 0);
      FinishLeavesOthers(s1, call, CacheHit, 0, 0, k);
    } else if IsOpen(CircuitOf(s2.circuits, call.key), call.now) {
      assert s' == Finish(s2, call, CircuitOpen, 0, 0);
      FinishLeavesOthers(s2, call, CircuitOpen, 0, 0, k);
    } else {
      AttemptsLeaveOthers(s2, call, 0, k);
    }
  }

  // ---------- conservation of telemetry ----------

  function AddEvent(t: Telemetry, e: Event): Telemetry {
    CountStatus(t.(logicalCalls := t.logicalCalls + 1, attempts := t.attempts + e.attempts,
                   retries := t.retries + e.retries, cost := t.cost + e.cost), e.status)
  }

  /** The telemetry one reconstructs from the recorded events of one key. */
  function Replay(events: seq<Event>, k: Key): Telemetry {
    if events == [] then ZERO
    else
      var last, t := events[|events| - 1], Replay(events[..|events| - 1], k);
      if last.key == k then AddEvent(t, last) else t
  }

  /** The counters of a call that has made `n` attempts, `paid` of them paid for and `r` of them
      retried, and has not ended. */
  function PlusInFlight(t: Telemetry, n: nat, paid: nat, r: nat, cost: real): Telemetry {
    t.(logicalCalls := t.logicalCalls + 1, attempts := t.attempts + n, retries := t.retries + r,
       cost := t.cost + CostOf(paid, cost))
  }

  lemma FinishReplays(s: RuntimeState, call: Call, status: Status, n: nat, r: nat, before: seq<Event>)
    requires s.ended == before
    requires TelemetryOf(s.telemetry, call.key)
          == PlusInFlight(Replay(before, call.key), n, Paid(status, n), r, call.config.cost)
    ensures var s' := Finish(s, call, status, n, r);
            TelemetryOf(s'.telemetry, call.key) == Replay(s'.ended, call.key)
  {
    var s' := Finish(s, call, status, n, r);
    assert s'.ended[..|s'.ended| - 1] == before;
  }

  lemma {:induction false} AttemptsReplay(s: RuntimeState, call: Call, attempt: nat)
    requires attempt <= call.config.maxRetries
    requires TelemetryOf(s.telemetry, call.key)
          == PlusInFlight(Replay(s.ended, call.key), attempt, attempt, attempt, call.config.cost)
    ensures var s' := Attempts(s, call, attempt).state;
            TelemetryOf(s'.telemetry, call.key) == Replay(s'.ended, call.key)
    decreases call.config.maxRetries - attempt
  {
    if GoesRound(s, call, attempt) {
      RoundReplays(s, call, attempt);
      AttemptsReplay(NextTry(s, call, attempt), call, attempt + 1);
    } else {
      EndReplays(s, call, attempt);
    }
  }

  lemma RoundReplays(s: RuntimeState, call: Call, attempt: nat)
    requires TelemetryOf(s.telemetry, call.key)
          == PlusInFlight(Replay(s.ended, call.key), attempt, attempt, attempt, call.config.cost)
    ensures TelemetryOf(AfterStart(s, call, attempt).telemetry, call.key)
         == PlusInFlight(Replay(s.ended, call.key), attempt + 1, attempt, attempt, call.config.cost)
    ensures TelemetryOf(AfterRun(s, call, attempt).telemetry, call.key)
         == PlusInFlight(Replay(s.ended, call.key), attempt + 1, attempt + 1, attempt, call.config.cost)
    ensures TelemetryOf(NextTry(s, call, attempt).telemetry, call.key)
         == PlusInFlight(Replay(s.ended, call.key), attempt + 1, attempt + 1, attempt + 1, call.config.cost)
  {
  }

  lemma EndReplays(s: RuntimeState, call: Call, attempt: nat)
    requires TelemetryOf(s.telemetry, call.key)
          == PlusInFlight(Replay(s.ended, call.key), attempt, attempt, attempt, call.config.cost)
    ensures var s' := EndAt(s, call, attempt).state;
            TelemetryOf(s'.telemetry, call.key) == Replay(s'.ended, call.key)
  {
    var a, s2 := call.attempts(attempt), AfterRun(s, call, attempt);
    RoundReplays(s, call, attempt);
    if !Asked(s, call, attempt).1 {
      FinishReplays(Asked(s, call, attempt).0, call, LocalRateLimit, attempt, attempt, s.ended);
    } else {
      match a.outcome
      case Returned(value) =>
        FinishReplays(Succeeded(s2, call, value, a.filledAt), call, Success, attempt + 1, attempt, s.ended);
      case Raised(_, _) =>
        FinishReplays(FailedAt(s2, call, a.failedAt), call, Failed, attempt + 1, attempt, s.ended);
      case Interrupted =>
        FinishReplays(AfterStart(s, call, attempt), call, Unrecorded, attempt + 1, attempt, s.ended);
    }
  }

  lemma ExecuteReplays(s: RuntimeState, call: Call)
    requires TelemetryOf(s.telemetry, call.key) == Replay(s.ended, call.key)
    ensures var s' := Execute(s, call).state;
            TelemetryOf(s'.telemetry, call.key) == Replay(s'.ended, call.key)
  {
    var s1, s2 := CallCounted(s, call.key), BeforeAttempts(s, call);
    assert TelemetryOf(s1.telemetry, call.key)
        == PlusInFlight(Replay(s.ended, call.key), 0, 0, 0, call.config.cost);
    FinishReplays(s1, call, CacheHit, 0, 0, s.ended);
    FinishReplays(s2, call, CircuitOpen, 0, 0, s.ended);
    AttemptsReplay(s2, call, 0);
  }

  /** After every completed call the counters of a key are what the ends of its calls replay to. */
  lemma {:induction false} TelemetryReplaysCalls(s: RuntimeState, calls: seq<Call>, k: Key)
    requires TelemetryOf(s.telemetry, k) == Replay(s.ended, k)
    ensures TelemetryOf(Run(s, calls).telemetry, k) == Replay(Run(s, calls).ended, k)
    decreases |calls|
  {
    if calls != [] {
      if calls[0].key == k {
        ExecuteReplays(s, calls[0]);
      } else {
        ExecuteLeavesOthers(s, calls[0], k);
      }
      TelemetryReplaysCalls(Execute(s, calls[0]).state, calls[1..], k);
    }
  }

  /** One logical call: every attempt but a final one was retried, and all but an interrupted one
      were charged. */
  ghost predicate EventOk(e: Event, cost: real) {
    && e.attempts == e.retries + (if e.status.Failed? || e.status.Success? || e.status.Unrecorded? then 1 else 0)
    && e.cost == CostOf(Paid(e.status, e.attempts), cost)
  }

  ghost predicate EventsOk(events: seq<Event>, k: Key, cost: real) {
    forall i :: 0 <= i < |events| && events[i].key == k ==> EventOk(events[i], cost)
  }

  /** One unit cost is configured for the provider `k` throughout. */
  ghost predicate OneCost(calls: seq<Call>, k: Key, cost: real) {
    forall i :: 0 <= i < |calls| && calls[i].key == k ==> calls[i].config.cost == cost
  }

  lemma EndsOnce(s: RuntimeState, call: Call, attempt: nat) returns (e: Event)
    requires !GoesRound(s, call, attempt)
    ensures EndAt(s, call, attempt).state.ended == s.ended + [e]
    ensures EndAt(s, call, attempt).state.events == Persisted(s.events, e)
    ensures e.key == call.key && EventOk(e, call.config.cost)
  {
    if !Asked(s, call, attempt).1 {
      e := EventOf(call, LocalRateLimit, attempt, attempt);
    } else {
      var outcome := call.attempts(attempt).outcome;
      var status := if outcome.Returned? then Success else if outcome.Raised? then Failed else Unrecorded;
      e := EventOf(call, status, attempt + 1, attempt);
    }
  }

  lemma {:induction false} AttemptsEndOnce(s: RuntimeState, call: Call, attempt: nat)
    returns (e: Event)
    requires attempt <= call.config.maxRetries
    ensures Attempts(s, call, attempt).state.ended == s.ended + [e]
    ensures Attempts(s, call, attempt).state.events == Persisted(s.events, e)
    ensures e.key == call.key && EventOk(e, call.config.cost)
    decreases call.config.maxRetries - attempt
  {
    if GoesRound(s, call, attempt) {
      e := AttemptsEndOnce(NextTry(s, call, attempt), call, attempt + 1);
    } else {
      e := EndsOnce(s, call, attempt);
    }
  }

  /** Each call ends exactly once, in one event; inside a workspace that event is persisted. */
  lemma ExecuteEndsOnce(s: RuntimeState, call: Call) returns (e: Event)
    ensures Execute(s, call).state.ended == s.ended + [e]
    ensures Execute(s, call).state.events == Persisted(s.events, e)
    ensures e.key == call.key && EventOk(e, call.config.cost)
  {
    var s2, s' := BeforeAttempts(s, call), Execute(s, call).state;
    if CachedValue(s, call).Some? || IsOpen(CircuitOf(s2.circuits, call.key), call.now) {
      e := s'.ended[|s.ended|];
    } else {
      e := AttemptsEndOnce(s2, call, 0);
    }
  }

  function InWorkspaces(events: seq<Event>): seq<Event> {
    if events == [] then []
    else Persisted(InWorkspaces(events[..|events| - 1]), events[|events| - 1])
  }

  lemma {:induction false} RunEndsCalls(s: RuntimeState, calls: seq<Call>, k: Key, cost: real)
    requires EventsOk(s.ended, k, cost) && OneCost(calls, k, cost) && s.events == InWorkspaces(s.ended)
    ensures EventsOk(Run(s, calls).ended, k, cost)
    ensures |Run(s, calls).ended| == |s.ended| + |calls|
    ensures Run(s, calls).events == InWorkspaces(Run(s, calls).ended)
    decreases |calls|
  {
    if calls != [] {
      var e := ExecuteEndsOnce(s, calls[0]);
      assert (s.ended + [e])[..|s.ended|] == s.ended;
      RunEndsCalls(Execute(s, calls[0]).state, calls[1..], k, cost);
    }
  }

  // The laws of the counters follow from those of the single events.

  lemma {:induction false} CostIsProduct(n: nat, cost: real)
    ensures CostOf(n, cost) == n as real * cost
  {
    if n != 0 {
      CostIsProduct(n - 1, cost);
      assert n as real * cost == (n - 1) as real * cost + cost;
    }
  }

  lemma {:induction false} CostsAdd(m: nat, n: nat, cost: real)
    ensures CostOf(m + n, cost) == CostOf(m, cost) + CostOf(n, cost)
  {
    if n != 0 {
      CostsAdd(m, n - 1, cost);
    }
  }

  /** How many calls of `k` were interrupted. */
  function Interruptions(events: seq<Event>, k: Key): nat {
    if events == [] then 0
    else
      var last := events[|events| - 1];
      Interruptions(events[..|events| - 1], k) + (if last.key == k && last.status.Unrecorded? then 1 else 0)
  }

  /** Every logical call ended in exactly one way or was interrupted; every attempt succeeded, failed
      for good, was retried or was interrupted; the cost is that of the attempts not interrupted. */
  ghost predicate Accounted(t: Telemetry, cost: real, interrupted: nat) {
    && t.logicalCalls == t.cacheHits + t.circuitRejections + t.rateLimited + t.failures + t.successes + interrupted
    && t.attempts == t.successes + t.failures + t.retries + interrupted
    && t.cost == CostOf(t.successes + t.failures + t.retries, cost)
  }

  /** The laws the counters are meant to obey. */
  ghost predicate Balanced(t: Telemetry, cost: real) {
    && t.logicalCalls == t.cacheHits + t.circuitRejections + t.rateLimited + t.failures + t.successes
    && t.attempts == t.successes + t.failures + t.retries
    && t.cost == CostOf(t.attempts, cost)
  }

  lemma AddEventAccounts(t: Telemetry, e: Event, cost: real, interrupted: nat)
    requires Accounted(t, cost, interrupted) && EventOk(e, cost)
    ensures Accounted(AddEvent(t, e), cost, interrupted + if e.status.Unrecorded? then 1 else 0)
  {
    CostsAdd(t.successes + t.failures + t.retries, Paid(e.status, e.attempts), cost);
  }

  lemma {:induction false} ReplayAccounts(events: seq<Event>, k: Key, cost: real)
    requires EventsOk(events, k, cost)
    ensures Accounted(Replay(events, k), cost, Interruptions(events, k))
  {
    if events != [] {
      var init, last := events[..|events| - 1], events[|events| - 1];
      ReplayAccounts(init, k, cost);
      if last.key == k {
        AddEventAccounts(Replay(init, k), last, cost, Interruptions(init, k));
      }
    }
  }

  /** Conservation after every completed call, for any behaviour of the provider functions; and the
      counters balance by themselves exactly when no call of the key was interrupted. */
  lemma TelemetryIsConserved(calls: seq<Call>, k: Key, cost: real)
    requires OneCost(calls, k, cost)
    ensures var t, n := TelemetryOf(Run(START, calls).telemetry, k), Interruptions(Run(START, calls).ended, k);
            Accounted(t, cost, n) && (Balanced(t, cost) <==> n == 0)
  {
    TelemetryReplaysCalls(START, calls, k);
    RunEndsCalls(START, calls, k, cost);
    ReplayAccounts(Run(START, calls).ended, k, cost);
  }

  lemma PersistedReplays(events: seq<Event>, e: Event, k: Key)
    requires k.scope != "GLOBAL"
    ensures Replay(Persisted(events, e), k)
         == if e.key == k && !e.status.Unrecorded? then AddEvent(Replay(events, k), e) else Replay(events, k)
  {
    assert (events + [e])[..|events|] == events;
  }

  lemma {:induction false} WorkspaceReplay(events: seq<Event>, k: Key)
    requires k.scope != "GLOBAL"
    ensures Replay(InWorkspaces(events), k).logicalCalls + Interruptions(events, k) == Replay(events, k).logicalCalls
    ensures Interruptions(events, k) == 0 ==> Replay(InWorkspaces(events), k) == Replay(events, k)
  {
    if events != [] {
      var init, last := events[..|events| - 1], events[|events| - 1];
      WorkspaceReplay(init, k);
      PersistedReplays(InWorkspaces(init), last, k);
    }
  }

  /** Inside a workspace the persisted events alone account for every counter exactly when no call
      was interrupted. */
  lemma PersistedEventsReplayTelemetry(calls: seq<Call>, k: Key, cost: real)
    requires k.scope != "GLOBAL" && OneCost(calls, k, cost)
    ensures TelemetryOf(Run(START, calls).telemetry, k) == Replay(Run(START, calls).events, k)
       <==> Interruptions(Run(START, calls).ended, k) == 0
  {
    TelemetryReplaysCalls(START, calls, k);
    RunEndsCalls(START, calls, k, cost);
    WorkspaceReplay(Run(START, calls).ended, k);
  }

  // ---------- the rate bound ----------

  /** The stamps of the provider function's starts for one key, in order. */
  function Stamps(starts: seq<Start>, k: Key): seq<real> {
    if starts == [] then []
    else
      var last := starts[|starts| - 1];
      Stamps(starts[..|starts| - 1], k) + (if last.key == k then [last.at] else [])
  }

  /** How many stamps lie in the half-open window (t - 60, t]. */
  function CountIn(stamps: seq<real>, t: real): nat {
    if stamps == [] then 0
    else
      var last := stamps[|stamps| - 1];
      CountIn(stamps[..|stamps| - 1], t) + (if t - 60.0 < last <= t then 1 else 0)
  }

  /** Stamps `limit` or more places apart are at least a window apart. */
  ghost predicate Spaced(stamps: seq<real>, limit: nat) {
    forall i, j :: 0 <= i && i + limit <= j < |stamps| ==> stamps[i] <= stamps[j] - WINDOW
  }

  /** The deque is the tail of the accepted stamps, and what it dropped is out of every window
      that ends at `last` or later. */
  ghost predicate RateInv(stamps: seq<real>, q: seq<real>, limit: nat, last: real) {
    && Sorted(stamps) && AtMost(stamps, last) && Spaced(stamps, limit)
    && |q| <= |stamps| && q == stamps[|stamps| - |q|..]
    && forall i :: 0 <= i < |stamps| - |q| ==> stamps[i] <= last - WINDOW
  }

  lemma {:induction false} CountFrom(stamps: seq<real>, t: real, m: nat)
    requires m <= |stamps|
    requires forall i :: 0 <= i < m ==> stamps[i] <= t - WINDOW
    ensures CountIn(stamps, t) <= |stamps| - m
    ensures (forall i :: m <= i < |stamps| ==> t - WINDOW < stamps[i] <= t) ==> CountIn(stamps, t) == |stamps| - m
  {
    if stamps != [] {
      var init := stamps[..|stamps| - 1];
      if m < |stamps| {
        CountFrom(init, t, m);
      } else {
        CountFrom(init, t, m - 1);
      }
    }
  }

  /** Spaced stamps put at most `limit` of themselves in any window. */
  lemma {:induction false} SpacedBoundsWindow(stamps: seq<real>, limit: nat, t: real)
    requires Sorted(stamps) && Spaced(stamps, limit)
    ensures CountIn(stamps, t) <= limit
  {
    if stamps != [] {
      var n := |stamps| - 1;
      if t - WINDOW < stamps[n] <= t {
        var m := if n + 1 <= limit then 0 else n + 1 - limit;
        if m > 0 {
          forall i | 0 <= i < m ensures stamps[i] <= t - WINDOW {
            assert stamps[i] <= stamps[n] - WINDOW;
          }
        }
        CountFrom(stamps, t, m);
      } else {
        SpacedBoundsWindow(stamps[..n], limit, t);
      }
    }
  }

  /** What survives head-popping is exactly the part of the accepted stamps still in the window. */
  lemma LiveIsTail(stamps: seq<real>, q: seq<real>, limit: nat, last: real, now: real) returns (m: nat)
    requires RateInv(stamps, q, limit, last) && last <= now
    ensures m <= |stamps| && PopExpired(q, now - WINDOW) == stamps[m..]
    ensures forall i :: 0 <= i < m ==> stamps[i] <= now - WINDOW
    ensures forall i :: m <= i < |stamps| ==> now - WINDOW < stamps[i] <= now
  {
    var d := |stamps| - |q|;
    assert q == stamps[d..];
    var n := PopExpiredKeepsLive(q, now - WINDOW);
    m := d + n;
    TailOfTail(stamps, q, d, n);
    forall i | 0 <= i < m ensures stamps[i] <= now - WINDOW {
      if i >= d { assert stamps[i] == q[i - d]; }
    }
    forall i | m <= i < |stamps| ensures now - WINDOW < stamps[i] <= now { assert stamps[i] == q[i - d]; }
  }

  lemma TailOfTail(stamps: seq<real>, q: seq<real>, d: nat, n: nat)
    requires d <= |stamps| && q == stamps[d..] && n <= |q|
    ensures q[n..] == stamps[d + n..]
  {
  }

  lemma GrantKeepsRate(stamps: seq<real>, m: nat, limit: nat, now: real)
    requires Sorted(stamps) && AtMost(stamps, now) && Spaced(stamps, limit)
    requires m <= |stamps| && |stamps| - m < limit
    requires forall i :: 0 <= i < m ==> stamps[i] <= now - WINDOW
    ensures RateInv(stamps + [now], stamps[m..] + [now], limit, now)
  {
    var stamps' := stamps + [now];
    assert stamps[m..] + [now] == stamps'[m..];
    forall i, j | 0 <= i && i + limit <= j < |stamps'| ensures stamps'[i] <= stamps'[j] - WINDOW {
      if j == |stamps| { assert i < m; }
    }
  }

  /** One budget charge keeps the invariant, and is granted exactly when the window that ends
      now holds fewer than `limit` starts. */
  lemma AdmitKeepsRate(stamps: seq<real>, q: seq<real>, limit: nat, last: real, now: real)
    requires RateInv(stamps, q, limit, last) && last <= now
    ensures RateInv(if Admit(q, now, limit).1 then stamps + [now] else stamps, Admit(q, now, limit).0, limit, now)
    ensures Admit(q, now, limit).1 <==> CountIn(stamps, now) < limit
  {
    if limit == 0 {
      RateInvLater(stamps, q, limit, last, now);
    } else {
      var m := LiveIsTail(stamps, q, limit, last, now);
      CountFrom(stamps, now, m);
      if |stamps| - m < limit {
        GrantKeepsRate(stamps, m, limit, now);
      } else {
        RefusalKeepsRate(stamps, m, limit, now);
      }
    }
  }

  lemma RefusalKeepsRate(stamps: seq<real>, m: nat, limit: nat, now: real)
    requires Sorted(stamps) && AtMost(stamps, now) && Spaced(stamps, limit)
    requires m <= |stamps| && forall i :: 0 <= i < m ==> stamps[i] <= now - WINDOW
    ensures RateInv(stamps, stamps[m..], limit, now)
  {
  }

  /** The clock readings charged to the budget never go back, within a call and between calls;
      readings of attempts that are not made do not matter beyond that. */
  ghost predicate ClockedCall(call: Call, from: real) {
    && from <= call.attempts(0).now
    && forall i: nat, j: nat :: i <= j ==> call.attempts(i).now <= call.attempts(j).now
  }

  function EndOf(call: Call): real { call.attempts(call.config.maxRetries).now }

  ghost predicate Clocked(calls: seq<Call>, from: real)
    decreases |calls|
  {
    calls == [] || (ClockedCall(calls[0], from) && Clocked(calls[1..], EndOf(calls[0])))
  }

  function LastReading(calls: seq<Call>, from: real): real {
    if calls == [] then from else EndOf(calls[|calls| - 1])
  }

  ghost predicate OneLimit(calls: seq<Call>, k: Key, limit: nat) {
    forall i :: 0 <= i < |calls| && calls[i].key == k ==> calls[i].config.limit == limit
  }

  lemma RateInvLater(stamps: seq<real>, q: seq<real>, limit: nat, last: real, later: real)
    requires RateInv(stamps, q, limit, last) && last <= later
    ensures RateInv(stamps, q, limit, later)
  {
  }

  lemma StartedStamps(s: RuntimeState, k: Key, now: real)
    ensures Stamps(Started(s, k, now).starts, k) == Stamps(s.starts, k) + [now]
  {
    assert (s.starts + [Start(k, now)])[..|s.starts|] == s.starts;
  }

  /** A relation between accepted stamps, deque and time that every budget charge keeps. */
  type Charging = (seq<real>, seq<real>, real) -> bool

  ghost predicate KeptByCharges(P: Charging, limit: int) {
    forall stamps, q, last: real, now: real :: P(stamps, q, last) && last <= now ==>
      P(if Admit(q, now, limit).1 then stamps + [now] else stamps, Admit(q, now, limit).0, now)
  }

  /** The relation, as it holds of the runtime for one key at some time up to `end`. */
  ghost predicate HoldsBy(P: Charging, s: RuntimeState, k: Key, end: real) {
    exists last :: last <= end && P(Stamps(s.starts, k), Deque(s.budgets, k), last)
  }

  /** Ending a call, storing its result or recording its failure charges no budget. */
  lemma EndChargesNothing(s: RuntimeState, call: Call, attempt: nat)
    ensures var charged, s' := Asked(s, call, attempt), EndAt(s, call, attempt).state;
            && s'.budgets == charged.0.budgets
            && s'.starts == if charged.1 then s.starts + [Start(call.key, call.attempts(attempt).now)] else s.starts
  {
  }

  lemma ChargeKeeps(P: Charging, s: RuntimeState, k: Key, now: real, limit: int)
    requires KeptByCharges(P, limit) && HoldsBy(P, s, k, now)
    ensures var (budgets, ok) := MemoryConsume(s.budgets, k, now, limit);
            P(if ok then Stamps(s.starts, k) + [now] else Stamps(s.starts, k), Deque(budgets, k), now)
  {
    var last :| last <= now && P(Stamps(s.starts, k), Deque(s.budgets, k), last);
    var (q', ok) := Admit(Deque(s.budgets, k), now, limit);
    assert P(if ok then Stamps(s.starts, k) + [now] else Stamps(s.starts, k), q', now);
  }

  lemma {:induction false} AttemptsKeep(P: Charging, s: RuntimeState, call: Call, attempt: nat)
    requires attempt <= call.config.maxRetries && KeptByCharges(P, call.config.limit)
    requires HoldsBy(P, s, call.key, call.attempts(attempt).now)
    requires forall i: nat, j: nat :: i <= j ==> call.attempts(i).now <= call.attempts(j).now
    ensures HoldsBy(P, Attempts(s, call, attempt).state, call.key, EndOf(call))
    decreases call.config.maxRetries - attempt
  {
    assert call.attempts(attempt).now <= call.attempts(attempt + 1).now;
    if GoesRound(s, call, attempt) {
      RoundKeeps(P, s, call, attempt);
      AttemptsKeep(P, NextTry(s, call, attempt), call, attempt + 1);
    } else {
      assert call.attempts(attempt).now <= EndOf(call);
      EndKeeps(P, s, call, attempt, EndOf(call));
    }
  }

  lemma EndKeeps(P: Charging, s: RuntimeState, call: Call, attempt: nat, end: real)
    requires KeptByCharges(P, call.config.limit) && HoldsBy(P, s, call.key, call.attempts(attempt).now)
    requires call.attempts(attempt).now <= end
    ensures HoldsBy(P, EndAt(s, call, attempt).state, call.key, end)
  {
    ChargeKeeps(P, s, call.key, call.attempts(attempt).now, call.config.limit);
    StartedStamps(s, call.key, call.attempts(attempt).now);
    EndChargesNothing(s, call, attempt);
  }

  lemma RoundKeeps(P: Charging, s: RuntimeState, call: Call, attempt: nat)
    requires GoesRound(s, call, attempt) && KeptByCharges(P, call.config.limit)
    requires HoldsBy(P, s, call.key, call.attempts(attempt).now)
    requires call.attempts(attempt).now <= call.attempts(attempt + 1).now
    ensures HoldsBy(P, NextTry(s, call, attempt), call.key, call.attempts(attempt + 1).now)
  {
    var now, k := call.attempts(attempt).now, call.key;
    ChargeKeeps(P, s, k, now, call.config.limit);
    StartedStamps(s, k, now);
  }

  lemma ExecuteKeeps(P: Charging, s: RuntimeState, call: Call, k: Key, last: real)
    requires HoldsBy(P, s, k, last) && ClockedCall(call, last)
    requires call.key == k ==> KeptByCharges(P, call.config.limit)
    ensures HoldsBy(P, Execute(s, call).state, k, EndOf(call))
  {
    assert last <= call.attempts(0).now <= EndOf(call);
    if call.key == k {
      AttemptsKeep(P, BeforeAttempts(s, call), call, 0);
    } else {
      ExecuteLeavesOthers(s, call, k);
    }
  }

  lemma RestIsClocked(calls: seq<Call>, last: real, k: Key, limit: nat)
    requires calls != [] && Clocked(calls, last) && OneLimit(calls, k, limit)
    ensures Clocked(calls[1..], EndOf(calls[0])) && OneLimit(calls[1..], k, limit)
    ensures LastReading(calls, last) == LastReading(calls[1..], EndOf(calls[0]))
  {
  }

  /** What every budget charge keeps holds after every run. */
  lemma {:induction false} RunKeeps(P: Charging, s: RuntimeState, calls: seq<Call>, k: Key, limit: nat, last: real)
    requires KeptByCharges(P, limit) && HoldsBy(P, s, k, last) && Clocked(calls, last) && OneLimit(calls, k, limit)
    ensures HoldsBy(P, Run(s, calls), k, LastReading(calls, last))
    decreases |calls|
  {
    if calls != [] {
      ExecuteKeeps(P, s, calls[0], k, last);
      RestIsClocked(calls, last, k, limit);
      RunKeeps(P, Execute(s, calls[0]).state, calls[1..], k, limit, EndOf(calls[0]));
    }
  }

  ghost function RateRelation(limit: nat): Charging {
    (stamps, q, last) => RateInv(stamps, q, limit, last)
  }

  lemma RateKeptByCharges(limit: nat)
    ensures KeptByCharges(RateRelation(limit), limit)
  {
    forall stamps, q, last: real, now: real | RateInv(stamps, q, limit, last) && last <= now
      ensures RateInv(if Admit(q, now, limit).1 then stamps + [now] else stamps, Admit(q, now, limit).0, limit, now)
    {
      AdmitKeepsRate(stamps, q, limit, last, now);
    }
  }

  lemma StartsFollowBudget(calls: seq<Call>, k: Key, limit: nat, from: real)
    requires Clocked(calls, from) && OneLimit(calls, k, limit)
    ensures HoldsBy(RateRelation(limit), Run(START, calls), k, LastReading(calls, from))
  {
    var P := RateRelation(limit);
    RateKeptByCharges(limit);
    assert P(Stamps(START.starts, k), Deque(START.budgets, k), from);
    RunKeeps(P, START, calls, k, limit, from);
  }

  /** Over any run from a fresh runtime, retries included, the provider function of one scope and
      provider starts at most `limit` times with stamps in any window (t - 60, t]. */
  lemma RateIsBounded(calls: seq<Call>, k: Key, limit: nat, from: real, t: real)
    requires Clocked(calls, from) && OneLimit(calls, k, limit)
    ensures CountIn(Stamps(Run(START, calls).starts, k), t) <= limit
  {
    StartsFollowBudget(calls, k, limit, from);
    SpacedBoundsWindow(Stamps(Run(START, calls).starts, k), limit, t);
  }

  /** The bound is tight: the next charge is refused only when its window really is full. */
  lemma ChargeGrantedExactlyWhenRoom(calls: seq<Call>, k: Key, limit: nat, from: real, now: real)
    requires Clocked(calls, from) && OneLimit(calls, k, limit) && LastReading(calls, from) <= now
    ensures var s := Run(START, calls);
            MemoryConsume(s.budgets, k, now, limit).1 <==> CountIn(Stamps(s.starts, k), now) < limit
  {
    StartsFollowBudget(calls, k, limit, from);
    var s := Run(START, calls);
    var last :| last <= LastReading(calls, from) && RateRelation(limit)(Stamps(s.starts, k), Deque(s.budgets, k), last);
    AdmitKeepsRate(Stamps(s.starts, k), Deque(s.budgets, k), limit, last, now);
  }

  // ---------- failing fast ----------

  datatype Done = Done(key: Key, now: real, reply: Reply)

  function History(s: RuntimeState, calls: seq<Call>): seq<Done>
    decreases |calls|
  {
    if calls == [] then []
    else
      var step := Execute(s, calls[0]);
      [Done(calls[0].key, calls[0].now, step.reply)] + History(step.state, calls[1..])
  }

  /** The times of the terminal failures of `k` since its last success, or since a call that
      missed the cache found the circuit lapsed.  Retried attempts and refusals leave it alone. */
  function StreakAfter(streak: seq<real>, done: Done, k: Key, threshold: int, cooldown: real): seq<real> {
    if done.key != k || done.reply.Hit? then streak
    else
      StreakOnReply(LiveStreak(streak, done.now, threshold, cooldown), done.reply)
  }

  function Streak(streak: seq<real>, history: seq<Done>, k: Key, threshold: int, cooldown: real): seq<real>
    decreases |history|
  {
    if history == [] then streak
    else Streak(StreakAfter(streak, history[0], k, threshold, cooldown), history[1..], k, threshold, cooldown)
  }

  ghost predicate OneBreaker(calls: seq<Call>, k: Key, threshold: int, cooldown: real) {
    forall i :: 0 <= i < |calls| && calls[i].key == k ==>
      calls[i].config.threshold == threshold && calls[i].config.cooldown == cooldown
  }

  lemma {:induction false} AttemptsSetCircuit(s: RuntimeState, call: Call, attempt: nat)
    requires attempt <= call.config.maxRetries
    ensures var (s', reply) := (Attempts(s, call, attempt).state, Attempts(s, call, attempt).reply);
            var c, c' := CircuitOf(s.circuits, call.key), CircuitOf(s'.circuits, call.key);
            && !reply.Hit? && !reply.RefusedOpen?
            && (reply.Fresh? ==> c' == CLOSED)
            && (reply.RefusedBudget? || reply.Aborted? ==> c' == c)
            && (reply.Propagated? ==> c' == MemoryFailure(c, reply.at, call.config.threshold, call.config.cooldown))
    decreases call.config.maxRetries - attempt
  {
    if GoesRound(s, call, attempt) {
      AttemptsSetCircuit(NextTry(s, call, attempt), call, attempt + 1);
    }
  }

  /** What a reply makes of the streak its attempts started from. */
  function StreakOnReply(live: seq<real>, reply: Reply): seq<real> {
    match reply
    case Propagated(_, at) => live + [at]
    case Fresh(_) => []
    case _ => live
  }

  lemma AttemptsExplain(s: RuntimeState, call: Call, live: seq<real>, threshold: int, cooldown: real)
    requires call.config.threshold == threshold && call.config.cooldown == cooldown
    requires threshold >= 1 && Explains(CircuitOf(s.circuits, call.key), live, threshold, cooldown)
    ensures var step := Attempts(s, call, 0);
            && !step.reply.Hit? && !step.reply.RefusedOpen?
            && Explains(CircuitOf(step.state.circuits, call.key), StreakOnReply(live, step.reply), threshold, cooldown)
  {
    AttemptsSetCircuit(s, call, 0);
    var reply := Attempts(s, call, 0).reply;
    if reply.Propagated? {
      FailureExtendsStreak(CircuitOf(s.circuits, call.key), live, reply.at, threshold, cooldown);
    }
  }

  lemma ExecuteExplains(s: RuntimeState, call: Call, streak: seq<real>, threshold: int, cooldown: real)
    requires threshold >= 1 && OneBreaker([call], call.key, threshold, cooldown)
    requires Explains(CircuitOf(s.circuits, call.key), streak, threshold, cooldown)
    ensures var step := Execute(s, call);
            Explains(CircuitOf(step.state.circuits, call.key),
                     StreakAfter(streak, Done(call.key, call.now, step.reply), call.key, threshold, cooldown),
                     threshold, cooldown)
  {
    assert [call][0] == call;
    var k, s2 := call.key, BeforeAttempts(s, call);
    var live := LiveStreak(streak, call.now, threshold, cooldown);
    ReadShortensStreak(CircuitOf(s.circuits, k), streak, call.now, threshold, cooldown);
    assert Explains(CircuitOf(s2.circuits, k), live, threshold, cooldown);
    AttemptsExplain(s2, call, live, threshold, cooldown);
  }

  /** After every run the stored failure count is the length of the streak, and the stored
      opening time is the last failure plus the cooldown once the threshold is reached. */
  lemma {:induction false} CircuitIsStreak(s: RuntimeState, calls: seq<Call>, k: Key, streak: seq<real>,
                                           threshold: int, cooldown: real)
    requires threshold >= 1 && cooldown >= 0.0 && OneBreaker(calls, k, threshold, cooldown)
    requires Explains(CircuitOf(s.circuits, k), streak, threshold, cooldown)
    ensures Explains(CircuitOf(Run(s, calls).circuits, k),
                     Streak(streak, History(s, calls), k, threshold, cooldown), threshold, cooldown)
    decreases |calls|
  {
    if calls != [] {
      var call := calls[0];
      var step := Execute(s, call);
      var done := Done(call.key, call.now, step.reply);
      if call.key == k {
        ExecuteExplains(s, call, streak, threshold, cooldown);
      } else {
        ExecuteLeavesOthers(s, call, k);
      }
      CircuitIsStreak(step.state, calls[1..], k, StreakAfter(streak, done, k, threshold, cooldown), threshold, cooldown);
      assert History(s, calls)[1..] == History(step.state, calls[1..]);
    }
  }

  ghost predicate BeforeTime(calls: seq<Call>, k: Key, until: real) {
    forall i :: 0 <= i < |calls| && calls[i].key == k ==> calls[i].now < until
  }

  /** While a circuit is open, calls on its key are cache hits or refusals: the provider function
      does not start, no budget is consumed and the circuit stays as it is. */
  lemma {:induction false} OpenCircuitRefusesRun(s: RuntimeState, calls: seq<Call>, k: Key)
    requires BeforeTime(calls, k, CircuitOf(s.circuits, k).openedUntil)
    ensures var s' := Run(s, calls);
            && Stamps(s'.starts, k) == Stamps(s.starts, k)
            && Deque(s'.budgets, k) == Deque(s.budgets, k)
            && CircuitOf(s'.circuits, k) == CircuitOf(s.circuits, k)
    ensures forall done :: done in History(s, calls) && done.key == k ==> done.reply.Hit? || done.reply.RefusedOpen?
    decreases |calls|
  {
    if calls != [] {
      var call := calls[0];
      var step := Execute(s, call);
      if call.key == k {
        OpenCircuitRefuses(s, call);
      } else {
        ExecuteLeavesOthers(s, call, k);
      }
      OpenCircuitRefusesRun(step.state, calls[1..], k);
    }
  }

  lemma OpenCircuitRefuses(s: RuntimeState, call: Call)
    requires call.now < CircuitOf(s.circuits, call.key).openedUntil
    ensures var step := Execute(s, call);
            && (if CachedValue(s, call).Some? then step.reply == Hit(CachedValue(s, call).value)
                else step.reply == RefusedOpen)
            && step.state.starts == s.starts && step.state.budgets == s.budgets
            && CircuitOf(step.state.circuits, call.key) == CircuitOf(s.circuits, call.key)
  {
  }

  ghost predicate CacheOrRefusal(history: seq<Done>, k: Key) {
    forall done :: done in history && done.key == k ==> done.reply.Hit? || done.reply.RefusedOpen?
  }

  lemma TrippedStreakRefuses(s: RuntimeState, after: seq<Call>, k: Key, streak: seq<real>, threshold: int, cooldown: real)
    requires threshold >= 1 && |streak| >= threshold && BeforeTime(after, k, streak[|streak| - 1] + cooldown)
    requires Explains(CircuitOf(s.circuits, k), streak, threshold, cooldown)
    ensures Stamps(Run(s, after).starts, k) == Stamps(s.starts, k)
    ensures Deque(Run(s, after).budgets, k) == Deque(s.budgets, k)
    ensures CacheOrRefusal(History(s, after), k)
  {
    OpenCircuitRefusesRun(s, after, k);
  }

  /** Once the threshold-th failure has landed at time f, nothing but the cache answers before
      f plus the cooldown: no function starts and no budget is consumed. */
  lemma FailsFast(before: seq<Call>, after: seq<Call>, k: Key, threshold: int, cooldown: real,
                  s: RuntimeState, streak: seq<real>)
    requires threshold >= 1 && cooldown >= 0.0 && OneBreaker(before, k, threshold, cooldown)
    requires s == Run(START, before) && streak == Streak([], History(START, before), k, threshold, cooldown)
    requires |streak| >= threshold && BeforeTime(after, k, streak[|streak| - 1] + cooldown)
    ensures Stamps(Run(s, after).starts, k) == Stamps(s.starts, k)
    ensures Deque(Run(s, after).budgets, k) == Deque(s.budgets, k)
    ensures CacheOrRefusal(History(s, after), k)
  {
    CircuitIsStreak(START, before, k, [], threshold, cooldown);
    TrippedStreakRefuses(s, after, k, streak, threshold, cooldown);
  }
}

/** The counters of a provider are the tallies of what its callers were told. */
module ProviderTallies {
  import opened BudgetStores
  import opened ProviderRuntime
  import opened ProviderRuns

  /** How many replies on `k` satisfy `kind`. */
  function Replies(history: seq<Done>, k: Key, kind: Reply -> bool): nat {
    if history == [] then 0
    else (if history[0].key == k && kind(history[0].reply) then 1 else 0) + Replies(history[1..], k, kind)
  }

  function One(b: bool): nat { if b then 1 else 0 }

  /** What one answered call adds to the counters of its key. */
  ghost predicate Adds(t: Telemetry, t': Telemetry, calls: nat, reply: Reply) {
    && t'.logicalCalls == t.logicalCalls + calls
    && t'.cacheHits == t.cacheHits + One(reply.Hit?)
    && t'.circuitRejections == t.circuitRejections + One(reply.RefusedOpen?)
    && t'.rateLimited == t.rateLimited + One(reply.RefusedBudget?)
    && t'.failures == t.failures + One(reply.Propagated?)
    && t'.successes == t.successes + One(reply.Fresh?)
  }

  /** As many attempts were counted between two states as functions of `k` were started. */
  ghost predicate CountsStarts(s: RuntimeState, s': RuntimeState, k: Key) {
    TelemetryOf(s'.telemetry, k).attempts - TelemetryOf(s.telemetry, k).attempts
      == |Stamps(s'.starts, k)| - |Stamps(s.starts, k)|
  }

  lemma StartCounts(s: RuntimeState, call: Call, attempt: nat)
    requires Asked(s, call, attempt).1
    ensures CountsStarts(s, AfterStart(s, call, attempt), call.key)
  {
    StartedStamps(Asked(s, call, attempt).0, call.key, call.attempts(attempt).now);
  }

  lemma FinishCounts(s: RuntimeState, call: Call, status: Status, n: nat, retries: nat)
    ensures TelemetryOf(Finish(s, call, status, n, retries).telemetry, call.key)
         == CountStatus(TelemetryOf(s.telemetry, call.key), status)
  {
  }

  lemma AfterStartTelemetry(s: RuntimeState, call: Call, attempt: nat)
    ensures var t, t' := TelemetryOf(s.telemetry, call.key), TelemetryOf(AfterStart(s, call, attempt).telemetry, call.key);
            t' == t.(attempts := t.attempts + 1)
  {
  }

  lemma EndAdds(s: RuntimeState, call: Call, attempt: nat)
    ensures var step := EndAt(s, call, attempt);
            Adds(TelemetryOf(s.telemetry, call.key), TelemetryOf(step.state.telemetry, call.key), 0, step.reply)
  {
    var a, s1, s2 := call.attempts(attempt), Asked(s, call, attempt).0, AfterRun(s, call, attempt);
    if !Asked(s, call, attempt).1 {
      FinishCounts(s1, call, LocalRateLimit, attempt, attempt);
    } else {
      AfterStartTelemetry(s, call, attempt);
      match a.outcome
      case Returned(value) =>
        FinishCounts(Succeeded(s2, call, value, a.filledAt), call, Success, attempt + 1, attempt);
      case Raised(_, _) =>
        FinishCounts(FailedAt(s2, call, a.failedAt), call, Failed, attempt + 1, attempt);
      case Interrupted =>
        FinishCounts(AfterStart(s, call, attempt), call, Unrecorded, attempt + 1, attempt);
    }
  }

  lemma EndCountsStarts(s: RuntimeState, call: Call, attempt: nat)
    ensures CountsStarts(s, EndAt(s, call, attempt).state, call.key)
  {
    EndChargesNothing(s, call, attempt);
    if Asked(s, call, attempt).1 {
      StartCounts(s, call, attempt);
      assert AfterStart(s, call, attempt).starts == EndAt(s, call, attempt).state.starts;
    }
  }

  /** Going round changes none of the counters of endings. */
  lemma RoundAdds(s: RuntimeState, call: Call, attempt: nat)
    requires GoesRound(s, call, attempt)
    ensures var t, t' := TelemetryOf(s.telemetry, call.key), TelemetryOf(NextTry(s, call, attempt).telemetry, call.key);
            t' == t.(attempts := t'.attempts, retries := t'.retries, cost := t'.cost)
    ensures CountsStarts(s, NextTry(s, call, attempt), call.key)
  {
    StartCounts(s, call, attempt);
    AfterStartTelemetry(s, call, attempt);
  }

  lemma {:induction false} AttemptsAdd(s: RuntimeState, call: Call, attempt: nat)
    requires attempt <= call.config.maxRetries
    ensures var step := Attempts(s, call, attempt);
            && Adds(TelemetryOf(s.telemetry, call.key), TelemetryOf(step.state.telemetry, call.key), 0, step.reply)
            && CountsStarts(s, step.state, call.key)
    decreases call.config.maxRetries - attempt
  {
    if GoesRound(s, call, attempt) {
      RoundAdds(s, call, attempt);
      AttemptsAdd(NextTry(s, call, attempt), call, attempt + 1);
    } else {
      EndAdds(s, call, attempt);
      EndCountsStarts(s, call, attempt);
    }
  }

  lemma ExecuteAdds(s: RuntimeState, call: Call)
    ensures var step := Execute(s, call);
            && Adds(TelemetryOf(s.telemetry, call.key), TelemetryOf(step.state.telemetry, call.key), 1, step.reply)
            && CountsStarts(s, step.state, call.key)
  {
    var s1, s2 := CallCounted(s, call.key), BeforeAttempts(s, call);
    FinishCounts(s1, call, CacheHit, 0, 0);
    FinishCounts(s2, call, CircuitOpen, 0, 0);
    AttemptsAdd(s2, call, 0);
    assert s1.starts == s2.starts == s.starts;
  }

  /** The counters in `t'` exceed those in `t` by the replies in `history`. */
  ghost predicate Tallied(t: Telemetry, t': Telemetry, history: seq<Done>, k: Key) {
    && t'.logicalCalls == t.logicalCalls + Replies(history, k, r => true)
    && t'.cacheHits == t.cacheHits + Replies(history, k, (r: Reply) => r.Hit?)
    && t'.circuitRejections == t.circuitRejections + Replies(history, k, (r: Reply) => r.RefusedOpen?)
    && t'.rateLimited == t.rateLimited + Replies(history, k, (r: Reply) => r.RefusedBudget?)
    && t'.failures == t.failures + Replies(history, k, (r: Reply) => r.Propagated?)
    && t'.successes == t.successes + Replies(history, k, (r: Reply) => r.Fresh?)
  }

  lemma OneMoreReply(t: Telemetry, t1: Telemetry, t2: Telemetry, done: Done, rest: seq<Done>, k: Key)
    requires if done.key == k then Adds(t, t1, 1, done.reply) else t1 == t
    requires Tallied(t1, t2, rest, k)
    ensures Tallied(t, t2, [done] + rest, k)
  {
    assert ([done] + rest)[1..] == rest;
  }

  lemma {:induction false} RunTallies(s: RuntimeState, calls: seq<Call>, k: Key)
    ensures Tallied(TelemetryOf(s.telemetry, k), TelemetryOf(Run(s, calls).telemetry, k), History(s, calls), k)
    ensures CountsStarts(s, Run(s, calls), k)
    decreases |calls|
  {
    if calls != [] {
      var call, step := calls[0], Execute(s, calls[0]);
      RunTallies(step.state, calls[1..], k);
      if call.key == k { ExecuteAdds(s, call); } else { ExecuteLeavesOthers(s, call, k); }
      OneMoreReply(TelemetryOf(s.telemetry, k), TelemetryOf(step.state.telemetry, k),
                   TelemetryOf(Run(step.state, calls[1..]).telemetry, k),
                   Done(call.key, call.now, step.reply), History(step.state, calls[1..]), k);
    }
  }

  lemma {:induction false} InterruptedEnds(s: RuntimeState, call: Call, attempt: nat)
    requires attempt <= call.config.maxRetries
    ensures var step := Attempts(s, call, attempt);
            Interruptions(step.state.ended, call.key) == Interruptions(s.ended, call.key) + One(step.reply.Aborted?)
    decreases call.config.maxRetries - attempt
  {
    if GoesRound(s, call, attempt) {
      InterruptedEnds(NextTry(s, call, attempt), call, attempt + 1);
    } else {
      var e := EndsOnce(s, call, attempt);
      LastIsInterruption(s.ended, e, call.key);
    }
  }

  lemma LastIsInterruption(ended: seq<Event>, e: Event, k: Key)
    ensures Interruptions(ended + [e], k) == Interruptions(ended, k) + One(e.key == k && e.status.Unrecorded?)
  {
    assert (ended + [e])[..|ended|] == ended;
  }

  lemma ExecuteInterrupts(s: RuntimeState, call: Call, k: Key)
    ensures Interruptions(Execute(s, call).state.ended, k)
         == Interruptions(s.ended, k) + One(call.key == k && Execute(s, call).reply.Aborted?)
  {
    var e := ExecuteEndsOnce(s, call);
    LastIsInterruption(s.ended, e, k);
    if call.key == k {
      InterruptedEnds(BeforeAttempts(s, call), call, 0);
    }
  }

  /** The interruptions are the calls whose callers saw the function's exception pass unhandled. */
  lemma {:induction false} InterruptionsAreAborted(s: RuntimeState, calls: seq<Call>, k: Key)
    ensures Interruptions(Run(s, calls).ended, k)
         == Interruptions(s.ended, k) + Replies(History(s, calls), k, (r: Reply) => r.Aborted?)
    decreases |calls|
  {
    if calls != [] {
      ExecuteInterrupts(s, calls[0], k);
      InterruptionsAreAborted(Execute(s, calls[0]).state, calls[1..], k);
    }
  }

  /** The laws of the counters hold after a run exactly when nobody's call was interrupted. */
  lemma BalancedExactlyWhenNoneAborted(calls: seq<Call>, k: Key, cost: real)
    requires OneCost(calls, k, cost)
    ensures Balanced(TelemetryOf(Run(START, calls).telemetry, k), cost)
       <==> Replies(History(START, calls), k, (r: Reply) => r.Aborted?) == 0
  {
    TelemetryIsConserved(calls, k, cost);
    InterruptionsAreAborted(START, calls, k);
  }

  /** After every run from a fresh runtime each counter is the number of replies of its kind, and the
      attempts are the starts of the provider function. */
  lemma CountersAreReplies(calls: seq<Call>, k: Key)
    ensures Tallied(ZERO, TelemetryOf(Run(START, calls).telemetry, k), History(START, calls), k)
    ensures TelemetryOf(Run(START, calls).telemetry, k).attempts == |Stamps(Run(START, calls).starts, k)|
  {
    RunTallies(START, calls, k);
  }
}

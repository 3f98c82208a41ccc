/** What the caller of one provider call gets, told from the outcomes of its attempts and the starts
    of the last sixty seconds alone. */
module ProviderReplies {
  import opened Common
  import opened SlidingWindow
  import opened BudgetStores
  import opened Circuits
  import opened ControlPlanes
  import opened ProviderRuntime
  import opened ProviderRuns

  // ---------- which attempt decides ----------

  predicate FailsForNow(call: Call, i: nat) {
    call.attempts(i).outcome.Raised? && call.attempts(i).outcome.retryable
  }

  /** The first attempt whose outcome is not a retryable error, or the last one allowed. */
  ghost predicate IsDecisive(call: Call, n: nat) {
    && n <= call.config.maxRetries
    && (forall i :: 0 <= i < n ==> FailsForNow(call, i))
    && (n < call.config.maxRetries ==> !FailsForNow(call, n))
  }

  lemma {:induction false} DecisiveFrom(call: Call, i: nat) returns (n: nat)
    requires i <= call.config.maxRetries && forall j :: 0 <= j < i ==> FailsForNow(call, j)
    ensures IsDecisive(call, n)
    decreases call.config.maxRetries - i
  {
    if i < call.config.maxRetries && FailsForNow(call, i) {
      n := DecisiveFrom(call, i + 1);
    } else {
      n := i;
    }
  }

  /** Every call has exactly one deciding attempt. */
  lemma OneDecides(call: Call)
    ensures exists n: nat :: IsDecisive(call, n)
    ensures forall m: nat, n: nat :: IsDecisive(call, m) && IsDecisive(call, n) ==> m == n
  {
    var n := DecisiveFrom(call, 0);
  }

  /** What the caller gets from the attempt that decides. */
  function ReplyTo(a: Attempt): Reply {
    match a.outcome
    case Returned(value) => Fresh(value)
    case Raised(code, _) => Propagated(code, a.failedAt)
    case Interrupted => Aborted
  }

  function EndedAs(outcome: Outcome): Status {
    match outcome
    case Returned(_) => Success
    case Raised(_, _) => Failed
    case Interrupted => Unrecorded
  }

  // ---------- charging ----------

  /** The budget stamps of the first `n` attempts. */
  function FirstStamps(call: Call, n: nat): (r: seq<real>)
    ensures |r| == n
  {
    seq(n, i requires 0 <= i < n => call.attempts(i).now)
  }

  /** The deque of the call's key after its first `i` charges. */
  function DequeAfter(q: seq<real>, call: Call, i: nat): seq<real> {
    if i == 0 then q else Admit(DequeAfter(q, call, i - 1), call.attempts(i - 1).now, call.config.limit).0
  }

  predicate Granted(q: seq<real>, call: Call, i: nat) {
    Admit(DequeAfter(q, call, i), call.attempts(i).now, call.config.limit).1
  }

  /** The call names a cache key and a time to live. */
  predicate UsesCache(call: Call) { call.cacheKey != "" && 0.0 < call.ttl }

  /** Nothing fresh is cached and the recorded opening time has passed; times are not negative. */
  predicate GoesToProvider(s: RuntimeState, call: Call) {
    && !(UsesCache(call) && KeyOf(call) in s.cache && call.mono < s.cache[KeyOf(call)].expiry)
    && CircuitOf(s.circuits, call.key).openedUntil <= call.now && 0.0 <= call.now
  }

  // ---------- the attempts ----------

  ghost predicate AtAttempt(s: RuntimeState, call: Call, i: nat, q: seq<real>, starts: seq<Start>, ended: seq<Event>) {
    && Deque(s.budgets, call.key) == DequeAfter(q, call, i)
    && s.starts == starts + StartsOf(call, i) && s.ended == ended
  }

  function StartsOf(call: Call, n: nat): (r: seq<Start>)
    ensures |r| == n
  {
    seq(n, i requires 0 <= i < n => Start(call.key, call.attempts(i).now))
  }

  lemma NextAttempt(s: RuntimeState, call: Call, i: nat, q: seq<real>, starts: seq<Start>, ended: seq<Event>)
    requires AtAttempt(s, call, i, q, starts, ended)
    ensures Asked(s, call, i).1 == Granted(q, call, i)
    ensures Granted(q, call, i) ==> AtAttempt(NextTry(s, call, i), call, i + 1, q, starts, ended)
    ensures AfterStart(s, call, i).starts == starts + StartsOf(call, i + 1)
  {
    assert StartsOf(call, i + 1) == StartsOf(call, i) + [Start(call.key, call.attempts(i).now)];
  }

  /** From attempt `i` on, while nothing is refused. */
  lemma {:induction false} AttemptsDecide(s: RuntimeState, call: Call, i: nat, n: nat, q: seq<real>, starts: seq<Start>,
                                          ended: seq<Event>)
    requires i <= n && IsDecisive(call, n) && AtAttempt(s, call, i, q, starts, ended)
    requires forall j :: i <= j <= n ==> Granted(q, call, j)
    ensures var step := Attempts(s, call, i);
            && step.reply == ReplyTo(call.attempts(n)) && step.state.starts == starts + StartsOf(call, n + 1)
            && step.state.ended == ended + [EventOf(call, EndedAs(call.attempts(n).outcome), n + 1, n)]
    decreases n - i
  {
    NextAttempt(s, call, i, q, starts, ended);
    if i < n {
      assert FailsForNow(call, i);
      AttemptsDecide(NextTry(s, call, i), call, i + 1, n, q, starts, ended);
    }
  }

  /** From attempt `i` on, up to the first refusal. */
  lemma {:induction false} AttemptsRefused(s: RuntimeState, call: Call, i: nat, n: nat, q: seq<real>, starts: seq<Start>,
                                           ended: seq<Event>)
    requires i <= n <= call.config.maxRetries && AtAttempt(s, call, i, q, starts, ended)
    requires forall j :: i <= j < n ==> Granted(q, call, j) && FailsForNow(call, j)
    requires !Granted(q, call, n)
    ensures var step := Attempts(s, call, i);
            && step.reply == RefusedBudget && step.state.starts == starts + StartsOf(call, n)
            && step.state.ended == ended + [EventOf(call, LocalRateLimit, n, n)]
    decreases n - i
  {
    NextAttempt(s, call, i, q, starts, ended);
    if i < n {
      AttemptsRefused(NextTry(s, call, i), call, i + 1, n, q, starts, ended);
    }
  }

  // ---------- one call ----------

  /** How a call decided by attempt `n` is recorded: only an interrupted attempt is not paid for. */
  function EndOfCall(call: Call, n: nat): Event {
    var paid := if call.attempts(n).outcome.Interrupted? then n else n + 1;
    Event(call.key, call.operation, EndedAs(call.attempts(n).outcome), n + 1, n, paid as real * call.config.cost)
  }

  lemma RecordedEnd(call: Call, n: nat)
    ensures EventOf(call, EndedAs(call.attempts(n).outcome), n + 1, n) == EndOfCall(call, n)
  {
    CostIsProduct(if call.attempts(n).outcome.Interrupted? then n else n + 1, call.config.cost);
  }

  lemma ReachesAttempts(s: RuntimeState, call: Call)
    requires GoesToProvider(s, call)
    ensures Execute(s, call) == Attempts(BeforeAttempts(s, call), call, 0)
    ensures AtAttempt(BeforeAttempts(s, call), call, 0, Deque(s.budgets, call.key), s.starts, s.ended)
  {
    assert s.starts + StartsOf(call, 0) == s.starts;
  }

  /** A call that goes to the provider and is granted every charge up to its deciding attempt starts
      the function that often and gets what that attempt's outcome says. */
  lemma OutcomesDecide(s: RuntimeState, call: Call, n: nat)
    requires GoesToProvider(s, call) && IsDecisive(call, n)
    requires forall i :: 0 <= i <= n ==> Granted(Deque(s.budgets, call.key), call, i)
    ensures var step := Execute(s, call);
            && step.reply == ReplyTo(call.attempts(n)) && step.state.starts == s.starts + StartsOf(call, n + 1)
            && step.state.ended == s.ended + [EndOfCall(call, n)]
  {
    RecordedEnd(call, n);
    ReachesAttempts(s, call);
    AttemptsDecide(BeforeAttempts(s, call), call, 0, n, Deque(s.budgets, call.key), s.starts, s.ended);
  }

  /** A call refused its charge before that starts the function once for each charge it was granted. */
  lemma RefusalDecides(s: RuntimeState, call: Call, n: nat, i: nat)
    requires GoesToProvider(s, call) && IsDecisive(call, n) && i <= n
    requires forall j :: 0 <= j < i ==> Granted(Deque(s.budgets, call.key), call, j)
    requires !Granted(Deque(s.budgets, call.key), call, i)
    ensures var step := Execute(s, call);
            && step.reply == RefusedBudget && step.state.starts == s.starts + StartsOf(call, i)
            && step.state.ended
               == s.ended + [Event(call.key, call.operation, LocalRateLimit, i, i, i as real * call.config.cost)]
  {
    CostIsProduct(i, call.config.cost);
    ReachesAttempts(s, call);
    AttemptsRefused(BeforeAttempts(s, call), call, 0, i, Deque(s.budgets, call.key), s.starts, s.ended);
  }

  /** Any other call starts nothing: it gets the value still fresh in the cache, or is refused. */
  lemma OtherwiseNothingStarts(s: RuntimeState, call: Call)
    requires !GoesToProvider(s, call)
    ensures var step, k := Execute(s, call), KeyOf(call);
            && step.state.starts == s.starts && step.state.budgets == s.budgets
            && step.reply == if UsesCache(call) && k in s.cache && call.mono < s.cache[k].expiry
                             then Hit(s.cache[k].value) else RefusedOpen
  {
  }

  // ---------- after a run ----------

  /** Fewer than `limit` of the starts so far lie in the sixty seconds that end at the charge. */
  predicate HasRoom(before: seq<real>, call: Call, i: nat, limit: nat) {
    CountIn(before + FirstStamps(call, i), call.attempts(i).now) < limit
  }

  /** The charges before the `n`-th all find room. */
  ghost predicate RoomBefore(before: seq<real>, call: Call, n: nat, limit: nat) {
    forall i :: 0 <= i < n ==> HasRoom(before, call, i, limit)
  }

  ghost predicate GrantedBefore(q: seq<real>, call: Call, n: nat) { forall i :: 0 <= i < n ==> Granted(q, call, i) }

  ghost predicate RateBy(stamps: seq<real>, q: seq<real>, limit: nat, t: real) {
    exists last :: last <= t && RateInv(stamps, q, limit, last)
  }

  lemma ChargeKeepsRate(stamps: seq<real>, q: seq<real>, limit: nat, now: real)
    requires RateBy(stamps, q, limit, now)
    ensures Admit(q, now, limit).1 <==> CountIn(stamps, now) < limit
    ensures Admit(q, now, limit).1 ==> RateInv(stamps + [now], Admit(q, now, limit).0, limit, now)
  {
    var last :| last <= now && RateInv(stamps, q, limit, last);
    AdmitKeepsRate(stamps, q, limit, last, now);
  }

  lemma OneMoreStamp(before: seq<real>, call: Call, i: nat)
    ensures before + FirstStamps(call, i + 1) == before + FirstStamps(call, i) + [call.attempts(i).now]
  {
  }

  lemma GrantFindsRoom(before: seq<real>, q: seq<real>, call: Call, i: nat, limit: nat)
    requires call.config.limit == limit
    requires RateBy(before + FirstStamps(call, i), DequeAfter(q, call, i), limit, call.attempts(i).now)
    ensures Granted(q, call, i) <==> HasRoom(before, call, i, limit)
    ensures Granted(q, call, i) ==>
              RateInv(before + FirstStamps(call, i + 1), DequeAfter(q, call, i + 1), limit, call.attempts(i).now)
  {
    ChargeKeepsRate(before + FirstStamps(call, i), DequeAfter(q, call, i), limit, call.attempts(i).now);
    OneMoreStamp(before, call, i);
  }

  lemma {:induction false} GrantedWhileRoom(before: seq<real>, q: seq<real>, call: Call, n: nat, limit: nat, last: real)
    requires RateInv(before, q, limit, last) && ClockedCall(call, last) && call.config.limit == limit
    ensures GrantedBefore(q, call, n) <==> RoomBefore(before, call, n, limit)
    ensures GrantedBefore(q, call, n) ==>
              RateBy(before + FirstStamps(call, n), DequeAfter(q, call, n), limit, call.attempts(n).now)
    decreases n
  {
    if n == 0 {
      assert before + FirstStamps(call, 0) == before;
    } else {
      GrantedWhileRoom(before, q, call, n - 1, limit, last);
      if GrantedBefore(q, call, n - 1) {
        GrantFindsRoom(before, q, call, n - 1, limit);
        assert call.attempts(n - 1).now <= call.attempts(n).now;
      }
    }
  }

  lemma OneMoreStart(starts: seq<Start>, k: Key, at: real)
    ensures Stamps(starts + [Start(k, at)], k) == Stamps(starts, k) + [at]
  {
    assert (starts + [Start(k, at)])[..|starts|] == starts;
  }

  lemma LastStart(starts: seq<Start>, call: Call, n: nat)
    ensures starts + StartsOf(call, n + 1) == starts + StartsOf(call, n) + [Start(call.key, call.attempts(n).now)]
  {
  }

  lemma {:induction false} StampsOfStarts(starts: seq<Start>, call: Call, n: nat)
    ensures Stamps(starts + StartsOf(call, n), call.key) == Stamps(starts, call.key) + FirstStamps(call, n)
  {
    if n == 0 {
      assert starts + StartsOf(call, 0) == starts;
    } else {
      StampsOfStarts(starts, call, n - 1);
      LastStart(starts, call, n - 1);
      OneMoreStart(starts + StartsOf(call, n - 1), call.key, call.attempts(n - 1).now);
      OneMoreStamp(Stamps(starts, call.key), call, n - 1);
    }
  }

  /** The call comes after the run: clocks go on, and one limit is in force for its key. */
  ghost predicate IsNext(calls: seq<Call>, call: Call, limit: nat, from: real) {
    && Clocked(calls, from) && ClockedCall(call, LastReading(calls, from))
    && OneLimit(calls, call.key, limit) && call.config.limit == limit
  }

  lemma RoomIsGranted(calls: seq<Call>, call: Call, limit: nat, from: real, n: nat)
    requires IsNext(calls, call, limit, from)
    ensures var s := Run(START, calls);
            GrantedBefore(Deque(s.budgets, call.key), call, n)
            <==> RoomBefore(Stamps(s.starts, call.key), call, n, limit)
  {
    var s, k := Run(START, calls), call.key;
    StartsFollowBudget(calls, k, limit, from);
    var last :| last <= LastReading(calls, from) && RateRelation(limit)(Stamps(s.starts, k), Deque(s.budgets, k), last);
    GrantedWhileRoom(Stamps(s.starts, k), Deque(s.budgets, k), call, n, limit, last);
  }

  /** After any run, a call that goes to the provider and finds room for every attempt up to the one
      that decides starts the function for each of these, and its caller gets the value returned, the
      error raised or the interruption there. */
  lemma CallIsDecidedByOutcomes(calls: seq<Call>, call: Call, limit: nat, from: real, n: nat)
    requires IsNext(calls, call, limit, from) && GoesToProvider(Run(START, calls), call) && IsDecisive(call, n)
    requires RoomBefore(Stamps(Run(START, calls).starts, call.key), call, n + 1, limit)
    ensures var s, step := Run(START, calls), Execute(Run(START, calls), call);
            && step.reply == ReplyTo(call.attempts(n))
            && Stamps(step.state.starts, call.key) == Stamps(s.starts, call.key) + FirstStamps(call, n + 1)
  {
    RoomIsGranted(calls, call, limit, from, n + 1);
    OutcomesDecide(Run(START, calls), call, n);
    StampsOfStarts(Run(START, calls).starts, call, n + 1);
  }

  /** And with no room at attempt `i`, the first such at or before the one that decides, it is refused
      there: the function has started `i` times. */
  lemma CallIsRefusedWithoutRoom(calls: seq<Call>, call: Call, limit: nat, from: real, n: nat, i: nat)
    requires IsNext(calls, call, limit, from) && GoesToProvider(Run(START, calls), call) && IsDecisive(call, n) && i <= n
    requires RoomBefore(Stamps(Run(START, calls).starts, call.key), call, i, limit)
    requires !HasRoom(Stamps(Run(START, calls).starts, call.key), call, i, limit)
    ensures var s, step := Run(START, calls), Execute(Run(START, calls), call);
            && step.reply == RefusedBudget
            && Stamps(step.state.starts, call.key) == Stamps(s.starts, call.key) + FirstStamps(call, i)
  {
    RoomIsGranted(calls, call, limit, from, i);
    RoomIsGranted(calls, call, limit, from, i + 1);
    RefusalDecides(Run(START, calls), call, n, i);
    StampsOfStarts(Run(START, calls).starts, call, i);
  }

  // ---------- the cache ----------

  /** The item is what attempt `n` of the call returned, good until its time to live has passed. */
  ghost predicate IsFrom(item: CacheItem, call: Call, n: nat) {
    && UsesCache(call) && IsDecisive(call, n) && call.attempts(n).outcome == Returned(item.value)
    && item.expiry == call.attempts(n).filledAt + call.ttl
  }

  lemma EndStores(s: RuntimeState, call: Call, i: nat)
    requires i <= call.config.maxRetries && !GoesRound(s, call, i) && EndAt(s, call, i).reply.Fresh? && UsesCache(call)
    requires forall j :: 0 <= j < i ==> FailsForNow(call, j)
    ensures var step, k := EndAt(s, call, i), KeyOf(call);
            k in step.state.cache && step.state.cache[k].value == step.reply.value && IsFrom(step.state.cache[k], call, i)
  {
    assert call.attempts(i).outcome.Returned?;
  }

  ghost predicate FilledFrom(cache: map<CacheKey, CacheItem>, before: map<CacheKey, CacheItem>, call: Call) {
    cache == before
    || (KeyOf(call) in cache && cache == before[KeyOf(call) := cache[KeyOf(call)]]
        && exists n: nat :: IsFrom(cache[KeyOf(call)], call, n))
  }

  lemma EndFills(s: RuntimeState, call: Call, i: nat)
    requires i <= call.config.maxRetries && !GoesRound(s, call, i) && forall j :: 0 <= j < i ==> FailsForNow(call, j)
    ensures FilledFrom(EndAt(s, call, i).state.cache, s.cache, call)
  {
    if EndAt(s, call, i).reply.Fresh? && UsesCache(call) { EndStores(s, call, i); }
  }

  lemma {:induction false} AttemptsFill(s: RuntimeState, call: Call, i: nat)
    requires i <= call.config.maxRetries && forall j :: 0 <= j < i ==> FailsForNow(call, j)
    ensures FilledFrom(Attempts(s, call, i).state.cache, s.cache, call)
    decreases call.config.maxRetries - i
  {
    if GoesRound(s, call, i) {
      AttemptsFill(NextTry(s, call, i), call, i + 1);
    } else {
      EndFills(s, call, i);
    }
  }

  ghost predicate SomeCallFilled(item: CacheItem, k: CacheKey, calls: seq<Call>) {
    exists j, n: nat :: 0 <= j < |calls| && KeyOf(calls[j]) == k && IsFrom(item, calls[j], n)
  }

  /** Every cached item is what some call of the run returned. */
  ghost predicate CacheIsFrom(cache: map<CacheKey, CacheItem>, calls: seq<Call>) {
    forall k :: k in cache ==> SomeCallFilled(cache[k], k, calls)
  }

  lemma FilledBefore(item: CacheItem, k: CacheKey, past: seq<Call>, call: Call)
    requires SomeCallFilled(item, k, past)
    ensures SomeCallFilled(item, k, past + [call])
  {
    var j, n: nat :| 0 <= j < |past| && KeyOf(past[j]) == k && IsFrom(item, past[j], n);
    assert (past + [call])[j] == past[j];
  }

  lemma FilledNow(item: CacheItem, past: seq<Call>, call: Call, n: nat)
    requires IsFrom(item, call, n)
    ensures SomeCallFilled(item, KeyOf(call), past + [call])
  {
    assert (past + [call])[|past|] == call;
  }

  lemma ExecuteFills(s: RuntimeState, call: Call)
    ensures var cache, k := Execute(s, call).state.cache, KeyOf(call);
            && (forall other :: other in cache && other != k ==> other in s.cache && cache[other] == s.cache[other])
            && (k in cache ==> (k in s.cache && cache[k] == s.cache[k]) || exists n: nat :: IsFrom(cache[k], call, n))
  {
    AttemptsFill(BeforeAttempts(s, call), call, 0);
  }

  lemma CacheStaysFrom(s: RuntimeState, past: seq<Call>, call: Call)
    requires CacheIsFrom(s.cache, past)
    ensures CacheIsFrom(Execute(s, call).state.cache, past + [call])
  {
    var cache := Execute(s, call).state.cache;
    ExecuteFills(s, call);
    forall k | k in cache ensures SomeCallFilled(cache[k], k, past + [call]) {
      if k in s.cache && cache[k] == s.cache[k] {
        FilledBefore(cache[k], k, past, call);
      } else {
        var n: nat :| IsFrom(cache[k], call, n);
        FilledNow(cache[k], past, call, n);
      }
    }
  }

  lemma {:induction false} RunFillsCache(s: RuntimeState, past: seq<Call>, calls: seq<Call>)
    requires CacheIsFrom(s.cache, past)
    ensures CacheIsFrom(Run(s, calls).cache, past + calls)
    decreases |calls|
  {
    if calls == [] {
      assert past + calls == past;
    } else {
      CacheStaysFrom(s, past, calls[0]);
      RunFillsCache(Execute(s, calls[0]).state, past + [calls[0]], calls[1..]);
      assert past + [calls[0]] + calls[1..] == past + calls;
    }
  }

  /** Some call of the list, with the same scope, provider, operation and cache key, was returned this
      value by the attempt that decided it, and its time to live has not passed. */
  ghost predicate WasReturned(value: Value, calls: seq<Call>, call: Call) {
    exists j, n: nat :: 0 <= j < |calls| && KeyOf(calls[j]) == KeyOf(call) && UsesCache(calls[j])
      && IsDecisive(calls[j], n) && calls[j].attempts(n).outcome == Returned(value)
      && call.mono < calls[j].attempts(n).filledAt + calls[j].ttl
  }

  lemma HitWasReturned(s: RuntimeState, calls: seq<Call>, call: Call)
    requires CacheIsFrom(s.cache, calls) && Execute(s, call).reply.Hit?
    ensures WasReturned(Execute(s, call).reply.value, calls, call)
  {
    OnlyAHitHits(s, call);
    var item := s.cache[KeyOf(call)];
    assert SomeCallFilled(item, KeyOf(call), calls);
    var j, n: nat :| 0 <= j < |calls| && KeyOf(calls[j]) == KeyOf(call) && IsFrom(item, calls[j], n);
  }

  /** After any run, what the cache answers is what an earlier call returned. */
  lemma HitsWereReturned(calls: seq<Call>, call: Call)
    requires Execute(Run(START, calls), call).reply.Hit?
    ensures WasReturned(Execute(Run(START, calls), call).reply.value, calls, call)
  {
    RunFillsCache(START, [], calls);
    assert [] + calls == calls;
    HitWasReturned(Run(START, calls), calls, call);
  }

  lemma OnlyAHitHits(s: RuntimeState, call: Call)
    ensures Execute(s, call).reply.Hit? ==>
              && UsesCache(call) && KeyOf(call) in s.cache && call.mono < s.cache[KeyOf(call)].expiry
              && Execute(s, call).reply == Hit(s.cache[KeyOf(call)].value)
  {
    if GoesToProvider(s, call) { AttemptsNeverHit(BeforeAttempts(s, call), call, 0); } else { OtherwiseNothingStarts(s, call); }
  }

  lemma {:induction false} AttemptsNeverHit(s: RuntimeState, call: Call, i: nat)
    requires i <= call.config.maxRetries
    ensures !Attempts(s, call, i).reply.Hit?
    decreases call.config.maxRetries - i
  {
    if GoesRound(s, call, i) { AttemptsNeverHit(NextTry(s, call, i), call, i + 1); }
  }

  lemma {:induction false} FreshIsStored(s: RuntimeState, call: Call, i: nat) returns (n: nat)
    requires i <= call.config.maxRetries && Attempts(s, call, i).reply.Fresh? && UsesCache(call)
    requires forall j :: 0 <= j < i ==> FailsForNow(call, j)
    ensures var step, k := Attempts(s, call, i), KeyOf(call);
            k in step.state.cache && step.state.cache[k].value == step.reply.value && IsFrom(step.state.cache[k], call, n)
    decreases call.config.maxRetries - i
  {
    if GoesRound(s, call, i) {
      n := FreshIsStored(NextTry(s, call, i), call, i + 1);
    } else {
      EndStores(s, call, i);
      n := i;
    }
  }

  /** A value returned through the provider answers the next call with the same key exactly until its
      time to live has passed, and then nothing starts. */
  lemma FreshAnswersNext(s: RuntimeState, call: Call, next: Call, n: nat)
    requires Execute(s, call).reply.Fresh? && UsesCache(call) && IsDecisive(call, n)
    requires UsesCache(next) && KeyOf(next) == KeyOf(call)
    ensures var first := Execute(s, call);
            var second := Execute(first.state, next);
            && (second.reply.Hit? <==> next.mono < call.attempts(n).filledAt + call.ttl)
            && (second.reply.Hit? ==> second.reply.value == first.reply.value && second.state.starts == first.state.starts)
  {
    var first := Execute(s, call);
    var m := FreshIsStored(BeforeAttempts(s, call), call, 0);
    OnlyAHitHits(first.state, next);
    OneDecides(call);
    if next.mono < call.attempts(n).filledAt + call.ttl { OtherwiseNothingStarts(first.state, next); }
  }

  lemma {:induction false} AttemptsKeepCache(s: RuntimeState, call: Call, i: nat)
    requires i <= call.config.maxRetries
    ensures !Attempts(s, call, i).reply.Fresh? || !UsesCache(call) ==> Attempts(s, call, i).state.cache == s.cache
    decreases call.config.maxRetries - i
  {
    if GoesRound(s, call, i) { AttemptsKeepCache(NextTry(s, call, i), call, i + 1); }
  }

  /** A call that finds its item stale and gets nothing fresh leaves no item; a call that does not use the
      cache leaves it alone. */
  lemma StaleItemGoes(s: RuntimeState, call: Call)
    ensures UsesCache(call) && KeyOf(call) in s.cache && s.cache[KeyOf(call)].expiry <= call.mono && !Execute(s, call).reply.Fresh? ==>
              Execute(s, call).state.cache == s.cache - {KeyOf(call)}
    ensures !UsesCache(call) ==> Execute(s, call).state.cache == s.cache
  {
    AttemptsKeepCache(BeforeAttempts(s, call), call, 0);
  }
}

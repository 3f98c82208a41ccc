/** One logical provider call: cache, circuit, budget, bounded retries, telemetry and event log.

    `Execute` is the specification, a function of the state and of everything the surroundings
    decide (clock readings and what the provider function does at each attempt).  The class
    `Runtime` performs the call statement by statement and is proved to compute it.  The
    theorems about runs are in `ProviderRuns`. */
module ProviderRuntime {
  import opened Common
  import opened BudgetStores
  import opened Circuits
  import opened ControlPlanes

  type Value = string

  /** The settings in force for one call; `execute` raises the threshold to at least 1. */
  datatype Config = Config(maxRetries: nat, limit: int, threshold: int, cooldown: real, cost: real)

  /** What the provider function does: it returns, raises an `Exception`, or is interrupted by one of
      the exceptions outside `Exception`, which no handler of the runtime catches. */
  datatype Outcome = Returned(value: Value) | Raised(code: string, retryable: bool) | Interrupted

  /** One attempt as the surroundings decide it: the clock reading given to the budget, the
      outcome of the provider function, and the readings taken after it. */
  datatype Attempt = Attempt(now: real, outcome: Outcome, failedAt: real, filledAt: real)

  /** A call of `execute`; `now` and `mono` are its first wall-clock and monotonic readings. */
  datatype Call = Call(key: Key, operation: string, cacheKey: string, ttl: real, config: Config,
                       now: real, mono: real, attempts: nat -> Attempt)

  datatype CacheKey = CacheKey(key: Key, operation: string, cacheKey: string)
  datatype CacheItem = CacheItem(expiry: real, value: Value)

  datatype Telemetry = Telemetry(logicalCalls: nat, attempts: nat, successes: nat, failures: nat, retries: nat,
                                 cacheHits: nat, rateLimited: nat, circuitRejections: nat, cost: real)

  /** `Unrecorded` is how an interrupted call ends: no counter, no cost and no event tell of it. */
  datatype Status = CacheHit | CircuitOpen | LocalRateLimit | Failed | Success | Unrecorded

  datatype Event = Event(key: Key, operation: string, status: Status, attempts: nat, retries: nat, cost: real)

  /** A start of the provider function, with the stamp its budget was charged at. */
  datatype Start = Start(key: Key, at: real)

  /** What the caller gets; a propagated exception records the reading given to the circuit. */
  datatype Reply =
    | Hit(value: Value)
    | Fresh(value: Value)
    | RefusedOpen
    | RefusedBudget
    | Propagated(code: string, at: real)
    | Aborted

  /** `events` is what is persisted.  `ended` and `starts` are logs of the model: how every
      logical call ended, inside a workspace or not, and when the provider function started. */
  datatype RuntimeState = RuntimeState(telemetry: map<Key, Telemetry>, cache: map<CacheKey, CacheItem>,
                                       budgets: Deques, circuits: CircuitMap, events: seq<Event>,
                                       ended: seq<Event>, starts: seq<Start>)

  datatype Step = Step(state: RuntimeState, reply: Reply)

  const ZERO := Telemetry(0, 0, 0, 0, 0, 0, 0, 0, 0.0)

  function TelemetryOf(m: map<Key, Telemetry>, k: Key): Telemetry { if k in m then m[k] else ZERO }

  predicate Cacheable(call: Call) { call.cacheKey != "" && call.ttl > 0.0 }

  function KeyOf(call: Call): CacheKey { CacheKey(call.key, call.operation, call.cacheKey) }

  /** The value a cacheable call finds still fresh, if any. */
  function CachedValue(s: RuntimeState, call: Call): Option<Value> {
    if Cacheable(call) && KeyOf(call) in s.cache && s.cache[KeyOf(call)].expiry > call.mono
    then Some(s.cache[KeyOf(call)].value) else None
  }

  /** `attempts * cost`, see `ProviderRuns.CostIsProduct`. */
  function CostOf(attempts: nat, cost: real): real {
    if attempts == 0 then 0.0 else CostOf(attempts - 1, cost) + cost
  }

  function CountStatus(t: Telemetry, status: Status): Telemetry {
    match status
    case CacheHit => t.(cacheHits := t.cacheHits + 1)
    case CircuitOpen => t.(circuitRejections := t.circuitRejections + 1)
    case LocalRateLimit => t.(rateLimited := t.rateLimited + 1)
    case Failed => t.(failures := t.failures + 1)
    case Success => t.(successes := t.successes + 1)
    case Unrecorded => t
  }

  /** How many of a call's attempts were paid for: an interrupted one was not. */
  function Paid(status: Status, attempts: nat): nat {
    if status.Unrecorded? && attempts > 0 then attempts - 1 else attempts
  }

  function EventOf(call: Call, status: Status, attempts: nat, retries: nat): Event {
    Event(call.key, call.operation, status, attempts, retries, CostOf(Paid(status, attempts), call.config.cost))
  }

  /** Events of calls outside any workspace are not persisted, and interrupted calls have none. */
  function Persisted(events: seq<Event>, e: Event): seq<Event> {
    if e.key.scope == "GLOBAL" || e.status.Unrecorded? then events else events + [e]
  }

  /** The call leaves with `status`: its counter goes up and its event is written. */
  function Finish(s: RuntimeState, call: Call, status: Status, attempts: nat, retries: nat): RuntimeState {
    var t, e := TelemetryOf(s.telemetry, call.key), EventOf(call, status, attempts, retries);
    s.(telemetry := s.telemetry[call.key := CountStatus(t, status)],
       events := Persisted(s.events, e), ended := s.ended + [e])
  }

  function CallCounted(s: RuntimeState, k: Key): RuntimeState {
    var t := TelemetryOf(s.telemetry, k);
    s.(telemetry := s.telemetry[k := t.(logicalCalls := t.logicalCalls + 1)])
  }

  /** The budget was charged at `now`: the attempt is counted and the function starts. */
  function Started(s: RuntimeState, k: Key, now: real): RuntimeState {
    var t := TelemetryOf(s.telemetry, k);
    s.(telemetry := s.telemetry[k := t.(attempts := t.attempts + 1)], starts := s.starts + [Start(k, now)])
  }

  function Charged(s: RuntimeState, k: Key, cost: real): RuntimeState {
    var t := TelemetryOf(s.telemetry, k);
    s.(telemetry := s.telemetry[k := t.(cost := t.cost + cost)])
  }

  function Retried(s: RuntimeState, k: Key): RuntimeState {
    var t := TelemetryOf(s.telemetry, k);
    s.(telemetry := s.telemetry[k := t.(retries := t.retries + 1)])
  }

  function FailedAt(s: RuntimeState, call: Call, at: real): RuntimeState {
    var c := MemoryFailure(CircuitOf(s.circuits, call.key), at, call.config.threshold, call.config.cooldown);
    s.(circuits := s.circuits[call.key := c])
  }

  function Succeeded(s: RuntimeState, call: Call, value: Value, filledAt: real): RuntimeState {
    s.(circuits := s.circuits[call.key := CLOSED],
       cache := if Cacheable(call) then s.cache[KeyOf(call) := CacheItem(filledAt + call.ttl, value)] else s.cache)
  }

  /** The state and answer of the budget asked for this attempt. */
  function Asked(s: RuntimeState, call: Call, attempt: nat): (RuntimeState, bool) {
    var (budgets, ok) := MemoryConsume(s.budgets, call.key, call.attempts(attempt).now, call.config.limit);
    (s.(budgets := budgets), ok)
  }

  /** The state in which the provider function runs, once its budget was granted. */
  function AfterStart(s: RuntimeState, call: Call, attempt: nat): (r: RuntimeState)
    ensures r.ended == s.ended && r.events == s.events && r.circuits == s.circuits
  {
    Started(Asked(s, call, attempt).0, call.key, call.attempts(attempt).now)
  }

  /** The state once the function has returned or raised: the attempt is paid for. */
  function AfterRun(s: RuntimeState, call: Call, attempt: nat): (r: RuntimeState)
    ensures r.ended == s.ended && r.events == s.events && r.circuits == s.circuits
  {
    Charged(AfterStart(s, call, attempt), call.key, call.config.cost)
  }

  /** The state in which the next attempt is made. */
  function NextTry(s: RuntimeState, call: Call, attempt: nat): (r: RuntimeState)
    ensures r.ended == s.ended && r.events == s.events && r.circuits == s.circuits
  {
    Retried(AfterRun(s, call, attempt), call.key)
  }

  /** The attempt was charged, failed retryably, and is not the last one allowed. */
  predicate GoesRound(s: RuntimeState, call: Call, attempt: nat) {
    var outcome := call.attempts(attempt).outcome;
    Asked(s, call, attempt).1 && outcome.Raised? && outcome.retryable && attempt < call.config.maxRetries
  }

  /** How the call ends at an attempt that does not go round. */
  function EndAt(s: RuntimeState, call: Call, attempt: nat): Step {
    var a, s2 := call.attempts(attempt), AfterRun(s, call, attempt);
    if !Asked(s, call, attempt).1
    then Step(Finish(Asked(s, call, attempt).0, call, LocalRateLimit, attempt, attempt), RefusedBudget)
    else
      match a.outcome
      case Returned(value) =>
        Step(Finish(Succeeded(s2, call, value, a.filledAt), call, Success, attempt + 1, attempt), Fresh(value))
      case Raised(code, _) =>
        Step(Finish(FailedAt(s2, call, a.failedAt), call, Failed, attempt + 1, attempt), Propagated(code, a.failedAt))
      case Interrupted =>
        Step(Finish(AfterStart(s, call, attempt), call, Unrecorded, attempt + 1, attempt), Aborted)
  }

  function Attempts(s: RuntimeState, call: Call, attempt: nat): Step
    requires attempt <= call.config.maxRetries
    decreases call.config.maxRetries - attempt
  {
    if GoesRound(s, call, attempt) then Attempts(NextTry(s, call, attempt), call, attempt + 1)
    else EndAt(s, call, attempt)
  }

  function Evicted(s: RuntimeState, call: Call): RuntimeState {
    if Cacheable(call) then s.(cache := s.cache - {KeyOf(call)}) else s
  }

  function CircuitRead(s: RuntimeState, call: Call): RuntimeState {
    s.(circuits := s.circuits[call.key := MemoryRead(CircuitOf(s.circuits, call.key), call.now)])
  }

  /** The call is counted, a stale cache item dropped, and the circuit read. */
  function BeforeAttempts(s: RuntimeState, call: Call): (r: RuntimeState)
    ensures r.telemetry == CallCounted(s, call.key).telemetry
    ensures r.budgets == s.budgets && r.starts == s.starts && r.events == s.events && r.ended == s.ended
  {
    CircuitRead(Evicted(CallCounted(s, call.key), call), call)
  }

  function Execute(s: RuntimeState, call: Call): Step {
    var s1 := CallCounted(s, call.key);
    var cached := CachedValue(s, call);
    if cached.Some? then Step(Finish(s1, call, CacheHit, 0, 0), Hit(cached.value))
    else
      var s2 := BeforeAttempts(s, call);
      if IsOpen(CircuitOf(s2.circuits, call.key), call.now)
      then Step(Finish(s2, call, CircuitOpen, 0, 0), RefusedOpen)
      else Attempts(s2, call, 0)
  }

  /** The module state of the runtime with its in-process control plane. */
  class Runtime {
    var telemetry: map<Key, Telemetry>
    var cache: map<CacheKey, CacheItem>
    var events: seq<Event>
    ghost var ended: seq<Event>
    ghost var starts: seq<Start>
    const backend: MemoryControlPlane

    constructor (backend: MemoryControlPlane)
      ensures this.backend == backend
      ensures telemetry == map[] && cache == map[] && events == [] && ended == [] && starts == []
    {
      this.backend := backend;
      telemetry, cache, events, ended, starts := map[], map[], [], [], [];
    }

    ghost function View(): RuntimeState
      reads this, backend
    {
      RuntimeState(telemetry, cache, backend.budgets, backend.circuits, events, ended, starts)
    }

    method PersistEvent(call: Call, status: Status, attempts: nat, retries: nat)
      requires !status.Unrecorded?
      modifies this`events, this`ended
      ensures events == Persisted(old(events), EventOf(call, status, attempts, retries))
      ensures ended == old(ended) + [EventOf(call, status, attempts, retries)]
    {
      ended := ended + [EventOf(call, status, attempts, retries)];
      if call.key.scope == "GLOBAL" {
        return;
      }
      var cost := CostOf(attempts, call.config.cost);
      events := events + [Event(call.key, call.operation, status, attempts, retries, cost)];
    }

    /** Counts the way the call ended and writes its one event. */
    method FinishCall(call: Call, status: Status, attempts: nat, retries: nat)
      requires !status.Unrecorded?
      modifies this`telemetry, this`events, this`ended
      ensures View() == Finish(old(View()), call, status, attempts, retries)
    {
      var stat := TelemetryOf(telemetry, call.key);
      match status {
        case CacheHit => stat := stat.(cacheHits := stat.cacheHits + 1);
        case CircuitOpen => stat := stat.(circuitRejections := stat.circuitRejections + 1);
        case LocalRateLimit => stat := stat.(rateLimited := stat.rateLimited + 1);
        case Failed => stat := stat.(failures := stat.failures + 1);
        case Success => stat := stat.(successes := stat.successes + 1);
      }
      telemetry := telemetry[call.key := stat];
      PersistEvent(call, status, attempts, retries);
    }

    /** The budget was granted: the attempt is counted and the provider function starts. */
    method StartAttempt(call: Call, now: real)
      modifies this`telemetry, this`starts
      ensures View() == Started(old(View()), call.key, now)
    {
      var stat := TelemetryOf(telemetry, call.key);
      telemetry := telemetry[call.key := stat.(attempts := stat.attempts + 1)];
      starts := starts + [Start(call.key, now)];
    }

    /** The provider function returned or raised: its cost is added. */
    method ChargeAttempt(call: Call)
      modifies this`telemetry
      ensures View() == Charged(old(View()), call.key, call.config.cost)
    {
      var stat := TelemetryOf(telemetry, call.key);
      telemetry := telemetry[call.key := stat.(cost := stat.cost + call.config.cost)];
    }

    method CountRetry(k: Key)
      modifies this`telemetry
      ensures View() == Retried(old(View()), k)
    {
      var stat := TelemetryOf(telemetry, k);
      telemetry := telemetry[k := stat.(retries := stat.retries + 1)];
    }

    method StoreResult(call: Call, value: Value, filledAt: real)
      modifies this`cache, backend`circuits
      ensures View() == Succeeded(old(View()), call, value, filledAt)
    {
      backend.Success(call.key);
      if call.cacheKey != "" && call.ttl > 0.0 {
        cache := cache[CacheKey(call.key, call.operation, call.cacheKey) := CacheItem(filledAt + call.ttl, value)];
      }
    }

    method ExecuteCall(call: Call) returns (reply: Reply)
      modifies this, backend
      ensures Step(View(), reply) == Execute(old(View()), call)
    {
      var k := call.key;
      var stat := TelemetryOf(telemetry, k);
      telemetry := telemetry[k := stat.(logicalCalls := stat.logicalCalls + 1)];
      assert View() == CallCounted(old(View()), k);
      if call.cacheKey != "" && call.ttl > 0.0 {
        var ckey := CacheKey(k, call.operation, call.cacheKey);
        if ckey in cache && cache[ckey].expiry > call.mono {
          var item := cache[ckey];
          FinishCall(call, CacheHit, 0, 0);
          return Hit(item.value);
        }
        cache := cache - {ckey};
      }
      assert View() == Evicted(CallCounted(old(View()), k), call);
      var circuit := backend.ReadCircuit(k, call.now);
      assert View() == BeforeAttempts(old(View()), call);
      if circuit.openedUntil > call.now {
        FinishCall(call, CircuitOpen, 0, 0);
        return RefusedOpen;
      }
      reply := AttemptLoop(call);
    }

    /** One pass of the retry loop: either the call ends here or it goes round again. */
    method TryOnce(call: Call, attempt: nat, attemptsUsed: nat, retriesUsed: nat) returns (last: bool, reply: Reply)
      requires attempt <= call.config.maxRetries && attemptsUsed == attempt && retriesUsed == attempt
      modifies this, backend
      ensures last ==> Step(View(), reply) == Attempts(old(View()), call, attempt)
      ensures last || attempt < call.config.maxRetries
      ensures !last ==> Attempts(View(), call, attempt + 1) == Attempts(old(View()), call, attempt)
    {
      var a := call.attempts(attempt);
      var ok := backend.ConsumeBudget(call.key, a.now, call.config.limit);
      if !ok {
        FinishCall(call, LocalRateLimit, attemptsUsed, retriesUsed);
        return true, RefusedBudget;
      }
      StartAttempt(call, a.now);
      last, reply := RunFunction(call, attempt, attemptsUsed, retriesUsed, old(View()));
    }

    /** The provider function runs, and returns, raises or is interrupted. */
    method RunFunction(call: Call, attempt: nat, attemptsUsed: nat, retriesUsed: nat, ghost before: RuntimeState)
      returns (last: bool, reply: Reply)
      requires attempt <= call.config.maxRetries && attemptsUsed == attempt && retriesUsed == attempt
      requires Asked(before, call, attempt).1 && View() == AfterStart(before, call, attempt)
      modifies this, backend
      ensures last ==> Step(View(), reply) == Attempts(before, call, attempt)
      ensures last || attempt < call.config.maxRetries
      ensures !last ==> Attempts(View(), call, attempt + 1) == Attempts(before, call, attempt)
    {
      var a := call.attempts(attempt);
      match a.outcome {
        case Raised(code, retryable) =>
          ChargeAttempt(call);
          assert View() == AfterRun(before, call, attempt);
          if retryable && attempt < call.config.maxRetries {
            CountRetry(call.key);
            return false, RefusedBudget;
          }
          var _ := backend.Failure(call.key, a.failedAt, call.config.threshold, call.config.cooldown);
          FinishCall(call, Failed, attemptsUsed + 1, retriesUsed);
          return true, Propagated(code, a.failedAt);
        case Returned(value) =>
          ChargeAttempt(call);
          assert View() == AfterRun(before, call, attempt);
          StoreResult(call, value, a.filledAt);
          FinishCall(call, Success, attemptsUsed + 1, retriesUsed);
          return true, Fresh(value);
        case Interrupted =>
          ended := ended + [EventOf(call, Unrecorded, attemptsUsed + 1, retriesUsed)];
          return true, Aborted;
      }
    }

    /** The retry loop.  The statement after it cannot be reached. */
    method AttemptLoop(call: Call) returns (reply: Reply)
      modifies this, backend
      ensures Step(View(), reply) == Attempts(old(View()), call, 0)
    {
      var attemptsUsed, retriesUsed := 0, 0;
      var attempt := 0;
      while attempt < call.config.maxRetries + 1
        invariant attempt <= call.config.maxRetries
        invariant attemptsUsed == attempt && retriesUsed == attempt
        invariant Attempts(View(), call, attempt) == Attempts(old(View()), call, 0)
      {
        var last: bool;
        last, reply := TryOnce(call, attempt, attemptsUsed, retriesUsed);
        if last {
          return;
        }
        attemptsUsed, retriesUsed := attemptsUsed + 1, retriesUsed + 1;
        attempt := attempt + 1;
      }
      assert false;
    }
  }
}

/** Whole call lists sent through the three control planes.

    Each driver is a loop over the calls of its plane; its answers are those of the run functions the
    agreement theorems speak of, so the two comparisons at the end are about the objects themselves. */
module PlaneRuns {
  import opened SlidingWindow
  import opened BudgetStores
  import opened Circuits
  import opened ControlPlanes

  // ---------- budgets ----------

  lemma RestOfCalls(calls: seq<BudgetCall>, i: nat)
    requires i < |calls|
    ensures calls[i..][0] == calls[i] && calls[i..][1..] == calls[i + 1..]
  {
  }

  method BudgetsInMemory(plane: MemoryControlPlane, calls: seq<BudgetCall>) returns (answers: seq<bool>)
    modifies plane`budgets
    ensures answers == MemoryRun(old(plane.budgets), calls)
  {
    answers := [];
    for i := 0 to |calls|
      invariant answers + MemoryRun(plane.budgets, calls[i..]) == MemoryRun(old(plane.budgets), calls)
    {
      RestOfCalls(calls, i);
      var ok := plane.ConsumeBudget(calls[i].key, calls[i].now, calls[i].limit);
      answers := answers + [ok];
    }
  }

  method BudgetsInPostgres(tables: PostgresTables, calls: seq<BudgetCall>) returns (answers: seq<bool>)
    modifies tables`rateEvents
    ensures answers == PostgresRun(old(tables.rateEvents), calls)
  {
    answers := [];
    for i := 0 to |calls|
      invariant answers + PostgresRun(tables.rateEvents, calls[i..]) == PostgresRun(old(tables.rateEvents), calls)
    {
      RestOfCalls(calls, i);
      var c := calls[i];
      var ok := tables.ConsumeBudget(c.eventId, PostgresBucket(c.key), c.now, c.limit);
      answers := answers + [ok];
    }
  }

  /** One worker's plane: its calls are those of its instance. */
  ghost predicate FromInstance(calls: seq<BudgetCall>, instance: nat) {
    forall i :: 0 <= i < |calls| ==> calls[i].instance == instance
  }

  /** The server as one instance with that sequence counter sees it. */
  function ServerView(zsets: ZSets, instance: nat, lastSeq: nat): RedisState {
    var seqs: map<nat, nat> := map[instance := lastSeq];
    RedisState(zsets, seqs)
  }

  lemma ConsumeByInstance(zsets: ZSets, lastSeq: nat, c: BudgetCall)
    ensures RedisConsume(ServerView(zsets, c.instance, lastSeq), c.instance, c.key, c.now, c.limit)
         == if c.limit == 0 then (ServerView(zsets, c.instance, lastSeq), false)
            else
              var (zsets', ok) :=
                RedisScript(zsets, RedisKey("budget", c.key), Member(c.now, c.instance, lastSeq + 1), c.now, c.limit);
              (ServerView(zsets', c.instance, lastSeq + 1), ok)
  {
    var seqs: map<nat, nat> := map[c.instance := lastSeq];
    assert seqs[c.instance := lastSeq + 1] == map[c.instance := lastSeq + 1];
  }

  method BudgetStepInRedis(plane: RedisControlPlane, c: BudgetCall) returns (ok: bool)
    requires c.instance == plane.instance
    modifies plane`lastSeq, plane.client`zsets
    ensures (ServerView(plane.client.zsets, plane.instance, plane.lastSeq), ok)
         == RedisConsume(ServerView(old(plane.client.zsets), plane.instance, old(plane.lastSeq)),
                         c.instance, c.key, c.now, c.limit)
  {
    ConsumeByInstance(plane.client.zsets, plane.lastSeq, c);
    ok := plane.ConsumeBudget(c.key, c.now, c.limit);
  }

  method BudgetsInRedis(plane: RedisControlPlane, calls: seq<BudgetCall>) returns (answers: seq<bool>)
    requires FromInstance(calls, plane.instance)
    modifies plane`lastSeq, plane.client`zsets
    ensures answers == RedisRun(ServerView(old(plane.client.zsets), plane.instance, old(plane.lastSeq)), calls)
  {
    answers := [];
    ghost var state := ServerView(plane.client.zsets, plane.instance, plane.lastSeq);
    ghost var expected := RedisRun(state, calls);
    for i := 0 to |calls|
      invariant state == ServerView(plane.client.zsets, plane.instance, plane.lastSeq)
      invariant answers + RedisRun(state, calls[i..]) == expected
    {
      RestOfCalls(calls, i);
      var ok := BudgetStepInRedis(plane, calls[i]);
      NextRedisAnswer(state, calls[i..]);
      state := RedisConsume(state, calls[i].instance, calls[i].key, calls[i].now, calls[i].limit).0;
      answers := answers + [ok];
    }
  }

  lemma NextRedisAnswer(r: RedisState, calls: seq<BudgetCall>)
    requires calls != []
    ensures var c := calls[0];
            var (r', ok) := RedisConsume(r, c.instance, c.key, c.now, c.limit);
            RedisRun(r, calls) == [ok] + RedisRun(r', calls[1..])
  {
  }

  lemma FreshStoresAreInStep(keys: set<Key>, instance: nat, now: real)
    ensures InStep(map[], map[], ServerView(map[], instance, 0), keys, now)
  {
    forall k | k in keys ensures KeyInStep(map[], map[], ServerView(map[], instance, 0), k, now) {
      assert Represents(Bucket(map[], PostgresBucket(k)), [], Deque(map[], k));
    }
  }

  /** The same calls through three fresh planes are answered alike, when the texts of their keys
      differ. */
  method CompareBudgets(calls: seq<BudgetCall>, keys: set<Key>, instance: nat)
    returns (inMemory: seq<bool>, inPostgres: seq<bool>, inRedis: seq<bool>)
    requires LabelsDiffer(keys) && WellTimed(calls, keys) && FromInstance(calls, instance)
    ensures inMemory == inPostgres == inRedis && |inMemory| == |calls|
  {
    var memory := new MemoryControlPlane();
    var tables := new PostgresTables();
    var server := new RedisServer();
    var redis := new RedisControlPlane(server, instance);
    inMemory := BudgetsInMemory(memory, calls);
    inPostgres := BudgetsInPostgres(tables, calls);
    inRedis := BudgetsInRedis(redis, calls);
    FreshStoresAreInStep(keys, instance, if calls == [] then 0.0 else calls[0].now);
    RunsAgree(map[], map[], ServerView(map[], instance, 0), keys, calls);
    OneAnswerEach(map[], calls);
  }

  lemma {:induction false} OneAnswerEach(m: Deques, calls: seq<BudgetCall>)
    ensures |MemoryRun(m, calls)| == |calls|
    decreases |calls|
  {
    if calls != [] {
      OneAnswerEach(MemoryConsume(m, calls[0].key, calls[0].now, calls[0].limit).0, calls[1..]);
    }
  }

  // ---------- circuits ----------

  lemma RestOfOps(ops: seq<Op>, i: nat)
    requires i < |ops|
    ensures ops[i..][0] == ops[i] && ops[i..][1..] == ops[i + 1..]
  {
  }

  method CircuitInMemory(plane: MemoryControlPlane, k: Key, ops: seq<Op>) returns (seen: seq<Seen>, used: seq<Used>)
    modifies plane`circuits
    ensures seen == MemoryTrace(CircuitOf(old(plane.circuits), k), ops)
    ensures used == MemoryUse(CircuitOf(old(plane.circuits), k), ops)
  {
    seen, used := [], [];
    for i := 0 to |ops|
      invariant seen + MemoryTrace(CircuitOf(plane.circuits, k), ops[i..])
             == MemoryTrace(CircuitOf(old(plane.circuits), k), ops)
      invariant used + MemoryUse(CircuitOf(plane.circuits, k), ops[i..])
             == MemoryUse(CircuitOf(old(plane.circuits), k), ops)
    {
      RestOfOps(ops, i);
      var answer := CircuitStepInMemory(plane, k, ops[i]);
      seen, used := seen + [answer], used + [UsedOf(ops[i], answer)];
    }
  }

  method CircuitStepInMemory(plane: MemoryControlPlane, k: Key, op: Op) returns (answer: Seen)
    modifies plane`circuits
    ensures (CircuitOf(plane.circuits, k), answer) == MemoryStep(CircuitOf(old(plane.circuits), k), op)
  {
    match op {
      case Read(now) =>
        var c := plane.ReadCircuit(k, now);
        answer := State(c);
      case Succeed =>
        plane.Success(k);
        answer := Nothing;
      case Fail(now, threshold, cooldown) =>
        var c := plane.Failure(k, now, threshold, cooldown);
        answer := State(c);
    }
  }

  method CircuitInPostgres(tables: PostgresTables, k: Key, ops: seq<Op>) returns (seen: seq<Seen>)
    modifies tables`circuitRows
    ensures seen == PostgresTrace(old(tables.RowAt(k)), ops)
  {
    seen := [];
    for i := 0 to |ops|
      invariant seen + PostgresTrace(tables.RowAt(k), ops[i..]) == PostgresTrace(old(tables.RowAt(k)), ops)
    {
      RestOfOps(ops, i);
      var answer := CircuitStepInPostgres(tables, k, ops[i]);
      seen := seen + [answer];
    }
  }

  method CircuitStepInPostgres(tables: PostgresTables, k: Key, op: Op) returns (answer: Seen)
    modifies tables`circuitRows
    ensures (tables.RowAt(k), answer) == PostgresStep(old(tables.RowAt(k)), op)
  {
    match op {
      case Read(now) =>
        var c := tables.ReadCircuit(k, now);
        answer := State(c);
      case Succeed =>
        tables.RecordSuccess(k);
        answer := Nothing;
      case Fail(now, threshold, cooldown) =>
        var c := tables.RecordFailure(k, now, threshold, cooldown);
        answer := State(c);
    }
  }

  method CircuitInRedis(plane: RedisControlPlane, k: Key, ops: seq<Op>) returns (used: seq<Used>)
    modifies plane.client`hashes
    ensures used == RedisUse(HashAt(old(plane.client.hashes), RedisKey("circuit", k)), ops)
  {
    used := [];
    var key := RedisKey("circuit", k);
    for i := 0 to |ops|
      invariant used + RedisUse(HashAt(plane.client.hashes, key), ops[i..])
             == RedisUse(HashAt(old(plane.client.hashes), key), ops)
    {
      RestOfOps(ops, i);
      var answer := CircuitStepInRedis(plane, k, ops[i]);
      used := used + [UsedOf(ops[i], answer)];
    }
  }

  method CircuitStepInRedis(plane: RedisControlPlane, k: Key, op: Op) returns (answer: Seen)
    modifies plane.client`hashes
    ensures var key := RedisKey("circuit", k);
            (HashAt(plane.client.hashes, key), answer) == RedisStep(HashAt(old(plane.client.hashes), key), op)
  {
    match op {
      case Read(now) =>
        var c := plane.ReadCircuit(k, now);
        answer := State(c);
      case Succeed =>
        plane.Success(k);
        answer := Nothing;
      case Fail(now, threshold, cooldown) =>
        var c := plane.Failure(k, now, threshold, cooldown);
        answer := State(c);
    }
  }

  lemma {:induction false} SteadyHasOneThreshold(ops: seq<Op>, from: real, threshold: int, cooldown: real)
    requires Steady(ops, from, threshold, cooldown)
    ensures OneThreshold(ops, threshold)
    decreases |ops|
  {
    if ops != [] {
      SteadyHasOneThreshold(ops[1..], TimeOf(ops[0], from), threshold, cooldown);
      forall i | 0 < i < |ops| ensures ops[i] == ops[1..][i - 1] {}
    }
  }

  /** The same operations on one key through three fresh planes: PostgreSQL returns what memory
      returns, and Redis decides as memory does exactly when the failures are in time. */
  method CompareCircuits(k: Key, ops: seq<Op>, from: real, threshold: int, cooldown: real)
    returns (inMemory: seq<Seen>, inPostgres: seq<Seen>, usedInMemory: seq<Used>, usedInRedis: seq<Used>)
    requires threshold >= 1 && cooldown >= 0.0 && 0.0 <= from && Steady(ops, from, threshold, cooldown)
    ensures inMemory == inPostgres
    ensures usedInMemory == usedInRedis <==> Tight([], ops, threshold, cooldown)
  {
    var memory := new MemoryControlPlane();
    var tables := new PostgresTables();
    var server := new RedisServer();
    var redis := new RedisControlPlane(server, 0);
    inMemory, usedInMemory := CircuitInMemory(memory, k, ops);
    inPostgres := CircuitInPostgres(tables, k, ops);
    usedInRedis := CircuitInRedis(redis, k, ops);
    SteadyHasOneThreshold(ops, from, threshold, cooldown);
    FixedThresholdAgrees(ops, threshold);
    FreshRedisAgreesExactlyWhen(ops, from, threshold, cooldown);
  }
}

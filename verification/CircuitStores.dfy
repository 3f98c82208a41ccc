/** Circuits of several keys beside each other.

    The in-process store keeps one record for each pair of scope and provider; Redis keeps one hash
    for each text joining the two, so two pairs can share a circuit as they can share a budget. */
module CircuitStores {
  import opened Common
  import opened BudgetStores
  import opened Circuits
  import opened ControlPlanes

  datatype KeyedOp = KeyedOp(key: Key, op: Op)

  type Hashes = map<string, Hash>

  function CircuitKey(k: Key): string { RedisKey("circuit", k) }

  function MemoryAfter(m: CircuitMap, o: KeyedOp): CircuitMap {
    m[o.key := MemoryStep(CircuitOf(m, o.key), o.op).0]
  }

  function RedisAfter(h: Hashes, o: KeyedOp): Hashes {
    var r := RedisStep(HashAt(h, CircuitKey(o.key)), o.op).0;
    if r.None? then h - {CircuitKey(o.key)} else h[CircuitKey(o.key) := r.value]
  }

  function MemoryUses(m: CircuitMap, ops: seq<KeyedOp>): seq<Used>
    decreases |ops|
  {
    if ops == [] then []
    else
      var o := ops[0];
      [UsedOf(o.op, MemoryStep(CircuitOf(m, o.key), o.op).1)] + MemoryUses(MemoryAfter(m, o), ops[1..])
  }

  function RedisUses(h: Hashes, ops: seq<KeyedOp>): seq<Used>
    decreases |ops|
  {
    if ops == [] then []
    else
      var o := ops[0];
      [UsedOf(o.op, RedisStep(HashAt(h, CircuitKey(o.key)), o.op).1)] + RedisUses(RedisAfter(h, o), ops[1..])
  }

  function OpsOf(ops: seq<KeyedOp>): seq<Op>
    decreases |ops|
  {
    if ops == [] then [] else [ops[0].op] + OpsOf(ops[1..])
  }

  function OwnOps(ops: seq<KeyedOp>, k: Key): seq<Op>
    decreases |ops|
  {
    if ops == [] then [] else (if ops[0].key == k then [ops[0].op] else []) + OwnOps(ops[1..], k)
  }

  /** A trace over `keys` with nondecreasing time and one configuration, in which every key's own
      failures are closer together than the time to live: one key alone would be served alike. */
  ghost predicate Ordinary(ops: seq<KeyedOp>, keys: set<Key>, from: real, threshold: int, cooldown: real) {
    && threshold >= 1 && cooldown >= 0.0 && 0.0 <= from
    && Steady(OpsOf(ops), from, threshold, cooldown)
    && (forall i :: 0 <= i < |ops| ==> ops[i].key in keys)
    && (forall k :: k in keys ==> Tight([], OwnOps(ops, k), threshold, cooldown))
  }

  ghost predicate CircuitsAgreeOn(keys: set<Key>) {
    forall ops, from: real, threshold, cooldown: real :: Ordinary(ops, keys, from, threshold, cooldown) ==>
      MemoryUses(map[], ops) == RedisUses(map[], ops)
  }

  /** What both stores hold for `k` is what its streak explains. */
  ghost predicate KeyHolds(m: CircuitMap, h: Hashes, k: Key, streak: seq<real>, now: real, threshold: int, cooldown: real) {
    BothHold(CircuitOf(m, k), HashAt(h, CircuitKey(k)), streak, now, threshold, cooldown)
  }

  lemma StepLeavesOthers(m: CircuitMap, h: Hashes, o: KeyedOp, k: Key)
    requires k != o.key && Label(k) != Label(o.key)
    ensures CircuitOf(MemoryAfter(m, o), k) == CircuitOf(m, k)
    ensures HashAt(RedisAfter(h, o), CircuitKey(k)) == HashAt(h, CircuitKey(k))
  {
    CircuitKeysDiffer(k, o.key);
  }

  lemma CircuitKeysDiffer(a: Key, b: Key)
    ensures CircuitKey(a) == CircuitKey(b) <==> Label(a) == Label(b)
  {
    var prefix := PREFIX + ":" + "circuit" + ":";
    assert CircuitKey(a)[|prefix|..] == Label(a) && CircuitKey(b)[|prefix|..] == Label(b);
  }

  lemma StepOwnKey(m: CircuitMap, h: Hashes, o: KeyedOp)
    ensures CircuitOf(MemoryAfter(m, o), o.key) == MemoryStep(CircuitOf(m, o.key), o.op).0
    ensures HashAt(RedisAfter(h, o), CircuitKey(o.key)) == RedisStep(HashAt(h, CircuitKey(o.key)), o.op).0
  {
  }

  /** With different texts, one operation is answered alike and keeps every key in step. */
  lemma KeyedStep(m: CircuitMap, h: Hashes, o: KeyedOp, k: Key, own: seq<real>, streak: seq<real>,
                  from: real, threshold: int, cooldown: real)
    requires threshold >= 1 && cooldown >= 0.0 && 0.0 <= from && Steady([o.op], from, threshold, cooldown)
    requires KeyHolds(m, h, o.key, own, from, threshold, cooldown) && InTime(own, o.op, cooldown)
    requires KeyHolds(m, h, k, streak, from, threshold, cooldown)
    requires k != o.key ==> Label(k) != Label(o.key)
    ensures KeyHolds(MemoryAfter(m, o), RedisAfter(h, o), k,
                     if k == o.key then StreakStep(own, o.op, threshold, cooldown) else streak,
                     TimeOf(o.op, from), threshold, cooldown)
  {
    if k == o.key {
      StepOwnKey(m, h, o);
      OneStep(CircuitOf(m, k), HashAt(h, CircuitKey(k)), own, o.op, from, threshold, cooldown);
    } else {
      StepLeavesOthers(m, h, o, k);
      MirrorsLater(CircuitOf(m, k), HashAt(h, CircuitKey(k)), from, TimeOf(o.op, from), threshold);
    }
  }

  lemma {:induction false} KeyedRunsAgree(m: CircuitMap, h: Hashes, streaks: Key -> seq<real>, keys: set<Key>,
                                          ops: seq<KeyedOp>, from: real, threshold: int, cooldown: real)
    requires threshold >= 1 && cooldown >= 0.0 && 0.0 <= from && LabelsDiffer(keys)
    requires Steady(OpsOf(ops), from, threshold, cooldown)
    requires forall i :: 0 <= i < |ops| ==> ops[i].key in keys
    requires forall k :: k in keys ==> KeyHolds(m, h, k, streaks(k), from, threshold, cooldown)
    requires forall k :: k in keys ==> Tight(streaks(k), OwnOps(ops, k), threshold, cooldown)
    ensures MemoryUses(m, ops) == RedisUses(h, ops)
    decreases |ops|
  {
    if ops != [] {
      var o, own := ops[0], streaks(ops[0].key);
      var next := (k: Key) => if k == o.key then StreakStep(own, o.op, threshold, cooldown) else streaks(k);
      assert OpsOf(ops)[0] == o.op && OpsOf(ops)[1..] == OpsOf(ops[1..]);
      assert OwnOps(ops, o.key)[0] == o.op && OwnOps(ops, o.key)[1..] == OwnOps(ops[1..], o.key);
      OneStep(CircuitOf(m, o.key), HashAt(h, CircuitKey(o.key)), own, o.op, from, threshold, cooldown);
      forall k | k in keys
        ensures KeyHolds(MemoryAfter(m, o), RedisAfter(h, o), k, next(k), TimeOf(o.op, from), threshold, cooldown)
        ensures Tight(next(k), OwnOps(ops[1..], k), threshold, cooldown)
      {
        KeyedStep(m, h, o, k, own, streaks(k), from, threshold, cooldown);
        assert k != o.key ==> OwnOps(ops, k) == OwnOps(ops[1..], k);
      }
      KeyedRunsAgree(MemoryAfter(m, o), RedisAfter(h, o), next, keys, ops[1..], TimeOf(o.op, from), threshold, cooldown);
    }
  }

  lemma TwoOps(m: CircuitMap, h: Hashes, o: KeyedOp, p: KeyedOp)
    ensures OpsOf([o, p]) == [o.op, p.op]
    ensures MemoryUses(m, [o, p]) == [UsedOf(o.op, MemoryStep(CircuitOf(m, o.key), o.op).1),
                                      UsedOf(p.op, MemoryStep(CircuitOf(MemoryAfter(m, o), p.key), p.op).1)]
    ensures RedisUses(h, [o, p]) == [UsedOf(o.op, RedisStep(HashAt(h, CircuitKey(o.key)), o.op).1),
                                     UsedOf(p.op, RedisStep(HashAt(RedisAfter(h, o), CircuitKey(p.key)), p.op).1)]
  {
    assert [o, p][1..] == [p] && [p][1..] == [];
    assert OpsOf([p]) == [p.op];
    assert MemoryUses(MemoryAfter(m, o), [p])
        == [UsedOf(p.op, MemoryStep(CircuitOf(MemoryAfter(m, o), p.key), p.op).1)];
    assert RedisUses(RedisAfter(h, o), [p])
        == [UsedOf(p.op, RedisStep(HashAt(RedisAfter(h, o), CircuitKey(p.key)), p.op).1)];
  }

  lemma FailThenReadIsOrdinary(a: Key, b: Key)
    requires a != b
    ensures Ordinary([KeyedOp(a, Fail(100.0, 1, 30.0)), KeyedOp(b, Read(101.0))], {a, b}, 0.0, 1, 30.0)
  {
    var fail, read := KeyedOp(a, Fail(100.0, 1, 30.0)), KeyedOp(b, Read(101.0));
    TwoOps(map[], map[], fail, read);
    assert [fail, read][1..] == [read] && [read][1..] == [];
    assert [fail.op, read.op][1..] == [read.op] && [read.op][1..] == [] && [fail.op][1..] == [];
    assert OwnOps([read], a) == [] && OwnOps([read], b) == [read.op];
    assert OwnOps([fail, read], a) == [fail.op] && OwnOps([fail, read], b) == [read.op];
    assert Steady([read.op], 100.0, 1, 30.0);
  }

  /** A failure on one key opens the circuit of another key with the same text, in Redis only. */
  lemma SharedHashDisagrees(a: Key, b: Key)
    requires a != b && Label(a) == Label(b)
    ensures !CircuitsAgreeOn({a, b})
  {
    var fail, read := KeyedOp(a, Fail(100.0, 1, 30.0)), KeyedOp(b, Read(101.0));
    TwoOps(map[], map[], fail, read);
    FailThenReadIsOrdinary(a, b);
    CircuitKeysDiffer(a, b);
    StepOwnKey(map[], map[], fail);
    assert TimeToLive(30.0) == 90.0;
    assert CircuitOf(MemoryAfter(map[], fail), b) == CLOSED;
    assert HashAt(RedisAfter(map[], fail), CircuitKey(b)) == Some(Hash(1, Some(130.0), 190.0));
    assert MemoryUses(map[], [fail, read])[1] == Open(false);
    assert RedisUses(map[], [fail, read])[1] == Open(true);
  }

  /** The circuits of a set of keys are the same in process and in Redis exactly when their joined
      texts differ. */
  lemma CircuitsAgreeExactlyWhenLabelsDiffer(keys: set<Key>)
    ensures CircuitsAgreeOn(keys) <==> LabelsDiffer(keys)
  {
    if LabelsDiffer(keys) {
      forall ops, from: real, threshold, cooldown: real | Ordinary(ops, keys, from, threshold, cooldown)
        ensures MemoryUses(map[], ops) == RedisUses(map[], ops)
      {
        KeyedRunsAgree(map[], map[], (k: Key) => [], keys, ops, from, threshold, cooldown);
      }
    } else {
      var a, b :| a in keys && b in keys && a != b && Label(a) == Label(b);
      SharedHashDisagrees(a, b);
      SmallerSetAgrees(keys, {a, b});
    }
  }

  lemma {:induction false} NoOwnOps(ops: seq<KeyedOp>, k: Key)
    requires forall i :: 0 <= i < |ops| ==> ops[i].key != k
    ensures OwnOps(ops, k) == []
    decreases |ops|
  {
    if ops != [] {
      NoOwnOps(ops[1..], k);
    }
  }

  lemma SmallerSetAgrees(keys: set<Key>, some: set<Key>)
    requires some <= keys
    ensures CircuitsAgreeOn(keys) ==> CircuitsAgreeOn(some)
  {
    forall ops, from: real, threshold, cooldown: real | Ordinary(ops, some, from, threshold, cooldown)
      ensures Ordinary(ops, keys, from, threshold, cooldown)
    {
      forall k | k in keys ensures Tight([], OwnOps(ops, k), threshold, cooldown) {
        if k !in some { NoOwnOps(ops, k); }
      }
    }
  }
}

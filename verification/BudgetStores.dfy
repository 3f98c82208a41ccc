/** The three budget stores behind the `ControlPlane` protocol, compared over whole runs.

    The in-process store keys its deques by the pair (scope, provider).  Redis and PostgreSQL
    key by one text joining the two with a colon, so two different pairs can share a key.
    `StoresAgreeExactlyWhenLabelsDiffer` says what that costs: the stores give the same
    answers on every run over a set of keys if and only if no two of those keys share a text. */
module BudgetStores {
  import opened SlidingWindow

  datatype Key = Key(scope: string, provider: string)

  const PREFIX := "rivexis:provider-control"

  function Label(k: Key): string { k.scope + ":" + k.provider }

  function PostgresBucket(k: Key): string { PREFIX + ":" + Label(k) }

  function RedisKey(kind: string, k: Key): string { PREFIX + ":" + kind + ":" + Label(k) }

  // ---------- one call on each store ----------

  type Deques = map<Key, seq<real>>

  function Deque(m: Deques, k: Key): seq<real> { if k in m then m[k] else [] }

  function MemoryConsume(m: Deques, k: Key, now: real, limit: int): (Deques, bool) {
    if limit == 0 then (m, false)
    else
      var (q, ok) := Admit(Deque(m, k), now, limit);
      (m[k := q], ok)
  }

  /** The server's sorted sets and the last sequence number each plane instance has used. */
  datatype RedisState = RedisState(zsets: ZSets, seqs: map<nat, nat>)

  function LastSeq(r: RedisState, instance: nat): nat {
    if instance in r.seqs then r.seqs[instance] else 0
  }

  function RedisConsume(r: RedisState, instance: nat, k: Key, now: real, limit: int): (RedisState, bool) {
    if limit == 0 then (r, false)
    else
      var n := LastSeq(r, instance) + 1;
      var (zsets, ok) := RedisScript(r.zsets, RedisKey("budget", k), Member(now, instance, n), now, limit);
      (RedisState(zsets, r.seqs[instance := n]), ok)
  }

  // ---------- runs ----------

  /** One `consume_budget` call: the plane instance making it, its arguments, and the fresh
      identifier PostgreSQL would store. */
  datatype BudgetCall = BudgetCall(instance: nat, key: Key, now: real, limit: int, eventId: string)

  function MemoryRun(m: Deques, calls: seq<BudgetCall>): seq<bool>
    decreases |calls|
  {
    if calls == [] then []
    else
      var c := calls[0];
      var (m', ok) := MemoryConsume(m, c.key, c.now, c.limit);
      [ok] + MemoryRun(m', calls[1..])
  }

  function PostgresRun(t: Table, calls: seq<BudgetCall>): seq<bool>
    decreases |calls|
  {
    if calls == [] then []
    else
      var c := calls[0];
      var (t', ok) := PostgresConsume(t, c.eventId, PostgresBucket(c.key), c.now, c.limit);
      [ok] + PostgresRun(t', calls[1..])
  }

  function RedisRun(r: RedisState, calls: seq<BudgetCall>): seq<bool>
    decreases |calls|
  {
    if calls == [] then []
    else
      var c := calls[0];
      var (r', ok) := RedisConsume(r, c.instance, c.key, c.now, c.limit);
      [ok] + RedisRun(r', calls[1..])
  }

  /** Clock readings never go back, and PostgreSQL's identifiers are never reused. */
  ghost predicate WellTimed(calls: seq<BudgetCall>, keys: set<Key>) {
    && (forall i :: 0 <= i < |calls| ==> calls[i].key in keys)
    && (forall i, j :: 0 <= i < j < |calls| ==> calls[i].now <= calls[j].now && calls[i].eventId != calls[j].eventId)
  }

  ghost predicate StoresAgreeOn(keys: set<Key>) {
    forall calls :: WellTimed(calls, keys) ==>
      MemoryRun(map[], calls) == PostgresRun(map[], calls) == RedisRun(RedisState(map[], map[]), calls)
  }

  ghost predicate LabelsDiffer(keys: set<Key>) {
    forall a, b :: a in keys && b in keys && Label(a) == Label(b) ==> a == b
  }

  // ---------- the simulation relation ----------

  ghost predicate RowsMatch(m: Deques, t: Table, k: Key) {
    exists ids :: Represents(Bucket(t, PostgresBucket(k)), ids, Deque(m, k))
  }

  /** The sorted set under `key` holds the deque `q`, and outlives every stamp in it. */
  ghost predicate SetHolds(z: ZSets, key: string, q: seq<real>) {
    if key in z then
      AtMost(q, z[key].expireAt - REDIS_EXPIRY) && exists ids :: Represents(z[key].entries, ids, q)
    else
      q == []
  }

  ghost predicate MembersUsed(r: RedisState) {
    forall key, member :: key in r.zsets && member in r.zsets[key].entries ==>
      member.seq_ <= LastSeq(r, member.instance)
  }

  ghost predicate DequeOk(m: Deques, k: Key, now: real) {
    Sorted(Deque(m, k)) && AtMost(Deque(m, k), now)
  }

  lemma LabelsDecideTexts(a: Key, b: Key)
    ensures PostgresBucket(a) == PostgresBucket(b) <==> Label(a) == Label(b)
    ensures RedisKey("budget", a) == RedisKey("budget", b) <==> Label(a) == Label(b)
  {
    assert PostgresBucket(a)[|PREFIX + ":"|..] == Label(a);
    assert PostgresBucket(b)[|PREFIX + ":"|..] == Label(b);
    var kind := PREFIX + ":" + "budget" + ":";
    assert RedisKey("budget", a) == kind + Label(a) && RedisKey("budget", b) == kind + Label(b);
    assert (kind + Label(a))[|kind|..] == Label(a) && (kind + Label(b))[|kind|..] == Label(b);
  }

  lemma PostgresConsumeInStep(m: Deques, t: Table, c: BudgetCall, k: Key)
    requires c.limit != 0 && c.eventId !in t
    requires DequeOk(m, c.key, c.now) && RowsMatch(m, t, c.key) && RowsMatch(m, t, k)
    requires Label(k) == Label(c.key) ==> k == c.key
    ensures MemoryConsume(m, c.key, c.now, c.limit).1
         == PostgresConsume(t, c.eventId, PostgresBucket(c.key), c.now, c.limit).1
    ensures RowsMatch(MemoryConsume(m, c.key, c.now, c.limit).0,
                      PostgresConsume(t, c.eventId, PostgresBucket(c.key), c.now, c.limit).0, k)
  {
    LabelsDecideTexts(k, c.key);
    PostgresConsumeOneBucket(t, c.eventId, PostgresBucket(c.key), c.now, c.limit, PostgresBucket(k));
    var q, v := Deque(m, c.key), Bucket(t, PostgresBucket(c.key));
    var ids :| Represents(v, ids, q);
    var kept := AdmitEntriesRepresents(v, ids, q, c.eventId, c.now, c.limit);
    var m' := MemoryConsume(m, c.key, c.now, c.limit).0;
    if k == c.key {
      assert Deque(m', k) == Admit(q, c.now, c.limit).0;
    } else {
      assert Deque(m', k) == Deque(m, k);
    }
  }

  lemma RedisScriptOneKey(z: ZSets, key: string, member: Member, now: real, limit: int, other: string)
    requires other != key
    ensures other in RedisScript(z, key, member, now, limit).0 <==> other in z
    ensures other in z ==> RedisScript(z, key, member, now, limit).0[other] == z[other]
  {
  }

  lemma ScriptWrites(z: ZSets, key: string, member: Member, now: real, limit: int, entries: map<Member, real>)
    requires entries == Visible(z, key, now)
    ensures RedisScript(z, key, member, now, limit).1 == AdmitEntries(entries, member, now, limit).1
    ensures var (after, ok) := AdmitEntries(entries, member, now, limit);
            var z' := RedisScript(z, key, member, now, limit).0;
            if ok then key in z' && z'[key] == ZSet(after, now + REDIS_EXPIRY)
            else if key in z && now < z[key].expireAt then key in z' && z'[key] == ZSet(after, z[key].expireAt)
            else key !in z'
  {
  }

  lemma VisibleSetHolds(z: ZSets, key: string, q: seq<real>, member: Member, now: real, limit: int)
    requires limit != 0 && Sorted(q) && AtMost(q, now) && SetHolds(z, key, q)
    requires key in z && now < z[key].expireAt && member !in z[key].entries
    ensures RedisScript(z, key, member, now, limit).1 == Admit(q, now, limit).1
    ensures SetHolds(RedisScript(z, key, member, now, limit).0, key, Admit(q, now, limit).0)
  {
    var entries, q' := z[key].entries, Admit(q, now, limit).0;
    ScriptWrites(z, key, member, now, limit, entries);
    var ids :| Represents(entries, ids, q);
    var kept := AdmitEntriesRepresents(entries, ids, q, member, now, limit);
    AdmitKeepsSorted(q, now, limit);
    RefusedStaysBelow(q, now, limit, z[key].expireAt - REDIS_EXPIRY);
  }

  lemma RefusedStaysBelow(q: seq<real>, now: real, limit: int, bound: real)
    requires Sorted(q) && AtMost(q, bound)
    ensures !Admit(q, now, limit).1 ==> AtMost(Admit(q, now, limit).0, bound)
  {
    var n := PopExpiredKeepsLive(q, now - WINDOW);
  }

  lemma {:induction false} AllExpired(q: seq<real>, cutoff: real)
    requires AtMost(q, cutoff)
    ensures PopExpired(q, cutoff) == []
  {
    if q != [] {
      AllExpired(q[1..], cutoff);
    }
  }

  /** Lazy expiry of a whole set never loses a stamp still inside the window. */
  lemma ExpiredSetHolds(z: ZSets, key: string, q: seq<real>, member: Member, now: real, limit: int)
    requires limit != 0 && Sorted(q) && AtMost(q, now) && SetHolds(z, key, q)
    requires key in z ==> z[key].expireAt <= now
    ensures RedisScript(z, key, member, now, limit).1 == Admit(q, now, limit).1
    ensures SetHolds(RedisScript(z, key, member, now, limit).0, key, Admit(q, now, limit).0)
  {
    AllExpired(q, now - WINDOW);
    ScriptWrites(z, key, member, now, limit, map[]);
    var none: seq<Member>, noEntries: map<Member, real> := [], map[];
    assert Represents(noEntries, none, []);
    var kept := AdmitEntriesRepresents(noEntries, none, [], member, now, limit);
    assert PopExpired([], now - WINDOW) == [];
    AdmitKeepsSorted([], now, limit);
  }

  lemma RedisStepOwnKey(m: Deques, r: RedisState, c: BudgetCall)
    requires c.limit != 0 && DequeOk(m, c.key, c.now)
    requires SetHolds(r.zsets, RedisKey("budget", c.key), Deque(m, c.key)) && MembersUsed(r)
    ensures MemoryConsume(m, c.key, c.now, c.limit).1
         == RedisConsume(r, c.instance, c.key, c.now, c.limit).1
    ensures SetHolds(RedisConsume(r, c.instance, c.key, c.now, c.limit).0.zsets, RedisKey("budget", c.key),
                     Deque(MemoryConsume(m, c.key, c.now, c.limit).0, c.key))
  {
    var key, member := RedisKey("budget", c.key), Member(c.now, c.instance, LastSeq(r, c.instance) + 1);
    NextMemberIsNew(r, key, member);
    ScriptFollowsDeque(r.zsets, key, Deque(m, c.key), member, c.now, c.limit);
    ConsumeRunsScript(r, c, key, member);
  }

  lemma NextMemberIsNew(r: RedisState, key: string, member: Member)
    requires MembersUsed(r) && member.seq_ == LastSeq(r, member.instance) + 1
    ensures key in r.zsets ==> member !in r.zsets[key].entries
  {
  }

  lemma ConsumeRunsScript(r: RedisState, c: BudgetCall, key: string, member: Member)
    requires c.limit != 0 && key == RedisKey("budget", c.key)
    requires member == Member(c.now, c.instance, LastSeq(r, c.instance) + 1)
    ensures RedisConsume(r, c.instance, c.key, c.now, c.limit).1 == RedisScript(r.zsets, key, member, c.now, c.limit).1
    ensures RedisConsume(r, c.instance, c.key, c.now, c.limit).0.zsets
         == RedisScript(r.zsets, key, member, c.now, c.limit).0
  {
  }

  lemma ScriptFollowsDeque(z: ZSets, key: string, q: seq<real>, member: Member, now: real, limit: int)
    requires limit != 0 && Sorted(q) && AtMost(q, now) && SetHolds(z, key, q)
    requires key in z ==> member !in z[key].entries
    ensures RedisScript(z, key, member, now, limit).1 == Admit(q, now, limit).1
    ensures SetHolds(RedisScript(z, key, member, now, limit).0, key, Admit(q, now, limit).0)
  {
    if key in z && now < z[key].expireAt {
      VisibleSetHolds(z, key, q, member, now, limit);
    } else {
      ExpiredSetHolds(z, key, q, member, now, limit);
    }
  }

  lemma RedisMembersUsed(r: RedisState, c: BudgetCall)
    requires MembersUsed(r)
    ensures MembersUsed(RedisConsume(r, c.instance, c.key, c.now, c.limit).0)
  {
    var r' := RedisConsume(r, c.instance, c.key, c.now, c.limit).0;
    forall key, member | key in r'.zsets && member in r'.zsets[key].entries
      ensures member.seq_ <= LastSeq(r', member.instance)
    {
      if key != RedisKey("budget", c.key) && c.limit != 0 {
        RedisScriptOneKey(r.zsets, RedisKey("budget", c.key),
                          Member(c.now, c.instance, LastSeq(r, c.instance) + 1), c.now, c.limit, key);
        assert member in r.zsets[key].entries;
      }
    }
  }

  ghost predicate KeyInStep(m: Deques, t: Table, r: RedisState, k: Key, now: real) {
    DequeOk(m, k, now) && RowsMatch(m, t, k) && SetHolds(r.zsets, RedisKey("budget", k), Deque(m, k))
  }

  ghost predicate InStep(m: Deques, t: Table, r: RedisState, keys: set<Key>, now: real) {
    (forall k :: k in keys ==> KeyInStep(m, t, r, k, now)) && MembersUsed(r)
  }

  lemma OwnKeyStaysInStep(m: Deques, t: Table, r: RedisState, c: BudgetCall)
    requires c.limit != 0 && KeyInStep(m, t, r, c.key, c.now) && MembersUsed(r) && c.eventId !in t
    ensures var (m', ok) := MemoryConsume(m, c.key, c.now, c.limit);
            var (t', ok') := PostgresConsume(t, c.eventId, PostgresBucket(c.key), c.now, c.limit);
            var (r', ok'') := RedisConsume(r, c.instance, c.key, c.now, c.limit);
            ok == ok' == ok'' && KeyInStep(m', t', r', c.key, c.now)
  {
    AdmitKeepsSorted(Deque(m, c.key), c.now, c.limit);
    RedisStepOwnKey(m, r, c);
    PostgresConsumeInStep(m, t, c, c.key);
  }

  lemma OtherSetHolds(r: RedisState, c: BudgetCall, k: Key, q: seq<real>)
    requires Label(k) != Label(c.key) && SetHolds(r.zsets, RedisKey("budget", k), q)
    ensures SetHolds(RedisConsume(r, c.instance, c.key, c.now, c.limit).0.zsets, RedisKey("budget", k), q)
  {
    LabelsDecideTexts(k, c.key);
    if c.limit != 0 {
      RedisScriptOneKey(r.zsets, RedisKey("budget", c.key),
                        Member(c.now, c.instance, LastSeq(r, c.instance) + 1), c.now, c.limit, RedisKey("budget", k));
    }
  }

  lemma OtherKeyStaysInStep(m: Deques, t: Table, r: RedisState, c: BudgetCall, k: Key)
    requires c.limit != 0 && KeyInStep(m, t, r, c.key, c.now) && c.eventId !in t
    requires KeyInStep(m, t, r, k, c.now) && Label(k) != Label(c.key)
    ensures KeyInStep(MemoryConsume(m, c.key, c.now, c.limit).0,
                      PostgresConsume(t, c.eventId, PostgresBucket(c.key), c.now, c.limit).0,
                      RedisConsume(r, c.instance, c.key, c.now, c.limit).0, k, c.now)
  {
    PostgresConsumeInStep(m, t, c, k);
    assert Deque(MemoryConsume(m, c.key, c.now, c.limit).0, k) == Deque(m, k);
    OtherSetHolds(r, c, k, Deque(m, k));
  }

  lemma StepKeepsInStep(m: Deques, t: Table, r: RedisState, keys: set<Key>, c: BudgetCall)
    requires LabelsDiffer(keys) && c.key in keys && InStep(m, t, r, keys, c.now) && c.eventId !in t
    ensures var (m', ok) := MemoryConsume(m, c.key, c.now, c.limit);
            var (t', ok') := PostgresConsume(t, c.eventId, PostgresBucket(c.key), c.now, c.limit);
            var (r', ok'') := RedisConsume(r, c.instance, c.key, c.now, c.limit);
            ok == ok' == ok'' && InStep(m', t', r', keys, c.now)
  {
    if c.limit != 0 {
      OwnKeyStaysInStep(m, t, r, c);
      RedisMembersUsed(r, c);
      forall k | k in keys && k != c.key
        ensures KeyInStep(MemoryConsume(m, c.key, c.now, c.limit).0,
                          PostgresConsume(t, c.eventId, PostgresBucket(c.key), c.now, c.limit).0,
                          RedisConsume(r, c.instance, c.key, c.now, c.limit).0, k, c.now)
      {
        OtherKeyStaysInStep(m, t, r, c, k);
      }
    }
  }

  lemma InStepLater(m: Deques, t: Table, r: RedisState, keys: set<Key>, now: real, later: real)
    requires InStep(m, t, r, keys, now) && now <= later
    ensures InStep(m, t, r, keys, later)
  {
    forall k | k in keys ensures KeyInStep(m, t, r, k, later) {
      assert KeyInStep(m, t, r, k, now);
    }
  }

  lemma PostgresInsertsOnlyItsId(t: Table, eventId: string, bucket: string, now: real, limit: int)
    ensures PostgresConsume(t, eventId, bucket, now, limit).0.Keys <= t.Keys + {eventId}
  {
  }

  lemma {:induction false} RunsAgree(m: Deques, t: Table, r: RedisState, keys: set<Key>, calls: seq<BudgetCall>)
    requires LabelsDiffer(keys) && WellTimed(calls, keys)
    requires calls != [] ==> InStep(m, t, r, keys, calls[0].now)
    requires forall i :: 0 <= i < |calls| ==> calls[i].eventId !in t
    ensures MemoryRun(m, calls) == PostgresRun(t, calls) == RedisRun(r, calls)
    decreases |calls|
  {
    if calls != [] {
      var c, rest := calls[0], calls[1..];
      StepKeepsInStep(m, t, r, keys, c);
      var m' := MemoryConsume(m, c.key, c.now, c.limit).0;
      var t' := PostgresConsume(t, c.eventId, PostgresBucket(c.key), c.now, c.limit).0;
      var r' := RedisConsume(r, c.instance, c.key, c.now, c.limit).0;
      if rest != [] {
        assert rest[0] == calls[1];
        InStepLater(m', t', r', keys, c.now, rest[0].now);
      }
      PostgresInsertsOnlyItsId(t, c.eventId, PostgresBucket(c.key), c.now, c.limit);
      assert forall i :: 0 <= i < |rest| ==> rest[i] == calls[i + 1];
      RunsAgree(m', t', r', keys, rest);
    }
  }

  lemma CollidingLabelsDisagree(a: Key, b: Key)
    requires a != b && Label(a) == Label(b)
    ensures !StoresAgreeOn({a, b})
  {
    var first, second := BudgetCall(0, a, 0.0, 1, "x"), BudgetCall(0, b, 0.0, 1, "y");
    var calls := [first, second];
    LabelsDecideTexts(a, b);
    assert WellTimed(calls, {a, b});
    assert calls[1..] == [second];
    var m := MemoryConsume(map[], a, 0.0, 1).0;
    assert Deque(m, b) == [];
    assert MemoryRun(m, [second]) == [true];
    assert MemoryRun(map[], calls) == [true] + MemoryRun(m, [second]);
    var t := PostgresConsume(map[], "x", PostgresBucket(a), 0.0, 1).0;
    assert Bucket(DeleteExpired(t, PostgresBucket(b), 0.0 - WINDOW), PostgresBucket(b)) == map["x" := 0.0];
    assert PostgresRun(t, [second]) == [false];
    assert PostgresRun(map[], calls) == [true] + PostgresRun(t, [second]);
    assert MemoryRun(map[], calls)[1] != PostgresRun(map[], calls)[1];
  }

  /** The three stores are interchangeable on a set of keys exactly when their texts differ. */
  lemma StoresAgreeExactlyWhenLabelsDiffer(keys: set<Key>)
    ensures StoresAgreeOn(keys) <==> LabelsDiffer(keys)
  {
    if LabelsDiffer(keys) {
      forall calls: seq<BudgetCall> | WellTimed(calls, keys)
        ensures MemoryRun(map[], calls) == PostgresRun(map[], calls) == RedisRun(RedisState(map[], map[]), calls)
      {
        forall k | k in keys && calls != []
          ensures KeyInStep(map[], map[], RedisState(map[], map[]), k, calls[0].now)
        {
          assert Represents(Bucket(map[], PostgresBucket(k)), [], Deque(map[], k));
        }
        RunsAgree(map[], map[], RedisState(map[], map[]), keys, calls);
      }
    } else {
      var a, b :| a in keys && b in keys && Label(a) == Label(b) && a != b;
      CollidingLabelsDisagree(a, b);
      var calls :| WellTimed(calls, {a, b}) &&
        !(MemoryRun(map[], calls) == PostgresRun(map[], calls) == RedisRun(RedisState(map[], map[]), calls));
      assert WellTimed(calls, keys);
    }
  }

  /** A guard a caller can check: scopes without a colon never share a text. */
  lemma {:induction false} ColonFreeScopesDiffer(a: Key, b: Key)
    requires ':' !in a.scope && ':' !in b.scope && Label(a) == Label(b)
    ensures a == b
  {
    var text := Label(a);
    assert text[|a.scope|] == ':' && text[|b.scope|] == ':';
    assert forall i :: 0 <= i < |a.scope| ==> text[i] == a.scope[i] != ':';
    assert forall i :: 0 <= i < |b.scope| ==> text[i] == b.scope[i] != ':';
    assert |a.scope| == |b.scope|;
    assert a.scope == text[..|a.scope|] == b.scope;
    assert a.provider == text[|a.scope| + 1..] == b.provider;
  }

  /** `scope="a:b", provider="c"` and `scope="a", provider="b:c"` share one Redis or
      PostgreSQL budget although the in-process store keeps them apart. */
  lemma ColonsCanCollide()
    ensures !StoresAgreeOn({Key("a:b", "c"), Key("a", "b:c")})
  {
    assert Label(Key("a:b", "c")) == "a:b:c" == Label(Key("a", "b:c"));
    CollidingLabelsDisagree(Key("a:b", "c"), Key("a", "b:c"));
  }
}

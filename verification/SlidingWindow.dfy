/** The 60-second sliding-window budget, as each of the three stores keeps it.

    The in-process store keeps one deque of accepted stamps per (scope, provider) and pops
    expired stamps from its head.  PostgreSQL keeps one row per accepted stamp in a table
    shared by all buckets.  Redis keeps one sorted set per key, whose members must be unique
    for its cardinality to count acceptances, and lets the whole set expire.

    Python's floating-point seconds are modelled by `real`. */
module SlidingWindow {
  import opened Permutations

  const WINDOW: real := 60.0
  const REDIS_EXPIRY: real := 70.0

  // ---------- the in-process deque ----------

  function PopExpired(q: seq<real>, cutoff: real): seq<real> {
    if q != [] && q[0] <= cutoff then PopExpired(q[1..], cutoff) else q
  }

  /** One `consume_budget` on a deque: the deque afterwards and the answer. */
  function Admit(q: seq<real>, now: real, limit: int): (seq<real>, bool) {
    if limit == 0 then (q, false)
    else
      var live := PopExpired(q, now - WINDOW);
      if |live| >= limit then (live, false) else (live + [now], true)
  }

  ghost predicate Sorted(q: seq<real>) {
    forall i, j :: 0 <= i < j < |q| ==> q[i] <= q[j]
  }

  ghost predicate AtMost(q: seq<real>, t: real) {
    forall i :: 0 <= i < |q| ==> q[i] <= t
  }

  /** Popping the head removes exactly the expired stamps when the deque is sorted. */
  lemma {:induction false} PopExpiredKeepsLive(q: seq<real>, cutoff: real) returns (n: nat)
    requires Sorted(q)
    ensures n <= |q| && PopExpired(q, cutoff) == q[n..]
    ensures forall i :: 0 <= i < n ==> q[i] <= cutoff
    ensures forall i :: n <= i < |q| ==> q[i] > cutoff
  {
    if q != [] && q[0] <= cutoff {
      var m := PopExpiredKeepsLive(q[1..], cutoff);
      n := m + 1;
      assert q[1..][m..] == q[n..];
      forall i | n <= i < |q| ensures q[i] > cutoff { assert q[i] == q[1..][i - 1]; }
      forall i | 0 <= i < n ensures q[i] <= cutoff { if i > 0 { assert q[i] == q[1..][i - 1]; } }
    } else {
      n := 0;
      assert q[0..] == q;
      forall i | 0 <= i < |q| ensures q[i] > cutoff { if i > 0 { assert q[0] <= q[i]; } }
    }
  }

  lemma AdmitKeepsSorted(q: seq<real>, now: real, limit: int)
    requires Sorted(q) && AtMost(q, now)
    ensures Sorted(Admit(q, now, limit).0) && AtMost(Admit(q, now, limit).0, now)
  {
    var n := PopExpiredKeepsLive(q, now - WINDOW);
  }

  /** How many stamps lie after `t`. */
  function CountAfter(q: seq<real>, t: real): nat {
    if q == [] then 0 else CountAfter(q[..|q| - 1], t) + if t < q[|q| - 1] then 1 else 0
  }

  lemma {:induction false} CountOfTail(q: seq<real>, n: nat, t: real)
    requires n <= |q| && (forall i :: 0 <= i < n ==> q[i] <= t) && (forall i :: n <= i < |q| ==> t < q[i])
    ensures CountAfter(q, t) == |q| - n
  {
    if q != [] {
      CountOfTail(q[..|q| - 1], if n < |q| then n else n - 1, t);
    }
  }

  /** The answer is yes exactly when fewer than `limit` stamps are younger than sixty seconds. */
  predicate AnswersByCount(q: seq<real>, now: real, limit: int, ok: bool) {
    ok <==> limit != 0 && CountAfter(q, now - 60.0) < limit
  }

  /** On a sorted deque an admission is granted exactly when fewer than `limit` stamps are younger
      than sixty seconds. */
  lemma AdmitCounts(q: seq<real>, now: real, limit: int)
    requires Sorted(q)
    ensures AnswersByCount(q, now, limit, Admit(q, now, limit).1)
  {
    var n := PopExpiredKeepsLive(q, now - WINDOW);
    CountOfTail(q, n, now - WINDOW);
  }

  // ---------- unordered stores: one entry per accepted stamp ----------

  function LiveEntries<Id>(v: map<Id, real>, cutoff: real): map<Id, real> {
    map i | i in v && v[i] > cutoff :: v[i]
  }

  /** One admission against an unordered store of one bucket. */
  function AdmitEntries<Id>(v: map<Id, real>, id: Id, now: real, limit: int): (map<Id, real>, bool) {
    var live := LiveEntries(v, now - WINDOW);
    if |live| >= limit then (live, false) else (live[id := now], true)
  }

  /** The entries younger than sixty seconds. */
  function Younger<Id>(v: map<Id, real>, now: real): set<Id> { set i | i in v && now - 60.0 < v[i] }

  /** The same for an unordered store, in whatever order its stamps came. */
  lemma AdmitEntriesCounts<Id>(v: map<Id, real>, id: Id, now: real, limit: int)
    ensures AdmitEntries(v, id, now, limit).1 <==> |Younger(v, now)| < limit
    ensures AdmitEntries(v, id, now, limit).0.Keys
         == Younger(v, now) + if |Younger(v, now)| < limit then {id} else {}
  {
    assert LiveEntries(v, now - WINDOW).Keys == Younger(v, now);
  }

  /** `ids` lists the entries of `v` in the order of the deque `q`. */
  ghost predicate Represents<Id(!new)>(v: map<Id, real>, ids: seq<Id>, q: seq<real>) {
    && |ids| == |q|
    && (forall i, j :: 0 <= i < j < |ids| ==> ids[i] != ids[j])
    && (forall i :: 0 <= i < |ids| ==> ids[i] in v && v[ids[i]] == q[i])
    && (forall id :: id in v ==> id in ids)
  }

  /** Remove-by-score on the unordered store is head-popping on the sorted deque. */
  lemma LiveEntriesRepresent<Id(!new)>(v: map<Id, real>, ids: seq<Id>, q: seq<real>, cutoff: real)
    returns (kept: seq<Id>)
    requires Represents(v, ids, q) && Sorted(q)
    ensures Represents(LiveEntries(v, cutoff), kept, PopExpired(q, cutoff))
    ensures |LiveEntries(v, cutoff)| == |PopExpired(q, cutoff)|
  {
    var n := PopExpiredKeepsLive(q, cutoff);
    kept := ids[n..];
    var live := LiveEntries(v, cutoff);
    forall id | id in live ensures id in kept {
      var k :| 0 <= k < |ids| && ids[k] == id;
      assert ids[n..][k - n] == id;
    }
    assert Represents(live, kept, q[n..]);
    DistinctSize(kept);
    assert Elements(kept) == live.Keys;
  }

  /** One admission gives the same answer on both kinds of store and keeps them in step. */
  lemma AdmitEntriesRepresents<Id(!new)>(v: map<Id, real>, ids: seq<Id>, q: seq<real>, id: Id, now: real, limit: int)
    returns (kept: seq<Id>)
    requires Represents(v, ids, q) && Sorted(q) && id !in v && limit != 0
    ensures AdmitEntries(v, id, now, limit).1 == Admit(q, now, limit).1
    ensures Represents(AdmitEntries(v, id, now, limit).0, kept, Admit(q, now, limit).0)
  {
    kept := LiveEntriesRepresent(v, ids, q, now - WINDOW);
    if Admit(q, now, limit).1 {
      kept := kept + [id];
    }
  }

  // ---------- the PostgreSQL table ----------

  datatype Row = Row(bucket: string, at: real)
  type Table = map<string, Row>

  /** `DELETE ... WHERE bucket = :bucket AND occurred_at <= :cutoff` */
  function DeleteExpired(t: Table, bucket: string, cutoff: real): Table {
    map id | id in t && !(t[id].bucket == bucket && t[id].at <= cutoff) :: t[id]
  }

  function Bucket(t: Table, bucket: string): map<string, real> {
    map id | id in t && t[id].bucket == bucket :: t[id].at
  }

  /** `consume_budget` as one indivisible transaction inserting `eventId` on acceptance. */
  function PostgresConsume(t: Table, eventId: string, bucket: string, now: real, limit: int): (Table, bool) {
    if limit == 0 then (t, false)
    else
      var kept := DeleteExpired(t, bucket, now - WINDOW);
      if |Bucket(kept, bucket)| >= limit then (kept, false)
      else (kept[eventId := Row(bucket, now)], true)
  }

  lemma BucketAfterDelete(t: Table, bucket: string, cutoff: real, other: string)
    ensures Bucket(DeleteExpired(t, bucket, cutoff), other)
         == if other == bucket then LiveEntries(Bucket(t, bucket), cutoff) else Bucket(t, other)
  {
  }

  lemma BucketAfterInsert(t: Table, eventId: string, row: Row, other: string)
    requires eventId !in t
    ensures Bucket(t[eventId := row], other)
         == if other == row.bucket then Bucket(t, other)[eventId := row.at] else Bucket(t, other)
  {
  }

  /** A transaction acts on its own bucket as one admission and leaves every other bucket alone. */
  lemma PostgresConsumeOneBucket(t: Table, eventId: string, bucket: string, now: real, limit: int, other: string)
    requires eventId !in t && limit != 0
    ensures Bucket(PostgresConsume(t, eventId, bucket, now, limit).0, other)
         == if other == bucket then AdmitEntries(Bucket(t, bucket), eventId, now, limit).0 else Bucket(t, other)
    ensures PostgresConsume(t, eventId, bucket, now, limit).1
         == AdmitEntries(Bucket(t, bucket), eventId, now, limit).1
  {
    var kept := DeleteExpired(t, bucket, now - WINDOW);
    BucketAfterDelete(t, bucket, now - WINDOW, bucket);
    BucketAfterDelete(t, bucket, now - WINDOW, other);
    BucketAfterInsert(kept, eventId, Row(bucket, now), other);
  }

  lemma PostgresCounts(t: Table, eventId: string, bucket: string, now: real, limit: int)
    requires eventId !in t
    ensures PostgresConsume(t, eventId, bucket, now, limit).1 <==> limit != 0 && |Younger(Bucket(t, bucket), now)| < limit
  {
    if limit != 0 {
      PostgresConsumeOneBucket(t, eventId, bucket, now, limit, bucket);
      AdmitEntriesCounts(Bucket(t, bucket), eventId, now, limit);
    }
  }

  // ---------- the Redis sorted set ----------

  /** `f"{now:.6f}:{instance_id}:{seq}"`, kept as its three parts. */
  datatype Member = Member(now: real, instance: nat, seq_: nat)
  datatype ZSet = ZSet(entries: map<Member, real>, expireAt: real)
  type ZSets = map<string, ZSet>

  function Visible(z: ZSets, key: string, now: real): map<Member, real> {
    if key in z && now < z[key].expireAt then z[key].entries else map[]
  }

  /** The Lua script of the Redis store, run at server time `now`. */
  function RedisScript(z: ZSets, key: string, member: Member, now: real, limit: int): (ZSets, bool) {
    var (entries, ok) := AdmitEntries(Visible(z, key, now), member, now, limit);
    if ok then (z[key := ZSet(entries, now + REDIS_EXPIRY)], true)
    else if key in z && now < z[key].expireAt then (z[key := z[key].(entries := entries)], false)
    else (z - {key}, false)
  }
}

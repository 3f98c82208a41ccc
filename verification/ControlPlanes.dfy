/** The three control planes as the objects the runtime holds.

    Each method is proved to compute the step function of its store (`SlidingWindow`,
    `BudgetStores`, `Circuits`), about which the agreement theorems are stated. */
module ControlPlanes {
  import opened Common
  import opened SlidingWindow
  import opened BudgetStores
  import opened Circuits

  type CircuitMap = map<Key, Circuit>

  function CircuitOf(m: CircuitMap, k: Key): Circuit { if k in m then m[k] else CLOSED }

  /** Deques and circuit records in one process; reading a missing entry creates it. */
  class MemoryControlPlane {
    var budgets: Deques
    var circuits: CircuitMap

    constructor ()
      ensures budgets == map[] && circuits == map[]
    {
      budgets, circuits := map[], map[];
    }

    method ConsumeBudget(k: Key, now: real, limit: int) returns (ok: bool)
      modifies this`budgets
      ensures (budgets, ok) == MemoryConsume(old(budgets), k, now, limit)
      ensures Sorted(Deque(old(budgets), k)) ==> AnswersByCount(Deque(old(budgets), k), now, limit, ok)
    {
      if Sorted(Deque(budgets, k)) { AdmitCounts(Deque(budgets, k), now, limit); }
      if limit == 0 {
        return false;
      }
      var q := if k in budgets then budgets[k] else [];
      var cutoff := now - WINDOW;
      while q != [] && q[0] <= cutoff
        invariant PopExpired(q, cutoff) == PopExpired(Deque(old(budgets), k), cutoff)
        decreases |q|
      {
        q := q[1..];
      }
      ok := |q| < limit;
      budgets := budgets[k := if ok then q + [now] else q];
    }

    method ReadCircuit(k: Key, now: real) returns (c: Circuit)
      modifies this`circuits
      ensures circuits == old(circuits)[k := c]
      ensures c == MemoryRead(CircuitOf(old(circuits), k), now)
    {
      c := if k in circuits then circuits[k] else CLOSED;
      if c.openedUntil != 0.0 && c.openedUntil <= now {
        c := Circuit(0, 0.0);
      }
      circuits := circuits[k := c];
    }

    method Success(k: Key)
      modifies this`circuits
      ensures circuits == old(circuits)[k := CLOSED]
    {
      circuits := circuits[k := Circuit(0, 0.0)];
    }

    method Failure(k: Key, now: real, threshold: int, cooldown: real) returns (c: Circuit)
      modifies this`circuits
      ensures circuits == old(circuits)[k := c]
      ensures c == MemoryFailure(CircuitOf(old(circuits), k), now, threshold, cooldown)
    {
      c := if k in circuits then circuits[k] else CLOSED;
      c := c.(failures := c.failures + 1);
      if c.failures >= threshold {
        c := c.(openedUntil := now + cooldown);
      }
      circuits := circuits[k := c];
    }
  }

  /** The keys of one Redis server that the planes share. */
  class RedisServer {
    var zsets: ZSets
    var hashes: map<string, Hash>

    constructor ()
      ensures zsets == map[] && hashes == map[]
    {
      zsets, hashes := map[], map[];
    }

    /** The Lua script, which the server runs without interleaving. */
    method EvalBudgetScript(key: string, member: Member, now: real, limit: int) returns (ok: bool)
      modifies this`zsets
      ensures (zsets, ok) == RedisScript(old(zsets), key, member, now, limit)
      ensures ok <==> |Younger(Visible(old(zsets), key, now), now)| < limit
      ensures ok ==> key in zsets && zsets[key].expireAt == now + 70.0 && member in zsets[key].entries
    {
      AdmitEntriesCounts(Visible(zsets, key, now), member, now, limit);
      var alive := key in zsets && now < zsets[key].expireAt;
      var live := LiveEntries(if alive then zsets[key].entries else map[], now - WINDOW);
      ok := |live| < limit;
      if ok {
        zsets := zsets[key := ZSet(live[member := now], now + REDIS_EXPIRY)];
      } else if alive {
        zsets := zsets[key := zsets[key].(entries := live)];
      } else {
        zsets := zsets - {key};
      }
    }
  }

  function HashAt(hashes: map<string, Hash>, key: string): RedisHash {
    if key in hashes then Some(hashes[key]) else None
  }

  /** One worker's client object: its instance id and its sequence counter. */
  class RedisControlPlane {
    const client: RedisServer
    const instance: nat
    var lastSeq: nat

    constructor (client: RedisServer, instance: nat)
      ensures this.client == client && this.instance == instance && lastSeq == 0
    {
      this.client, this.instance, lastSeq := client, instance, 0;
    }

    method ConsumeBudget(k: Key, now: real, limit: int) returns (ok: bool)
      modifies this`lastSeq, client`zsets
      ensures limit == 0 ==> !ok && lastSeq == old(lastSeq) && client.zsets == old(client.zsets)
      ensures limit != 0 ==>
                && lastSeq == old(lastSeq) + 1
                && (client.zsets, ok) == RedisScript(old(client.zsets), RedisKey("budget", k),
                                                     Member(now, instance, lastSeq), now, limit)
      ensures ok <==> limit != 0 && |Younger(Visible(old(client.zsets), RedisKey("budget", k), now), now)| < limit
    {
      if limit == 0 {
        return false;
      }
      lastSeq := lastSeq + 1;
      ok := client.EvalBudgetScript(RedisKey("budget", k), Member(now, instance, lastSeq), now, limit);
    }

    method ReadCircuit(k: Key, now: real) returns (c: Circuit)
      modifies client`hashes
      ensures var key := RedisKey("circuit", k);
              (HashAt(client.hashes, key), c) == RedisRead(HashAt(old(client.hashes), key), now)
      ensures forall key :: key != RedisKey("circuit", k) ==>
                HashAt(client.hashes, key) == HashAt(old(client.hashes), key)
    {
      var key := RedisKey("circuit", k);
      if key !in client.hashes || client.hashes[key].expireAt <= now {
        return CLOSED;
      }
      var h := client.hashes[key];
      c := Circuit(h.failures, OpenedField(h));
      if c.openedUntil != 0.0 && c.openedUntil <= now {
        client.hashes := client.hashes - {key};
        return CLOSED;
      }
    }

    method Success(k: Key)
      modifies client`hashes
      ensures client.hashes == old(client.hashes) - {RedisKey("circuit", k)}
    {
      client.hashes := client.hashes - {RedisKey("circuit", k)};
    }

    /** HINCRBY, HSET and EXPIRE, run with nothing in between. */
    method Failure(k: Key, now: real, threshold: int, cooldown: real) returns (c: Circuit)
      modifies client`hashes
      ensures var key := RedisKey("circuit", k);
              && key in client.hashes
              && (Some(client.hashes[key]), c) == RedisFailure(HashAt(old(client.hashes), key), now, threshold, cooldown)
              && client.hashes == old(client.hashes)[key := client.hashes[key]]
    {
      var key := RedisKey("circuit", k);
      var h := if key in client.hashes && now < client.hashes[key].expireAt
        then client.hashes[key] else Hash(0, None, 0.0);
      h := h.(failures := h.failures + 1);
      c := Circuit(h.failures, 0.0);
      if h.failures >= threshold {
        c := c.(openedUntil := now + cooldown);
        h := h.(until := Some(now + cooldown));
      }
      client.hashes := client.hashes[key := h.(expireAt := now + TimeToLive(cooldown))];
    }
  }

  /** The two control tables, each method one committed transaction run alone
      (`PostgresSchedule` shows that concurrent budget transactions behave like these). */
  class PostgresTables {
    var rateEvents: Table
    var circuitRows: map<Key, Circuit>

    constructor ()
      ensures rateEvents == map[] && circuitRows == map[]
    {
      rateEvents, circuitRows := map[], map[];
    }

    method ConsumeBudget(eventId: string, bucket: string, now: real, limit: int) returns (ok: bool)
      modifies this`rateEvents
      ensures (rateEvents, ok) == PostgresConsume(old(rateEvents), eventId, bucket, now, limit)
      ensures eventId !in old(rateEvents) ==>
                (ok <==> limit != 0 && |Younger(Bucket(old(rateEvents), bucket), now)| < limit)
    {
      if eventId !in rateEvents { PostgresCounts(rateEvents, eventId, bucket, now, limit); }
      if limit == 0 {
        return false;
      }
      rateEvents := DeleteExpired(rateEvents, bucket, now - WINDOW);
      var count := |Bucket(rateEvents, bucket)|;
      if count >= limit {
        return false;
      }
      rateEvents := rateEvents[eventId := Row(bucket, now)];
      return true;
    }

    method ClearBudget(bucket: string)
      modifies this`rateEvents
      ensures Bucket(rateEvents, bucket) == map[]
      ensures forall other :: other != bucket ==> Bucket(rateEvents, other) == Bucket(old(rateEvents), other)
    {
      rateEvents := map id | id in rateEvents && rateEvents[id].bucket != bucket :: rateEvents[id];
    }

    function RowAt(k: Key): PgRow
      reads this
    {
      if k in circuitRows then Some(circuitRows[k]) else None
    }

    method ReadCircuit(k: Key, now: real) returns (c: Circuit)
      modifies this`circuitRows
      ensures (RowAt(k), c) == PostgresRead(old(RowAt(k)), now)
      ensures forall other :: other != k ==> RowAt(other) == old(RowAt(other))
    {
      if k !in circuitRows {
        return CLOSED;
      }
      c := circuitRows[k];
      if c.openedUntil != 0.0 && c.openedUntil <= now {
        circuitRows := circuitRows - {k};
        return CLOSED;
      }
    }

    method RecordSuccess(k: Key)
      modifies this`circuitRows
      ensures circuitRows == old(circuitRows) - {k}
    {
      circuitRows := circuitRows - {k};
    }

    method RecordFailure(k: Key, now: real, threshold: int, cooldown: real) returns (c: Circuit)
      modifies this`circuitRows
      ensures PostgresStep(old(RowAt(k)), Fail(now, threshold, cooldown)) == (RowAt(k), State(c))
      ensures forall other :: other != k ==> RowAt(other) == old(RowAt(other))
    {
      var current := if k in circuitRows then circuitRows[k].failures else 0;
      c := Circuit(current + 1, if current + 1 >= threshold then now + cooldown else 0.0);
      circuitRows := circuitRows[k := c];
    }
  }
}

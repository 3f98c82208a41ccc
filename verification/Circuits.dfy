/** The circuit breaker of one (scope, provider), as each store keeps it.

    The in-process store updates a two-field record, PostgreSQL upserts or deletes a row, and
    Redis increments a hash that expires as a whole.  The lemmas below say exactly on which
    operation traces the stores are interchangeable. */
module Circuits {
  import opened Common

  datatype Circuit = Circuit(failures: int, openedUntil: real)

  const CLOSED := Circuit(0, 0.0)

  predicate IsOpen(c: Circuit, now: real) { c.openedUntil > now }

  /** A recorded opening time that has passed. */
  predicate Lapsed(c: Circuit, now: real) { c.openedUntil != 0.0 && c.openedUntil <= now }

  // ---------- in-process ----------

  function MemoryRead(c: Circuit, now: real): Circuit { if Lapsed(c, now) then CLOSED else c }

  function MemoryFailure(c: Circuit, now: real, threshold: int, cooldown: real): Circuit {
    var n := c.failures + 1;
    Circuit(n, if n >= threshold then now + cooldown else c.openedUntil)
  }

  // ---------- PostgreSQL ----------

  type PgRow = Option<Circuit>

  function PostgresRead(row: PgRow, now: real): (PgRow, Circuit) {
    if row.None? then (None, CLOSED)
    else if Lapsed(row.value, now) then (None, CLOSED)
    else (row, row.value)
  }

  function SelectedCount(row: PgRow): int { if row.None? then 0 else row.value.failures }

  /** The row written after `selected` failures were read. */
  function Upserted(selected: int, now: real, threshold: int, cooldown: real): Circuit {
    var n := selected + 1;
    Circuit(n, if n >= threshold then now + cooldown else 0.0)
  }

  /** `INSERT ... ON CONFLICT DO UPDATE`: the new values win whether or not a row exists. */
  function Upsert(row: PgRow, c: Circuit): PgRow {
    if row.None? then Some(c) else Some(row.value.(failures := c.failures, openedUntil := c.openedUntil))
  }

  // ---------- Redis ----------

  datatype Hash = Hash(failures: int, until: Option<real>, expireAt: real)
  type RedisHash = Option<Hash>

  predicate Alive(r: RedisHash, now: real) { r.Some? && now < r.value.expireAt }

  function TimeToLive(cooldown: real): real {
    var seconds := cooldown.Floor + 60;
    if seconds < 60 then 60.0 else seconds as real
  }

  function OpenedField(h: Hash): real { if h.until.None? then 0.0 else h.until.value }

  function RedisRead(r: RedisHash, now: real): (RedisHash, Circuit) {
    if !Alive(r, now) then (r, CLOSED)
    else
      var c := Circuit(r.value.failures, OpenedField(r.value));
      if Lapsed(c, now) then (None, CLOSED) else (r, c)
  }

  function RedisFailure(r: RedisHash, now: real, threshold: int, cooldown: real): (RedisHash, Circuit) {
    var alive := Alive(r, now);
    var n := (if alive then r.value.failures else 0) + 1;
    var until := if n >= threshold then Some(now + cooldown) else if alive then r.value.until else None;
    (Some(Hash(n, until, now + TimeToLive(cooldown))),
     Circuit(n, if n >= threshold then now + cooldown else 0.0))
  }

  // ---------- traces ----------

  datatype Op =
    | Read(now: real)
    | Succeed
    | Fail(now: real, threshold: int, cooldown: real)

  /** What one operation returns; `record_success` returns nothing. */
  datatype Seen = Nothing | State(circuit: Circuit)

  function MemoryStep(c: Circuit, op: Op): (Circuit, Seen) {
    match op
    case Read(now) => (MemoryRead(c, now), State(MemoryRead(c, now)))
    case Succeed => (CLOSED, Nothing)
    case Fail(now, threshold, cooldown) =>
      var c' := MemoryFailure(c, now, threshold, cooldown);
      (c', State(c'))
  }

  function PostgresStep(row: PgRow, op: Op): (PgRow, Seen) {
    match op
    case Read(now) =>
      var (row', c) := PostgresRead(row, now);
      (row', State(c))
    case Succeed => (None, Nothing)
    case Fail(now, threshold, cooldown) =>
      var c := Upserted(SelectedCount(row), now, threshold, cooldown);
      (Upsert(row, c), State(c))
  }

  function RedisStep(r: RedisHash, op: Op): (RedisHash, Seen) {
    match op
    case Read(now) =>
      var (r', c) := RedisRead(r, now);
      (r', State(c))
    case Succeed => (None, Nothing)
    case Fail(now, threshold, cooldown) =>
      var (r', c) := RedisFailure(r, now, threshold, cooldown);
      (r', State(c))
  }

  function MemoryTrace(c: Circuit, ops: seq<Op>): seq<Seen>
    decreases |ops|
  {
    if ops == [] then [] else
      var (c', seen) := MemoryStep(c, ops[0]);
      [seen] + MemoryTrace(c', ops[1..])
  }

  function PostgresTrace(row: PgRow, ops: seq<Op>): seq<Seen>
    decreases |ops|
  {
    if ops == [] then [] else
      var (row', seen) := PostgresStep(row, ops[0]);
      [seen] + PostgresTrace(row', ops[1..])
  }

  // ---------- memory against PostgreSQL ----------

  function Stored(row: PgRow): Circuit { if row.None? then CLOSED else row.value }

  /** A failure recorded below the threshold while an opening time is on record: PostgreSQL
      clears that time, the in-process store leaves it. */
  predicate KeepsOldOpening(c: Circuit, op: Op) {
    op.Fail? && c.failures + 1 < op.threshold && c.openedUntil != 0.0
  }

  ghost predicate NeverKeepsOldOpening(c: Circuit, ops: seq<Op>)
    decreases |ops|
  {
    ops == [] || (!KeepsOldOpening(c, ops[0]) && NeverKeepsOldOpening(MemoryStep(c, ops[0]).0, ops[1..]))
  }

  /** The two stores return the same on a trace exactly when no failure lands below its
      threshold while an opening time is still on record. */
  lemma {:induction false} MemoryAgreesWithPostgresExactlyWhen(row: PgRow, ops: seq<Op>)
    ensures MemoryTrace(Stored(row), ops) == PostgresTrace(row, ops)
       <==> NeverKeepsOldOpening(Stored(row), ops)
    decreases |ops|
  {
    if ops != [] {
      var c, op := Stored(row), ops[0];
      var (c', seen) := MemoryStep(c, op);
      var (row', seen') := PostgresStep(row, op);
      assert MemoryTrace(c, ops) == [seen] + MemoryTrace(c', ops[1..]);
      assert PostgresTrace(row, ops) == [seen'] + PostgresTrace(row', ops[1..]);
      if KeepsOldOpening(c, op) {
        assert MemoryTrace(c, ops)[0] != PostgresTrace(row, ops)[0];
      } else {
        assert seen == seen' && c' == Stored(row');
        MemoryAgreesWithPostgresExactlyWhen(row', ops[1..]);
        assert MemoryTrace(c, ops)[1..] == MemoryTrace(c', ops[1..]);
        assert PostgresTrace(row, ops)[1..] == PostgresTrace(row', ops[1..]);
      }
    }
  }

  ghost predicate OneThreshold(ops: seq<Op>, threshold: int) {
    forall i :: 0 <= i < |ops| && ops[i].Fail? ==> ops[i].threshold == threshold
  }

  lemma {:induction false} FixedThresholdNeverKeeps(c: Circuit, ops: seq<Op>, threshold: int)
    requires OneThreshold(ops, threshold) && (c.failures < threshold ==> c.openedUntil == 0.0)
    requires threshold >= 1
    ensures NeverKeepsOldOpening(c, ops)
    decreases |ops|
  {
    if ops != [] {
      FixedThresholdNeverKeeps(MemoryStep(c, ops[0]).0, ops[1..], threshold);
    }
  }

  /** With one threshold, which `execute` raises to at least 1, the stores are interchangeable. */
  lemma FixedThresholdAgrees(ops: seq<Op>, threshold: int)
    requires threshold >= 1 && OneThreshold(ops, threshold)
    ensures MemoryTrace(CLOSED, ops) == PostgresTrace(None, ops)
  {
    FixedThresholdNeverKeeps(CLOSED, ops, threshold);
    MemoryAgreesWithPostgresExactlyWhen(None, ops);
    assert Stored(None) == CLOSED;
  }

  /** Raising the threshold while the circuit is open separates the stores. */
  lemma RaisedThresholdDisagrees()
    ensures var ops := [Fail(100.0, 1, 30.0), Fail(101.0, 5, 30.0)];
            MemoryTrace(CLOSED, ops) != PostgresTrace(None, ops)
  {
    var ops := [Fail(100.0, 1, 30.0), Fail(101.0, 5, 30.0)];
    var c := MemoryStep(CLOSED, ops[0]).0;
    assert c == Circuit(1, 130.0);
    assert KeepsOldOpening(c, ops[1]) && ops[1..][0] == ops[1];
    assert !NeverKeepsOldOpening(c, ops[1..]);
    MemoryAgreesWithPostgresExactlyWhen(None, ops);
    assert Stored(None) == CLOSED;
  }

  // ---------- streaks of failures ----------

  /** Until when a streak of failure times keeps the circuit open; 0 below the threshold. */
  function OpenUntil(streak: seq<real>, threshold: int, cooldown: real): real {
    if |streak| >= threshold && streak != [] then streak[|streak| - 1] + cooldown else 0.0
  }

  /** What a read at `now` leaves of a streak: nothing once its opening time has passed. */
  function LiveStreak(streak: seq<real>, now: real, threshold: int, cooldown: real): seq<real> {
    var until := OpenUntil(streak, threshold, cooldown);
    if until != 0.0 && until <= now then [] else streak
  }

  ghost predicate Explains(c: Circuit, streak: seq<real>, threshold: int, cooldown: real) {
    c == Circuit(|streak|, OpenUntil(streak, threshold, cooldown))
  }

  lemma FailureExtendsStreak(c: Circuit, streak: seq<real>, at: real, threshold: int, cooldown: real)
    requires Explains(c, streak, threshold, cooldown)
    ensures Explains(MemoryFailure(c, at, threshold, cooldown), streak + [at], threshold, cooldown)
  {
  }

  lemma ReadShortensStreak(c: Circuit, streak: seq<real>, now: real, threshold: int, cooldown: real)
    requires Explains(c, streak, threshold, cooldown) && threshold >= 1
    ensures Explains(MemoryRead(c, now), LiveStreak(streak, now, threshold, cooldown), threshold, cooldown)
  {
  }

  // ---------- memory against Redis ----------

  /** What is compared of an answer: of a read whether the circuit is open now, all that `execute` asks
      of it; of a failure the whole state returned, although `execute` discards it.  `Openings` below
      keeps the reads alone. */
  datatype Used = Unused | Open(open: bool) | Counted(circuit: Circuit)

  function UsedOf(op: Op, seen: Seen): Used {
    match op
    case Read(now) => Open(seen.State? && IsOpen(seen.circuit, now))
    case Succeed => Unused
    case Fail(_, _, _) => if seen.State? then Counted(seen.circuit) else Unused
  }

  function MemoryUse(c: Circuit, ops: seq<Op>): seq<Used>
    decreases |ops|
  {
    if ops == [] then [] else
      var (c', seen) := MemoryStep(c, ops[0]);
      [UsedOf(ops[0], seen)] + MemoryUse(c', ops[1..])
  }

  function RedisUse(r: RedisHash, ops: seq<Op>): seq<Used>
    decreases |ops|
  {
    if ops == [] then [] else
      var (r', seen) := RedisStep(r, ops[0]);
      [UsedOf(ops[0], seen)] + RedisUse(r', ops[1..])
  }

  /** A failure that comes after the hash expired while the in-process count is not zero. */
  predicate ForgetsCount(c: Circuit, r: RedisHash, op: Op) {
    op.Fail? && !Alive(r, op.now) && c.failures != 0
  }

  ghost predicate NeverForgets(c: Circuit, r: RedisHash, ops: seq<Op>)
    decreases |ops|
  {
    ops == [] ||
    (!ForgetsCount(c, r, ops[0]) && NeverForgets(MemoryStep(c, ops[0]).0, RedisStep(r, ops[0]).0, ops[1..]))
  }

  /** Clock readings from `from` on never go back, and one configuration is in force. */
  ghost predicate Steady(ops: seq<Op>, from: real, threshold: int, cooldown: real)
    decreases |ops|
  {
    ops == [] ||
    match ops[0]
    case Read(now) => from <= now && Steady(ops[1..], now, threshold, cooldown)
    case Succeed => Steady(ops[1..], from, threshold, cooldown)
    case Fail(now, t, d) => from <= now && t == threshold && d == cooldown && Steady(ops[1..], now, threshold, cooldown)
  }

  /** At time `now` Redis holds what memory holds, or its hash has expired and memory is closed. */
  ghost predicate Mirrors(c: Circuit, r: RedisHash, now: real, threshold: int) {
    && (c.failures < threshold ==> c.openedUntil == 0.0)
    && c.failures >= 0
    && (c.failures == 0 ==> c == CLOSED)
    && if Alive(r, now) then
         && c == Circuit(r.value.failures, OpenedField(r.value))
         && c.openedUntil < r.value.expireAt
       else
         c.openedUntil <= now
  }

  lemma ExpiryOutlastsCooldown(cooldown: real)
    requires cooldown >= 0.0
    ensures cooldown < TimeToLive(cooldown) && TimeToLive(cooldown) >= 60.0
  {
    assert cooldown < (cooldown.Floor + 1) as real;
  }

  /** A hash lives for the cooldown in whole seconds and a minute more, and at least a minute. */
  lemma TimeToLiveIsWhole(cooldown: real)
    ensures TimeToLive(cooldown) == TimeToLive(cooldown).Floor as real
    ensures cooldown >= 0.0 ==> cooldown + 59.0 < TimeToLive(cooldown) <= cooldown + 60.0
    ensures cooldown < 0.0 ==> TimeToLive(cooldown) == 60.0
  {
    assert cooldown.Floor as real <= cooldown < (cooldown.Floor + 1) as real;
  }

  lemma MirrorsLater(c: Circuit, r: RedisHash, now: real, later: real, threshold: int)
    requires Mirrors(c, r, now, threshold) && now <= later
    ensures Mirrors(c, r, later, threshold)
  {
  }

  lemma ReadMirrors(c: Circuit, r: RedisHash, now: real, threshold: int)
    requires threshold >= 1 && 0.0 <= now && Mirrors(c, r, now, threshold)
    ensures Mirrors(MemoryRead(c, now), RedisRead(r, now).0, now, threshold)
    ensures IsOpen(MemoryRead(c, now), now) <==> IsOpen(RedisRead(r, now).1, now)
  {
  }

  lemma FailureMirrors(c: Circuit, r: RedisHash, now: real, threshold: int, cooldown: real)
    requires threshold >= 1 && cooldown >= 0.0 && 0.0 <= now && Mirrors(c, r, now, threshold)
    ensures Mirrors(MemoryFailure(c, now, threshold, cooldown), RedisFailure(r, now, threshold, cooldown).0, now, threshold)
         || (c.failures != 0 && !Alive(r, now))
    ensures RedisFailure(r, now, threshold, cooldown).1 == MemoryFailure(c, now, threshold, cooldown)
       <==> !(c.failures != 0 && !Alive(r, now))
  {
    ExpiryOutlastsCooldown(cooldown);
  }

  /** Redis answers as the in-process store does exactly when no failure finds its hash expired
      while failures are still counted in process; its expiry never lifts an open circuit. */
  lemma {:induction false} RedisAgreesExactlyWhen(c: Circuit, r: RedisHash, ops: seq<Op>, from: real, threshold: int, cooldown: real)
    requires threshold >= 1 && cooldown >= 0.0 && 0.0 <= from
    requires Mirrors(c, r, from, threshold) && Steady(ops, from, threshold, cooldown)
    ensures MemoryUse(c, ops) == RedisUse(r, ops) <==> NeverForgets(c, r, ops)
    decreases |ops|
  {
    if ops != [] {
      var op, rest := ops[0], ops[1..];
      var now := if op.Succeed? then from else op.now;
      MirrorsLater(c, r, from, now, threshold);
      var (c', seen) := MemoryStep(c, op);
      var (r', seen') := RedisStep(r, op);
      assert MemoryUse(c, ops) == [UsedOf(op, seen)] + MemoryUse(c', rest);
      assert RedisUse(r, ops) == [UsedOf(op, seen')] + RedisUse(r', rest);
      match op {
        case Read(_) => ReadMirrors(c, r, now, threshold);
        case Succeed =>
        case Fail(_, _, _) => FailureMirrors(c, r, now, threshold, cooldown);
      }
      if ForgetsCount(c, r, op) {
        assert MemoryUse(c, ops)[0] != RedisUse(r, ops)[0];
      } else {
        RedisAgreesExactlyWhen(c', r', rest, now, threshold, cooldown);
        assert MemoryUse(c, ops)[1..] == MemoryUse(c', rest);
        assert RedisUse(r, ops)[1..] == RedisUse(r', rest);
      }
    }
  }

  /** The streak after one more operation. */
  function StreakStep(streak: seq<real>, op: Op, threshold: int, cooldown: real): seq<real> {
    match op
    case Read(now) => LiveStreak(streak, now, threshold, cooldown)
    case Succeed => []
    case Fail(now, _, _) => streak + [now]
  }

  /** A failure comes less than a time to live after the failure before it in its streak. */
  predicate InTime(streak: seq<real>, op: Op, cooldown: real) {
    op.Fail? && streak != [] ==> op.now < streak[|streak| - 1] + TimeToLive(cooldown)
  }

  /** Every failure of the trace does.  Only the times of the operations and the configuration are
      asked for. */
  ghost predicate Tight(streak: seq<real>, ops: seq<Op>, threshold: int, cooldown: real)
    decreases |ops|
  {
    ops == [] ||
    (InTime(streak, ops[0], cooldown)
     && Tight(StreakStep(streak, ops[0], threshold, cooldown), ops[1..], threshold, cooldown))
  }

  /** The hash of a streak expires a time to live after its last failure. */
  ghost predicate ExpiresAfter(r: RedisHash, streak: seq<real>, cooldown: real) {
    streak != [] ==> r.Some? && r.value.expireAt == streak[|streak| - 1] + TimeToLive(cooldown)
  }

  /** Both stores hold what the streak of failures explains. */
  ghost predicate BothHold(c: Circuit, r: RedisHash, streak: seq<real>, now: real, threshold: int, cooldown: real) {
    && Mirrors(c, r, now, threshold)
    && Explains(c, streak, threshold, cooldown) && ExpiresAfter(r, streak, cooldown)
  }

  function TimeOf(op: Op, from: real): real { if op.Succeed? then from else op.now }

  lemma ReadKeepsExpiry(c: Circuit, r: RedisHash, streak: seq<real>, now: real, threshold: int, cooldown: real)
    requires threshold >= 1 && BothHold(c, r, streak, now, threshold, cooldown)
    ensures ExpiresAfter(RedisRead(r, now).0, LiveStreak(streak, now, threshold, cooldown), cooldown)
  {
  }

  /** One operation: a failure is in time exactly when its hash has not expired under it, and then
      both stores answer alike and stay in step. */
  lemma OneStep(c: Circuit, r: RedisHash, streak: seq<real>, op: Op, from: real, threshold: int, cooldown: real)
    requires threshold >= 1 && cooldown >= 0.0 && 0.0 <= from
    requires BothHold(c, r, streak, from, threshold, cooldown) && Steady([op], from, threshold, cooldown)
    ensures ForgetsCount(c, r, op) <==> !InTime(streak, op, cooldown)
    ensures InTime(streak, op, cooldown) <==> UsedOf(op, MemoryStep(c, op).1) == UsedOf(op, RedisStep(r, op).1)
    ensures InTime(streak, op, cooldown) ==>
              BothHold(MemoryStep(c, op).0, RedisStep(r, op).0, StreakStep(streak, op, threshold, cooldown),
                     TimeOf(op, from), threshold, cooldown)
  {
    var now := TimeOf(op, from);
    MirrorsLater(c, r, from, now, threshold);
    match op
    case Read(_) =>
      ReadMirrors(c, r, now, threshold);
      ReadShortensStreak(c, streak, now, threshold, cooldown);
      ReadKeepsExpiry(c, r, streak, now, threshold, cooldown);
    case Succeed =>
    case Fail(_, _, _) =>
      FailureMirrors(c, r, now, threshold, cooldown);
      FailureExtendsStreak(c, streak, now, threshold, cooldown);
  }

  /** What the two stores hide decides no more than the times of the operations do. */
  lemma {:induction false} NeverForgetsExactlyWhenTight(c: Circuit, r: RedisHash, streak: seq<real>, ops: seq<Op>,
                                                       from: real, threshold: int, cooldown: real)
    requires threshold >= 1 && cooldown >= 0.0 && 0.0 <= from
    requires BothHold(c, r, streak, from, threshold, cooldown) && Steady(ops, from, threshold, cooldown)
    ensures NeverForgets(c, r, ops) <==> Tight(streak, ops, threshold, cooldown)
    decreases |ops|
  {
    if ops != [] {
      var op := ops[0];
      OneStep(c, r, streak, op, from, threshold, cooldown);
      if InTime(streak, op, cooldown) {
        NeverForgetsExactlyWhenTight(MemoryStep(c, op).0, RedisStep(r, op).0,
                                     StreakStep(streak, op, threshold, cooldown), ops[1..],
                                     TimeOf(op, from), threshold, cooldown);
      }
    }
  }

  /** From empty stores, on every steady trace: Redis decides as the in-process store does exactly
      when the failures of every streak are closer together than the time to live. */
  lemma FreshRedisAgreesExactlyWhen(ops: seq<Op>, from: real, threshold: int, cooldown: real)
    requires threshold >= 1 && cooldown >= 0.0 && 0.0 <= from && Steady(ops, from, threshold, cooldown)
    ensures MemoryUse(CLOSED, ops) == RedisUse(None, ops) <==> NeverForgets(CLOSED, None, ops)
    ensures MemoryUse(CLOSED, ops) == RedisUse(None, ops) <==> Tight([], ops, threshold, cooldown)
  {
    RedisAgreesExactlyWhen(CLOSED, None, ops, from, threshold, cooldown);
    NeverForgetsExactlyWhenTight(CLOSED, None, [], ops, from, threshold, cooldown);
  }

  /** Successive failures of the trace, the first counted from `last`, lie less than a time to live
      apart. */
  ghost predicate CloseFailures(ops: seq<Op>, last: Option<real>, cooldown: real)
    decreases |ops|
  {
    ops == [] ||
    match ops[0]
    case Fail(now, _, _) =>
      (last.Some? ==> now < last.value + TimeToLive(cooldown)) && CloseFailures(ops[1..], Some(now), cooldown)
    case _ => CloseFailures(ops[1..], last, cooldown)
  }

  lemma {:induction false} CloseFailuresAreTight(streak: seq<real>, ops: seq<Op>, last: Option<real>, threshold: int, cooldown: real)
    requires CloseFailures(ops, last, cooldown)
    requires streak != [] ==> last == Some(streak[|streak| - 1])
    ensures Tight(streak, ops, threshold, cooldown)
    decreases |ops|
  {
    if ops != [] {
      var op := ops[0];
      var last' := if op.Fail? then Some(op.now) else last;
      CloseFailuresAreTight(StreakStep(streak, op, threshold, cooldown), ops[1..], last', threshold, cooldown);
    }
  }

  /** A caller's guard: while successive failures on a key are closer together than its time to
      live, whatever lies between them, Redis and the in-process store are interchangeable. */
  lemma CloseFailuresAgree(ops: seq<Op>, from: real, threshold: int, cooldown: real)
    requires threshold >= 1 && cooldown >= 0.0 && 0.0 <= from && Steady(ops, from, threshold, cooldown)
    requires CloseFailures(ops, None, cooldown)
    ensures MemoryUse(CLOSED, ops) == RedisUse(None, ops)
  {
    CloseFailuresAreTight([], ops, None, threshold, cooldown);
    FreshRedisAgreesExactlyWhen(ops, from, threshold, cooldown);
  }

  /** A second failure as its hash expires: Redis counts it as the first. */
  lemma LateFailureDisagrees()
    ensures var ops := [Fail(100.0, 4, 30.0), Fail(190.0, 4, 30.0)];
            MemoryUse(CLOSED, ops) != RedisUse(None, ops)
  {
    var ops := [Fail(100.0, 4, 30.0), Fail(190.0, 4, 30.0)];
    assert TimeToLive(30.0) == 90.0;
    assert ops[1..][0] == ops[1] && ops[1..][1..] == [];
    assert !Tight([100.0], ops[1..], 4, 30.0);
    assert StreakStep([], ops[0], 4, 30.0) == [100.0];
    assert Steady(ops[1..], 100.0, 4, 30.0);
    FreshRedisAgreesExactlyWhen(ops, 0.0, 4, 30.0);
  }

  // ---------- only what is open ----------

  /** The failures Redis still counts: a failure that finds its hash expired begins a new streak, and a
      read that finds it expired leaves it alone. */
  function RedisStreakStep(streak: seq<real>, op: Op, threshold: int, cooldown: real): seq<real> {
    match op
    case Read(now) =>
      if streak != [] && now < streak[|streak| - 1] + TimeToLive(cooldown) then LiveStreak(streak, now, threshold, cooldown)
      else streak
    case Succeed => []
    case Fail(now, _, _) => (if InTime(streak, op, cooldown) then streak else []) + [now]
  }

  /** The hash holds its streak, whatever happened before. */
  ghost predicate RedisHolds(r: RedisHash, streak: seq<real>, threshold: int, cooldown: real) {
    if streak == [] then r.None?
    else
      && r.Some? && r.value.failures == |streak| && OpenedField(r.value) == OpenUntil(streak, threshold, cooldown)
      && r.value.expireAt == streak[|streak| - 1] + TimeToLive(cooldown)
  }

  lemma RedisFailureHolds(r: RedisHash, streak: seq<real>, now: real, threshold: int, cooldown: real)
    requires threshold >= 1 && RedisHolds(r, streak, threshold, cooldown)
    ensures RedisHolds(RedisFailure(r, now, threshold, cooldown).0,
                       RedisStreakStep(streak, Fail(now, threshold, cooldown), threshold, cooldown), threshold, cooldown)
  {
  }

  /** On every trace Redis holds its own streak, and a read finds the circuit open exactly when that
      streak keeps it open. */
  lemma RedisFollowsItsStreak(r: RedisHash, streak: seq<real>, op: Op, threshold: int, cooldown: real)
    requires threshold >= 1 && cooldown >= 0.0 && RedisHolds(r, streak, threshold, cooldown)
    requires op.Fail? ==> op.threshold == threshold && op.cooldown == cooldown
    requires op.Read? ==> 0.0 <= op.now
    ensures RedisHolds(RedisStep(r, op).0, RedisStreakStep(streak, op, threshold, cooldown), threshold, cooldown)
    ensures op.Read? ==> (IsOpen(RedisRead(r, op.now).1, op.now) <==> OpenUntil(streak, threshold, cooldown) > op.now)
  {
    ExpiryOutlastsCooldown(cooldown);
    if op.Fail? { RedisFailureHolds(r, streak, op.now, threshold, cooldown); }
  }

  /** The open-or-closed answers of a trace, the only ones `execute` acts on. */
  function Openings(used: seq<Used>): seq<bool> {
    if used == [] then []
    else (if used[0].Open? then [used[0].open] else []) + Openings(used[1..])
  }

  /** At every read both streaks keep the circuit open or neither does. */
  ghost predicate OpenAlike(memory: seq<real>, redis: seq<real>, ops: seq<Op>, threshold: int, cooldown: real)
    decreases |ops|
  {
    ops == [] ||
    (&& (ops[0].Read? ==>
           (OpenUntil(memory, threshold, cooldown) > ops[0].now <==> OpenUntil(redis, threshold, cooldown) > ops[0].now))
     && OpenAlike(StreakStep(memory, ops[0], threshold, cooldown), RedisStreakStep(redis, ops[0], threshold, cooldown),
                  ops[1..], threshold, cooldown))
  }

  lemma MemoryFollowsItsStreak(c: Circuit, streak: seq<real>, op: Op, threshold: int, cooldown: real)
    requires threshold >= 1 && Explains(c, streak, threshold, cooldown)
    requires op.Fail? ==> op.threshold == threshold && op.cooldown == cooldown
    requires op.Read? ==> 0.0 <= op.now
    ensures Explains(MemoryStep(c, op).0, StreakStep(streak, op, threshold, cooldown), threshold, cooldown)
    ensures op.Read? ==> (IsOpen(MemoryRead(c, op.now), op.now) <==> OpenUntil(streak, threshold, cooldown) > op.now)
  {
    match op
    case Read(now) => ReadShortensStreak(c, streak, now, threshold, cooldown);
    case Succeed =>
    case Fail(now, _, _) => FailureExtendsStreak(c, streak, now, threshold, cooldown);
  }

  lemma FirstOpening(used: Used, rest: seq<Used>)
    ensures Openings([used] + rest) == (if used.Open? then [used.open] else []) + Openings(rest)
  {
    assert ([used] + rest)[1..] == rest;
  }

  /** One more answer on each side keeps the openings equal when it is no read or answers alike. */
  lemma FirstOpenings(op: Op, seen: Seen, seen': Seen, x: seq<Used>, y: seq<Used>)
    ensures Openings([UsedOf(op, seen)] + x) == Openings([UsedOf(op, seen')] + y)
       <==> (op.Read? ==> UsedOf(op, seen).open == UsedOf(op, seen').open) && Openings(x) == Openings(y)
  {
    FirstOpening(UsedOf(op, seen), x);
    FirstOpening(UsedOf(op, seen'), y);
    if op.Read? { SameHead(UsedOf(op, seen).open, UsedOf(op, seen').open, Openings(x), Openings(y)); }
  }

  /** One operation: both streaks answer a read alike exactly when both stores do. */
  lemma FirstAlike(c: Circuit, r: RedisHash, memory: seq<real>, redis: seq<real>, op: Op, threshold: int, cooldown: real)
    requires threshold >= 1 && cooldown >= 0.0 && Explains(c, memory, threshold, cooldown) && RedisHolds(r, redis, threshold, cooldown)
    requires op.Read? && 0.0 <= op.now
    ensures UsedOf(op, MemoryStep(c, op).1).open == UsedOf(op, RedisStep(r, op).1).open
       <==> (OpenUntil(memory, threshold, cooldown) > op.now <==> OpenUntil(redis, threshold, cooldown) > op.now)
  {
    MemoryFollowsItsStreak(c, memory, op, threshold, cooldown);
    RedisFollowsItsStreak(r, redis, op, threshold, cooldown);
  }

  lemma SteadyStep(ops: seq<Op>, from: real, threshold: int, cooldown: real)
    requires ops != [] && 0.0 <= from && Steady(ops, from, threshold, cooldown)
    ensures 0.0 <= TimeOf(ops[0], from) && Steady(ops[1..], TimeOf(ops[0], from), threshold, cooldown)
    ensures ops[0].Fail? ==> ops[0].threshold == threshold && ops[0].cooldown == cooldown
    ensures ops[0].Read? ==> 0.0 <= ops[0].now
  {
  }

  lemma {:induction false} OpeningsAgree(c: Circuit, r: RedisHash, memory: seq<real>, redis: seq<real>, ops: seq<Op>,
                                         from: real, threshold: int, cooldown: real)
    requires threshold >= 1 && cooldown >= 0.0 && 0.0 <= from && Steady(ops, from, threshold, cooldown)
    requires Explains(c, memory, threshold, cooldown) && RedisHolds(r, redis, threshold, cooldown)
    ensures Openings(MemoryUse(c, ops)) == Openings(RedisUse(r, ops)) <==> OpenAlike(memory, redis, ops, threshold, cooldown)
    decreases |ops|
  {
    if ops != [] {
      var op, rest := ops[0], ops[1..];
      var c', r' := MemoryStep(c, op).0, RedisStep(r, op).0;
      SteadyStep(ops, from, threshold, cooldown);
      MemoryFollowsItsStreak(c, memory, op, threshold, cooldown);
      RedisFollowsItsStreak(r, redis, op, threshold, cooldown);
      OpeningsAgree(c', r', StreakStep(memory, op, threshold, cooldown), RedisStreakStep(redis, op, threshold, cooldown),
                    rest, TimeOf(op, from), threshold, cooldown);
      FirstOpenings(op, MemoryStep(c, op).1, RedisStep(r, op).1, MemoryUse(c', rest), RedisUse(r', rest));
      if op.Read? { FirstAlike(c, r, memory, redis, op, threshold, cooldown); }
    }
  }

  lemma SameHead(a: bool, b: bool, x: seq<bool>, y: seq<bool>)
    ensures [a] + x == [b] + y <==> a == b && x == y
  {
    if [a] + x == [b] + y {
      assert ([a] + x)[0] == ([b] + y)[0];
      assert x == ([a] + x)[1..] && y == ([b] + y)[1..];
    }
  }

  /** From empty stores: Redis lets calls through as the in-process store does exactly when, at every
      read, the streak of all failures and the streak Redis still counts agree on being open. */
  lemma OpenAnswersAgreeExactlyWhen(ops: seq<Op>, from: real, threshold: int, cooldown: real)
    requires threshold >= 1 && cooldown >= 0.0 && 0.0 <= from && Steady(ops, from, threshold, cooldown)
    ensures Openings(MemoryUse(CLOSED, ops)) == Openings(RedisUse(None, ops)) <==> OpenAlike([], [], ops, threshold, cooldown)
  {
    OpeningsAgree(CLOSED, None, [], [], ops, from, threshold, cooldown);
  }

  /** A forgotten failure that a caller notices: the second of two failures opens the circuit in
      process and not in Redis. */
  lemma ForgottenFailureLetsCallsThrough()
    ensures var ops := [Fail(100.0, 2, 30.0), Fail(190.0, 2, 30.0), Read(191.0)];
            Openings(MemoryUse(CLOSED, ops)) != Openings(RedisUse(None, ops))
  {
    var ops := [Fail(100.0, 2, 30.0), Fail(190.0, 2, 30.0), Read(191.0)];
    assert TimeToLive(30.0) == 90.0;
    var one, two := ops[1..], ops[1..][1..];
    assert one[0] == ops[1] && two[0] == ops[2] && two[1..] == [];
    assert StreakStep([], ops[0], 2, 30.0) == [100.0] == RedisStreakStep([], ops[0], 2, 30.0);
    assert StreakStep([100.0], ops[1], 2, 30.0) == [100.0, 190.0];
    assert RedisStreakStep([100.0], ops[1], 2, 30.0) == [190.0];
    assert !OpenAlike([100.0, 190.0], [190.0], two, 2, 30.0);
    assert !OpenAlike([100.0], [100.0], one, 2, 30.0);
    assert Steady(two, 190.0, 2, 30.0) && Steady(one, 100.0, 2, 30.0);
    OpenAnswersAgreeExactlyWhen(ops, 0.0, 2, 30.0);
  }

  // ---------- a success beside a failure in PostgreSQL ----------

  /** `record_success` takes no lock, so its delete can commit between the select and the upsert
      of a `record_failure` on the same circuit: the upsert still writes the old count plus one.
      The row left, and the state the failure returns. */
  function SuccessInsideFailure(row: PgRow, now: real, threshold: int, cooldown: real): (PgRow, Seen) {
    var c := Upserted(SelectedCount(row), now, threshold, cooldown);
    (Upsert(PostgresStep(row, Succeed).0, c), State(c))
  }

  /** That interleaving leaves a row and an answer that one of the two orders explains exactly when
      there was no failure to forget. */
  lemma SuccessInsideFailureSerializableExactlyWhen(row: PgRow, now: real, threshold: int, cooldown: real)
    requires row.Some? ==> row.value.failures >= 0
    ensures var mixed, fail := SuccessInsideFailure(row, now, threshold, cooldown), Fail(now, threshold, cooldown);
            var successFirst := PostgresStep(PostgresStep(row, Succeed).0, fail);
            var failureFirst := (PostgresStep(PostgresStep(row, fail).0, Succeed).0, PostgresStep(row, fail).1);
            mixed == successFirst || mixed == failureFirst <==> SelectedCount(row) == 0
  {
  }
}

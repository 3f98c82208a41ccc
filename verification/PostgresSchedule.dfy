/** PostgreSQL budgets under every schedule.

    Any number of workers run `consume_budget` as separate statements of their own transaction:
    take the advisory lock on the hash of the bucket, delete expired rows, count, insert, commit; or
    `clear_budget`: take the same lock, delete the rows of the bucket, commit.  A statement sees the
    committed rows and its own transaction's writes; a transaction may also abort.  The lock hash is
    an arbitrary function, so different buckets may collide.

    `EveryScheduleIsSequential` shows that what is committed is at every moment exactly what a
    sequential run of the committed attempts gives, and `ExactlyLimitAccepted` that N attempts
    sharing one timestamp on a bucket found or made empty are accepted min(N, limit) times. */
module PostgresSchedule {
  import opened Common
  import opened SlidingWindow

  /** A call of `consume_budget`, or one of `clear_budget`. */
  datatype Attempt =
    | Attempt(eventId: string, bucket: string, now: real, limit: int)
    | Clearing(bucket: string)

  /** How far a transaction holding its lock has come; `dead` are the row ids it has deleted. */
  datatype Phase =
    | Locked
    | Deleted(dead: set<string>)
    | Counted(dead: set<string>, count: nat)
    | Inserted(dead: set<string>)

  datatype Tx = Tx(attempt: Attempt, ticket: nat, phase: Phase)

  /** A committed attempt: its place in the order of lock acquisitions, and its answer. */
  datatype Outcome = Outcome(attempt: Attempt, ticket: nat, accepted: bool)

  datatype Db = Db(rows: Table, active: map<nat, Tx>, tickets: nat, committed: seq<Outcome>)

  /** One statement by one worker.  An attempt with limit 0 answers before it opens a transaction; a
      clearing commits after its delete. */
  datatype Event =
    | Lock(worker: nat, attempt: Attempt)
    | Delete(worker: nat)
    | Count(worker: nat)
    | Insert(worker: nat)
    | Commit(worker: nat)
    | Abort(worker: nat)

  /** The rows that its delete removes. */
  function Expired(t: Table, a: Attempt): set<string> {
    set id | id in t && t[id].bucket == a.bucket && (a.Attempt? ==> t[id].at <= a.now - WINDOW)
  }

  /** An attempt that may enter its transaction, with a row id not used before. */
  predicate MayBegin(rows: Table, a: Attempt) { a.Attempt? ==> a.limit != 0 && a.eventId !in rows }

  predicate OtherIds(a: Attempt, b: Attempt) { a.Attempt? && b.Attempt? ==> a.eventId != b.eventId }

  function CountRows(t: Table, a: Attempt, dead: set<string>): nat {
    |set id | id in t && id !in dead && t[id].bucket == a.bucket|
  }

  /** Its last statement has run. */
  predicate IsComplete(tx: Tx) {
    match tx.attempt
    case Clearing(_) => tx.phase.Deleted?
    case Attempt(_, _, _, limit) => tx.phase.Inserted? || (tx.phase.Counted? && tx.phase.count >= limit)
  }

  ghost predicate Enabled(db: Db, e: Event, hash: string -> int) {
    match e
    case Lock(w, a) =>
      && w !in db.active && MayBegin(db.rows, a)
      && (forall v :: v in db.active ==> hash(db.active[v].attempt.bucket) != hash(a.bucket))
      && (forall v :: v in db.active ==> OtherIds(db.active[v].attempt, a))
    case Delete(w) => w in db.active && db.active[w].phase.Locked?
    case Count(w) => w in db.active && db.active[w].phase.Deleted? && db.active[w].attempt.Attempt?
    case Insert(w) =>
      && w in db.active && db.active[w].phase.Counted? && db.active[w].attempt.Attempt?
      && db.active[w].phase.count < db.active[w].attempt.limit
    case Commit(w) => w in db.active && IsComplete(db.active[w])
    case Abort(w) => w in db.active
  }

  ghost function Advance(db: Db, w: nat, phase: Phase): Db
    requires w in db.active
  {
    db.(active := db.active[w := db.active[w].(phase := phase)])
  }

  /** The table once the writes of `tx` are visible to everyone. */
  function Committed(rows: Table, tx: Tx): Table
    requires IsComplete(tx)
  {
    var kept := rows - tx.phase.dead;
    if tx.phase.Inserted? then kept[tx.attempt.eventId := Row(tx.attempt.bucket, tx.attempt.now)] else kept
  }

  ghost function Apply(db: Db, e: Event, hash: string -> int): Db
    requires Enabled(db, e, hash)
  {
    match e
    case Lock(w, a) => db.(active := db.active[w := Tx(a, db.tickets, Locked)], tickets := db.tickets + 1)
    case Delete(w) => Advance(db, w, Deleted(Expired(db.rows, db.active[w].attempt)))
    case Count(w) =>
      var tx := db.active[w];
      Advance(db, w, Counted(tx.phase.dead, CountRows(db.rows, tx.attempt, tx.phase.dead)))
    case Insert(w) => Advance(db, w, Inserted(db.active[w].phase.dead))
    case Commit(w) =>
      var tx := db.active[w];
      db.(rows := Committed(db.rows, tx),
          active := db.active - {w},
          committed := db.committed + [Outcome(tx.attempt, tx.ticket, tx.phase.Inserted?)])
    case Abort(w) => db.(active := db.active - {w})
  }

  ghost predicate Legal(db: Db, events: seq<Event>, hash: string -> int)
    decreases |events|
  {
    events == [] || (Enabled(db, events[0], hash) && Legal(Apply(db, events[0], hash), events[1..], hash))
  }

  ghost function Run(db: Db, events: seq<Event>, hash: string -> int): Db
    requires Legal(db, events, hash)
    decreases |events|
  {
    if events == [] then db else Run(Apply(db, events[0], hash), events[1..], hash)
  }

  function Init(start: Table): Db { Db(start, map[], 0, []) }

  // ---------- the sequential reference ----------

  function AfterAttempt(t: Table, a: Attempt): (Table, bool) {
    match a
    case Clearing(bucket) => (t - Expired(t, a), false)
    case Attempt(eventId, bucket, now, limit) => PostgresConsume(t, eventId, bucket, now, limit)
  }

  /** The table after running the attempts one whole transaction after another. */
  function Sequential(start: Table, done: seq<Outcome>): Table {
    if done == [] then start
    else AfterAttempt(Sequential(start, done[..|done| - 1]), done[|done| - 1].attempt).0
  }

  /** Every answer is the one the sequential run gives at that point, with a fresh row id. */
  ghost predicate AnswersSequentially(start: Table, done: seq<Outcome>) {
    done == [] ||
    (var init, last := done[..|done| - 1], done[|done| - 1];
     && AnswersSequentially(start, init)
     && MayBegin(Sequential(start, init), last.attempt)
     && last.accepted == AfterAttempt(Sequential(start, init), last.attempt).1)
  }

  /** Attempts that share a lock were committed in the order in which they took it. */
  ghost predicate InLockOrder(done: seq<Outcome>, hash: string -> int) {
    forall i, j :: 0 <= i < j < |done| && hash(done[i].attempt.bucket) == hash(done[j].attempt.bucket) ==>
      done[i].ticket < done[j].ticket
  }

  // ---------- the invariant ----------

  ghost predicate PhaseOk(rows: Table, tx: Tx) {
    match tx.phase
    case Locked => true
    case Deleted(dead) => dead == Expired(rows, tx.attempt)
    case Counted(dead, count) =>
      tx.attempt.Attempt? && dead == Expired(rows, tx.attempt) && count == CountRows(rows, tx.attempt, dead)
    case Inserted(dead) =>
      tx.attempt.Attempt? && dead == Expired(rows, tx.attempt) && CountRows(rows, tx.attempt, dead) < tx.attempt.limit
  }

  ghost predicate LocksExclude(db: Db, hash: string -> int) {
    forall v, w :: v in db.active && w in db.active && v != w ==>
      && hash(db.active[v].attempt.bucket) != hash(db.active[w].attempt.bucket)
      && OtherIds(db.active[v].attempt, db.active[w].attempt)
  }

  ghost predicate TicketsOk(db: Db, hash: string -> int) {
    && (forall w :: w in db.active ==> db.active[w].ticket < db.tickets)
    && (forall i :: 0 <= i < |db.committed| ==> db.committed[i].ticket < db.tickets)
    && (forall i, w :: 0 <= i < |db.committed| && w in db.active ==>
          hash(db.committed[i].attempt.bucket) == hash(db.active[w].attempt.bucket) ==>
            db.committed[i].ticket < db.active[w].ticket)
    && InLockOrder(db.committed, hash)
  }

  ghost predicate TxsOk(db: Db) {
    forall w :: w in db.active ==> PhaseOk(db.rows, db.active[w]) && MayBegin(db.rows, db.active[w].attempt)
  }

  ghost predicate Inv(start: Table, db: Db, hash: string -> int) {
    && LocksExclude(db, hash)
    && TicketsOk(db, hash)
    && TxsOk(db)
    && db.rows == Sequential(start, db.committed)
    && AnswersSequentially(start, db.committed)
  }

  // ---------- preservation ----------

  lemma DeleteThenCount(rows: Table, a: Attempt)
    requires a.Attempt?
    ensures rows - Expired(rows, a) == DeleteExpired(rows, a.bucket, a.now - WINDOW)
    ensures CountRows(rows, a, Expired(rows, a)) == |Bucket(DeleteExpired(rows, a.bucket, a.now - WINDOW), a.bucket)|
  {
    var kept := DeleteExpired(rows, a.bucket, a.now - WINDOW);
    assert (set id | id in rows && id !in Expired(rows, a) && rows[id].bucket == a.bucket)
        == Bucket(kept, a.bucket).Keys;
  }

  lemma AttemptIsAtomic(rows: Table, tx: Tx)
    requires tx.attempt.Attempt? && PhaseOk(rows, tx) && tx.attempt.limit != 0 && IsComplete(tx)
    ensures AfterAttempt(rows, tx.attempt).0 == Committed(rows, tx)
    ensures AfterAttempt(rows, tx.attempt).1 == tx.phase.Inserted?
  {
    DeleteThenCount(rows, tx.attempt);
  }

  /** The separate statements of a committing transaction add up to the indivisible one. */
  lemma CommitIsAtomic(rows: Table, tx: Tx)
    requires PhaseOk(rows, tx) && MayBegin(rows, tx.attempt) && IsComplete(tx)
    ensures AfterAttempt(rows, tx.attempt).0 == Committed(rows, tx)
    ensures AfterAttempt(rows, tx.attempt).1 == tx.phase.Inserted?
  {
    if tx.attempt.Attempt? { AttemptIsAtomic(rows, tx); }
  }

  lemma OtherRowsStay(rows: Table, a: Attempt, other: string)
    requires a.bucket != other && MayBegin(rows, a)
    ensures var rows' := AfterAttempt(rows, a).0;
            && (forall id :: id in rows && rows[id].bucket == other ==> id in rows' && rows'[id] == rows[id])
            && (forall id :: id in rows' && rows'[id].bucket == other ==> id in rows && rows[id].bucket == other)
            && (forall id :: id in rows' && id !in rows ==> a.Attempt? && id == a.eventId)
  {
  }

  /** A commit under one lock does not disturb what another lock's holder has seen. */
  lemma OtherTxUndisturbed(rows: Table, a: Attempt, tx: Tx)
    requires tx.attempt.bucket != a.bucket && OtherIds(a, tx.attempt) && MayBegin(rows, a)
    requires PhaseOk(rows, tx) && MayBegin(rows, tx.attempt)
    ensures PhaseOk(AfterAttempt(rows, a).0, tx) && MayBegin(AfterAttempt(rows, a).0, tx.attempt)
  {
    OtherRowsStay(rows, a, tx.attempt.bucket);
    SameSeen(rows, AfterAttempt(rows, a).0, tx);
  }

  lemma SameSeen(rows: Table, rows': Table, tx: Tx)
    requires forall id :: id in rows && rows[id].bucket == tx.attempt.bucket ==> id in rows' && rows'[id] == rows[id]
    requires forall id :: id in rows' && rows'[id].bucket == tx.attempt.bucket ==> id in rows && rows[id].bucket == tx.attempt.bucket
    ensures PhaseOk(rows', tx) == PhaseOk(rows, tx)
  {
    var b, dead := tx.attempt, Expired(rows, tx.attempt);
    assert Expired(rows', b) == dead;
    assert (set id | id in rows' && id !in dead && rows'[id].bucket == b.bucket)
        == (set id | id in rows && id !in dead && rows[id].bucket == b.bucket);
  }

  lemma CommitKeepsTxs(db: Db, w: nat, hash: string -> int)
    requires Enabled(db, Commit(w), hash) && TxsOk(db) && LocksExclude(db, hash)
    ensures TxsOk(Apply(db, Commit(w), hash))
  {
    CommitIsAtomic(db.rows, db.active[w]);
    var db', a := Apply(db, Commit(w), hash), db.active[w].attempt;
    forall v | v in db'.active
      ensures PhaseOk(db'.rows, db'.active[v]) && MayBegin(db'.rows, db'.active[v].attempt)
    {
      OtherTxUndisturbed(db.rows, a, db.active[v]);
    }
  }

  lemma CommitKeepsSequence(start: Table, db: Db, w: nat, hash: string -> int)
    requires Enabled(db, Commit(w), hash) && Inv(start, db, hash)
    ensures var db' := Apply(db, Commit(w), hash);
            db'.rows == Sequential(start, db'.committed) && AnswersSequentially(start, db'.committed)
  {
    CommitIsAtomic(db.rows, db.active[w]);
    var done' := Apply(db, Commit(w), hash).committed;
    assert done'[..|done'| - 1] == db.committed;
  }

  lemma CommitKeepsTickets(db: Db, w: nat, hash: string -> int)
    requires Enabled(db, Commit(w), hash) && TicketsOk(db, hash) && LocksExclude(db, hash)
    ensures TicketsOk(Apply(db, Commit(w), hash), hash)
  {
  }

  lemma LockKeepsInv(start: Table, db: Db, e: Event, hash: string -> int)
    requires Inv(start, db, hash) && Enabled(db, e, hash) && e.Lock?
    ensures Inv(start, Apply(db, e, hash), hash)
  {
  }

  lemma AdvanceKeepsInv(start: Table, db: Db, w: nat, phase: Phase, hash: string -> int)
    requires Inv(start, db, hash) && w in db.active
    requires PhaseOk(db.rows, db.active[w].(phase := phase))
    ensures Inv(start, Advance(db, w, phase), hash)
  {
    var db' := Advance(db, w, phase);
    assert LocksExclude(db', hash);
    assert TicketsOk(db', hash);
  }

  lemma StepKeepsInv(start: Table, db: Db, e: Event, hash: string -> int)
    requires Inv(start, db, hash) && Enabled(db, e, hash)
    ensures Inv(start, Apply(db, e, hash), hash)
  {
    match e
    case Lock(_, _) => LockKeepsInv(start, db, e, hash);
    case Commit(w) =>
      CommitKeepsTxs(db, w, hash);
      CommitKeepsSequence(start, db, w, hash);
      CommitKeepsTickets(db, w, hash);
    case Abort(_) =>
    case Delete(w) => AdvanceKeepsInv(start, db, w, Apply(db, e, hash).active[w].phase, hash);
    case Count(w) => AdvanceKeepsInv(start, db, w, Apply(db, e, hash).active[w].phase, hash);
    case Insert(w) => AdvanceKeepsInv(start, db, w, Apply(db, e, hash).active[w].phase, hash);
  }

  lemma {:induction false} RunKeepsInv(start: Table, db: Db, events: seq<Event>, hash: string -> int)
    requires Inv(start, db, hash) && Legal(db, events, hash)
    ensures Inv(start, Run(db, events, hash), hash)
    decreases |events|
  {
    if events != [] {
      StepKeepsInv(start, db, events[0], hash);
      RunKeepsInv(start, Apply(db, events[0], hash), events[1..], hash);
    }
  }

  // ---------- the theorems ----------

  /** Under every schedule and every lock hash, table and answers are those of a sequential run
      of the committed attempts, and attempts sharing a lock appear there in lock order. */
  lemma EveryScheduleIsSequential(start: Table, events: seq<Event>, hash: string -> int)
    requires Legal(Init(start), events, hash)
    ensures var db := Run(Init(start), events, hash);
            && db.rows == Sequential(start, db.committed)
            && AnswersSequentially(start, db.committed)
            && InLockOrder(db.committed, hash)
  {
    RunKeepsInv(start, Init(start), events, hash);
  }

  /** Nobody waits for ever: a worker inside a transaction always has a next statement or may commit, and
      an idle one may begin while nobody holds its lock. */
  lemma WorkersProceed(start: Table, events: seq<Event>, hash: string -> int, w: nat, a: Attempt)
    requires Legal(Init(start), events, hash)
    ensures var db := Run(Init(start), events, hash);
            && (w in db.active ==> exists e :: e in [Delete(w), Count(w), Insert(w), Commit(w)] && Enabled(db, e, hash))
            && (w !in db.active && MayBegin(db.rows, a)
                && (forall v :: v in db.active ==>
                      hash(db.active[v].attempt.bucket) != hash(a.bucket) && OtherIds(db.active[v].attempt, a))
                ==> Enabled(db, Lock(w, a), hash))
  {
    RunKeepsInv(start, Init(start), events, hash);
    var db := Run(Init(start), events, hash);
    if w in db.active {
      NextStatement(db, w, hash);
    }
  }

  lemma NextStatement(db: Db, w: nat, hash: string -> int)
    requires w in db.active && PhaseOk(db.rows, db.active[w])
    ensures exists e :: e in [Delete(w), Count(w), Insert(w), Commit(w)] && Enabled(db, e, hash)
  {
    var steps := [Delete(w), Count(w), Insert(w), Commit(w)];
    assert Enabled(db, steps[0], hash) || Enabled(db, steps[1], hash) || Enabled(db, steps[2], hash) || Enabled(db, steps[3], hash);
  }

  function OnBucket(done: seq<Outcome>, bucket: string): seq<Outcome> {
    if done == [] then []
    else
      var last := done[|done| - 1];
      OnBucket(done[..|done| - 1], bucket) + (if last.attempt.bucket == bucket then [last] else [])
  }

  function Accepted(done: seq<Outcome>): nat {
    if done == [] then 0
    else Accepted(done[..|done| - 1]) + (if done[|done| - 1].accepted then 1 else 0)
  }

  /** The attempts on the bucket that were committed after its last clearing, if it had one. */
  function SinceClear(done: seq<Outcome>, bucket: string): seq<Outcome> {
    if done == [] then []
    else
      var last := done[|done| - 1];
      if last.attempt == Clearing(bucket) then []
      else SinceClear(done[..|done| - 1], bucket) + (if last.attempt.bucket == bucket then [last] else [])
  }

  ghost predicate OneStamp(mine: seq<Outcome>, now: real, limit: nat) {
    forall i :: 0 <= i < |mine| && mine[i].attempt.Attempt? ==> mine[i].attempt.now == now && mine[i].attempt.limit == limit
  }

  /** Empty at the start, or cleared on the way. */
  ghost predicate StartsEmpty(start: Table, done: seq<Outcome>, bucket: string) {
    Bucket(start, bucket) == map[] || exists i :: 0 <= i < |done| && done[i].attempt == Clearing(bucket)
  }

  ghost predicate HoldsAcceptedStamps(view: map<string, real>, mine: seq<Outcome>, now: real) {
    |view| == Accepted(mine) && forall id :: id in view ==> view[id] == now
  }

  lemma StampAdded(view: map<string, real>, id: string, now: real, limit: int)
    requires id !in view && forall i :: i in view ==> view[i] == now
    ensures AdmitEntries(view, id, now, limit) == if |view| < limit then (view[id := now], true) else (view, false)
    ensures |view[id := now]| == |view| + 1
  {
    assert LiveEntries(view, now - WINDOW) == view;
    assert view[id := now].Keys == view.Keys + {id};
  }

  lemma OneMoreStamp(view: map<string, real>, mine: seq<Outcome>, last: Outcome)
    requires last.attempt.Attempt?
    requires var a := last.attempt;
             && HoldsAcceptedStamps(view, mine, a.now) && a.eventId !in view
             && last.accepted == AdmitEntries(view, a.eventId, a.now, a.limit).1
    ensures var a := last.attempt;
            HoldsAcceptedStamps(AdmitEntries(view, a.eventId, a.now, a.limit).0, mine + [last], a.now)
    ensures last.accepted <==> Accepted(mine) < last.attempt.limit
    ensures Accepted(mine + [last]) == Accepted(mine) + (if last.accepted then 1 else 0)
  {
    StampAdded(view, last.attempt.eventId, last.attempt.now, last.attempt.limit);
    assert (mine + [last])[..|mine|] == mine;
  }

  lemma ClearedBucket(t: Table, a: Attempt, other: string)
    requires a.Clearing?
    ensures Bucket(AfterAttempt(t, a).0, other) == if other == a.bucket then map[] else Bucket(t, other)
  {
  }

  /** One attempt or clearing acts on its own bucket alone. */
  lemma OtherBucketsStay(t: Table, a: Attempt, other: string)
    requires MayBegin(t, a) && a.bucket != other
    ensures Bucket(AfterAttempt(t, a).0, other) == Bucket(t, other)
  {
    if a.Clearing? {
      ClearedBucket(t, a, other);
    } else {
      PostgresConsumeOneBucket(t, a.eventId, a.bucket, a.now, a.limit, other);
    }
  }

  lemma StartedEmpty(start: Table, done: seq<Outcome>, bucket: string)
    requires done != [] && done[|done| - 1].attempt != Clearing(bucket) && StartsEmpty(start, done, bucket)
    ensures StartsEmpty(start, done[..|done| - 1], bucket)
  {
    if i :| 0 <= i < |done| && done[i].attempt == Clearing(bucket) {
      assert done[..|done| - 1][i] == done[i];
    }
  }

  lemma {:induction false} AcceptedUpToLimit(start: Table, done: seq<Outcome>, bucket: string, now: real, limit: nat)
    requires OneStamp(SinceClear(done, bucket), now, limit) && AnswersSequentially(start, done)
    requires StartsEmpty(start, done, bucket)
    ensures Accepted(SinceClear(done, bucket)) == Min(|SinceClear(done, bucket)|, limit)
    ensures HoldsAcceptedStamps(Bucket(Sequential(start, done), bucket), SinceClear(done, bucket), now)
  {
    if done != [] {
      var n := |done| - 1;
      var init, last := done[..n], done[n];
      var t, a, mine := Sequential(start, init), last.attempt, SinceClear(init, bucket);
      if a == Clearing(bucket) {
        ClearedBucket(t, a, bucket);
      } else {
        StartedEmpty(start, done, bucket);
        assert forall i :: 0 <= i < |mine| ==> SinceClear(done, bucket)[i] == mine[i];
        AcceptedUpToLimit(start, init, bucket, now, limit);
        if a.bucket == bucket {
          assert SinceClear(done, bucket) == mine + [last] && SinceClear(done, bucket)[|mine|] == last;
          PostgresConsumeOneBucket(t, a.eventId, a.bucket, a.now, a.limit, bucket);
          OneMoreStamp(Bucket(t, bucket), mine, last);
        } else {
          assert SinceClear(done, bucket) == mine;
          OtherBucketsStay(t, a, bucket);
        }
      }
    }
  }

  /** N attempts sharing one timestamp, completed on a bucket that was empty or after it was last
      cleared: exactly min(N, limit) are accepted, whatever else runs beside them and however the
      statements interleave. */
  lemma ExactlyLimitAccepted(start: Table, events: seq<Event>, hash: string -> int,
                             bucket: string, now: real, limit: nat)
    requires Legal(Init(start), events, hash) && StartsEmpty(start, Run(Init(start), events, hash).committed, bucket)
    requires OneStamp(SinceClear(Run(Init(start), events, hash).committed, bucket), now, limit)
    ensures var mine := SinceClear(Run(Init(start), events, hash).committed, bucket);
            Accepted(mine) == Min(|mine|, limit)
  {
    EveryScheduleIsSequential(start, events, hash);
    AcceptedUpToLimit(start, Run(Init(start), events, hash).committed, bucket, now, limit);
  }

  /** The admissions and clearings of one bucket alone, in the given order. */
  function OwnRun(v: map<string, real>, mine: seq<Outcome>): map<string, real> {
    if mine == [] then v
    else
      match mine[|mine| - 1].attempt
      case Clearing(_) => map[]
      case Attempt(eventId, _, now, limit) => AdmitEntries(OwnRun(v, mine[..|mine| - 1]), eventId, now, limit).0
  }

  /** One bucket's rows are those its own attempts leave, taken alone in their lock order. */
  lemma {:induction false} BucketsAreIndependent(start: Table, done: seq<Outcome>, bucket: string)
    requires AnswersSequentially(start, done)
    ensures Bucket(Sequential(start, done), bucket) == OwnRun(Bucket(start, bucket), OnBucket(done, bucket))
  {
    if done != [] {
      var n := |done| - 1;
      var init, a := done[..n], done[n].attempt;
      BucketsAreIndependent(start, init, bucket);
      var t, mine := Sequential(start, init), OnBucket(done, bucket);
      if a.bucket == bucket {
        assert mine[..|mine| - 1] == OnBucket(init, bucket);
        if a.Clearing? {
          ClearedBucket(t, a, bucket);
        } else {
          PostgresConsumeOneBucket(t, a.eventId, a.bucket, a.now, a.limit, bucket);
        }
      } else {
        OtherBucketsStay(t, a, bucket);
        assert mine == OnBucket(init, bucket);
      }
    }
  }
}

/** PostgreSQL circuits under every schedule.

    Any number of workers run `read_circuit` and `record_failure` as separate statements of their own
    transaction under the advisory lock of the circuit: select, then delete or upsert, then commit.
    `record_success` takes no lock: its delete commits at any moment at which no other transaction
    holds the row it would delete.  The lock hash is an arbitrary function.

    `EveryScheduleIsSequentialExactlyWhen` says that rows and answers are those of the sequential run in
    the order in which the operations took effect exactly when no committing failure was overtaken: no
    success on its circuit committed after its select had seen failures.  `CircuitOrders` compares with
    every other order that time allows. */
module CircuitSchedule {
  import opened Common
  import opened BudgetStores
  import opened Circuits

  /** A read or a failure of one circuit. */
  datatype Request = Request(key: Key, op: Op)

  datatype Phase =
    | Locked
    | Selected(row: PgRow)
    | Written(row: PgRow)

  /** `since`: how many operations had taken effect when it took its lock.  `overtaken`: a success
      has deleted the failures that its select saw.  `misled`: its select saw a revived row. */
  datatype Tx = Tx(request: Request, ticket: nat, since: nat, phase: Phase, overtaken: bool, misled: bool)

  /** An operation that has taken effect, its answer, its place in the order of locks, if it took one,
      how many operations had taken effect when it began, and how many when it took effect. */
  datatype Entry = Entry(key: Key, op: Op, seen: Seen, ticket: Option<nat>, since: nat, at: nat)

  type Rows = map<Key, Circuit>

  /** `lost`: a failure has committed although a success had overtaken it.  `revived`: the circuits
      whose row such a failure wrote.  `misled`: an operation has answered from a revived row. */
  datatype Db = Db(rows: Rows, active: map<nat, Tx>, tickets: nat, log: seq<Entry>, lost: bool,
                   revived: set<Key>, misled: bool)

  datatype Event =
    | Lock(worker: nat, request: Request)
    | Select(worker: nat)
    | Write(worker: nat)
    | Commit(worker: nat)
    | Abort(worker: nat)
    | Success(key: Key)

  function RowOf(rows: Rows, k: Key): PgRow { if k in rows then Some(rows[k]) else None }

  /** After its select, a failure upserts and a read of a lapsed row deletes it. */
  predicate HasWrite(op: Op, row: PgRow) {
    op.Fail? || (op.Read? && row.Some? && Lapsed(row.value, op.now))
  }

  ghost predicate Enabled(db: Db, e: Event, hash: Key -> int) {
    match e
    case Lock(w, q) =>
      && w !in db.active && !q.op.Succeed?
      && forall v :: v in db.active ==> hash(db.active[v].request.key) != hash(q.key)
    case Select(w) => w in db.active && db.active[w].phase.Locked?
    case Write(w) =>
      w in db.active && db.active[w].phase.Selected? && HasWrite(db.active[w].request.op, db.active[w].phase.row)
    case Commit(w) =>
      && w in db.active
      && (db.active[w].phase.Written?
          || (db.active[w].phase.Selected? && !HasWrite(db.active[w].request.op, db.active[w].phase.row)))
    case Abort(w) => w in db.active
    case Success(k) =>
      forall v :: v in db.active && db.active[v].request.key == k && db.active[v].phase.Written? ==> k !in db.rows
  }

  function WithPhase(db: Db, w: nat, phase: Phase): Db
    requires w in db.active
  {
    db.(active := db.active[w := db.active[w].(phase := phase)])
  }

  /** What a failure writes after it selected `row`. */
  function NewCircuit(op: Op, row: PgRow): Circuit
    requires op.Fail?
  {
    Upserted(SelectedCount(row), op.now, op.threshold, op.cooldown)
  }

  /** A failure whose select saw failures and that has not yet ended. */
  predicate CanBeOvertaken(tx: Tx) {
    tx.request.op.Fail? && !tx.phase.Locked? && SelectedCount(tx.phase.row) != 0
  }

  function Overtake(active: map<nat, Tx>, k: Key): map<nat, Tx> {
    map v | v in active :: if active[v].request.key == k && CanBeOvertaken(active[v]) then active[v].(overtaken := true) else active[v]
  }

  /** A read that writes nothing takes effect at its select, every other transaction at its commit. */
  ghost function Apply(db: Db, e: Event, hash: Key -> int): Db
    requires Enabled(db, e, hash)
  {
    match e
    case Lock(w, q) => db.(active := db.active[w := Tx(q, db.tickets, |db.log|, Locked, false, false)], tickets := db.tickets + 1)
    case Select(w) =>
      var tx, k, op := db.active[w], db.active[w].request.key, db.active[w].request.op;
      var row := RowOf(db.rows, k);
      var db' := db.(active := db.active[w := tx.(phase := Selected(row), misled := k in db.revived)]);
      if HasWrite(op, row) then db'
      else db'.(log := db.log + [Entry(k, op, PostgresStep(row, op).1, Some(tx.ticket), tx.since, |db.log|)],
                misled := db.misled || k in db.revived)
    case Write(w) => WithPhase(db, w, Written(db.active[w].phase.row))
    case Commit(w) => Ended(db, db.active[w]).(active := db.active - {w})
    case Abort(w) => db.(active := db.active - {w})
    case Success(k) =>
      db.(rows := db.rows - {k}, active := Overtake(db.active, k),
          log := db.log + [Entry(k, Succeed, Nothing, None, |db.log|, |db.log|)], revived := db.revived - {k})
  }

  function Ended(db: Db, tx: Tx): Db {
    var k, op := tx.request.key, tx.request.op;
    if !tx.phase.Written? then db
    else if op.Fail? then
      var c := NewCircuit(op, tx.phase.row);
      db.(rows := db.rows[k := c], log := db.log + [Entry(k, op, State(c), Some(tx.ticket), tx.since, |db.log|)],
          lost := db.lost || tx.overtaken, misled := db.misled || tx.misled,
          revived := if tx.overtaken then db.revived + {k} else db.revived - {k})
    else
      db.(rows := db.rows - {k}, log := db.log + [Entry(k, op, State(CLOSED), Some(tx.ticket), tx.since, |db.log|)],
          revived := db.revived - {k})
  }

  ghost predicate Legal(db: Db, events: seq<Event>, hash: Key -> int)
    decreases |events|
  {
    events == [] || (Enabled(db, events[0], hash) && Legal(Apply(db, events[0], hash), events[1..], hash))
  }

  ghost function Run(db: Db, events: seq<Event>, hash: Key -> int): Db
    requires Legal(db, events, hash)
    decreases |events|
  {
    if events == [] then db else Run(Apply(db, events[0], hash), events[1..], hash)
  }

  function Init(start: Rows): Db { Db(start, map[], 0, [], false, {}, false) }

  // ---------- the sequential reference ----------

  function SetRow(rows: Rows, k: Key, row: PgRow): Rows { if row.None? then rows - {k} else rows[k := row.value] }

  function AfterEntry(rows: Rows, e: Entry): Rows { SetRow(rows, e.key, PostgresStep(RowOf(rows, e.key), e.op).0) }

  /** The rows after running the logged operations one after another, each undisturbed. */
  function Sequential(start: Rows, log: seq<Entry>): Rows {
    if log == [] then start else AfterEntry(Sequential(start, log[..|log| - 1]), log[|log| - 1])
  }

  predicate AnswersTo(rows: Rows, e: Entry) { e.seen == PostgresStep(RowOf(rows, e.key), e.op).1 }

  /** Every answer is the one the sequential run gives at that point. */
  predicate AnswersSequentially(start: Rows, log: seq<Entry>) {
    log == [] ||
    (AnswersSequentially(start, log[..|log| - 1]) && AnswersTo(Sequential(start, log[..|log| - 1]), log[|log| - 1]))
  }

  /** Operations that share a lock took effect in the order in which they took it. */
  ghost predicate InLockOrder(log: seq<Entry>, hash: Key -> int) {
    forall i, j :: 0 <= i < j < |log| && log[i].ticket.Some? && log[j].ticket.Some? && hash(log[i].key) == hash(log[j].key) ==>
      log[i].ticket.value < log[j].ticket.value
  }

  // ---------- the invariant ----------

  /** What a transaction selected is still there, unless a success has deleted it meanwhile. */
  ghost predicate TxOk(rows: Rows, tx: Tx) {
    var now := RowOf(rows, tx.request.key);
    && !tx.request.op.Succeed?
    && (tx.phase.Locked? ==> !tx.overtaken)
    && (tx.overtaken ==> CanBeOvertaken(tx) && now.None?)
    && (tx.phase.Written? ==> HasWrite(tx.request.op, tx.phase.row))
    && (!tx.phase.Locked? && !tx.overtaken ==> now == tx.phase.row || (now.None? && !CanBeOvertaken(tx)))
  }

  ghost predicate TxsOk(db: Db) { forall w :: w in db.active ==> TxOk(db.rows, db.active[w]) }

  ghost predicate LocksExclude(db: Db, hash: Key -> int) {
    forall v, w :: v in db.active && w in db.active && v != w ==>
      hash(db.active[v].request.key) != hash(db.active[w].request.key)
  }

  predicate IsLogged(tx: Tx) { tx.phase.Selected? && !HasWrite(tx.request.op, tx.phase.row) }

  ghost predicate TicketsDrawn(db: Db) {
    && (forall w :: w in db.active ==> db.active[w].ticket < db.tickets)
    && (forall i :: 0 <= i < |db.log| && db.log[i].ticket.Some? ==> db.log[i].ticket.value < db.tickets)
  }

  /** The logged entry was made under the lock of `tx` before `tx` took it. */
  predicate IsEarlier(e: Entry, tx: Tx, hash: Key -> int) {
    e.ticket.Some? && hash(e.key) == hash(tx.request.key) ==> e.ticket.value < tx.ticket
  }

  /** What is logged comes before the holder of its lock, unless the holder is itself logged. */
  ghost predicate HoldersAreLater(db: Db, hash: Key -> int) {
    forall i, w :: 0 <= i < |db.log| && w in db.active && !IsLogged(db.active[w]) ==> IsEarlier(db.log[i], db.active[w], hash)
  }

  ghost predicate TicketsOk(db: Db, hash: Key -> int) {
    TicketsDrawn(db) && HoldersAreLater(db, hash) && InLockOrder(db.log, hash)
  }

  ghost predicate Explained(start: Rows, db: Db) {
    if db.lost then !AnswersSequentially(start, db.log)
    else AnswersSequentially(start, db.log) && db.rows == Sequential(start, db.log)
  }

  ghost predicate Inv(start: Rows, db: Db, hash: Key -> int) {
    LocksExclude(db, hash) && TicketsOk(db, hash) && TxsOk(db) && Explained(start, db)
  }

  // ---------- preservation ----------

  /** Logging one more operation, answered as its rows say or not. */
  lemma OneMoreEntry(start: Rows, log: seq<Entry>, e: Entry)
    ensures AnswersSequentially(start, log + [e])
       <==> AnswersSequentially(start, log) && AnswersTo(Sequential(start, log), e)
    ensures Sequential(start, log + [e]) == AfterEntry(Sequential(start, log), e)
  {
    assert (log + [e])[..|log|] == log;
  }

  /** A commit writes and answers as an undisturbed operation does exactly when not overtaken. */
  lemma EndedIsAtomic(db: Db, tx: Tx)
    requires TxOk(db.rows, tx) && tx.phase.Written?
    ensures var e := Ended(db, tx).log[|db.log|];
            && Ended(db, tx).log == db.log + [e]
            && (AnswersTo(db.rows, e) <==> !tx.overtaken)
            && (!tx.overtaken ==> Ended(db, tx).rows == AfterEntry(db.rows, e))
            && Ended(db, tx).lost == (db.lost || tx.overtaken)
  {
  }

  lemma CommitExplained(start: Rows, db: Db, tx: Tx)
    requires Explained(start, db) && TxOk(db.rows, tx)
    ensures Explained(start, Ended(db, tx))
  {
    if tx.phase.Written? {
      EndedIsAtomic(db, tx);
      OneMoreEntry(start, db.log, Ended(db, tx).log[|db.log|]);
    }
  }

  lemma SuccessExplained(start: Rows, db: Db, k: Key)
    requires Explained(start, db)
    ensures Explained(start, db.(rows := db.rows - {k}, log := db.log + [Entry(k, Succeed, Nothing, None, |db.log|, |db.log|)]))
  {
    OneMoreEntry(start, db.log, Entry(k, Succeed, Nothing, None, |db.log|, |db.log|));
  }

  lemma SelectExplained(start: Rows, db: Db, q: Request, ticket: nat, since: nat)
    requires Explained(start, db) && !q.op.Succeed? && !HasWrite(q.op, RowOf(db.rows, q.key))
    ensures var e := Entry(q.key, q.op, PostgresStep(RowOf(db.rows, q.key), q.op).1, Some(ticket), since, |db.log|);
            Explained(start, db.(log := db.log + [e]))
  {
    var e := Entry(q.key, q.op, PostgresStep(RowOf(db.rows, q.key), q.op).1, Some(ticket), since, |db.log|);
    OneMoreEntry(start, db.log, e);
    assert AfterEntry(db.rows, e) == db.rows;
  }

  lemma StepExplained(start: Rows, db: Db, e: Event, hash: Key -> int)
    requires Explained(start, db) && TxsOk(db) && Enabled(db, e, hash)
    ensures Explained(start, Apply(db, e, hash))
  {
    match e
    case Select(w) =>
      var q := db.active[w].request;
      if !HasWrite(q.op, RowOf(db.rows, q.key)) { SelectExplained(start, db, q, db.active[w].ticket, db.active[w].since); }
    case Commit(w) => CommitExplained(start, db, db.active[w]);
    case Success(k) => SuccessExplained(start, db, k);
    case _ =>
  }

  /** A transaction of another worker keeps its request, its place and what it selected. */
  lemma OthersKept(db: Db, e: Event, v: nat, hash: Key -> int)
    requires Enabled(db, e, hash) && v in Apply(db, e, hash).active && v in db.active
    requires e.Success? || (e.worker != v)
    ensures var tx, tx' := db.active[v], Apply(db, e, hash).active[v];
            && tx' == tx.(overtaken := tx'.overtaken)
            && (tx'.overtaken != tx.overtaken ==> e == Success(tx.request.key) && tx'.overtaken && CanBeOvertaken(tx))
  {
  }

  /** A step that is not the holder's own leaves the row under the lock or is a success. */
  lemma RowOfOthers(db: Db, e: Event, v: nat, hash: Key -> int)
    requires LocksExclude(db, hash) && Enabled(db, e, hash) && v in db.active && (e.Success? || e.worker != v)
    ensures var k := db.active[v].request.key;
            if e == Success(k) then k !in Apply(db, e, hash).rows else RowOf(Apply(db, e, hash).rows, k) == RowOf(db.rows, k)
  {
  }

  lemma OwnTx(db: Db, e: Event, v: nat, hash: Key -> int)
    requires Enabled(db, e, hash) && !e.Success? && e.worker == v && v in Apply(db, e, hash).active
    requires v in db.active ==> TxOk(db.rows, db.active[v])
    ensures TxOk(Apply(db, e, hash).rows, Apply(db, e, hash).active[v])
  {
  }

  /** A success overtakes the failures that can be overtaken, and no other transaction. */
  lemma SuccessOvertakes(db: Db, k: Key, v: nat, hash: Key -> int)
    requires Enabled(db, Success(k), hash) && v in db.active
    ensures v in Apply(db, Success(k), hash).active
    ensures db.active[v].request.key == k && CanBeOvertaken(db.active[v]) ==> Apply(db, Success(k), hash).active[v].overtaken
  {
  }

  lemma StepKeepsTx(db: Db, e: Event, v: nat, hash: Key -> int)
    requires LocksExclude(db, hash) && Enabled(db, e, hash) && v in Apply(db, e, hash).active
    requires v in db.active ==> TxOk(db.rows, db.active[v])
    ensures TxOk(Apply(db, e, hash).rows, Apply(db, e, hash).active[v])
  {
    if e.Success? || e.worker != v {
      OthersKept(db, e, v, hash);
      RowOfOthers(db, e, v, hash);
      if e.Success? { SuccessOvertakes(db, e.key, v, hash); }
    } else {
      OwnTx(db, e, v, hash);
    }
  }

  lemma StepKeepsExclusion(db: Db, e: Event, hash: Key -> int)
    requires LocksExclude(db, hash) && Enabled(db, e, hash)
    ensures LocksExclude(Apply(db, e, hash), hash)
  {
  }

  lemma StepKeepsTxs(db: Db, e: Event, hash: Key -> int)
    requires LocksExclude(db, hash) && TxsOk(db) && Enabled(db, e, hash)
    ensures TxsOk(Apply(db, e, hash)) && LocksExclude(Apply(db, e, hash), hash)
  {
    StepKeepsExclusion(db, e, hash);
    forall v | v in Apply(db, e, hash).active ensures TxOk(Apply(db, e, hash).rows, Apply(db, e, hash).active[v]) {
      StepKeepsTx(db, e, v, hash);
    }
  }

  lemma StepKeepsDrawn(db: Db, e: Event, hash: Key -> int)
    requires TicketsDrawn(db) && Enabled(db, e, hash)
    ensures TicketsDrawn(Apply(db, e, hash))
  {
  }

  /** What a step logs, if anything, under a lock is what its own transaction did. */
  lemma StepLogs(db: Db, e: Event, hash: Key -> int)
    requires Enabled(db, e, hash)
    ensures var log' := Apply(db, e, hash).log;
            || log' == db.log
            || (|log'| == |db.log| + 1 && log'[..|db.log|] == db.log && log'[|db.log|].ticket.None?)
            || (&& (e.Select? || e.Commit?) && !IsLogged(db.active[e.worker])
                && |log'| == |db.log| + 1 && log'[..|db.log|] == db.log
                && log'[|db.log|].key == db.active[e.worker].request.key
                && log'[|db.log|].ticket == Some(db.active[e.worker].ticket)
                && (e.worker in Apply(db, e, hash).active ==> IsLogged(Apply(db, e, hash).active[e.worker])))
  {
  }

  lemma StepKeepsOrder(db: Db, e: Event, hash: Key -> int)
    requires HoldersAreLater(db, hash) && InLockOrder(db.log, hash) && Enabled(db, e, hash)
    ensures InLockOrder(Apply(db, e, hash).log, hash)
  {
    StepLogs(db, e, hash);
    var log' := Apply(db, e, hash).log;
    if log' != db.log && log'[|db.log|].ticket.Some? {
      forall i | 0 <= i < |db.log| ensures IsEarlier(log'[i], db.active[e.worker], hash) {
        assert log'[i] == db.log[i];
      }
    }
    assert forall i :: 0 <= i < |db.log| ==> log'[i] == log'[..|db.log|][i];
  }

  lemma StepKeepsHolders(db: Db, e: Event, hash: Key -> int)
    requires LocksExclude(db, hash) && TicketsDrawn(db) && HoldersAreLater(db, hash) && Enabled(db, e, hash)
    ensures HoldersAreLater(Apply(db, e, hash), hash)
  {
    StepLogs(db, e, hash);
    var db' := Apply(db, e, hash);
    forall i, w | 0 <= i < |db'.log| && w in db'.active && !IsLogged(db'.active[w])
      ensures IsEarlier(db'.log[i], db'.active[w], hash)
    {
      if i < |db.log| {
        assert db'.log[i] == db.log[i];
        if w in db.active && !IsLogged(db.active[w]) {
          assert IsEarlier(db.log[i], db.active[w], hash);
        }
      }
    }
  }

  lemma StepKeepsInv(start: Rows, db: Db, e: Event, hash: Key -> int)
    requires Inv(start, db, hash) && Enabled(db, e, hash)
    ensures Inv(start, Apply(db, e, hash), hash)
  {
    StepExplained(start, db, e, hash);
    StepKeepsTxs(db, e, hash);
    StepKeepsDrawn(db, e, hash);
    StepKeepsOrder(db, e, hash);
    StepKeepsHolders(db, e, hash);
  }

  lemma {:induction false} RunKeepsInv(start: Rows, db: Db, events: seq<Event>, hash: Key -> int)
    requires Inv(start, db, hash) && Legal(db, events, hash)
    ensures Inv(start, Run(db, events, hash), hash)
    decreases |events|
  {
    if events != [] {
      StepKeepsInv(start, db, events[0], hash);
      RunKeepsInv(start, Apply(db, events[0], hash), events[1..], hash);
    }
  }

  // ---------- the theorems ----------

  /** Under every schedule and every lock hash: the answers are those of the sequential run in the order
      in which the operations took effect exactly when no overtaken failure has committed, the rows are
      its rows then too, and operations that share a lock stand in that order as they locked. */
  lemma EveryScheduleIsSequentialExactlyWhen(start: Rows, events: seq<Event>, hash: Key -> int)
    requires Legal(Init(start), events, hash)
    ensures var db := Run(Init(start), events, hash);
            && (AnswersSequentially(start, db.log) <==> !db.lost)
            && (!db.lost ==> db.rows == Sequential(start, db.log))
            && InLockOrder(db.log, hash)
  {
    RunKeepsInv(start, Init(start), events, hash);
  }

  /** Nobody waits for ever: a worker inside a transaction always has a next statement or may commit, an
      idle one may begin while nobody holds its lock, and a success may commit unless the row it would
      delete has been written and not yet committed. */
  lemma WorkersProceed(start: Rows, events: seq<Event>, hash: Key -> int, w: nat, q: Request, k: Key)
    requires Legal(Init(start), events, hash) && !q.op.Succeed?
    ensures var db := Run(Init(start), events, hash);
            && (w in db.active ==> exists e :: e in [Select(w), Write(w), Commit(w)] && Enabled(db, e, hash))
            && (w !in db.active && (forall v :: v in db.active ==> hash(db.active[v].request.key) != hash(q.key))
                ==> Enabled(db, Lock(w, q), hash))
            && ((forall v :: v in db.active && db.active[v].request.key == k ==> !db.active[v].phase.Written?)
                ==> Enabled(db, Success(k), hash))
  {
    RunKeepsInv(start, Init(start), events, hash);
    var db := Run(Init(start), events, hash);
    if w in db.active {
      var steps := [Select(w), Write(w), Commit(w)];
      assert Enabled(db, steps[0], hash) || Enabled(db, steps[1], hash) || Enabled(db, steps[2], hash);
    }
  }

  ghost predicate NobodyOvertaken(db: Db) {
    !db.lost && forall w :: w in db.active ==> !db.active[w].overtaken
  }

  lemma {:induction false} NobodyIsOvertaken(db: Db, events: seq<Event>, hash: Key -> int)
    requires Legal(db, events, hash) && NobodyOvertaken(db)
    requires forall i :: 0 <= i < |events| ==> !events[i].Success?
    ensures !Run(db, events, hash).lost
    decreases |events|
  {
    if events != [] {
      NobodyIsOvertaken(Apply(db, events[0], hash), events[1..], hash);
    }
  }

  /** Reads and failures alone are sequential under every schedule. */
  lemma LockedOperationsAreSequential(start: Rows, events: seq<Event>, hash: Key -> int)
    requires Legal(Init(start), events, hash) && forall i :: 0 <= i < |events| ==> !events[i].Success?
    ensures var db := Run(Init(start), events, hash);
            AnswersSequentially(start, db.log) && db.rows == Sequential(start, db.log) && InLockOrder(db.log, hash)
  {
    EveryScheduleIsSequentialExactlyWhen(start, events, hash);
    NobodyIsOvertaken(Init(start), events, hash);
  }

  function OvertakenSchedule(k: Key, fail: Op): seq<Event> {
    [Lock(0, Request(k, fail)), Select(0), Success(k), Write(0), Commit(0)]
  }

  /** A schedule whose failure selects failures, is overtaken by a success, and commits: the count
      the success cleared comes back. */
  lemma OvertakenFailureIsLost(start: Rows, k: Key, fail: Op, hash: Key -> int)
    requires fail.Fail? && k in start && start[k].failures != 0
    ensures var events := OvertakenSchedule(k, fail);
            && Legal(Init(start), events, hash)
            && Run(Init(start), events, hash).lost
            && RowOf(Run(Init(start), events, hash).rows, k) == Some(NewCircuit(fail, Some(start[k])))
            && Run(Init(start), events, hash).revived == {k}
            && Run(Init(start), events, hash).active == map[] && !Run(Init(start), events, hash).misled
  {
    var lock, select, success, write, commit: Event :=
      Lock(0, Request(k, fail)), Select(0), Success(k), Write(0), Commit(0);
    var db1 := Apply(Init(start), lock, hash);
    var db2 := Apply(db1, select, hash);
    var db3 := Apply(db2, success, hash);
    var db4 := Apply(db3, write, hash);
    LastStep(db4, commit, hash);
    OneStepMore(db3, write, [commit], hash);
    OneStepMore(db2, success, [write, commit], hash);
    OneStepMore(db1, select, [success, write, commit], hash);
    OneStepMore(Init(start), lock, [select, success, write, commit], hash);
  }

  lemma OneStepMore(db: Db, e: Event, rest: seq<Event>, hash: Key -> int)
    requires Enabled(db, e, hash) && Legal(Apply(db, e, hash), rest, hash)
    ensures Legal(db, [e] + rest, hash) && Run(db, [e] + rest, hash) == Run(Apply(db, e, hash), rest, hash)
  {
    assert ([e] + rest)[1..] == rest;
  }

  lemma LastStep(db: Db, e: Event, hash: Key -> int)
    requires Enabled(db, e, hash)
    ensures Legal(db, [e], hash) && Run(db, [e], hash) == Apply(db, e, hash)
  {
    assert [e][1..] == [];
  }
}

/** PostgreSQL circuits: which order of the operations explains what a schedule did.

    An order may put an operation anywhere between its lock and the moment it takes effect; a success
    is a single statement and keeps its moment.  `LinearizableExactlyWhen` says that some such order
    explains every answer and the final rows exactly when no answer came from a revived row, one that
    an overtaken failure wrote back, and no such row is left. */
module CircuitOrders {
  import opened Common
  import opened BudgetStores
  import opened Circuits
  import opened CircuitSchedule
  import opened Permutations

  /** What took effect before an operation began comes before it. */
  ghost predicate RespectsTime(order: seq<Entry>) {
    forall i, j :: 0 <= i < j < |order| ==> order[i].since <= order[j].at
  }

  ghost predicate IsOrder(log: seq<Entry>, order: seq<Entry>) {
    multiset(order) == multiset(log) && RespectsTime(order)
  }

  /** A sequential run of the same operations, in real time, gives the same answers and rows. */
  ghost predicate Linearizes(start: Rows, db: Db, order: seq<Entry>) {
    IsOrder(db.log, order) && AnswersSequentially(start, order) && db.rows == Sequential(start, order)
  }

  function After(start: Rows, order: seq<Entry>, k: Key): PgRow { RowOf(Sequential(start, order), k) }

  // ---------- one operation in the midst of others ----------

  /** The only operations on the circuit are successes. */
  ghost predicate OnlySuccesses(order: seq<Entry>, k: Key) {
    forall i :: 0 <= i < |order| && order[i].key == k ==> order[i].op.Succeed? && order[i].seen.Nothing?
  }

  ghost predicate Touches(order: seq<Entry>, k: Key) { exists i :: 0 <= i < |order| && order[i].key == k }

  lemma EntryTouches(rows: Rows, e: Entry, k: Key)
    ensures RowOf(AfterEntry(rows, e), k) == if e.key == k then PostgresStep(RowOf(rows, k), e.op).0 else RowOf(rows, k)
  {
  }

  /** The tail of an order whose operations on `k` are successes: it clears the row or leaves it. */
  lemma {:induction false} TailOfSuccesses(start: Rows, a: seq<Entry>, b: seq<Entry>, k: Key)
    requires OnlySuccesses(b, k)
    ensures After(start, a + b, k) == if Touches(b, k) then None else After(start, a, k)
    decreases |b|
  {
    if b == [] {
      assert a + b == a;
    } else {
      var b', last := b[..|b| - 1], b[|b| - 1];
      TailOfSuccesses(start, a, b', k);
      assert a + b == (a + b') + [last];
      OneMoreEntry(start, a + b', last);
      EntryTouches(Sequential(start, a + b'), last, k);
      if last.key != k && Touches(b, k) {
        var i :| 0 <= i < |b| && b[i].key == k;
        assert b'[i].key == k;
      }
    }
  }

  /** Before successes of its own circuit, an operation changes no other answer. */
  lemma {:induction false} InsertedAnswers(start: Rows, a: seq<Entry>, e: Entry, b: seq<Entry>)
    requires OnlySuccesses(b, e.key)
    ensures forall k :: k != e.key ==> After(start, a + [e] + b, k) == After(start, a + b, k)
    ensures AnswersSequentially(start, a + [e] + b)
       <==> AnswersSequentially(start, a + b) && AnswersTo(Sequential(start, a), e)
    decreases |b|
  {
    OneMoreEntry(start, a, e);
    if b == [] {
      assert a + b == a && a + [e] + b == a + [e];
    } else {
      var b', last := b[..|b| - 1], b[|b| - 1];
      InsertedAnswers(start, a, e, b');
      assert a + b == (a + b') + [last] && a + [e] + b == (a + [e] + b') + [last];
      OneMoreEntry(start, a + b', last);
      OneMoreEntry(start, a + [e] + b', last);
      SameAnswer(start, a + b', a + [e] + b', last, e.key);
    }
  }

  lemma SameAnswer(start: Rows, x: seq<Entry>, y: seq<Entry>, last: Entry, k: Key)
    requires forall j :: j != k ==> After(start, y, j) == After(start, x, j)
    requires last.key == k ==> last.op.Succeed? && last.seen.Nothing?
    ensures AnswersTo(Sequential(start, x), last) <==> AnswersTo(Sequential(start, y), last)
    ensures forall j :: j != k ==> RowOf(AfterEntry(Sequential(start, y), last), j) == RowOf(AfterEntry(Sequential(start, x), last), j)
  {
    if last.key != k { assert After(start, y, last.key) == After(start, x, last.key); }
    forall j | j != k
      ensures RowOf(AfterEntry(Sequential(start, y), last), j) == RowOf(AfterEntry(Sequential(start, x), last), j)
    {
      assert After(start, y, j) == After(start, x, j);
    }
  }

  // ---------- orders of a log that grows ----------

  lemma Interchanged(a: seq<Entry>, e: Entry, b: seq<Entry>)
    ensures multiset(a + [e] + b) == multiset(a + b) + multiset{e}
  {
  }

  lemma TakenOutInTime(a: seq<Entry>, e: Entry, b: seq<Entry>)
    requires RespectsTime(a + [e] + b)
    ensures RespectsTime(a + b) && forall j :: 0 <= j < |b| ==> e.since <= b[j].at
  {
    var order := a + [e] + b;
    forall j | 0 <= j < |b| ensures e.since <= b[j].at {
      assert order[|a|] == e && order[|a| + 1 + j] == b[j];
    }
    forall p, q | 0 <= p < q < |a + b| ensures (a + b)[p].since <= (a + b)[q].at {
      var p', q' := if p < |a| then p else p + 1, if q < |a| then q else q + 1;
      assert order[p'] == (a + b)[p] && order[q'] == (a + b)[q];
    }
  }

  lemma HasLast(log: seq<Entry>, e: Entry, order: seq<Entry>)
    requires multiset(order) == multiset(log + [e])
    ensures e in order
  {
    assert (log + [e])[|log|] == e;
    assert e in multiset(order);
  }

  lemma Cancelled(log: seq<Entry>, a: seq<Entry>, e: Entry, b: seq<Entry>)
    requires multiset(a + [e] + b) == multiset(log + [e])
    ensures multiset(a + b) == multiset(log)
  {
    Interchanged(a, e, b);
    assert multiset(log + [e]) == multiset(log) + multiset{e};
    assert multiset(a + b) == multiset(a + [e] + b) - multiset{e};
    assert multiset(log) == multiset(log + [e]) - multiset{e};
  }

  /** An order of a longer log is an order of the shorter one with the last operation put in. */
  lemma TakeOut(log: seq<Entry>, e: Entry, order: seq<Entry>) returns (a: seq<Entry>, b: seq<Entry>)
    requires IsOrder(log + [e], order)
    ensures order == a + [e] + b && IsOrder(log, a + b)
    ensures forall j :: 0 <= j < |b| ==> e.since <= b[j].at && b[j] in log
  {
    HasLast(log, e, order);
    var i :| 0 <= i < |order| && order[i] == e;
    a, b := order[..i], order[i + 1..];
    assert order == a + [e] + b;
    TakenOutInTime(a, e, b);
    Cancelled(log, a, e, b);
    SameMembers(log, a, b);
  }

  lemma SameMembers(log: seq<Entry>, a: seq<Entry>, b: seq<Entry>)
    requires multiset(a + b) == multiset(log)
    ensures forall j :: 0 <= j < |b| ==> b[j] in log
  {
    forall j | 0 <= j < |b| ensures b[j] in log {
      assert (a + b)[|a| + j] in multiset(a + b);
    }
  }

  lemma PutIn(log: seq<Entry>, a: seq<Entry>, e: Entry, b: seq<Entry>)
    requires IsOrder(log, a + b)
    requires forall j :: 0 <= j < |b| ==> e.since <= b[j].at
    requires forall j :: 0 <= j < |a| ==> a[j].since <= e.at
    ensures IsOrder(log + [e], a + [e] + b)
  {
    Interchanged(a, e, b);
    var order := a + [e] + b;
    forall p, q | 0 <= p < q < |order| ensures order[p].since <= order[q].at {
      if p < |a| && q > |a| {
        assert (a + b)[p] == order[p] && (a + b)[q - 1] == order[q];
      } else if q < |a| {
        assert (a + b)[p] == order[p] && (a + b)[q] == order[q];
      } else if p > |a| {
        assert (a + b)[p - 1] == order[p] && (a + b)[q - 1] == order[q];
      }
    }
  }

  // ---------- what every schedule keeps ----------

  ghost predicate Timed(log: seq<Entry>) {
    forall i :: 0 <= i < |log| ==>
      && log[i].since <= log[i].at == i
      && (log[i].op.Succeed? <==> log[i].ticket.None?)
      && (log[i].op.Succeed? ==> log[i].since == i && log[i].seen.Nothing?)
  }

  ghost predicate Counts(rows: Rows) { forall k :: k in rows ==> rows[k].failures >= 0 }

  /** A revived row counts the failure that wrote it and at least one that a success had cleared. */
  ghost predicate RowsOk(db: Db) {
    Counts(db.rows) && forall k :: k in db.revived ==> k in db.rows && db.rows[k].failures >= 2
  }

  /** Under a lock only its holder and successes take effect. */
  ghost predicate HeldAlone(log: seq<Entry>, tx: Tx, hash: Key -> int) {
    && tx.since <= |log|
    && (!IsLogged(tx) ==>
          forall i :: tx.since <= i < |log| && hash(log[i].key) == hash(tx.request.key) ==> log[i].ticket.None?)
  }

  /** A success under the lock leaves no row, and none appears before the holder writes. */
  ghost predicate ClearedMeanwhile(db: Db, tx: Tx) {
    !IsLogged(tx) ==>
      forall i :: tx.since <= i < |db.log| && db.log[i].key == tx.request.key ==> tx.request.key !in db.rows
  }

  ghost predicate SelectOk(db: Db, tx: Tx) {
    var k := tx.request.key;
    !tx.phase.Locked? ==>
      && (tx.phase.row.Some? ==> tx.phase.row.value.failures >= 0)
      && (tx.misled ==> tx.phase.row.Some? && tx.phase.row.value.failures >= 2)
      && (k in db.revived ==> tx.misled)
  }

  ghost predicate TxsTimed(db: Db, hash: Key -> int) {
    forall w :: w in db.active ==>
      && HeldAlone(db.log, db.active[w], hash) && ClearedMeanwhile(db, db.active[w]) && SelectOk(db, db.active[w])
  }

  ghost predicate Kept(db: Db, hash: Key -> int) {
    LocksExclude(db, hash) && TxsOk(db) && Timed(db.log) && RowsOk(db) && TxsTimed(db, hash)
  }

  lemma StepKeepsTimed(db: Db, e: Event, hash: Key -> int)
    requires Kept(db, hash) && Enabled(db, e, hash)
    ensures Timed(Apply(db, e, hash).log)
  {
    assert e.Select? || e.Write? || e.Commit? || e.Abort? ==> TxOk(db.rows, db.active[e.worker]);
  }

  lemma StepKeepsRows(db: Db, e: Event, hash: Key -> int)
    requires Kept(db, hash) && Enabled(db, e, hash)
    ensures RowsOk(Apply(db, e, hash))
  {
    if e.Commit? { assert TxOk(db.rows, db.active[e.worker]) && SelectOk(db, db.active[e.worker]); }
  }

  lemma StepKeepsHeldAlone(db: Db, e: Event, v: nat, hash: Key -> int)
    requires LocksExclude(db, hash) && Enabled(db, e, hash) && v in Apply(db, e, hash).active
    requires v in db.active ==> HeldAlone(db.log, db.active[v], hash)
    ensures HeldAlone(Apply(db, e, hash).log, Apply(db, e, hash).active[v], hash)
  {
    StepLogs(db, e, hash);
    var db' := Apply(db, e, hash);
    if v in db.active {
      if e.Success? || e.worker != v { OthersKept(db, e, v, hash); }
      assert forall i :: 0 <= i < |db.log| ==> db'.log[i] == db.log[i];
    }
  }

  lemma StepKeepsCleared(db: Db, e: Event, v: nat, hash: Key -> int)
    requires LocksExclude(db, hash) && Enabled(db, e, hash) && v in Apply(db, e, hash).active
    requires v in db.active ==> ClearedMeanwhile(db, db.active[v])
    ensures ClearedMeanwhile(Apply(db, e, hash), Apply(db, e, hash).active[v])
  {
    if v in db.active {
      if e.Success? || e.worker != v {
        OthersKept(db, e, v, hash);
        RowsElsewhere(db, e, v, hash);
      } else {
        OwnCleared(db, e, v, hash);
      }
    }
  }

  /** A step that is not the holder's own writes no row under the lock and logs only successes. */
  lemma RowsElsewhere(db: Db, e: Event, v: nat, hash: Key -> int)
    requires LocksExclude(db, hash) && Enabled(db, e, hash) && v in db.active && (e.Success? || e.worker != v)
    ensures var db', k := Apply(db, e, hash), db.active[v].request.key;
            && (k in db'.rows ==> k in db.rows)
            && |db.log| <= |db'.log| && db'.log[..|db.log|] == db.log
            && (forall i :: |db.log| <= i < |db'.log| && db'.log[i].key == k ==> k !in db'.rows)
  {
    StepLogs(db, e, hash);
  }

  lemma OwnCleared(db: Db, e: Event, v: nat, hash: Key -> int)
    requires Enabled(db, e, hash) && !e.Success? && e.worker == v && v in db.active && v in Apply(db, e, hash).active
    requires ClearedMeanwhile(db, db.active[v])
    ensures ClearedMeanwhile(Apply(db, e, hash), Apply(db, e, hash).active[v])
  {
  }

  lemma RevivedElsewhere(db: Db, e: Event, v: nat, hash: Key -> int)
    requires LocksExclude(db, hash) && Enabled(db, e, hash) && v in db.active && (e.Success? || e.worker != v)
    ensures db.active[v].request.key in Apply(db, e, hash).revived ==> db.active[v].request.key in db.revived
  {
  }

  lemma StepKeepsSelects(db: Db, e: Event, v: nat, hash: Key -> int)
    requires LocksExclude(db, hash) && Enabled(db, e, hash) && v in Apply(db, e, hash).active
    requires v in db.active ==> SelectOk(db, db.active[v]) && RowsOk(db)
    ensures SelectOk(Apply(db, e, hash), Apply(db, e, hash).active[v])
  {
    if v in db.active {
      if e.Success? || e.worker != v {
        OthersKept(db, e, v, hash);
        RevivedElsewhere(db, e, v, hash);
      } else {
        OwnSelect(db, e, v, hash);
      }
    }
  }

  lemma OwnSelect(db: Db, e: Event, v: nat, hash: Key -> int)
    requires Enabled(db, e, hash) && !e.Success? && e.worker == v && v in db.active && v in Apply(db, e, hash).active
    requires SelectOk(db, db.active[v]) && RowsOk(db)
    ensures SelectOk(Apply(db, e, hash), Apply(db, e, hash).active[v])
  {
  }

  lemma StepKeeps(db: Db, e: Event, hash: Key -> int)
    requires Kept(db, hash) && Enabled(db, e, hash)
    ensures Kept(Apply(db, e, hash), hash)
  {
    StepKeepsTxs(db, e, hash);
    StepKeepsTimed(db, e, hash);
    StepKeepsRows(db, e, hash);
    forall v | v in Apply(db, e, hash).active
      ensures var db' := Apply(db, e, hash);
              && HeldAlone(db'.log, db'.active[v], hash) && ClearedMeanwhile(db', db'.active[v])
              && SelectOk(db', db'.active[v])
    {
      StepKeepsHeldAlone(db, e, v, hash);
      StepKeepsCleared(db, e, v, hash);
      StepKeepsSelects(db, e, v, hash);
    }
  }

  // ---------- no order explains an answer from a revived row ----------

  ghost predicate AllSince(b: seq<Entry>, since: nat) { forall j :: 0 <= j < |b| ==> since <= b[j].at }

  /** An order that explains the answers has lost every revived row, and may have lost others. */
  ghost predicate RowBehind(start: Rows, db: Db, order: seq<Entry>, k: Key) {
    After(start, order, k).None? || (After(start, order, k) == RowOf(db.rows, k) && k !in db.revived)
  }

  /** Wherever a failure that saw a revived row could be put in, it would find no row. */
  ghost predicate FindsNoRow(start: Rows, order: seq<Entry>, tx: Tx) {
    tx.misled && tx.request.op.Fail? && !tx.phase.Locked? ==>
      forall m :: 0 <= m <= |order| && AllSince(order[m..], tx.since) ==> After(start, order[..m], tx.request.key).None?
  }

  ghost predicate Behind(start: Rows, db: Db, order: seq<Entry>) {
    && !db.misled
    && (forall k :: RowBehind(start, db, order, k))
    && (forall w :: w in db.active ==> FindsNoRow(start, order, db.active[w]))
  }

  ghost predicate AllBehind(start: Rows, db: Db) {
    forall order :: IsOrder(db.log, order) && AnswersSequentially(start, order) ==> Behind(start, db, order)
  }

  /** Since `x` began, only successes have taken effect on its circuit. */
  ghost predicate AloneSince(log: seq<Entry>, x: Entry) {
    forall i :: x.since <= i < |log| && log[i].key == x.key ==> log[i].op.Succeed? && log[i].seen.Nothing?
  }

  lemma LoggedAtItsPlace(log: seq<Entry>, e: Entry)
    requires Timed(log) && e in log
    ensures e.at < |log| && log[e.at] == e
  {
    var i :| 0 <= i < |log| && log[i] == e;
  }

  lemma LaterAreSuccesses(log: seq<Entry>, x: Entry, b: seq<Entry>)
    requires Timed(log) && AloneSince(log, x) && AllSince(b, x.since) && forall j :: 0 <= j < |b| ==> b[j] in log
    ensures OnlySuccesses(b, x.key)
    ensures Touches(b, x.key) ==> exists i :: x.since <= i < |log| && log[i].key == x.key
  {
    forall j | 0 <= j < |b| && b[j].key == x.key
      ensures b[j].op.Succeed? && b[j].seen.Nothing? && x.since <= b[j].at < |log| && log[b[j].at] == b[j]
    {
      LoggedAtItsPlace(log, b[j]);
    }
  }

  /** What an order of the longer log says of the shorter one. */
  lemma WithoutLast(start: Rows, log: seq<Entry>, x: Entry, order: seq<Entry>) returns (a: seq<Entry>, b: seq<Entry>)
    requires Timed(log) && AloneSince(log, x) && IsOrder(log + [x], order) && AnswersSequentially(start, order)
    ensures order == a + [x] + b && AllSince(b, x.since) && OnlySuccesses(b, x.key)
    ensures forall j :: 0 <= j < |b| ==> b[j] in log
    ensures Touches(b, x.key) ==> exists i :: x.since <= i < |log| && log[i].key == x.key
    ensures IsOrder(log, a + b) && AnswersSequentially(start, a + b) && AnswersTo(Sequential(start, a), x)
    ensures forall k :: k != x.key ==> After(start, order, k) == After(start, a + b, k)
    ensures After(start, a + b, x.key) == if Touches(b, x.key) then None else After(start, a, x.key)
    ensures After(start, order, x.key)
         == if Touches(b, x.key) then None else PostgresStep(After(start, a, x.key), x.op).0
  {
    a, b := TakeOut(log, x, order);
    LaterAreSuccesses(log, x, b);
    InsertedAnswers(start, a, x, b);
    TailOfSuccesses(start, a, b, x.key);
    TailOfSuccesses(start, a + [x], b, x.key);
    OneMoreEntry(start, a, x);
    EntryTouches(Sequential(start, a), x, x.key);
  }

  lemma FindsNoRowStill(start: Rows, a: seq<Entry>, x: Entry, b: seq<Entry>, tx: Tx)
    requires FindsNoRow(start, a + b, tx) && OnlySuccesses(b, x.key) && x.key != tx.request.key
    ensures FindsNoRow(start, a + [x] + b, tx)
  {
    var order, k := a + [x] + b, tx.request.key;
    if tx.misled && tx.request.op.Fail? && !tx.phase.Locked? {
      forall m | 0 <= m <= |order| && AllSince(order[m..], tx.since) ensures After(start, order[..m], k).None? {
        if m <= |a| {
          assert order[..m] == (a + b)[..m];
          assert AllSince((a + b)[m..], tx.since) by {
            forall j | 0 <= j < |(a + b)[m..]| ensures tx.since <= (a + b)[m..][j].at {
              var j' := if m + j < |a| then j else j + 1;
              assert order[m..][j'] == (a + b)[m..][j];
            }
          }
        } else {
          var front := b[..m - |a| - 1];
          assert order[..m] == a + [x] + front && (a + b)[..m - 1] == a + front && order[m..] == (a + b)[m - 1..];
          assert OnlySuccesses(front, x.key);
          InsertedAnswers(start, a, x, front);
        }
      }
    }
  }

  lemma FindsNoRowAfterSuccess(start: Rows, order: seq<Entry>, x: Entry, tx: Tx)
    requires FindsNoRow(start, order, tx) && x.key == tx.request.key && x.op.Succeed?
    ensures FindsNoRow(start, order + [x], tx)
  {
    var order', k := order + [x], tx.request.key;
    OneMoreEntry(start, order, x);
    if tx.misled && tx.request.op.Fail? && !tx.phase.Locked? {
      forall m | 0 <= m <= |order'| && AllSince(order'[m..], tx.since) ensures After(start, order'[..m], k).None? {
        if m <= |order| {
          assert order'[..m] == order[..m];
          forall j | 0 <= j < |order[m..]| ensures tx.since <= order[m..][j].at { assert order'[m..][j] == order[m..][j]; }
        } else {
          assert order'[..m] == order';
        }
      }
    }
  }

  /** The new operation `x` changes nothing on other circuits. */
  ghost predicate ChangesOnly(db: Db, db': Db, x: Entry) {
    && db'.log == db.log + [x]
    && (forall k :: k != x.key ==> RowOf(db'.rows, k) == RowOf(db.rows, k) && (k in db'.revived <==> k in db.revived))
    && (forall w :: w in db'.active && db'.active[w].request.op.Fail? ==>
          w in db.active && db'.active[w] == db.active[w].(overtaken := db'.active[w].overtaken)
          && (db'.active[w].overtaken ==>
                db.active[w].overtaken || (x.key == db.active[w].request.key && CanBeOvertaken(db.active[w])))
          && (db.active[w].request.key != x.key || (x.op.Succeed? && x.since == |db.log|)))
  }

  lemma OthersBehind(start: Rows, db: Db, db': Db, x: Entry, a: seq<Entry>, b: seq<Entry>)
    requires Timed(db.log) && Behind(start, db, a + b) && ChangesOnly(db, db', x)
    requires OnlySuccesses(b, x.key) && AllSince(b, x.since) && forall j :: 0 <= j < |b| ==> b[j] in db.log
    requires forall k :: k != x.key ==> After(start, a + [x] + b, k) == After(start, a + b, k)
    ensures forall k :: k != x.key ==> RowBehind(start, db', a + [x] + b, k)
    ensures forall w :: w in db'.active ==> FindsNoRow(start, a + [x] + b, db'.active[w])
  {
    forall k | k != x.key ensures RowBehind(start, db', a + [x] + b, k) {
      assert RowBehind(start, db, a + b, k);
    }
    forall w | w in db'.active ensures FindsNoRow(start, a + [x] + b, db'.active[w]) {
      if db'.active[w].request.op.Fail? {
        var tx := db.active[w];
        assert FindsNoRow(start, a + b, tx);
        if tx.request.key != x.key {
          FindsNoRowStill(start, a, x, b, tx);
        } else {
          if b != [] {
            LoggedAtItsPlace(db.log, b[0]);
            assert false;
          }
          assert a + b == a && a + [x] + b == a + [x];
          FindsNoRowAfterSuccess(start, a, x, tx);
        }
      }
    }
  }

  /** Taking the last operation out of an order that explains the answers. */
  lemma Shortened(start: Rows, db: Db, db': Db, x: Entry, order: seq<Entry>) returns (a: seq<Entry>, b: seq<Entry>)
    requires Timed(db.log) && AloneSince(db.log, x) && AllBehind(start, db) && ChangesOnly(db, db', x)
    requires IsOrder(db'.log, order) && AnswersSequentially(start, order)
    ensures AllSince(b, x.since) && Behind(start, db, a + b) && AnswersTo(Sequential(start, a), x)
    ensures Touches(b, x.key) ==> exists i :: x.since <= i < |db.log| && db.log[i].key == x.key
    ensures forall k :: k != x.key ==> RowBehind(start, db', order, k)
    ensures forall w :: w in db'.active ==> FindsNoRow(start, order, db'.active[w])
    ensures After(start, a + b, x.key) == if Touches(b, x.key) then None else After(start, a, x.key)
    ensures After(start, order, x.key)
         == if Touches(b, x.key) then None else PostgresStep(After(start, a, x.key), x.op).0
  {
    a, b := WithoutLast(start, db.log, x, order);
    OthersBehind(start, db, db', x, a, b);
  }

  function SuccessEntry(db: Db, k: Key): Entry { Entry(k, Succeed, Nothing, None, |db.log|, |db.log|) }

  lemma SuccessChanges(db: Db, k: Key, hash: Key -> int)
    requires Enabled(db, Success(k), hash)
    ensures var db' := Apply(db, Success(k), hash);
            ChangesOnly(db, db', SuccessEntry(db, k)) && k !in db'.rows && k !in db'.revived && db'.misled == db.misled
  {
  }

  lemma SuccessBehind(start: Rows, db: Db, k: Key, hash: Key -> int, order: seq<Entry>)
    requires Kept(db, hash) && AllBehind(start, db) && Enabled(db, Success(k), hash)
    requires IsOrder(Apply(db, Success(k), hash).log, order) && AnswersSequentially(start, order)
    ensures Behind(start, Apply(db, Success(k), hash), order)
  {
    SuccessChanges(db, k, hash);
    var a, b := Shortened(start, db, Apply(db, Success(k), hash), SuccessEntry(db, k), order);
  }

  /** The operation that a transaction logs when it takes effect. */
  function Effect(db: Db, tx: Tx, seen: Seen): Entry {
    Entry(tx.request.key, tx.request.op, seen, Some(tx.ticket), tx.since, |db.log|)
  }

  lemma EffectIsAlone(db: Db, tx: Tx, seen: Seen, hash: Key -> int)
    requires Timed(db.log) && HeldAlone(db.log, tx, hash) && !IsLogged(tx)
    ensures AloneSince(db.log, Effect(db, tx, seen))
  {
  }

  lemma SelectChanges(db: Db, w: nat, hash: Key -> int)
    requires LocksExclude(db, hash) && TxsOk(db) && Enabled(db, Select(w), hash)
    requires !HasWrite(db.active[w].request.op, RowOf(db.rows, db.active[w].request.key))
    ensures var tx, db' := db.active[w], Apply(db, Select(w), hash);
            && tx.request.op.Read?
            && ChangesOnly(db, db', Effect(db, tx, PostgresStep(RowOf(db.rows, tx.request.key), tx.request.op).1))
            && db'.rows == db.rows && db'.revived == db.revived
            && db'.misled == (db.misled || tx.request.key in db.revived)
  {
    assert TxOk(db.rows, db.active[w]);
  }

  /** An order that explains the answer of a plain read has not lost the row it saw. */
  lemma ReadSawIt(y: PgRow, row: PgRow, op: Op)
    requires op.Read? && !HasWrite(op, row) && PostgresStep(y, op).1 == PostgresStep(row, op).1
    requires y.None? || y == row
    ensures row.Some? && row.value.failures >= 2 ==> y == row
    ensures PostgresStep(y, op).0 == y
  {
  }

  lemma ReadRowBehind(start: Rows, db: Db, db': Db, a: seq<Entry>, b: seq<Entry>, order: seq<Entry>, k: Key, op: Op)
    requires op.Read? && !HasWrite(op, RowOf(db.rows, k)) && RowsOk(db) && RowBehind(start, db, a + b, k)
    requires db'.rows == db.rows && db'.revived == db.revived
    requires Touches(b, k) ==> k !in db.rows
    requires After(start, a + b, k) == if Touches(b, k) then None else After(start, a, k)
    requires After(start, order, k) == if Touches(b, k) then None else PostgresStep(After(start, a, k), op).0
    requires PostgresStep(After(start, a, k), op).1 == PostgresStep(RowOf(db.rows, k), op).1
    ensures RowBehind(start, db', order, k) && k !in db.revived
  {
    if !Touches(b, k) { ReadSawIt(After(start, a, k), RowOf(db.rows, k), op); }
  }

  lemma SelectBehind(start: Rows, db: Db, w: nat, hash: Key -> int, order: seq<Entry>)
    requires Kept(db, hash) && AllBehind(start, db) && Enabled(db, Select(w), hash)
    requires !HasWrite(db.active[w].request.op, RowOf(db.rows, db.active[w].request.key))
    requires IsOrder(Apply(db, Select(w), hash).log, order) && AnswersSequentially(start, order)
    ensures Behind(start, Apply(db, Select(w), hash), order)
  {
    var db', tx := Apply(db, Select(w), hash), db.active[w];
    var k, op, row := tx.request.key, tx.request.op, RowOf(db.rows, tx.request.key);
    var x := Effect(db, tx, PostgresStep(row, op).1);
    assert HeldAlone(db.log, tx, hash) && ClearedMeanwhile(db, tx);
    SelectChanges(db, w, hash);
    EffectIsAlone(db, tx, x.seen, hash);
    var a, b := Shortened(start, db, db', x, order);
    ReadRowBehind(start, db, db', a, b, order, k, op);
  }

  lemma CommitChanges(db: Db, w: nat, hash: Key -> int)
    requires LocksExclude(db, hash) && Enabled(db, Commit(w), hash) && db.active[w].phase.Written?
    requires TxOk(db.rows, db.active[w])
    ensures var tx, db', k := db.active[w], Apply(db, Commit(w), hash), db.active[w].request.key;
            var c := if tx.request.op.Fail? then NewCircuit(tx.request.op, tx.phase.row) else CLOSED;
            && ChangesOnly(db, db', Effect(db, tx, State(c)))
            && RowOf(db'.rows, k) == (if tx.request.op.Fail? then Some(c) else None)
            && db'.misled == (db.misled || (tx.request.op.Fail? && tx.misled))
            && (k in db'.revived <==> tx.request.op.Fail? && tx.overtaken)
  {
  }

  /** What a failure wrote, and an order in which it answers the same: `y` is the row it finds there. */
  lemma FailureSawIt(rows: Rows, tx: Tx, y: PgRow)
    requires TxOk(rows, tx) && tx.request.op.Fail? && tx.phase.Written?
    requires PostgresStep(y, tx.request.op).1 == State(NewCircuit(tx.request.op, tx.phase.row))
    ensures SelectedCount(y) == SelectedCount(tx.phase.row)
    ensures PostgresStep(y, tx.request.op).0 == Some(NewCircuit(tx.request.op, tx.phase.row))
    ensures tx.overtaken ==> y.Some? && RowOf(rows, tx.request.key).None?
  {
  }

  lemma LapsedRowGoes(rows: Rows, tx: Tx, y: PgRow)
    requires TxOk(rows, tx) && tx.request.op.Read? && tx.phase.Written?
    requires y.None? || y == RowOf(rows, tx.request.key)
    ensures PostgresStep(y, tx.request.op).0.None?
  {
  }

  lemma CommitBehind(start: Rows, db: Db, w: nat, hash: Key -> int, order: seq<Entry>)
    requires Kept(db, hash) && AllBehind(start, db) && Enabled(db, Commit(w), hash) && db.active[w].phase.Written?
    requires IsOrder(Apply(db, Commit(w), hash).log, order) && AnswersSequentially(start, order)
    ensures Behind(start, Apply(db, Commit(w), hash), order)
  {
    var db', tx := Apply(db, Commit(w), hash), db.active[w];
    var k, op := tx.request.key, tx.request.op;
    var x := Effect(db, tx, State(if op.Fail? then NewCircuit(op, tx.phase.row) else CLOSED));
    assert TxOk(db.rows, tx) && HeldAlone(db.log, tx, hash) && SelectOk(db, tx);
    CommitChanges(db, w, hash);
    EffectIsAlone(db, tx, x.seen, hash);
    var a, b := Shortened(start, db, db', x, order);
    assert RowBehind(start, db, a + b, k) && FindsNoRow(start, a + b, tx);
    CommitRowBehind(start, db, db', tx, a, b, order);
  }

  lemma CommitRowBehind(start: Rows, db: Db, db': Db, tx: Tx, a: seq<Entry>, b: seq<Entry>, order: seq<Entry>)
    requires TxOk(db.rows, tx) && SelectOk(db, tx) && tx.phase.Written?
    requires RowBehind(start, db, a + b, tx.request.key) && FindsNoRow(start, a + b, tx) && AllSince(b, tx.since)
    requires var c := if tx.request.op.Fail? then NewCircuit(tx.request.op, tx.phase.row) else CLOSED;
             && RowOf(db'.rows, tx.request.key) == (if tx.request.op.Fail? then Some(c) else None)
             && PostgresStep(After(start, a, tx.request.key), tx.request.op).1 == State(c)
    requires tx.request.key in db'.revived <==> tx.request.op.Fail? && tx.overtaken
    requires var k := tx.request.key;
             && After(start, a + b, k) == (if Touches(b, k) then None else After(start, a, k))
             && After(start, order, k) == if Touches(b, k) then None else PostgresStep(After(start, a, k), tx.request.op).0
    ensures RowBehind(start, db', order, tx.request.key) && (tx.request.op.Fail? ==> !tx.misled)
  {
    var k, y := tx.request.key, After(start, a, tx.request.key);
    assert (a + b)[..|a|] == a && (a + b)[|a|..] == b;
    if tx.request.op.Fail? {
      FailureSawIt(db.rows, tx, y);
    } else if !Touches(b, k) {
      LapsedRowGoes(db.rows, tx, y);
    }
  }

  /** Where a row stands, no success has come under the lock: the row a failure sees is the last one. */
  lemma NothingUnderTheLock(start: Rows, db: Db, tx: Tx, order: seq<Entry>, m: nat)
    requires Timed(db.log) && IsOrder(db.log, order) && m <= |order| && AllSince(order[m..], tx.since)
    requires !IsLogged(tx) && ClearedMeanwhile(db, tx) && tx.request.key in db.rows
    ensures After(start, order[..m], tx.request.key) == After(start, order, tx.request.key)
  {
    var k, a, b := tx.request.key, order[..m], order[m..];
    assert a + b == order;
    SameMembers(db.log, a, b);
    forall j | 0 <= j < |b| ensures b[j].key != k {
      LoggedAtItsPlace(db.log, b[j]);
    }
    TailOfSuccesses(start, a, b, k);
  }

  lemma SelectedRevived(start: Rows, db: Db, w: nat, hash: Key -> int, order: seq<Entry>)
    requires Kept(db, hash) && Enabled(db, Select(w), hash) && IsOrder(db.log, order) && Behind(start, db, order)
    ensures FindsNoRow(start, order, Apply(db, Select(w), hash).active[w])
  {
    var tx, k := db.active[w], db.active[w].request.key;
    assert HeldAlone(db.log, tx, hash) && ClearedMeanwhile(db, tx) && RowBehind(start, db, order, k);
    if k in db.revived {
      forall m | 0 <= m <= |order| && AllSince(order[m..], tx.since) ensures After(start, order[..m], k).None? {
        NothingUnderTheLock(start, db, tx, order, m);
      }
    }
  }

  /** A step that lets nothing take effect. */
  lemma QuietBehind(start: Rows, db: Db, e: Event, hash: Key -> int, order: seq<Entry>)
    requires Kept(db, hash) && Enabled(db, e, hash) && Apply(db, e, hash).log == db.log
    requires IsOrder(db.log, order) && Behind(start, db, order)
    ensures Behind(start, Apply(db, e, hash), order)
  {
    var db' := Apply(db, e, hash);
    forall k ensures RowBehind(start, db', order, k) { assert RowBehind(start, db, order, k); }
    forall w | w in db'.active ensures FindsNoRow(start, order, db'.active[w]) {
      if w in db.active && (e.Success? || e.worker != w) {
        assert FindsNoRow(start, order, db.active[w]);
        OthersKept(db, e, w, hash);
      } else if e.Select? {
        SelectedRevived(start, db, w, hash, order);
      } else if w in db.active {
        assert FindsNoRow(start, order, db.active[w]);
      }
    }
  }

  lemma StepBehind(start: Rows, db: Db, e: Event, hash: Key -> int)
    requires Kept(db, hash) && AllBehind(start, db) && Enabled(db, e, hash)
    ensures AllBehind(start, Apply(db, e, hash))
  {
    var db' := Apply(db, e, hash);
    forall order | IsOrder(db'.log, order) && AnswersSequentially(start, order) ensures Behind(start, db', order) {
      if e.Success? {
        SuccessBehind(start, db, e.key, hash, order);
      } else if e.Commit? && db.active[e.worker].phase.Written? {
        CommitBehind(start, db, e.worker, hash, order);
      } else if e.Select? && !HasWrite(db.active[e.worker].request.op, RowOf(db.rows, db.active[e.worker].request.key)) {
        SelectBehind(start, db, e.worker, hash, order);
      } else {
        QuietBehind(start, db, e, hash, order);
      }
    }
  }

  // ---------- an order that explains, while no answer came from a revived row ----------

  ghost predicate RowKept(start: Rows, db: Db, order: seq<Entry>, k: Key) {
    After(start, order, k) == if k in db.revived then None else RowOf(db.rows, k)
  }

  /** An operation of its circuit, a success, before which the transaction finds the row it selected. */
  ghost predicate IsPlace(start: Rows, order: seq<Entry>, tx: Tx, m: nat)
    requires !tx.phase.Locked?
  {
    && m < |order| && order[m].key == tx.request.key
    && AllSince(order[m..], tx.since) && After(start, order[..m], tx.request.key) == tx.phase.row
  }

  ghost predicate HasPlace(start: Rows, order: seq<Entry>, tx: Tx) {
    tx.request.op.Fail? && !tx.phase.Locked? && tx.overtaken && !tx.misled ==>
      exists m :: 0 <= m < |order| && IsPlace(start, order, tx, m)
  }

  ghost predicate Fits(start: Rows, db: Db, order: seq<Entry>) {
    && IsOrder(db.log, order) && AnswersSequentially(start, order)
    && (forall k :: RowKept(start, db, order, k))
    && (forall w :: w in db.active ==> HasPlace(start, order, db.active[w]))
  }

  ghost predicate SomeFits(start: Rows, db: Db) { db.misled || exists order :: Fits(start, db, order) }

  lemma PlaceStays(start: Rows, a: seq<Entry>, x: Entry, b: seq<Entry>, tx: Tx)
    requires HasPlace(start, a + b, tx) && tx.since <= x.at && OnlySuccesses(b, x.key)
    requires b == [] || x.key != tx.request.key
    ensures HasPlace(start, a + [x] + b, tx)
  {
    var order := a + [x] + b;
    if tx.request.op.Fail? && !tx.phase.Locked? && tx.overtaken && !tx.misled {
      var m :| 0 <= m < |a + b| && IsPlace(start, a + b, tx, m);
      if m < |a| {
        assert order[..m] == (a + b)[..m];
        forall j | 0 <= j < |order[m..]| ensures tx.since <= order[m..][j].at {
          if m + j < |a| { assert order[m..][j] == (a + b)[m..][j]; }
          if m + j > |a| { assert order[m..][j] == (a + b)[m..][j - 1]; }
        }
        assert IsPlace(start, order, tx, m);
      } else {
        var front := b[..m - |a|];
        assert (a + b)[..m] == a + front && order[..m + 1] == a + [x] + front && order[m + 1..] == (a + b)[m..];
        InsertedAnswers(start, a, x, front);
        assert IsPlace(start, order, tx, m + 1);
      }
    }
  }

  lemma PutAtItsTime(log: seq<Entry>, a: seq<Entry>, x: Entry, b: seq<Entry>)
    requires Timed(log) && IsOrder(log, a + b) && AllSince(b, x.since) && x.at == |log|
    ensures IsOrder(log + [x], a + [x] + b)
  {
    forall j | 0 <= j < |a| ensures a[j].since <= x.at {
      SameMembers(log, [], a + b);
      assert [] + (a + b) == a + b && (a + b)[j] == a[j];
      LoggedAtItsPlace(log, a[j]);
    }
    PutIn(log, a, x, b);
  }

  /** The place of a failure that the success `x` overtakes. */
  lemma PlaceBeforeSuccess(start: Rows, db: Db, order: seq<Entry>, x: Entry, tx: Tx)
    requires TxOk(db.rows, tx) && SelectOk(db, tx) && RowKept(start, db, order, tx.request.key) && tx.since <= x.at
    requires x.key == tx.request.key && CanBeOvertaken(tx) && !tx.overtaken
    ensures HasPlace(start, order + [x], tx.(overtaken := true))
  {
    if !tx.misled {
      assert (order + [x])[..|order|] == order && (order + [x])[|order|..] == [x];
      assert IsPlace(start, order + [x], tx.(overtaken := true), |order|);
    }
  }

  lemma Extended(start: Rows, db: Db, db': Db, x: Entry, a: seq<Entry>, b: seq<Entry>, hash: Key -> int)
    requires Kept(db, hash) && Fits(start, db, a + b) && ChangesOnly(db, db', x) && x.at == |db.log|
    requires AllSince(b, x.since) && OnlySuccesses(b, x.key) && (x.op.Succeed? ==> b == [])
    requires AnswersTo(Sequential(start, a), x) && RowKept(start, db', a + [x] + b, x.key)
    ensures Fits(start, db', a + [x] + b)
  {
    PutAtItsTime(db.log, a, x, b);
    InsertedAnswers(start, a, x, b);
    forall k ensures RowKept(start, db', a + [x] + b, k) {
      assert RowKept(start, db, a + b, k);
    }
    forall w | w in db'.active ensures HasPlace(start, a + [x] + b, db'.active[w]) {
      if db'.active[w].request.op.Fail? { PlaceInLonger(start, db, db', x, a, b, w, hash); }
    }
  }

  lemma PlaceInLonger(start: Rows, db: Db, db': Db, x: Entry, a: seq<Entry>, b: seq<Entry>, w: nat, hash: Key -> int)
    requires Kept(db, hash) && Fits(start, db, a + b) && ChangesOnly(db, db', x) && x.at == |db.log|
    requires OnlySuccesses(b, x.key) && (x.op.Succeed? ==> b == [])
    requires w in db'.active && db'.active[w].request.op.Fail?
    ensures HasPlace(start, a + [x] + b, db'.active[w])
  {
    var tx := db.active[w];
    assert HasPlace(start, a + b, tx) && HeldAlone(db.log, tx, hash) && TxOk(db.rows, tx) && SelectOk(db, tx);
    if db'.active[w].overtaken != tx.overtaken {
      if db'.active[w].overtaken {
        assert b == [] && a + b == a && a + [x] + b == a + [x];
        assert RowKept(start, db, a + b, tx.request.key);
        PlaceBeforeSuccess(start, db, a, x, tx);
      }
    } else {
      PlaceStays(start, a, x, b, tx);
    }
  }

  lemma SuccessFits(start: Rows, db: Db, k: Key, hash: Key -> int, order: seq<Entry>)
    requires Kept(db, hash) && Enabled(db, Success(k), hash) && Fits(start, db, order)
    ensures SomeFits(start, Apply(db, Success(k), hash))
  {
    var x := SuccessEntry(db, k);
    SuccessChanges(db, k, hash);
    assert order + [] == order && order + [x] + [] == order + [x];
    OneMoreEntry(start, order, x);
    Extended(start, db, Apply(db, Success(k), hash), x, order, [], hash);
  }

  lemma SelectFits(start: Rows, db: Db, w: nat, hash: Key -> int, order: seq<Entry>)
    requires Kept(db, hash) && Enabled(db, Select(w), hash) && Fits(start, db, order)
    requires !HasWrite(db.active[w].request.op, RowOf(db.rows, db.active[w].request.key))
    ensures SomeFits(start, Apply(db, Select(w), hash))
  {
    var tx, k, op := db.active[w], db.active[w].request.key, db.active[w].request.op;
    var x := Effect(db, tx, PostgresStep(RowOf(db.rows, k), op).1);
    SelectChanges(db, w, hash);
    if k !in db.revived {
      assert RowKept(start, db, order, k);
      assert order + [] == order && order + [x] + [] == order + [x];
      OneMoreEntry(start, order, x);
      ReadSawIt(RowOf(db.rows, k), RowOf(db.rows, k), op);
      EntryTouches(Sequential(start, order), x, k);
      Extended(start, db, Apply(db, Select(w), hash), x, order, [], hash);
    }
  }

  /** A write that no success has overtaken takes its place at the end. */
  lemma CommitFits(start: Rows, db: Db, w: nat, hash: Key -> int, order: seq<Entry>)
    requires Kept(db, hash) && Enabled(db, Commit(w), hash) && db.active[w].phase.Written? && Fits(start, db, order)
    requires !(db.active[w].request.op.Fail? && db.active[w].misled) && !db.active[w].overtaken
    ensures SomeFits(start, Apply(db, Commit(w), hash))
  {
    var tx, k, op := db.active[w], db.active[w].request.key, db.active[w].request.op;
    var x := Effect(db, tx, State(if op.Fail? then NewCircuit(op, tx.phase.row) else CLOSED));
    assert TxOk(db.rows, tx) && SelectOk(db, tx) && RowKept(start, db, order, k);
    CommitChanges(db, w, hash);
    assert order + [] == order && order + [x] + [] == order + [x];
    OneMoreEntry(start, order, x);
    EntryTouches(Sequential(start, order), x, k);
    Extended(start, db, Apply(db, Commit(w), hash), x, order, [], hash);
  }

  /** What an overtaken failure finds when it is put back before the success that overtook it. */
  lemma PutBack(start: Rows, db: Db, tx: Tx, x: Entry, a: seq<Entry>, b: seq<Entry>, hash: Key -> int)
    requires Timed(db.log) && HeldAlone(db.log, tx, hash) && tx.phase.Written? && tx.request.op.Fail?
    requires x == Effect(db, tx, State(NewCircuit(tx.request.op, tx.phase.row)))
    requires IsOrder(db.log, a + b) && IsPlace(start, a + b, tx, |a|)
    ensures AllSince(b, tx.since) && OnlySuccesses(b, x.key) && AnswersTo(Sequential(start, a), x)
    ensures After(start, a + [x] + b, x.key).None?
  {
    assert (a + b)[..|a|] == a && (a + b)[|a|..] == b && (a + b)[|a|] == b[0];
    EffectIsAlone(db, tx, x.seen, hash);
    SameMembers(db.log, a, b);
    LaterAreSuccesses(db.log, x, b);
    TailOfSuccesses(start, a + [x], b, x.key);
  }

  lemma InsertedFits(start: Rows, db: Db, w: nat, hash: Key -> int, a: seq<Entry>, b: seq<Entry>)
    requires Kept(db, hash) && Enabled(db, Commit(w), hash) && db.active[w].phase.Written? && Fits(start, db, a + b)
    requires db.active[w].request.op.Fail? && db.active[w].overtaken && IsPlace(start, a + b, db.active[w], |a|)
    ensures SomeFits(start, Apply(db, Commit(w), hash))
  {
    var tx := db.active[w];
    var x := Effect(db, tx, State(NewCircuit(tx.request.op, tx.phase.row)));
    assert TxOk(db.rows, tx) && HeldAlone(db.log, tx, hash);
    CommitChanges(db, w, hash);
    PutBack(start, db, tx, x, a, b, hash);
    Extended(start, db, Apply(db, Commit(w), hash), x, a, b, hash);
  }

  /** An overtaken failure takes its place before the success that overtook it. */
  lemma OvertakenFits(start: Rows, db: Db, w: nat, hash: Key -> int, order: seq<Entry>)
    requires Kept(db, hash) && Enabled(db, Commit(w), hash) && db.active[w].phase.Written? && Fits(start, db, order)
    requires db.active[w].request.op.Fail? && !db.active[w].misled && db.active[w].overtaken
    ensures SomeFits(start, Apply(db, Commit(w), hash))
  {
    assert HasPlace(start, order, db.active[w]);
    var m :| 0 <= m < |order| && IsPlace(start, order, db.active[w], m);
    assert order[..m] + order[m..] == order;
    InsertedFits(start, db, w, hash, order[..m], order[m..]);
  }

  lemma PlaceKept(start: Rows, order: seq<Entry>, tx: Tx, tx': Tx)
    requires HasPlace(start, order, tx) && tx'.request == tx.request && tx'.since == tx.since
    requires tx'.overtaken ==> tx.overtaken
    requires tx'.overtaken && !tx'.phase.Locked? ==>
               !tx.phase.Locked? && tx'.misled == tx.misled && tx'.phase.row == tx.phase.row
    ensures HasPlace(start, order, tx')
  {
    if tx'.request.op.Fail? && !tx'.phase.Locked? && tx'.overtaken && !tx'.misled {
      var m :| 0 <= m < |order| && IsPlace(start, order, tx, m);
      assert IsPlace(start, order, tx', m);
    }
  }

  lemma QuietPlace(start: Rows, db: Db, e: Event, w: nat, hash: Key -> int, order: seq<Entry>)
    requires TxsOk(db) && Enabled(db, e, hash) && !e.Success? && w in Apply(db, e, hash).active
    requires w in db.active ==> HasPlace(start, order, db.active[w])
    ensures HasPlace(start, order, Apply(db, e, hash).active[w])
  {
    if w in db.active {
      assert TxOk(db.rows, db.active[w]);
      if e.worker != w { OthersKept(db, e, w, hash); }
      PlaceKept(start, order, db.active[w], Apply(db, e, hash).active[w]);
    }
  }

  lemma QuietFits(start: Rows, db: Db, e: Event, hash: Key -> int, order: seq<Entry>)
    requires TxsOk(db) && Enabled(db, e, hash) && Apply(db, e, hash).log == db.log && Fits(start, db, order)
    ensures SomeFits(start, Apply(db, e, hash))
  {
    var db' := Apply(db, e, hash);
    forall k ensures RowKept(start, db', order, k) { assert RowKept(start, db, order, k); }
    forall w | w in db'.active ensures HasPlace(start, order, db'.active[w]) {
      QuietPlace(start, db, e, w, hash, order);
    }
    assert Fits(start, db', order);
  }

  lemma StepFits(start: Rows, db: Db, e: Event, hash: Key -> int)
    requires Kept(db, hash) && SomeFits(start, db) && Enabled(db, e, hash)
    ensures SomeFits(start, Apply(db, e, hash))
  {
    if !db.misled {
      var order :| Fits(start, db, order);
      if e.Success? {
        SuccessFits(start, db, e.key, hash, order);
      } else if e.Commit? && db.active[e.worker].phase.Written? {
        var tx := db.active[e.worker];
        assert TxOk(db.rows, tx);
        if tx.request.op.Fail? && tx.misled {
        } else if tx.overtaken {
          OvertakenFits(start, db, e.worker, hash, order);
        } else {
          CommitFits(start, db, e.worker, hash, order);
        }
      } else if e.Select? && !HasWrite(db.active[e.worker].request.op, RowOf(db.rows, db.active[e.worker].request.key)) {
        SelectFits(start, db, e.worker, hash, order);
      } else {
        QuietFits(start, db, e, hash, order);
      }
    }
  }

  // ---------- the theorems ----------

  lemma {:induction false} RunFits(start: Rows, db: Db, events: seq<Event>, hash: Key -> int)
    requires Kept(db, hash) && AllBehind(start, db) && SomeFits(start, db) && Legal(db, events, hash)
    ensures Kept(Run(db, events, hash), hash) && AllBehind(start, Run(db, events, hash)) && SomeFits(start, Run(db, events, hash))
    decreases |events|
  {
    if events != [] {
      StepKeeps(db, events[0], hash);
      StepBehind(start, db, events[0], hash);
      StepFits(start, db, events[0], hash);
      RunFits(start, Apply(db, events[0], hash), events[1..], hash);
    }
  }

  lemma InitFits(start: Rows, hash: Key -> int)
    requires Counts(start)
    ensures Kept(Init(start), hash) && AllBehind(start, Init(start)) && SomeFits(start, Init(start))
  {
    assert Fits(start, Init(start), []);
  }

  /** Under every schedule and every lock hash: some order in real time explains all answers and the
      final rows exactly when nothing was answered from a revived row and none is left. */
  lemma LinearizableExactlyWhen(start: Rows, events: seq<Event>, hash: Key -> int)
    requires Counts(start) && Legal(Init(start), events, hash)
    ensures var db := Run(Init(start), events, hash);
            (exists order :: Linearizes(start, db, order)) <==> !db.misled && db.revived == {}
  {
    var db := Run(Init(start), events, hash);
    InitFits(start, hash);
    RunFits(start, Init(start), events, hash);
    if order :| Linearizes(start, db, order) {
      forall k ensures k !in db.revived { assert RowBehind(start, db, order, k); }
    }
    if !db.misled && db.revived == {} {
      var order :| Fits(start, db, order);
      forall k ensures RowOf(db.rows, k) == RowOf(Sequential(start, order), k) { assert RowKept(start, db, order, k); }
      SameRows(db.rows, Sequential(start, order));
      assert Linearizes(start, db, order);
    }
  }

  lemma SameRows(x: Rows, y: Rows)
    requires forall k :: RowOf(x, k) == RowOf(y, k)
    ensures x == y
  {
    forall k ensures k in x <==> k in y { assert RowOf(x, k) == RowOf(y, k); }
    forall k | k in x ensures x[k] == y[k] { assert RowOf(x, k) == RowOf(y, k); }
  }

  // ---------- the order of locks ----------

  /** Under one lock an operation begins after every earlier one has taken effect. */
  ghost predicate OneAtATime(log: seq<Entry>, hash: Key -> int) {
    forall i, j :: 0 <= i < j < |log| && log[i].ticket.Some? && log[j].ticket.Some? && hash(log[i].key) == hash(log[j].key) ==>
      i < log[j].since
  }

  lemma StepIsAlone(db: Db, e: Event, hash: Key -> int)
    requires TxsTimed(db, hash) && OneAtATime(db.log, hash) && Enabled(db, e, hash)
    ensures OneAtATime(Apply(db, e, hash).log, hash)
  {
    StepLogs(db, e, hash);
    var log' := Apply(db, e, hash).log;
    assert forall i :: 0 <= i < |db.log| ==> log'[i] == log'[..|db.log|][i];
    if log' != db.log && log'[|db.log|].ticket.Some? {
      assert HeldAlone(db.log, db.active[e.worker], hash);
    }
  }

  lemma {:induction false} RunIsAlone(db: Db, events: seq<Event>, hash: Key -> int)
    requires Kept(db, hash) && OneAtATime(db.log, hash) && Legal(db, events, hash)
    ensures Timed(Run(db, events, hash).log) && OneAtATime(Run(db, events, hash).log, hash)
    decreases |events|
  {
    if events != [] {
      StepKeeps(db, events[0], hash);
      StepIsAlone(db, events[0], hash);
      RunIsAlone(Apply(db, events[0], hash), events[1..], hash);
    }
  }

  lemma OrderOfLocks(log: seq<Entry>, order: seq<Entry>, hash: Key -> int)
    requires Timed(log) && OneAtATime(log, hash) && InLockOrder(log, hash) && IsOrder(log, order)
    ensures InLockOrder(order, hash)
  {
    RearrangedDistinct(order, log);
    RearrangedElements(order, log);
    forall i, j | 0 <= i < j < |order| && order[i].ticket.Some? && order[j].ticket.Some? && hash(order[i].key) == hash(order[j].key)
      ensures order[i].ticket.value < order[j].ticket.value
    {
      LoggedAtItsPlace(log, order[i]);
      LoggedAtItsPlace(log, order[j]);
      assert order[i].since <= order[j].at;
    }
  }

  /** Whatever order in real time one tries, operations that share a lock stand in it as they locked. */
  lemma EveryOrderKeepsLocks(start: Rows, events: seq<Event>, hash: Key -> int, order: seq<Entry>)
    requires Counts(start) && Legal(Init(start), events, hash)
    requires IsOrder(Run(Init(start), events, hash).log, order)
    ensures InLockOrder(order, hash)
  {
    InitFits(start, hash);
    RunIsAlone(Init(start), events, hash);
    EveryScheduleIsSequentialExactlyWhen(start, events, hash);
    OrderOfLocks(Run(Init(start), events, hash).log, order, hash);
  }

  // ---------- lost, and yet explained ----------

  /** A schedule that loses nothing is explained by the order in which its operations took effect. */
  lemma UnlostIsExplained(start: Rows, events: seq<Event>, hash: Key -> int)
    requires Counts(start) && Legal(Init(start), events, hash) && !Run(Init(start), events, hash).lost
    ensures var db := Run(Init(start), events, hash);
            Linearizes(start, db, db.log) && !db.misled && db.revived == {}
  {
    var db := Run(Init(start), events, hash);
    InitFits(start, hash);
    RunIsAlone(Init(start), events, hash);
    EveryScheduleIsSequentialExactlyWhen(start, events, hash);
    assert Linearizes(start, db, db.log);
    LinearizableExactlyWhen(start, events, hash);
  }

  /** The failure of `OvertakenFailureIsLost` leaves its row: no order in real time explains that. */
  lemma LeftRowHasNoOrder(start: Rows, k: Key, fail: Op, hash: Key -> int)
    requires Counts(start) && fail.Fail? && k in start && start[k].failures != 0
    ensures var events := OvertakenSchedule(k, fail);
            Legal(Init(start), events, hash) && !exists order :: Linearizes(start, Run(Init(start), events, hash), order)
  {
    OvertakenFailureIsLost(start, k, fail, hash);
    LinearizableExactlyWhen(start, OvertakenSchedule(k, fail), hash);
  }

  /** When one more success deletes that row before anyone selects it, the failure is lost in the order
      of effect, and the order with the failure first explains everything. */
  lemma ClearedRowIsExplained(start: Rows, k: Key, fail: Op, hash: Key -> int)
    requires Counts(start) && fail.Fail? && k in start && start[k].failures != 0
    ensures var events := OvertakenSchedule(k, fail) + [Success(k)];
            && Legal(Init(start), events, hash) && Run(Init(start), events, hash).lost
            && exists order :: Linearizes(start, Run(Init(start), events, hash), order)
  {
    OvertakenFailureIsLost(start, k, fail, hash);
    var db := Run(Init(start), OvertakenSchedule(k, fail), hash);
    RunThen(Init(start), OvertakenSchedule(k, fail), Success(k), hash);
    LinearizableExactlyWhen(start, OvertakenSchedule(k, fail) + [Success(k)], hash);
  }

  lemma {:induction false} RunThen(db: Db, events: seq<Event>, e: Event, hash: Key -> int)
    requires Legal(db, events, hash) && Enabled(Run(db, events, hash), e, hash)
    ensures Legal(db, events + [e], hash) && Run(db, events + [e], hash) == Apply(Run(db, events, hash), e, hash)
    decreases |events|
  {
    if events == [] {
      assert events + [e] == [e];
      LastStep(db, e, hash);
    } else {
      RunThen(Apply(db, events[0], hash), events[1..], e, hash);
      assert events + [e] == [events[0]] + (events[1..] + [e]);
      OneStepMore(db, events[0], events[1..] + [e], hash);
    }
  }
}

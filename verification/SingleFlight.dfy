/** Concurrent cacheable calls on one cache key.

    Every such call holds the key's lock from before it looks at the cache until it has returned,
    so followers look again after the leader has finished.  The model lets any number of threads
    take their steps in any order while the monotonic clock advances; a step that reads the clock
    reads its present value. */
module SingleFlight {
  import opened Common

  type Value = string

  /** Where a thread is inside its call; `ttl` is the lifetime this caller asked for. */
  datatype Pc =
    | Waiting(ttl: real)
    | Checking(ttl: real)
    | Missed(ttl: real)
    | InFlight(ttl: real)

  datatype Item = Item(expiry: real, value: Value)
  datatype Fill = Fill(at: real, ttl: real, value: Value)

  /** A cache hit or a start of the provider function, with how many fills preceded it. */
  datatype Hit = Hit(at: real, value: Value, fills: nat)
  datatype Start = Start(at: real, fills: nat)

  datatype World = World(mono: real, cache: Option<Item>, holder: Option<nat>, pcs: map<nat, Pc>,
                         fills: seq<Fill>, hits: seq<Hit>, starts: seq<Start>)

  datatype Event =
    | Tick(to: real)
    | Arrive(thread: nat, ttl: real)
    | Acquire(thread: nat)
    | Check(thread: nat)
    | Refuse(thread: nat)
    | Begin(thread: nat)
    | Retry(thread: nat)
    | Raise(thread: nat)
    | Return(thread: nat, value: Value)

  ghost predicate Enabled(w: World, e: Event) {
    match e
    case Tick(to) => w.mono <= to
    case Arrive(t, ttl) => t !in w.pcs && ttl > 0.0
    case Acquire(t) => t in w.pcs && w.pcs[t].Waiting? && w.holder.None?
    case Check(t) => t in w.pcs && w.pcs[t].Checking?
    case Refuse(t) => t in w.pcs && w.pcs[t].Missed?
    case Begin(t) => t in w.pcs && w.pcs[t].Missed?
    case Retry(t) => t in w.pcs && w.pcs[t].InFlight?
    case Raise(t) => t in w.pcs && w.pcs[t].InFlight?
    case Return(t, _) => t in w.pcs && w.pcs[t].InFlight?
  }

  ghost function Leave(w: World, t: nat): World { w.(holder := None, pcs := w.pcs - {t}) }

  ghost function Move(w: World, t: nat, pc: Pc): World { w.(pcs := w.pcs[t := pc]) }

  ghost function Apply(w: World, e: Event): World
    requires Enabled(w, e)
  {
    match e
    case Tick(to) => w.(mono := to)
    case Arrive(t, ttl) => Move(w, t, Waiting(ttl))
    case Acquire(t) => Move(w, t, Checking(w.pcs[t].ttl)).(holder := Some(t))
    case Check(t) =>
      if w.cache.Some? && w.cache.value.expiry > w.mono
      then Leave(w, t).(hits := w.hits + [Hit(w.mono, w.cache.value.value, |w.fills|)])
      else Move(w, t, Missed(w.pcs[t].ttl)).(cache := None)
    case Refuse(t) => Leave(w, t)
    case Begin(t) => Move(w, t, InFlight(w.pcs[t].ttl)).(starts := w.starts + [Start(w.mono, |w.fills|)])
    case Retry(t) => Move(w, t, Missed(w.pcs[t].ttl))
    case Raise(t) => Leave(w, t)
    case Return(t, value) =>
      var ttl := w.pcs[t].ttl;
      Leave(w, t).(cache := Some(Item(w.mono + ttl, value)), fills := w.fills + [Fill(w.mono, ttl, value)])
  }

  ghost predicate Legal(w: World, events: seq<Event>)
    decreases |events|
  {
    events == [] || (Enabled(w, events[0]) && Legal(Apply(w, events[0]), events[1..]))
  }

  ghost function Run(w: World, events: seq<Event>): World
    requires Legal(w, events)
    decreases |events|
  {
    if events == [] then w else Run(Apply(w, events[0]), events[1..])
  }

  function Init(mono: real): World { World(mono, None, None, map[], [], [], []) }

  // ---------- what every reachable world satisfies ----------

  ghost predicate AtMostOneInFlight(w: World) {
    forall s, t :: s in w.pcs && t in w.pcs && w.pcs[s].InFlight? && w.pcs[t].InFlight? ==> s == t
  }

  function Expiry(f: Fill): real { f.at + f.ttl }

  /** A later fill never comes before an earlier one has expired. */
  ghost predicate FillsSpaced(w: World) {
    forall i, j :: 0 <= i < j < |w.fills| ==> Expiry(w.fills[i]) <= w.fills[j].at
  }

  /** Every hit returned the value of the last fill before it, strictly younger than its
      lifetime, and no other fill happened before the hit. */
  ghost predicate HitsFresh(w: World) {
    forall h :: 0 <= h < |w.hits| ==>
      var hit := w.hits[h];
      && 0 < hit.fills <= |w.fills|
      && hit.value == w.fills[hit.fills - 1].value
      && w.fills[hit.fills - 1].at <= hit.at < Expiry(w.fills[hit.fills - 1])
      && forall j :: hit.fills <= j < |w.fills| ==> hit.at <= w.fills[j].at
  }

  /** The provider function starts only when every earlier fill has expired. */
  ghost predicate StartsNeeded(w: World) {
    forall s, i :: 0 <= s < |w.starts| && 0 <= i < |w.fills| && i < w.starts[s].fills ==>
      Expiry(w.fills[i]) <= w.starts[s].at
  }

  ghost predicate Safe(w: World) {
    AtMostOneInFlight(w) && FillsSpaced(w) && HitsFresh(w) && StartsNeeded(w)
  }

  // ---------- the inductive invariant ----------

  ghost predicate LockHeld(w: World) {
    forall t :: t in w.pcs && !w.pcs[t].Waiting? ==> w.holder == Some(t)
  }

  ghost predicate AllExpired(w: World) {
    forall i :: 0 <= i < |w.fills| ==> Expiry(w.fills[i]) <= w.mono
  }

  /** The cache holds the last fill, or every fill has expired. */
  ghost predicate CacheIsLastFill(w: World) {
    match w.cache
    case None => AllExpired(w)
    case Some(item) =>
      && w.fills != []
      && var last := w.fills[|w.fills| - 1]; item == Item(Expiry(last), last.value)
  }

  ghost predicate MissMeansExpired(w: World) {
    forall t :: t in w.pcs && (w.pcs[t].Missed? || w.pcs[t].InFlight?) ==> w.cache.None?
  }

  ghost predicate ClockOk(w: World) {
    && (forall i :: 0 <= i < |w.fills| ==> w.fills[i].at <= w.mono && w.fills[i].ttl > 0.0)
    && (forall h :: 0 <= h < |w.hits| ==> w.hits[h].at <= w.mono)
    && (forall s :: 0 <= s < |w.starts| ==> w.starts[s].fills <= |w.fills|)
    && (forall t :: t in w.pcs ==> w.pcs[t].ttl > 0.0)
  }

  ghost predicate Inv(w: World) {
    && LockHeld(w) && CacheIsLastFill(w) && MissMeansExpired(w) && ClockOk(w)
    && FillsSpaced(w) && HitsFresh(w) && StartsNeeded(w)
  }

  lemma LastExpiresLast(w: World)
    requires FillsSpaced(w) && ClockOk(w) && w.fills != []
    ensures forall i :: 0 <= i < |w.fills| ==> Expiry(w.fills[i]) <= Expiry(w.fills[|w.fills| - 1])
  {
    var n := |w.fills|;
    forall i | 0 <= i < n - 1 ensures Expiry(w.fills[i]) <= Expiry(w.fills[n - 1]) {
      assert Expiry(w.fills[i]) <= w.fills[n - 1].at;
    }
  }

  lemma HitKeepsInv(w: World, t: nat)
    requires Inv(w) && Enabled(w, Check(t)) && w.cache.Some? && w.cache.value.expiry > w.mono
    ensures Inv(Apply(w, Check(t)))
  {
    var w' := Apply(w, Check(t));
    assert w'.fills == w.fills && w'.starts == w.starts;
    assert HitsFresh(w');
  }

  lemma MissKeepsInv(w: World, t: nat)
    requires Inv(w) && Enabled(w, Check(t)) && !(w.cache.Some? && w.cache.value.expiry > w.mono)
    ensures Inv(Apply(w, Check(t)))
  {
    var w' := Apply(w, Check(t));
    if w.cache.Some? {
      LastExpiresLast(w);
    }
    assert w'.fills == w.fills && w'.starts == w.starts && w'.hits == w.hits;
    assert AllExpired(w');
  }

  lemma ReturnKeepsInv(w: World, e: Event)
    requires Inv(w) && Enabled(w, e) && e.Return?
    ensures Inv(Apply(w, e))
  {
    var w' := Apply(w, e);
    assert AllExpired(w);
    assert forall i :: 0 <= i < |w.fills| ==> w'.fills[i] == w.fills[i];
  }

  lemma BeginKeepsInv(w: World, t: nat)
    requires Inv(w) && Enabled(w, Begin(t))
    ensures Inv(Apply(w, Begin(t)))
  {
    var w' := Apply(w, Begin(t));
    assert AllExpired(w);
    assert w'.fills == w.fills && w'.hits == w.hits;
  }

  ghost predicate LogsOk(w: World) { FillsSpaced(w) && HitsFresh(w) && StartsNeeded(w) }

  /** Nothing said about the cache and the logs depends on where the threads are. */
  lemma ThreadsDoNotMatter(w: World, w': World)
    requires w' == w.(holder := w'.holder, pcs := w'.pcs, mono := w'.mono) && w.mono <= w'.mono
    requires LogsOk(w) && CacheIsLastFill(w)
    ensures LogsOk(w') && CacheIsLastFill(w')
  {
  }

  /** Steps that touch neither the cache nor the logs. */
  lemma QuietStepKeepsInv(w: World, e: Event)
    requires Inv(w) && Enabled(w, e) && !e.Check? && !e.Return? && !e.Begin?
    ensures Inv(Apply(w, e))
  {
    var w' := Apply(w, e);
    ThreadsDoNotMatter(w, w');
    assert LockHeld(w');
    assert MissMeansExpired(w');
    assert ClockOk(w');
  }

  lemma StepKeepsInv(w: World, e: Event)
    requires Inv(w) && Enabled(w, e)
    ensures Inv(Apply(w, e))
  {
    match e
    case Check(t) =>
      if w.cache.Some? && w.cache.value.expiry > w.mono {
        HitKeepsInv(w, t);
      } else {
        MissKeepsInv(w, t);
      }
    case Return(_, _) => ReturnKeepsInv(w, e);
    case Begin(t) => BeginKeepsInv(w, t);
    case _ => QuietStepKeepsInv(w, e);
  }

  lemma {:induction false} RunKeepsInv(w: World, events: seq<Event>)
    requires Inv(w) && Legal(w, events)
    ensures Inv(Run(w, events))
    decreases |events|
  {
    if events != [] {
      StepKeepsInv(w, events[0]);
      RunKeepsInv(Apply(w, events[0]), events[1..]);
    }
  }

  /** Under every interleaving: one function in flight at most, fills a lifetime apart, hits the
      latest fill and younger than its lifetime, and no start while a fill is fresh. */
  lemma EveryRunIsSafe(mono: real, events: seq<Event>)
    requires Legal(Init(mono), events)
    ensures Safe(Run(Init(mono), events))
  {
    RunKeepsInv(Init(mono), events);
  }

  // ---------- getting through ----------

  /** The holder of the lock is a thread inside its call. */
  ghost predicate HolderIsInside(w: World) {
    w.holder.Some? ==> w.holder.value in w.pcs && !w.pcs[w.holder.value].Waiting?
  }

  lemma {:induction false} RunKeepsHolder(w: World, events: seq<Event>)
    requires Inv(w) && HolderIsInside(w) && Legal(w, events)
    ensures Inv(Run(w, events)) && HolderIsInside(Run(w, events))
    decreases |events|
  {
    if events != [] {
      StepKeepsInv(w, events[0]);
      assert HolderIsInside(Apply(w, events[0]));
      RunKeepsHolder(Apply(w, events[0]), events[1..]);
    }
  }

  /** A step inside a call, not the clock and not a new caller. */
  predicate IsProgress(e: Event) { !e.Tick? && !e.Arrive? }

  /** Nobody is ever stuck: while a call is open some thread can take its next step; and a new caller with
      any lifetime can always come. */
  lemma NeverStuck(mono: real, events: seq<Event>, newcomer: nat, ttl: real)
    requires Legal(Init(mono), events)
    ensures var w := Run(Init(mono), events);
            && (w.pcs != map[] ==> exists e :: IsProgress(e) && Enabled(w, e))
            && (newcomer !in w.pcs && 0.0 < ttl ==> Enabled(w, Arrive(newcomer, ttl)))
  {
    RunKeepsHolder(Init(mono), events);
    var w := Run(Init(mono), events);
    if w.holder.Some? {
      var t := w.holder.value;
      assert Enabled(w, Check(t)) || Enabled(w, Begin(t)) || Enabled(w, Raise(t));
    } else if t :| t in w.pcs {
      assert Enabled(w, Acquire(t));
    }
  }

  /** A waiting caller that finds the lock free is answered by the last fill while this is fresh, and no
      function starts; otherwise the function can start for it. */
  lemma FollowersHit(mono: real, events: seq<Event>, t: nat)
    requires Legal(Init(mono), events)
    requires var w := Run(Init(mono), events); w.holder.None? && t in w.pcs
    ensures var w := Run(Init(mono), events);
            Legal(w, [Acquire(t), Check(t)])
            && var served, n := Run(w, [Acquire(t), Check(t)]), |w.fills|;
               if n > 0 && w.mono < w.fills[n - 1].at + w.fills[n - 1].ttl then
                 served.hits == w.hits + [Hit(w.mono, w.fills[n - 1].value, n)] && served.starts == w.starts && t !in served.pcs
               else served.hits == w.hits && Enabled(served, Begin(t))
  {
    RunKeepsHolder(Init(mono), events);
    var w := Run(Init(mono), events);
    assert w.pcs[t].Waiting?;
    var w1 := Apply(w, Acquire(t));
    var w2 := Apply(w1, Check(t));
    assert [Acquire(t), Check(t)][1..] == [Check(t)] && [Check(t)][1..] == [];
    assert Run(w1, [Check(t)]) == w2;
  }
}

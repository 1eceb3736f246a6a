/**
 Many threads using the two connection pools. A request handler's use of the
 pools is a list of brackets, each `acquire` from one pool, use, `release`; a
 thread never holds a connection while it acquires. The lists are arbitrary, so
 they cover every path of the handlers.
 */
module PoolSystem {
  import opened Options
  import opened ConnectionPool

  datatype PoolId = Redis | Database

  /** `work[t]` are the brackets thread `t` has not finished, the current one first. */
  datatype System = System(redis: Pool, db: Pool, work: seq<seq<PoolId>>)
  {
    function PoolOf(id: PoolId): Pool {
      if id == Redis then redis else db
    }

    function WithPool(id: PoolId, p: Pool): System {
      if id == Redis then this.(redis := p) else this.(db := p)
    }

    predicate Working(t: ThreadId) {
      t < |work| && work[t] != []
    }

    /** The pool of the thread's current bracket. */
    function PoolFor(t: ThreadId): Pool
      requires Working(t)
    {
      PoolOf(work[t][0])
    }
  }

  /** `Throw` is a Redis call that throws: the bracket ends without `release`. */
  datatype Move =
    | Acquire(t: ThreadId)
    | Resume(t: ThreadId)
    | SpuriousWake(t: ThreadId)
    | Release(t: ThreadId, woken: Option<ThreadId>)
    | Throw(t: ThreadId)

  predicate Enabled(s: System, m: Move) {
    s.Working(m.t) &&
    var p := s.PoolFor(m.t);
    match m
    case Acquire(t) => t !in p.asleep && t !in p.notified && t !in p.held
    case Resume(t) => t in p.notified
    case SpuriousWake(t) => t in p.asleep
    case Release(t, woken) => t in p.held && CanNotify(p, woken)
    case Throw(t) => t in p.held && s.work[t][0] == Redis
  }

  function Next(s: System, m: Move): System
    requires Enabled(s, m)
  {
    var id := s.work[m.t][0];
    var p := s.PoolOf(id);
    match m
    case Acquire(t) => s.WithPool(id, Take(p, t))
    case Resume(t) => s.WithPool(id, Take(p, t))
    case SpuriousWake(t) => s.WithPool(id, Woken(p, Some(t)))
    case Release(t, woken) => s.WithPool(id, GiveBack(p, t, woken)).(work := s.work[t := s.work[t][1..]])
    case Throw(t) => s.WithPool(id, Forget(p, t)).(work := s.work[t := s.work[t][1..]])
  }

  predicate Possible(s: System, ms: seq<Move>)
    decreases |ms|
  {
    ms == [] || (Enabled(s, ms[0]) && Possible(Next(s, ms[0]), ms[1..]))
  }

  function After(s: System, ms: seq<Move>): System
    requires Possible(s, ms)
    decreases |ms|
  {
    if ms == [] then s else After(Next(s, ms[0]), ms[1..])
  }

  function Start(redisSize: nat, dbSize: nat, work: seq<seq<PoolId>>): System {
    System(NewPool(redisSize), NewPool(dbSize), work)
  }

  // ---------------------------------------------------------------------------
  // Safety.

  /** The connections of the two pools. */
  datatype Opened = Opened(redis: set<Conn>, db: set<Conn>)
  {
    function Of(id: PoolId): set<Conn> {
      if id == Redis then redis else db
    }
  }

  predicate Present(p: Pool, t: ThreadId) {
    t in p.asleep || t in p.notified || t in p.held
  }

  /** Both pools are safe, and a thread is at a pool only for its current bracket. */
  ghost predicate Sound(s: System, all: Opened) {
    && (forall id :: Safe(s.PoolOf(id), all.Of(id)))
    && (forall id, t: ThreadId :: Present(s.PoolOf(id), t) ==> s.Working(t) && s.work[t][0] == id)
  }

  lemma PoolStep(s: System, all: Opened, m: Move)
    requires Sound(s, all) && Enabled(s, m)
    ensures var id := s.work[m.t][0]; Safe(Next(s, m).PoolOf(id), all.Of(id))
  {
    hide Safe, Take;
    var id := s.work[m.t][0];
    var p := s.PoolOf(id);
    assert Safe(p, all.Of(id));
    match m {
      case Acquire(t) => TakeSafe(p, all.Of(id), t);
      case Resume(t) =>
        NotifiedIsAwake(p, all.Of(id), t);
        TakeSafe(p, all.Of(id), t);
      case SpuriousWake(t) => WokenSafe(p, all.Of(id), Some(t));
      case Release(t, woken) => GiveBackSafe(p, all.Of(id), t, woken);
      case Throw(t) => ForgetSafe(p, all.Of(id), t);
    }
  }

  lemma NotifiedIsAwake(p: Pool, all: set<Conn>, t: ThreadId)
    requires Safe(p, all) && t in p.notified
    ensures t !in p.asleep && t !in p.held
  {
  }

  lemma PresentAfterTake(p: Pool, t: ThreadId, u: ThreadId)
    ensures Present(Take(p, t), u) ==> u == t || Present(p, u)
  {
  }

  lemma PresentAfterLeaving(p: Pool, t: ThreadId, woken: Option<ThreadId>, u: ThreadId)
    requires NoLostWakeUp(p) && t in p.held && CanNotify(p, woken)
    ensures Present(GiveBack(p, t, woken), u) ==> u != t && Present(p, u)
    ensures Present(Forget(p, t), u) ==> u != t && Present(p, u)
  {
  }

  lemma PresentAfterWaking(p: Pool, t: ThreadId, u: ThreadId)
    requires t in p.asleep
    ensures Present(Woken(p, Some(t)), u) ==> Present(p, u)
  {
  }

  lemma SomeoneToNotify(p: Pool) returns (woken: Option<ThreadId>)
    ensures CanNotify(p, woken)
  {
    woken := None;
    if p.asleep != {} {
      var w :| w in p.asleep;
      woken := Some(w);
    }
  }

  /** Where threads are after a step. */
  lemma PresentAfter(s: System, all: Opened, m: Move, t: ThreadId)
    requires Sound(s, all) && Enabled(s, m)
    ensures var id := s.work[m.t][0]; var q := Next(s, m).PoolOf(id);
            Present(q, t) ==> if t == m.t then !m.Release? && !m.Throw? else Present(s.PoolOf(id), t)
  {
    hide Partitioned, NoLostWakeUp, Take, GiveBack, Forget, Woken, Present;
    var p := s.PoolFor(m.t);
    assert Safe(s.PoolOf(s.work[m.t][0]), all.Of(s.work[m.t][0]));
    match m {
      case Acquire(u) => PresentAfterTake(p, u, t);
      case Resume(u) => PresentAfterTake(p, u, t);
      case SpuriousWake(u) => PresentAfterWaking(p, u, t);
      case Release(u, woken) => PresentAfterLeaving(p, u, woken, t);
      case Throw(u) =>
        var woken := SomeoneToNotify(p);
        PresentAfterLeaving(p, u, woken, t);
    }
  }

  lemma NextSound(s: System, all: Opened, m: Move)
    requires Sound(s, all) && Enabled(s, m)
    ensures Sound(Next(s, m), all)
  {
    hide Safe;
    var q := Next(s, m);
    var mine := s.work[m.t][0];
    PoolStep(s, all, m);
    forall id
      ensures Safe(q.PoolOf(id), all.Of(id))
    {
      assert id != mine ==> q.PoolOf(id) == s.PoolOf(id);
      assert Safe(s.PoolOf(id), all.Of(id));
    }
    forall id, t: ThreadId | Present(q.PoolOf(id), t)
      ensures q.Working(t) && q.work[t][0] == id
    {
      if id == mine {
        PresentAfter(s, all, m, t);
      } else {
        assert q.PoolOf(id) == s.PoolOf(id);
      }
      assert t != m.t ==> Present(s.PoolOf(id), t) && s.work[t][0] == id;
    }
  }

  lemma {:induction false} RunSound(s: System, all: Opened, ms: seq<Move>)
    requires Sound(s, all) && Possible(s, ms)
    ensures Sound(After(s, ms), all)
    decreases |ms|
  {
    if ms != [] {
      NextSound(s, all, ms[0]);
      RunSound(Next(s, ms[0]), all, ms[1..]);
    }
  }

  /** In every reachable state both pools are safe. */
  lemma ReachableIsSound(redisSize: nat, dbSize: nat, work: seq<seq<PoolId>>, ms: seq<Move>)
    requires Possible(Start(redisSize, dbSize, work), ms)
    ensures Sound(After(Start(redisSize, dbSize, work), ms), Opened(Connections(redisSize), Connections(dbSize)))
  {
    NewPoolSafe(redisSize);
    NewPoolSafe(dbSize);
    RunSound(Start(redisSize, dbSize, work), Opened(Connections(redisSize), Connections(dbSize)), ms);
  }

  // ---------------------------------------------------------------------------
  // Progress.

  /** Some connection of the pool has not been forgotten. */
  predicate Usable(p: Pool, all: set<Conn>) {
    !(all <= p.lost)
  }

  /**
   Deadlock freedom: while a thread has work on a pool with a connection left,
   some thread can take a step that is not a chance wake-up or an exception.
   */
  lemma SomeThreadCanStep(s: System, all: Opened, t: ThreadId) returns (m: Move)
    requires Sound(s, all) && s.Working(t)
    requires Usable(s.PoolFor(t), all.Of(s.work[t][0]))
    ensures Enabled(s, m) && !m.SpuriousWake? && !m.Throw?
  {
    var id := s.work[t][0];
    var p := s.PoolOf(id);
    assert Safe(p, all.Of(id));
    if p.held != map[] {
      var u :| u in p.held;
      assert Present(p, u);
      var woken := SomeoneToNotify(p);
      m := Release(u, woken);
    } else if t in p.notified {
      m := Resume(t);
    } else if t in p.asleep {
      IdleWhenFree(p, all.Of(id));
      var u :| u in p.notified;
      assert Present(p, u);
      m := Resume(u);
    } else {
      m := Acquire(t);
    }
  }

  /** The converse: once every connection of a pool is forgotten, it stays so, and work on it never ends. */
  lemma NextStarves(s: System, all: Opened, m: Move, id: PoolId, t: ThreadId)
    requires Sound(s, all) && Enabled(s, m)
    requires !Usable(s.PoolOf(id), all.Of(id)) && t < |s.work| && id in s.work[t]
    ensures !Usable(Next(s, m).PoolOf(id), all.Of(id)) && t < |Next(s, m).work| && id in Next(s, m).work[t]
  {
    hide Partitioned, NoLostWakeUp;
    var p := s.PoolOf(id);
    assert Safe(p, all.Of(id));
    NothingHeld(p, all.Of(id));
    if m.t == t && (m.Release? || m.Throw?) {
      assert s.work[t][0] != id;
      assert s.work[t] == [s.work[t][0]] + s.work[t][1..];
    }
  }

  lemma NothingHeld(p: Pool, all: set<Conn>)
    requires Safe(p, all) && !Usable(p, all)
    ensures p.held == map[] && p.idle == []
  {
    assert forall t :: t in p.held ==> p.held[t] in p.held.Values;
    FirstIsIn(p.idle);
  }

  lemma FirstIsIn(s: seq<Conn>)
    ensures s == [] || s[0] in s
  {
  }

  lemma {:induction false} ForgottenPoolStarves(s: System, all: Opened, ms: seq<Move>, id: PoolId, t: ThreadId)
    requires Sound(s, all) && Possible(s, ms)
    requires !Usable(s.PoolOf(id), all.Of(id)) && t < |s.work| && id in s.work[t]
    ensures t < |After(s, ms).work| && id in After(s, ms).work[t]
    decreases |ms|
  {
    if ms != [] {
      NextStarves(s, all, ms[0], id, t);
      NextSound(s, all, ms[0]);
      ForgottenPoolStarves(Next(s, ms[0]), all, ms[1..], id, t);
    }
  }

  // ---------------------------------------------------------------------------
  // Termination.

  /** What a thread may still cost: four per bracket, less what it has got through of the current one. */
  function Weight(s: System, t: ThreadId): nat
    requires t < |s.work|
  {
    if s.work[t] == [] then 0
    else
      var p := s.PoolFor(t);
      4 * |s.work[t]| - if t in p.held || t in p.asleep then 2 else if t in p.notified then 1 else 0
  }

  function Sum(ns: seq<nat>): nat {
    if ns == [] then 0 else ns[0] + Sum(ns[1..])
  }

  function Weights(s: System): seq<nat> {
    seq(|s.work|, t requires 0 <= t < |s.work| => Weight(s, t))
  }

  function Total(s: System): nat {
    Sum(Weights(s))
  }

  lemma {:induction false} SumUpdate(ns: seq<nat>, i: nat, n: nat)
    requires i < |ns|
    ensures Sum(ns[i := n]) == Sum(ns) - ns[i] + n
  {
    if i == 0 {
      assert ns[0 := n][1..] == ns[1..];
    } else {
      SumUpdate(ns[1..], i - 1, n);
      assert ns[i := n][1..] == ns[1..][i - 1 := n];
    }
  }

  /** The woken thread, if the step wakes one. */
  function WokenBy(m: Move): Option<ThreadId> {
    if m.Release? then m.woken else None
  }

  lemma WokenIsAsleep(s: System, all: Opened, m: Move)
    requires Sound(s, all) && Enabled(s, m) && WokenBy(m).Some?
    ensures var u := WokenBy(m).value;
            && u != m.t && s.Working(u) && s.work[u][0] == s.work[m.t][0]
            && u in s.PoolFor(u).asleep && u !in s.PoolFor(u).held
  {
    var u := WokenBy(m).value;
    var p := s.PoolFor(m.t);
    assert Safe(p, all.Of(s.work[m.t][0]));
    assert Present(p, u);
  }

  /** A step that is not a chance wake-up lowers the stepping thread's weight, by two where it wakes another. */
  lemma OwnWeight(s: System, all: Opened, m: Move)
    requires Sound(s, all) && Enabled(s, m)
    ensures Weight(Next(s, m), m.t) <= Weight(s, m.t) + if m.SpuriousWake? then 1 else if m.Release? then -2 else -1
  {
    var p := s.PoolFor(m.t);
    assert Safe(p, all.Of(s.work[m.t][0]));
  }

  lemma WokenWeight(s: System, all: Opened, m: Move)
    requires Sound(s, all) && Enabled(s, m) && WokenBy(m).Some?
    ensures WokenBy(m).value < |s.work| && Weight(Next(s, m), WokenBy(m).value) == Weight(s, WokenBy(m).value) + 1
  {
    WokenIsAsleep(s, all, m);
  }

  lemma OtherWeight(s: System, m: Move, t: ThreadId)
    requires Enabled(s, m) && t < |s.work| && t != m.t && WokenBy(m) != Some(t)
    ensures Weight(Next(s, m), t) == Weight(s, t)
  {
  }

  lemma StepCosts(s: System, all: Opened, m: Move)
    requires Sound(s, all) && Enabled(s, m)
    ensures Total(Next(s, m)) <= Total(s) + if m.SpuriousWake? then 1 else -1
  {
    hide Weight, Next, Sound, Enabled;
    var q := Next(s, m);
    var ws := Weights(s);
    EnabledWorks(s, m);
    OwnWeight(s, all, m);
    var own := ws[m.t := Weight(q, m.t)];
    SumUpdate(ws, m.t, Weight(q, m.t));
    forall t: ThreadId | t < |s.work| && t != m.t && WokenBy(m) != Some(t)
      ensures Weight(q, t) == Weight(s, t)
    {
      OtherWeight(s, m, t);
    }
    if WokenBy(m).Some? {
      var u := WokenBy(m).value;
      WokenWeight(s, all, m);
      WokenIsAsleep(s, all, m);
      SumUpdate(own, u, Weight(q, u));
      assert Weights(q) == own[u := Weight(q, u)];
    } else {
      assert Weights(q) == own;
    }
  }

  lemma EnabledWorks(s: System, m: Move)
    requires Enabled(s, m)
    ensures m.t < |s.work| && |Next(s, m).work| == |s.work|
  {
  }

  function ChanceWakes(ms: seq<Move>): nat {
    if ms == [] then 0 else (if ms[0].SpuriousWake? then 1 else 0) + ChanceWakes(ms[1..])
  }

  lemma {:induction false} RunLength(s: System, all: Opened, ms: seq<Move>)
    requires Sound(s, all) && Possible(s, ms)
    ensures |ms| + Total(After(s, ms)) <= Total(s) + 2 * ChanceWakes(ms)
    decreases |ms|
  {
    hide Sound, Total, Next, Enabled;
    if ms != [] {
      StepCosts(s, all, ms[0]);
      NextSound(s, all, ms[0]);
      RunLength(Next(s, ms[0]), all, ms[1..]);
    }
  }

  function Brackets(work: seq<seq<PoolId>>): nat {
    if work == [] then 0 else |work[0]| + Brackets(work[1..])
  }

  lemma {:induction false} SumOfLengths(ns: seq<nat>, work: seq<seq<PoolId>>)
    requires |ns| == |work| && forall t :: 0 <= t < |work| ==> ns[t] == 4 * |work[t]|
    ensures Sum(ns) == 4 * Brackets(work)
  {
    if work != [] {
      SumOfLengths(ns[1..], work[1..]);
    }
  }

  /**
   From the start, a run without chance wake-ups makes at most four steps per
   bracket, and each chance wake-up allows two more.
   */
  lemma RunsAreBounded(redisSize: nat, dbSize: nat, work: seq<seq<PoolId>>, ms: seq<Move>)
    requires Possible(Start(redisSize, dbSize, work), ms)
    ensures |ms| <= 4 * Brackets(work) + 2 * ChanceWakes(ms)
  {
    var s := Start(redisSize, dbSize, work);
    NewPoolSafe(redisSize);
    NewPoolSafe(dbSize);
    RunLength(s, Opened(Connections(redisSize), Connections(dbSize)), ms);
    SumOfLengths(Weights(s), work);
  }

  // ---------------------------------------------------------------------------
  // How many exceptions the system survives.

  /** No step is left but chance wake-ups and exceptions. */
  ghost predicate CanOnlyWait(s: System) {
    forall m :: Enabled(s, m) ==> m.SpuriousWake? || m.Throw?
  }

  ghost predicate AllDone(s: System) {
    forall t: ThreadId :: !s.Working(t)
  }

  /**
   A system that can only wait has finished all work exactly when every pool that
   work remains on has a connection left.
   */
  lemma WaitingIsDoneExactly(s: System, all: Opened)
    requires Sound(s, all) && CanOnlyWait(s)
    ensures AllDone(s)
            <==> forall t: ThreadId, id ::
                   t < |s.work| && id in s.work[t] ==> Usable(s.PoolOf(id), all.Of(id))
  {
    hide Sound, Enabled, Usable;
    forall t: ThreadId | s.Working(t) && Usable(s.PoolFor(t), all.Of(s.work[t][0]))
      ensures false
    {
      var m := SomeThreadCanStep(s, all, t);
    }
    forall t: ThreadId | s.Working(t)
      ensures s.work[t][0] in s.work[t]
    {
    }
  }

  function Throws(ms: seq<Move>): nat {
    if ms == [] then 0 else (if ms[0].Throw? then 1 else 0) + Throws(ms[1..])
  }

  lemma NextLost(s: System, all: Opened, m: Move)
    requires Sound(s, all) && Enabled(s, m)
    ensures |Next(s, m).redis.lost| == |s.redis.lost| + if m.Throw? then 1 else 0
    ensures Next(s, m).db.lost == s.db.lost
  {
    hide Partitioned, NoLostWakeUp;
    assert Safe(s.PoolOf(Redis), all.Of(Redis));
    if m.Throw? {
      ForgetCosts(s.redis, all.redis, m.t);
    }
  }

  lemma ForgetCosts(p: Pool, all: set<Conn>, t: ThreadId)
    requires Safe(p, all) && t in p.held
    ensures |Forget(p, t).lost| == |p.lost| + 1
  {
  }

  /** Every exception costs the Redis pool one connection, and nothing else costs any. */
  lemma {:induction false} RunLost(s: System, all: Opened, ms: seq<Move>)
    requires Sound(s, all) && Possible(s, ms)
    ensures |After(s, ms).redis.lost| == |s.redis.lost| + Throws(ms)
    ensures After(s, ms).db.lost == s.db.lost
    decreases |ms|
  {
    hide Sound, Enabled, Next;
    if ms != [] {
      NextLost(s, all, ms[0]);
      NextSound(s, all, ms[0]);
      RunLost(Next(s, ms[0]), all, ms[1..]);
    }
  }

  lemma {:induction false} ConnectionCount(size: nat)
    ensures |Connections(size)| == size
  {
    if size > 0 {
      ConnectionCount(size - 1);
      assert NewPool(size).idle == NewPool(size - 1).idle + [size - 1];
      assert Connections(size) == Connections(size - 1) + {size - 1};
    }
  }

  lemma UsableByCount(p: Pool, all: set<Conn>)
    requires Safe(p, all)
    ensures Usable(p, all) <==> |p.lost| < |all|
  {
    assert p.lost <= all;
    assert all == p.lost + (all - p.lost);
    assert |all| == |p.lost| + |all - p.lost|;
  }

  /** In a reachable state, which pools are usable. */
  lemma UsableAfter(redisSize: nat, dbSize: nat, work: seq<seq<PoolId>>, ms: seq<Move>)
    requires Possible(Start(redisSize, dbSize, work), ms)
    ensures var s := After(Start(redisSize, dbSize, work), ms);
            && (Usable(s.redis, Connections(redisSize)) <==> Throws(ms) < redisSize)
            && (Usable(s.db, Connections(dbSize)) <==> dbSize > 0)
  {
    hide Enabled, Next, Usable, Safe;
    var start := Start(redisSize, dbSize, work);
    var s := After(start, ms);
    var all := Opened(Connections(redisSize), Connections(dbSize));
    ReachableIsSound(redisSize, dbSize, work, ms);
    ReachableIsSound(redisSize, dbSize, work, []);
    RunLost(start, all, ms);
    ConnectionCount(redisSize);
    ConnectionCount(dbSize);
    assert Safe(s.PoolOf(Redis), all.Of(Redis)) && Safe(s.PoolOf(Database), all.Of(Database));
    UsableByCount(s.redis, all.redis);
    UsableByCount(s.db, all.db);
  }

  /** Work remains only on pools that have a connection left, counted from the exceptions thrown. */
  predicate WorkHasConnections(s: System, redisSize: nat, dbSize: nat, throws: nat) {
    forall t: ThreadId, id :: t < |s.work| && id in s.work[t] ==>
      if id == Redis then throws < redisSize else dbSize > 0
  }

  /**
   A complete run, with any number of exceptions, has finished all work exactly
   when no work remains on a pool whose connections the exceptions have used up.
   */
  lemma CompleteRunsFinishExactly(redisSize: nat, dbSize: nat, work: seq<seq<PoolId>>, ms: seq<Move>)
    requires Possible(Start(redisSize, dbSize, work), ms)
    requires CanOnlyWait(After(Start(redisSize, dbSize, work), ms))
    ensures var s := After(Start(redisSize, dbSize, work), ms);
            AllDone(s) <==> WorkHasConnections(s, redisSize, dbSize, Throws(ms))
  {
    hide Enabled, Next, Usable, Sound, CanOnlyWait, AllDone, After;
    var s := After(Start(redisSize, dbSize, work), ms);
    var all := Opened(Connections(redisSize), Connections(dbSize));
    ReachableIsSound(redisSize, dbSize, work, ms);
    UsableAfter(redisSize, dbSize, work, ms);
    WaitingIsDoneExactly(s, all);
    assert Usable(s.PoolOf(Redis), all.Of(Redis)) <==> Throws(ms) < redisSize;
    assert Usable(s.PoolOf(Database), all.Of(Database)) <==> dbSize > 0;
    forall t: ThreadId, id | t < |s.work| && id in s.work[t]
      ensures Usable(s.PoolOf(id), all.Of(id)) <==> if id == Redis then Throws(ms) < redisSize else dbSize > 0
    {
    }
  }

  /** With fewer exceptions than Redis connections, and a database connection, a complete run finishes. */
  lemma CompleteRunsFinish(redisSize: nat, dbSize: nat, work: seq<seq<PoolId>>, ms: seq<Move>)
    requires Possible(Start(redisSize, dbSize, work), ms) && Throws(ms) < redisSize && dbSize > 0
    requires CanOnlyWait(After(Start(redisSize, dbSize, work), ms))
    ensures AllDone(After(Start(redisSize, dbSize, work), ms))
  {
    hide Enabled, Next, CanOnlyWait, AllDone, After;
    CompleteRunsFinishExactly(redisSize, dbSize, work, ms);
  }

  /** One thread, the only one present, loses the connections left and then sleeps for ever. */
  lemma {:induction false} Drain(s: System) returns (ms: seq<Move>)
    requires |s.work| == 1 && |s.work[0]| == |s.redis.idle| + 1
    requires forall i :: 0 <= i < |s.work[0]| ==> s.work[0][i] == Redis
    requires s.redis.asleep == {} && s.redis.notified == {} && s.redis.held == map[]
    ensures Possible(s, ms) && Throws(ms) == |s.redis.idle|
    ensures CanOnlyWait(After(s, ms)) && After(s, ms).Working(0)
    decreases |s.redis.idle|
  {
    var s1 := Next(s, Acquire(0));
    if s.redis.idle == [] {
      ms := [Acquire(0)];
      assert ms[1..] == [];
      assert After(s, ms) == s1 && s1.redis.asleep == {0};
    } else {
      assert s1.redis.held == map[0 := s.redis.idle[0]];
      var s2 := Next(s1, Throw(0));
      assert s2.redis.held == map[] && s2.redis.idle == s.redis.idle[1..];
      assert s2.work == [s.work[0][1..]];
      var rest := Drain(s2);
      ms := [Acquire(0), Throw(0)] + rest;
      assert ms[1..] == [Throw(0)] + rest && ms[1..][1..] == rest;
      assert Possible(s1, ms[1..]) && After(s1, ms[1..]) == After(s2, rest);
    }
  }

  /** A complete run with at most `k` exceptions that leaves work undone. */
  ghost predicate CanDeadlock(redisSize: nat, dbSize: nat, k: nat, work: seq<seq<PoolId>>, ms: seq<Move>) {
    var start := Start(redisSize, dbSize, work);
    Possible(start, ms) && Throws(ms) <= k && CanOnlyWait(After(start, ms)) && !AllDone(After(start, ms))
  }

  /**
   The exact condition for deadlock freedom: whatever the threads have to do, no
   run with at most `k` exceptions deadlocks, if and only if `k` is less than the
   number of Redis connections and there is a database connection.
   */
  lemma DeadlockFreeExactly(redisSize: nat, dbSize: nat, k: nat)
    ensures k < redisSize && dbSize > 0
            <==> forall work, ms :: !CanDeadlock(redisSize, dbSize, k, work, ms)
  {
    hide CanOnlyWait, AllDone, Enabled, Next;
    if k < redisSize && dbSize > 0 {
      forall work, ms
        ensures !CanDeadlock(redisSize, dbSize, k, work, ms)
      {
        if CanDeadlock(redisSize, dbSize, k, work, ms) {
          CompleteRunsFinish(redisSize, dbSize, work, ms);
        }
      }
    } else if dbSize == 0 {
      NoDatabaseDeadlocks(redisSize, k);
    } else {
      ThrowsDeadlock(redisSize, dbSize, k);
    }
  }

  lemma NoDatabaseDeadlocks(redisSize: nat, k: nat)
    ensures CanDeadlock(redisSize, 0, k, [[Database]], [Acquire(0)])
  {
    var s := Start(redisSize, 0, [[Database]]);
    var s1 := Next(s, Acquire(0));
    assert [Acquire(0)][1..] == [];
    assert After(s, [Acquire(0)]) == s1 && s1.db.asleep == {0} && s1.Working(0);
  }

  lemma ThrowsDeadlock(redisSize: nat, dbSize: nat, k: nat)
    requires k >= redisSize
    ensures exists work, ms :: CanDeadlock(redisSize, dbSize, k, work, ms)
  {
    hide CanOnlyWait, Enabled, Next;
    var work := [seq(redisSize + 1, _ => Redis)];
    var ms := Drain(Start(redisSize, dbSize, work));
    assert CanDeadlock(redisSize, dbSize, k, work, ms);
  }

  /** One exception on a pool of one connection, and another thread sleeps for ever. */
  lemma ThrowDeadlocks()
    ensures var s := Start(1, 1, [[Redis], [Redis]]);
            var ms := [Acquire(0), Acquire(1), Throw(0)];
            && Possible(s, ms)
            && After(s, ms).Working(1)
            && forall m :: Enabled(After(s, ms), m) ==> m.SpuriousWake?
  {
    var s := Start(1, 1, [[Redis], [Redis]]);
    var ms := [Acquire(0), Acquire(1), Throw(0)];
    var s1 := Next(s, ms[0]);
    assert s1.redis.idle == [] && s1.redis.held == map[0 := 0];
    var s2 := Next(s1, ms[1]);
    assert s2.redis.asleep == {1} && s2.redis.held == map[0 := 0];
    var s3 := Next(s2, ms[2]);
    assert [Redis][1..] == [];
    assert s3.redis.held == map[] && s3.redis.asleep == {1} && s3.work == [[], [Redis]];
    assert ms[1..] == [ms[1], ms[2]] && ms[1..][1..] == [ms[2]] && ms[1..][1..][1..] == [];
    assert Possible(s3, []) && Possible(s2, [ms[2]]) && Possible(s1, [ms[1], ms[2]]);
    assert After(s, ms) == s3;
  }
}

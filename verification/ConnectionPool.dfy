/**
 The connection pool: a FIFO queue of connections under a mutex and a condition
 variable. A stretch of code under the mutex is one step; a thread that finds the
 queue empty falls asleep, `release` wakes one sleeper, and a sleeper may also
 wake for no reason.
 */
module ConnectionPool {
  import opened Options

  type Conn = nat
  type ThreadId = nat

  /**
   `held` and `lost` are what has left the queue: the connections in use, and
   those an exception made their user forget.
   */
  datatype Pool = Pool(idle: seq<Conn>, asleep: set<ThreadId>, notified: set<ThreadId>,
                       held: map<ThreadId, Conn>, lost: set<Conn>)

  /** `acquire` under the mutex, entered anew or after waking: test the queue, pop or sleep. */
  function Take(p: Pool, t: ThreadId): Pool {
    if p.idle == [] then p.(asleep := p.asleep + {t}, notified := p.notified - {t})
    else p.(idle := p.idle[1..], held := p.held[t := p.idle[0]],
            asleep := p.asleep - {t}, notified := p.notified - {t})
  }

  /** The sleeper `notify_one` picks, if there is one. */
  predicate CanNotify(p: Pool, w: Option<ThreadId>) {
    match w
    case None => p.asleep == {}
    case Some(u) => u in p.asleep
  }

  function Woken(p: Pool, w: Option<ThreadId>): Pool {
    match w
    case None => p
    case Some(u) => p.(asleep := p.asleep - {u}, notified := p.notified + {u})
  }

  /** `release` under the mutex: push to the back and notify one sleeper. */
  function GiveBack(p: Pool, t: ThreadId, w: Option<ThreadId>): Pool
    requires t in p.held
  {
    Woken(p.(idle := p.idle + [p.held[t]], held := p.held - {t}), w)
  }

  /** An exception that skips `release`. */
  function Forget(p: Pool, t: ThreadId): Pool
    requires t in p.held
  {
    p.(held := p.held - {t}, lost := p.lost + {p.held[t]})
  }

  function NewPool(size: nat): Pool {
    Pool(seq(size, i => i), {}, {}, map[], {})
  }

  /** The connections a new pool opens. */
  function Connections(size: nat): set<Conn> {
    set c | c in NewPool(size).idle
  }

  class ConnectionPool {
    var connections: seq<Conn>
    var asleep: set<ThreadId>
    var notified: set<ThreadId>
    ghost var held: map<ThreadId, Conn>
    ghost var lost: set<Conn>

    ghost function State(): Pool
      reads this
    {
      Pool(connections, asleep, notified, held, lost)
    }

    constructor (poolSize: nat)
      ensures State() == NewPool(poolSize)
    {
      var queue: seq<Conn> := [];
      for i := 0 to poolSize
        invariant queue == seq(i, j => j)
      {
        queue := queue + [i];
      }
      connections := queue;
      asleep, notified := {}, {};
      held, lost := map[], {};
    }

    /** One turn of `acquire` under the mutex; `None` when the thread goes to sleep. */
    method Acquire(t: ThreadId) returns (conn: Option<Conn>)
      modifies this
      ensures State() == Take(old(State()), t)
      ensures conn == if old(connections) == [] then None else Some(old(connections)[0])
    {
      if connections == [] {
        asleep, notified := asleep + {t}, notified - {t};
        return None;
      }
      var front := connections[0];
      connections := connections[1..];
      asleep, notified := asleep - {t}, notified - {t};
      held := held[t := front];
      return Some(front);
    }

    method Release(t: ThreadId, conn: Conn) returns (ghost woken: Option<ThreadId>)
      requires t in held && held[t] == conn
      modifies this
      ensures CanNotify(old(State()), woken) && State() == GiveBack(old(State()), t, woken)
    {
      connections := connections + [conn];
      held := held - {t};
      if asleep == {} {
        woken := None;
      } else {
        var w :| w in asleep;
        asleep, notified := asleep - {w}, notified + {w};
        woken := Some(w);
      }
    }
  }

  // ---------------------------------------------------------------------------
  // What every step of one pool keeps.

  predicate Distinct(s: seq<Conn>) {
    forall i, j :: 0 <= i < j < |s| ==> s[i] != s[j]
  }

  /**
   Queued, held and forgotten connections partition the pool's connections, and
   no connection is held twice.
   */
  ghost predicate Partitioned(p: Pool, all: set<Conn>) {
    && Distinct(p.idle)
    && (forall t, u :: t in p.held && u in p.held && t != u ==> p.held[t] != p.held[u])
    && (forall t :: t in p.held ==> p.held[t] !in p.idle && p.held[t] !in p.lost)
    && (forall c :: c in p.idle ==> c !in p.lost)
    && (forall c :: c in all <==> c in p.idle || c in p.held.Values || c in p.lost)
  }

  ghost predicate InOnePlace(p: Pool) {
    forall t :: !(t in p.asleep && t in p.notified) && !(t in p.held && (t in p.asleep || t in p.notified))
  }

  /**
   A thread is in one place only, and no wake-up is lost: while a thread sleeps,
   no more connections are idle than threads have been notified and not yet
   resumed.
   */
  ghost predicate NoLostWakeUp(p: Pool) {
    InOnePlace(p) && (p.asleep != {} ==> |p.idle| <= |p.notified|)
  }

  ghost predicate Safe(p: Pool, all: set<Conn>) {
    Partitioned(p, all) && NoLostWakeUp(p)
  }

  lemma NewPoolSafe(size: nat)
    ensures Safe(NewPool(size), Connections(size))
  {
  }

  /** A thread may take that holds nothing and sleeps not, be it new or notified. */
  lemma TakeSafe(p: Pool, all: set<Conn>, t: ThreadId)
    requires Safe(p, all) && t !in p.held && t !in p.asleep
    ensures Safe(Take(p, t), all)
  {
    hide Partitioned, NoLostWakeUp;
    TakePartitions(p, all, t);
    TakeLosesNoWakeUp(p, t);
  }

  lemma TakePartitions(p: Pool, all: set<Conn>, t: ThreadId)
    requires Partitioned(p, all) && t !in p.held
    ensures Partitioned(Take(p, t), all)
  {
    if p.idle != [] {
      var front, rest := p.idle[0], p.idle[1..];
      assert p.idle == [front] + rest;
      ValuesAfterInsert(p.held, t, front);
    }
  }

  lemma TakeLosesNoWakeUp(p: Pool, t: ThreadId)
    requires NoLostWakeUp(p) && t !in p.held && t !in p.asleep
    ensures NoLostWakeUp(Take(p, t))
  {
    assert InOnePlace(Take(p, t));
    CountLess(p.notified, t);
  }

  lemma ValuesAfterInsert(m: map<ThreadId, Conn>, t: ThreadId, c: Conn)
    requires t !in m
    ensures m[t := c].Values == m.Values + {c}
  {
    var n := m[t := c];
    forall d
      ensures d in n.Values <==> d in m.Values || d == c
    {
      if d in m.Values {
        var u :| u in m && m[u] == d;
        assert n[u] == d;
      }
      if d == c {
        assert n[t] == d;
      }
    }
  }

  lemma CountLess(s: set<ThreadId>, t: ThreadId)
    ensures |s - {t}| >= |s| - 1
  {
    if t !in s {
      assert s - {t} == s;
    }
  }

  lemma WokenSafe(p: Pool, all: set<Conn>, w: Option<ThreadId>)
    requires Safe(p, all) && (w.Some? ==> w.value in p.asleep)
    ensures Safe(Woken(p, w), all)
  {
  }

  lemma GiveBackSafe(p: Pool, all: set<Conn>, t: ThreadId, w: Option<ThreadId>)
    requires Safe(p, all) && t in p.held && CanNotify(p, w)
    ensures Safe(GiveBack(p, t, w), all)
  {
    var q := GiveBack(p, t, w);
    assert q.idle == p.idle + [p.held[t]];
    forall c
      ensures c in p.held.Values <==> c in q.held.Values || c == p.held[t]
    {
      if c in p.held.Values && c != p.held[t] {
        var u :| u in p.held && p.held[u] == c;
        assert u in q.held && q.held[u] == c;
      }
    }
  }

  lemma ForgetSafe(p: Pool, all: set<Conn>, t: ThreadId)
    requires Safe(p, all) && t in p.held
    ensures Safe(Forget(p, t), all)
  {
    var q := Forget(p, t);
    forall c
      ensures c in p.held.Values <==> c in q.held.Values || c == p.held[t]
    {
      if c in p.held.Values && c != p.held[t] {
        var u :| u in p.held && p.held[u] == c;
        assert u in q.held && q.held[u] == c;
      }
    }
  }

  /** With nothing held and not everything lost, a connection is idle. */
  lemma IdleWhenFree(p: Pool, all: set<Conn>)
    requires Safe(p, all) && p.held == map[] && !(all <= p.lost)
    ensures p.idle != []
    ensures p.asleep != {} ==> p.notified != {}
  {
    var c :| c in all && c !in p.lost;
    assert p.held.Values == {};
    assert c in p.idle;
  }
}

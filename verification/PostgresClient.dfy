/**
 The database client over its connection pool: `store` and `lookup` are brackets
 around a polling loop with several exits, and return the connection on each.
 What the server sends is given as the sequence of polls.
 */
module PostgresClient {
  import opened Options
  import opened ConnectionPool

  /** What one turn of the polling loop finds. */
  datatype Poll =
    | ConsumeFails
    | Busy
    | NoMore
    | CommandOk
    | Rows(values: seq<string>)
    | Failed

  /** The polls end a store loop at the first of these. */
  predicate EndsStore(p: Poll) {
    p == ConsumeFails || p == NoMore
  }

  /** A lookup also ends at a result that is not rows. */
  predicate EndsLookup(p: Poll) {
    EndsStore(p) || p == CommandOk || p == Failed
  }

  /** The store succeeded: a command result came before the end. */
  ghost predicate Stored(polls: seq<Poll>) {
    exists i :: 0 <= i < |polls| && polls[i] == CommandOk && forall j :: 0 <= j < i ==> !EndsStore(polls[j])
  }

  /** The last row of the results before the end. */
  ghost predicate IsFound(polls: seq<Poll>, result: Option<string>) {
    match result
    case None => forall i :: 0 <= i < |polls| ==> !HasRow(polls, i)
    case Some(url) =>
      exists i ::
        && 0 <= i < |polls| && HasRow(polls, i) && polls[i].values[0] == url
        && forall j :: i < j < |polls| ==> !HasRow(polls, j)
  }

  /** The poll delivers a row before the lookup has ended. */
  ghost predicate HasRow(polls: seq<Poll>, i: nat)
    requires i < |polls|
  {
    polls[i].Rows? && polls[i].values != [] && forall j :: 0 <= j < i ==> !EndsLookup(polls[j])
  }

  /**
   How far a call has come: asleep without a connection, polling with one because
   no poll delivered so far ends the loop, or returned.
   */
  datatype Progress<T> = Asleep | Polling | Returned(value: T)

  class RealDatabaseClient {
    const pool: ConnectionPool

    constructor (poolSize: nat)
      ensures fresh(pool) && pool.State() == NewPool(poolSize)
    {
      pool := new ConnectionPool(poolSize);
    }

    /**
     A call that finds the pool empty falls asleep and one whose polls do not end
     keeps its connection. A call that returns has given its connection back on
     every path: the queue has rotated by one, nobody holds anything new, and a
     sleeper, if any, has been notified.
     */
    method Store(t: ThreadId, sent: bool, polls: seq<Poll>)
      returns (r: Progress<bool>, ghost woken: Option<ThreadId>)
      requires t !in pool.held && t !in pool.asleep
      modifies pool
      ensures r.Asleep? <==> old(pool.connections) == []
      ensures r.Polling? <==>
                && old(pool.connections) != [] && sent
                && forall i :: 0 <= i < |polls| ==> polls[i] != ConsumeFails && polls[i] != NoMore
      ensures !r.Returned? ==> pool.State() == Take(old(pool.State()), t)
      ensures r.Returned? ==>
                && (r.value <==>
                      sent && exists i :: 0 <= i < |polls| && polls[i] == CommandOk
                                          && forall j :: 0 <= j < i ==> polls[j] != ConsumeFails && polls[j] != NoMore)
                && CanNotify(old(pool.State()), woken)
                && pool.State() == GiveBack(Take(old(pool.State()), t), t, woken)
                && pool.connections == old(pool.connections[1..] + [pool.connections[0]])
                && pool.held == old(pool.held)
    {
      var conn := pool.Acquire(t);
      if conn.None? {
        return Asleep, None;
      }
      if !sent {
        woken := pool.Release(t, conn.value);
        return Returned(false), woken;
      }
      var success := false;
      var i := 0;
      while i < |polls|
        invariant i <= |polls|
        invariant forall j :: 0 <= j < i ==> !EndsStore(polls[j])
        invariant success <==> CommandOk in polls[..i]
      {
        if polls[i] == ConsumeFails {
          break;
        }
        if polls[i] == Busy {
          i := i + 1;
          continue;
        }
        if polls[i] == NoMore {
          break;
        }
        if polls[i] == CommandOk {
          success := true;
        }
        i := i + 1;
      }
      if i == |polls| {
        return Polling, None;
      }
      StoredBefore(polls, i);
      woken := pool.Release(t, conn.value);
      r := Returned(success);
    }

    method Lookup(t: ThreadId, sent: bool, polls: seq<Poll>)
      returns (r: Progress<Option<string>>, ghost woken: Option<ThreadId>)
      requires t !in pool.held && t !in pool.asleep
      modifies pool
      ensures r.Asleep? <==> old(pool.connections) == []
      ensures r.Polling? <==>
                && old(pool.connections) != [] && sent
                && forall i :: 0 <= i < |polls| ==> polls[i].Busy? || polls[i].Rows?
      ensures !r.Returned? ==> pool.State() == Take(old(pool.State()), t)
      ensures r.Returned? ==>
                && (if sent then IsFound(polls, r.value) else r.value == None)
                && CanNotify(old(pool.State()), woken)
                && pool.State() == GiveBack(Take(old(pool.State()), t), t, woken)
                && pool.connections == old(pool.connections[1..] + [pool.connections[0]])
                && pool.held == old(pool.held)
    {
      var conn := pool.Acquire(t);
      if conn.None? {
        return Asleep, None;
      }
      if !sent {
        woken := pool.Release(t, conn.value);
        return Returned(None), woken;
      }
      var result: Option<string> := None;
      var i := 0;
      while i < |polls|
        invariant i <= |polls|
        invariant forall j :: 0 <= j < i ==> !EndsLookup(polls[j])
        invariant IsFound(polls[..i], result)
        modifies {}
      {
        if polls[i] == ConsumeFails {
          break;
        }
        if polls[i] == Busy {
          FoundLater(polls, i, result);
          i := i + 1;
          continue;
        }
        if polls[i] == NoMore {
          break;
        }
        if !polls[i].Rows? {
          break;
        }
        FoundLater(polls, i, result);
        if |polls[i].values| > 0 {
          result := Some(polls[i].values[0]);
        }
        i := i + 1;
      }
      if i == |polls| {
        return Polling, None;
      }
      FoundBefore(polls, i, result);
      woken := pool.Release(t, conn.value);
      r := Returned(result);
    }
  }

  /** What a lookup finds: the first value of the last rows before the end, where rows may be empty. */
  lemma FoundMeans(polls: seq<Poll>, url: string)
    ensures IsFound(polls, None)
            <==> forall i :: 0 <= i < |polls| && polls[i].Rows? && polls[i].values != [] ==>
                   exists j :: 0 <= j < i && !polls[j].Busy? && !polls[j].Rows?
    ensures IsFound(polls, Some(url))
            <==> exists i ::
                   && 0 <= i < |polls| && polls[i].Rows? && polls[i].values != [] && polls[i].values[0] == url
                   && (forall j :: 0 <= j < i ==> polls[j].Busy? || polls[j].Rows?)
                   && (forall k :: i < k < |polls| && polls[k].Rows? && polls[k].values != [] ==>
                         exists j :: 0 <= j < k && !polls[j].Busy? && !polls[j].Rows?)
  {
    forall i | 0 <= i < |polls|
      ensures HasRow(polls, i)
              <==> polls[i].Rows? && polls[i].values != []
                   && forall j :: 0 <= j < i ==> polls[j].Busy? || polls[j].Rows?
    {
    }
    hide HasRow, EndsLookup;
  }

  lemma StoredBefore(polls: seq<Poll>, n: nat)
    requires n < |polls| && EndsStore(polls[n]) && forall j :: 0 <= j < n ==> !EndsStore(polls[j])
    ensures Stored(polls) <==> CommandOk in polls[..n]
  {
    if CommandOk in polls[..n] {
      var i :| 0 <= i < n && polls[..n][i] == CommandOk;
      assert polls[i] == CommandOk;
    }
  }

  /** A poll among the first `n` counts the same whatever follows. */
  lemma RowsAgree(polls: seq<Poll>, n: nat, m: nat)
    requires n <= m <= |polls|
    ensures forall i :: 0 <= i < n ==> HasRow(polls[..n], i) == HasRow(polls[..m], i)
    ensures forall i :: 0 <= i < n ==> polls[..n][i] == polls[..m][i] == polls[i]
  {
  }

  /** One more poll: a row replaces the result, anything else keeps it. */
  lemma FoundLater(polls: seq<Poll>, n: nat, result: Option<string>)
    requires n < |polls| && IsFound(polls[..n], result)
    requires forall j :: 0 <= j < n ==> !EndsLookup(polls[j])
    ensures IsFound(polls[..n + 1],
                    if polls[n].Rows? && polls[n].values != [] then Some(polls[n].values[0]) else result)
  {
    var after := polls[..n + 1];
    assert HasRow(after, n) <==> polls[n].Rows? && polls[n].values != [];
    assert after[n] == polls[n];
    RowsAgree(polls, n, n + 1);
    hide HasRow, EndsLookup;
    if result.Some? && !HasRow(after, n) {
      var i :| 0 <= i < n && HasRow(polls[..n], i) && polls[..n][i].values[0] == result.value
               && forall j :: i < j < n ==> !HasRow(polls[..n], j);
      assert HasRow(after, i);
    }
  }

  /** Polls from the ending one on do not count. */
  lemma FoundBefore(polls: seq<Poll>, n: nat, result: Option<string>)
    requires n < |polls| && IsFound(polls[..n], result) && EndsLookup(polls[n])
    ensures IsFound(polls, result)
  {
    assert polls[..|polls|] == polls;
    RowsAgree(polls, n, |polls|);
    assert forall i :: n <= i < |polls| ==> !HasRow(polls, i);
    hide HasRow, EndsLookup;
    if result.Some? {
      var i :| 0 <= i < n && HasRow(polls[..n], i) && polls[..n][i].values[0] == result.value
               && forall j :: i < j < n ==> !HasRow(polls[..n], j);
      assert HasRow(polls, i);
    }
  }
}

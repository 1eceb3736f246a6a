/**
 The file store used by several threads. Creating an entity looks for an id and
 then writes the file, and other threads' calls can come between the two. When
 each resource has one writing thread the calls are atomic all the same;
 otherwise two creations can get one id, and the second replaces the first.
 */
module EntityThreads {
  import opened Options
  import opened Decimal
  import opened EntityStorage

  type ThreadId = nat

  datatype Task = Idle | Creating(resource: string, id: Id, data: string)

  /** `replies` are the answers so far, in the order in which they were given. */
  datatype Store = Store(files: Directories, tasks: map<ThreadId, Task>, replies: seq<Reply>)

  datatype Move =
    | Scan(t: ThreadId, resource: string, data: string)
    | Finish(t: ThreadId, opens: bool)
    | Update(t: ThreadId, resource: string, id: Id, data: string, opens: bool)
    | Remove(t: ThreadId, resource: string, id: Id)

  const NOTHING := Store(map[], map[], [])

  function TaskOf(s: Store, t: ThreadId): Task {
    if t in s.tasks then s.tasks[t] else Idle
  }

  ghost function FreeId(s: Store, resource: string): Option<Id> {
    NextId(IdsOf(Files(s.files, resource).Keys))
  }

  /** One step; a move the thread is not ready for changes nothing. */
  ghost function Next(s: Store, m: Move): Store {
    var task := TaskOf(s, m.t);
    if (task == Idle) == m.Finish? then s
    else match m
      case Scan(t, resource, data) =>
        var q := s.(files := WithDirectory(s.files, resource));
        (match FreeId(s, resource)
         case None => q.(replies := s.replies + [Created(None)])
         case Some(id) => q.(tasks := s.tasks[t := Creating(resource, id, data)]))
      case Finish(t, opens) =>
        Store(if opens then Write(s.files, task.resource, task.id, task.data) else s.files,
              s.tasks - {t},
              s.replies + [Created(if opens then Some(task.id) else None)])
      case Update(_, resource, id, data, opens) =>
        s.(files := if opens then Write(s.files, resource, id, data) else WithDirectory(s.files, resource),
           replies := s.replies + [Updated(opens)])
      case Remove(_, resource, id) =>
        var there := ToString(id) in Files(s.files, resource);
        s.(files := if there then s.files[resource := s.files[resource] - {ToString(id)}] else s.files,
           replies := s.replies + [Removed(there)])
  }

  ghost function After(ms: seq<Move>): Store {
    if ms == [] then NOTHING else Next(After(ms[..|ms| - 1]), ms[|ms| - 1])
  }

  /** A creation is about to write a file that is there. */
  predicate Replaces(s: Store, m: Move) {
    m.Finish? && m.opens
    && TaskOf(s, m.t).Creating? && ToString(TaskOf(s, m.t).id) in Files(s.files, TaskOf(s, m.t).resource)
  }

  ghost predicate NeverReplaces(ms: seq<Move>) {
    forall k :: 0 <= k < |ms| ==> !Replaces(After(ms[..k]), ms[k])
  }

  /** Which thread may create, update and remove in which resource. */
  type Writers = set<(ThreadId, string)>

  predicate Allowed(writers: Writers, m: Move) {
    m.Finish? || (m.t, m.resource) in writers
  }

  predicate AllAllowed(writers: Writers, ms: seq<Move>) {
    forall i :: 0 <= i < |ms| ==> Allowed(writers, ms[i])
  }

  predicate OneWriter(writers: Writers) {
    forall a, b :: a in writers && b in writers && a.1 == b.1 ==> a.0 == b.0
  }

  /** A creation that nobody interrupts is the atomic one. */
  lemma CreateRunsAlone(s: Store, t: ThreadId, resource: string, data: string, opens: bool)
    requires TaskOf(s, t) == Idle
    ensures var q := Next(Next(s, Scan(t, resource, data)), Finish(t, opens));
            && |q.replies| == |s.replies| + 1 && TaskOf(q, t) == Idle
            && RealStep(s.files, Create(resource, data), opens, q.files, q.replies[|s.replies|])
  {
    hide ToString, IdsOf, NextId;
    var next := FreeId(s, resource);
    if next.Some? {
      assert Write(WithDirectory(s.files, resource), resource, next.value, data)
          == Write(s.files, resource, next.value, data);
    }
  }

  // ---------------------------------------------------------------------------
  // With one writer for each resource.

  /** The id a thread has found is still the one that it would find. */
  ghost predicate Stands(writers: Writers, s: Store, t: ThreadId) {
    var task := TaskOf(s, t);
    task.Creating? ==>
      && (t, task.resource) in writers && task.resource in s.files
      && FreeId(s, task.resource) == Some(task.id)
  }

  ghost predicate IdsStand(writers: Writers, s: Store) {
    forall t: ThreadId :: Stands(writers, s, t)
  }

  /** A step changes the files of its own resource only. */
  lemma OthersUntouched(writers: Writers, s: Store, m: Move, resource: string)
    requires Stands(writers, s, m.t) && Allowed(writers, m) && (m.t, resource) !in writers
    ensures Files(Next(s, m).files, resource) == Files(s.files, resource)
    ensures resource in s.files ==> resource in Next(s, m).files
  {
    hide ToString, IdsOf, Stoi;
  }

  lemma ScannedStands(s: Store, m: Move)
    requires m.Scan? && TaskOf(s, m.t) == Idle && FreeId(s, m.resource).Some?
    ensures var q := Next(s, m);
            m.resource in q.files && FreeId(q, m.resource) == FreeId(s, m.resource)
  {
    hide IdsOf;
    assert Files(Next(s, m).files, m.resource) == Files(s.files, m.resource);
  }

  lemma OwnTaskStands(writers: Writers, s: Store, m: Move)
    requires Stands(writers, s, m.t) && Allowed(writers, m)
    ensures Stands(writers, Next(s, m), m.t)
  {
    if m.Scan? && TaskOf(s, m.t) == Idle && FreeId(s, m.resource).Some? {
      ScannedStands(s, m);
    }
    hide FreeId, IdsOf, ToString;
  }

  lemma OtherTaskStands(writers: Writers, s: Store, m: Move, t: ThreadId)
    requires OneWriter(writers) && Stands(writers, s, t) && Stands(writers, s, m.t) && Allowed(writers, m) && t != m.t
    ensures Stands(writers, Next(s, m), t)
  {
    OtherTaskStays(s, m, t);
    var task := TaskOf(s, t);
    if task.Creating? {
      OthersUntouched(writers, s, m, task.resource);
    }
    hide Next, IdsOf;
  }

  lemma OtherTaskStays(s: Store, m: Move, t: ThreadId)
    requires t != m.t
    ensures TaskOf(Next(s, m), t) == TaskOf(s, t)
  {
    hide IdsOf, ToString;
  }

  lemma NextStands(writers: Writers, s: Store, m: Move)
    requires OneWriter(writers) && IdsStand(writers, s) && Allowed(writers, m)
    ensures IdsStand(writers, Next(s, m))
  {
    hide Next, Stands, Allowed, OneWriter;
    forall t: ThreadId
      ensures Stands(writers, Next(s, m), t)
    {
      assert Stands(writers, s, t) && Stands(writers, s, m.t);
      if t == m.t {
        OwnTaskStands(writers, s, m);
      } else {
        OtherTaskStands(writers, s, m, t);
      }
    }
  }

  lemma FreeIdHasNoFile(names: set<string>, id: Id)
    requires NextId(IdsOf(names)) == Some(id)
    ensures ToString(id) !in names
  {
    hide Stoi, ToString;
    NameOfId(id);
    NextIdIsFresh(IdsOf(names));
    var name := ToString(id);
    if name in names {
      NameGivesId(names, name);
      assert false;
    }
  }

  lemma NameGivesId(names: set<string>, name: string)
    requires name in names && Stoi(name).Some?
    ensures Stoi(name).value.value in IdsOf(names)
  {
  }

  lemma StandsDoesNotReplace(writers: Writers, s: Store, m: Move)
    requires IdsStand(writers, s)
    ensures !Replaces(s, m)
  {
    hide ToString, IdsOf;
    assert Stands(writers, s, m.t);
    var task := TaskOf(s, m.t);
    if task.Creating? {
      FreeIdHasNoFile(Files(s.files, task.resource).Keys, task.id);
    }
  }

  lemma {:induction false} AfterStands(writers: Writers, ms: seq<Move>)
    requires OneWriter(writers) && AllAllowed(writers, ms)
    ensures IdsStand(writers, After(ms))
    decreases |ms|
  {
    hide Next, IdsStand, OneWriter, Allowed;
    if ms == [] {
      NothingStands(writers);
    } else {
      AfterStands(writers, ms[..|ms| - 1]);
      NextStands(writers, After(ms[..|ms| - 1]), ms[|ms| - 1]);
    }
  }

  lemma NothingStands(writers: Writers)
    ensures IdsStand(writers, NOTHING)
  {
  }

  // ---------------------------------------------------------------------------
  // The atomic calls.

  /** The call, if any, that takes effect in this step. */
  ghost function Point(s: Store, m: Move): seq<Attempt> {
    var task := TaskOf(s, m.t);
    if (task == Idle) == m.Finish? then []
    else match m
      case Scan(_, resource, data) =>
        if FreeId(s, resource).None? then [Attempt(Create(resource, data), true)] else []
      case Finish(_, opens) => [Attempt(Create(task.resource, task.data), opens)]
      case Update(_, resource, id, data, opens) => [Attempt(Call.Update(resource, id, data), opens)]
      case Remove(_, resource, id) => [Attempt(Call.Remove(resource, id), true)]
  }

  /** The calls in the order in which they take effect. */
  ghost function Linear(ms: seq<Move>): seq<Attempt> {
    if ms == [] then []
    else Linear(ms[..|ms| - 1]) + Point(After(ms[..|ms| - 1]), ms[|ms| - 1])
  }

  /** A step in which a call takes effect is that call on the file store. */
  lemma PointIsCall(writers: Writers, s: Store, m: Move, a: Attempt)
    requires IdsStand(writers, s) && Point(s, m) == [a]
    ensures var q := Next(s, m);
            var n := |s.replies|;
            && |q.replies| == n + 1 && q.replies == s.replies + [q.replies[n]] && !q.replies[n].Listed?
            && RealStep(s.files, a.call, a.opens, q.files, q.replies[n])
    ensures WritesFile(a.call) || a.call.Remove?
  {
    hide IdsOf, ToString;
    assert Stands(writers, s, m.t);
    var task := TaskOf(s, m.t);
    if m.Finish? {
      assert s.files[task.resource := s.files[task.resource]] == s.files;
    }
  }

  /** Any other step can only make an empty directory. */
  lemma NoPointNoChange(s: Store, m: Move, e: Entities)
    requires Point(s, m) == [] && Related(s.files, e)
    ensures Related(Next(s, m).files, e) && Next(s, m).replies == s.replies
  {
    hide IdsOf, ToString, SameFiles;
    forall resource
      ensures Files(Next(s, m).files, resource) == Files(s.files, resource)
    {
    }
  }

  lemma MapStoreAnswers(e: Entities, a: Attempt) returns (e': Entities, r: Reply)
    requires WritesFile(a.call) || a.call.Remove?
    ensures SimAttempt(e, a, e', r)
  {
    if WritesFile(a.call) && !a.opens {
      return e, FailedReply(a.call);
    }
    match a.call {
      case Create(resource, data) =>
        var next := NextId(IdsIn(e, resource));
        return if next.None? then e else Put(e, resource, next.value, data), Created(next);
      case Update(resource, id, data) =>
        return Put(e, resource, id, data), Updated(true);
      case Remove(resource, id) =>
        return Drop(e, resource, id), Removed(Lookup(e, resource, id).Some?);
    }
  }

  lemma {:induction false} AfterIsAtomic(writers: Writers, ms: seq<Move>) returns (es: seq<Entities>)
    requires OneWriter(writers) && AllAllowed(writers, ms)
    ensures SimRun(es, Linear(ms), After(ms).replies) && Related(After(ms).files, es[|es| - 1])
    decreases |ms|
  {
    hide Next, IdsStand, OneWriter, Allowed, Point, RealStep, SimAttempt, Related;
    if ms == [] {
      es := [map[]];
      EmptyRelated();
    } else {
      var m, before := ms[|ms| - 1], ms[..|ms| - 1];
      var s := After(before);
      es := AfterIsAtomic(writers, before);
      AfterStands(writers, before);
      var e := es[|es| - 1];
      if Point(s, m) == [] {
        NoPointNoChange(s, m, e);
        assert Linear(ms) == Linear(before) + [];
      } else {
        AtMostOnePoint(s, m);
        var a := Point(s, m)[0];
        PointIsCall(writers, s, m, a);
        var e', r := MapStoreAnswers(e, a);
        var q := After(ms).replies[|s.replies|];
        AttemptSimulates(s.files, e, a, After(ms).files, q, e', r);
        es := es + [e'];
      }
    }
  }

  lemma AtMostOnePoint(s: Store, m: Move)
    ensures Point(s, m) == [] || Point(s, m) == [Point(s, m)[0]]
  {
  }

  /**
   With one writing thread for each resource every interleaving is linearizable:
   the calls, in the order in which they take effect, are a run of the map store
   that gives the same replies and ends with the entities the files hold.
   */
  lemma OneWriterIsAtomic(writers: Writers, ms: seq<Move>)
    requires OneWriter(writers) && AllAllowed(writers, ms)
    ensures exists es :: SimRun(es, Linear(ms), After(ms).replies) && Related(After(ms).files, es[|es| - 1])
  {
    var es := AfterIsAtomic(writers, ms);
  }

  // ---------------------------------------------------------------------------
  // With two.

  /** Two threads look for an id before either has written its file. */
  function Race(t: ThreadId, u: ThreadId, resource: string): seq<Move> {
    [Scan(t, resource, "a"), Scan(u, resource, "b"), Finish(t, true), Finish(u, true)]
  }

  lemma FirstId()
    ensures IdsOf({}) == {} && NextId({}) == Some(1)
  {
    NextIdIsFresh({});
  }

  lemma RaceReplaces(t: ThreadId, u: ThreadId, resource: string)
    requires t != u
    ensures var ms := Race(t, u, resource);
            && Replaces(After(ms[..3]), ms[3])
            && After(ms).replies == [Created(Some(1)), Created(Some(1))]
            && After(ms).files == map[resource := map[ToString(1) := "b"]]
  {
    hide ToString, IdsOf, NextId;
    var ms := Race(t, u, resource);
    var s2 := BothFindOne(t, u, resource);
    var s1 := Next(NOTHING, ms[0]);
    var s3 := Next(s2, ms[2]);
    var s4 := Next(s3, ms[3]);
    var content := map[ToString(1) := "a"];
    assert s3.files == map[resource := content];
    assert s3.tasks == map[u := Creating(resource, 1, "b")];
    assert content[ToString(1) := "b"] == map[ToString(1) := "b"];
    assert Files(s3.files, resource) == content;
    AfterFour(ms, s1, s2, s3, s4);
  }

  lemma BothFindOne(t: ThreadId, u: ThreadId, resource: string) returns (s: Store)
    requires t != u
    ensures s == Next(Next(NOTHING, Scan(t, resource, "a")), Scan(u, resource, "b"))
    ensures s.files == map[resource := map[]] && s.replies == []
    ensures s.tasks == map[t := Creating(resource, 1, "a"), u := Creating(resource, 1, "b")]
  {
    hide ToString, IdsOf, NextId;
    FirstId();
    assert Files(NOTHING.files, resource).Keys == {};
    var s1 := Next(NOTHING, Scan(t, resource, "a"));
    assert s1.tasks == map[t := Creating(resource, 1, "a")] && Files(s1.files, resource).Keys == {};
    s := Next(s1, Scan(u, resource, "b"));
  }

  lemma AfterFour(ms: seq<Move>, s1: Store, s2: Store, s3: Store, s4: Store)
    requires |ms| == 4
    requires s1 == Next(NOTHING, ms[0]) && s2 == Next(s1, ms[1]) && s3 == Next(s2, ms[2]) && s4 == Next(s3, ms[3])
    ensures After(ms[..3]) == s3 && After(ms) == s4
  {
    hide Next;
    assert ms[..4] == ms && ms[..0] == [];
    assert ms[..1][..0] == [] && ms[..2][..1] == ms[..1] && ms[..3][..2] == ms[..2] && ms[..4][..3] == ms[..3];
    assert After(ms[..1]) == s1;
    assert After(ms[..2]) == s2;
  }

  /**
   The exact condition: whatever is created, updated and removed within these
   rights, no creation ever replaces an entity, if and only if no resource has two
   writing threads.
   */
  lemma OneWriterExactly(writers: Writers)
    ensures OneWriter(writers) <==> forall ms :: AllAllowed(writers, ms) ==> NeverReplaces(ms)
  {
    hide After, IdsStand, Replaces, ToString;
    if OneWriter(writers) {
      forall ms | AllAllowed(writers, ms)
        ensures NeverReplaces(ms)
      {
        forall k | 0 <= k < |ms|
          ensures !Replaces(After(ms[..k]), ms[k])
        {
          AfterStands(writers, ms[..k]);
          StandsDoesNotReplace(writers, After(ms[..k]), ms[k]);
        }
      }
    } else {
      var a, b :| a in writers && b in writers && a.1 == b.1 && a.0 != b.0;
      RaceReplaces(a.0, b.0, a.1);
      assert AllAllowed(writers, Race(a.0, b.0, a.1));
    }
  }
}

/**
 The URL shortener with its requests cut into the steps other threads can come
 between: each lookup, store, cache read and cache write is a step of its own.
 A lookup may fail and then reports nothing found, as the database client does.

 Unlike atomic requests, interleaved ones can overwrite an entry. Exactly when
 two posted URLs share their first candidate.
 */
module ShortenerThreads {
  import opened Options
  import opened Shortener

  type ThreadId = nat

  /** What a thread does next. */
  datatype Task =
    | Idle
    | LookingUp(url: string, attempt: nat)
    | Storing(url: string, attempt: nat)
    | ReadingCache(code: string)
    | ReadingTable(code: string)
    | WritingCache(code: string, found: string)

  /** `answers` are the (URL, code) pairs of the 200 answers, `redirects` the (code, URL) pairs of the 302s. */
  datatype Server = Server(table: Table, cache: Table, tasks: map<ThreadId, Task>,
                           answers: set<(string, string)>, redirects: set<(string, string)>)

  datatype Move =
    | BeginPost(t: ThreadId, url: string)
    | Lookup(t: ThreadId, fails: bool)
    | Store(t: ThreadId, works: bool)
    | BeginGet(t: ThreadId, code: string)
    | ReadCache(t: ThreadId, fails: bool)
    | ReadTable(t: ThreadId, fails: bool)
    | WriteCache(t: ThreadId)
    | Evict(code: string)

  function TaskOf(s: Server, t: ThreadId): Task {
    if t in s.tasks then s.tasks[t] else Idle
  }

  function Found(t: Table, code: string, fails: bool): Option<string> {
    if fails then None else Find(t, code)
  }

  /** One step; a move the thread is not ready for changes nothing. */
  function Next(h: Encoder, s: Server, m: Move): Server {
    if m.Evict? then s.(cache := s.cache - {m.code})
    else
      var task := TaskOf(s, m.t);
      match m
      case BeginPost(t, url) =>
        if task == Idle then s.(tasks := s.tasks[t := LookingUp(url, 0)]) else s
      case Lookup(t, fails) =>
        if !task.LookingUp? then s
        else
          var code := Candidate(h, task.url, task.attempt);
          (match Found(s.table, code, fails)
           case None => s.(tasks := s.tasks[t := Storing(task.url, task.attempt)])
           case Some(url) =>
             if url == task.url then s.(tasks := s.tasks[t := Idle], answers := s.answers + {(url, code)})
             else if task.attempt + 1 < MAX_ATTEMPTS then
               s.(tasks := s.tasks[t := LookingUp(task.url, task.attempt + 1)])
             else s.(tasks := s.tasks[t := Idle]))
      case Store(t, works) =>
        if !task.Storing? then s
        else if !works then s.(tasks := s.tasks[t := Idle])
        else
          var code := Candidate(h, task.url, task.attempt);
          s.(table := s.table[code := task.url], tasks := s.tasks[t := Idle],
             answers := s.answers + {(task.url, code)})
      case BeginGet(t, code) =>
        if task == Idle then s.(tasks := s.tasks[t := ReadingCache(code)]) else s
      case ReadCache(t, fails) =>
        if !task.ReadingCache? then s
        else
          (match Found(s.cache, task.code, fails)
           case None => s.(tasks := s.tasks[t := ReadingTable(task.code)])
           case Some(url) => s.(tasks := s.tasks[t := Idle], redirects := s.redirects + {(task.code, url)}))
      case ReadTable(t, fails) =>
        if !task.ReadingTable? then s
        else
          (match Found(s.table, task.code, fails)
           case None => s.(tasks := s.tasks[t := Idle])
           case Some(url) => s.(tasks := s.tasks[t := WritingCache(task.code, url)]))
      case WriteCache(t) =>
        if !task.WritingCache? then s
        else s.(cache := s.cache[task.code := task.found], tasks := s.tasks[t := Idle],
                redirects := s.redirects + {(task.code, task.found)})
      case Evict(_) => s
  }

  function Steps(h: Encoder, s: Server, ms: seq<Move>): Server
    decreases |ms|
  {
    if ms == [] then s else Steps(h, Next(h, s, ms[0]), ms[1..])
  }

  const QUIET := Server(map[], map[], map[], {}, {})

  /** The moves post only URLs of `urls`. */
  predicate PostsOnly(ms: seq<Move>, urls: set<string>) {
    forall i :: 0 <= i < |ms| && ms[i].BeginPost? ==> ms[i].url in urls
  }

  // ---------------------------------------------------------------------------
  // What every interleaving keeps. `attempts` bounds the attempts in use.

  /** `code` is one of the first `attempts` candidates of a posted URL. */
  ghost predicate IsCode(h: Encoder, urls: set<string>, attempts: nat, code: string, url: string) {
    url in urls && exists j: nat :: j < attempts && code == Candidate(h, url, j)
  }

  ghost predicate AllCodes(h: Encoder, urls: set<string>, attempts: nat, t: Table) {
    forall code :: code in t ==> IsCode(h, urls, attempts, code, t[code])
  }

  ghost predicate TaskCodes(h: Encoder, urls: set<string>, attempts: nat, task: Task) {
    match task
    case Idle => true
    case LookingUp(url, attempt) => url in urls && attempt < attempts
    case Storing(url, attempt) => url in urls && attempt < attempts
    case ReadingCache(_) => true
    case ReadingTable(_) => true
    case WritingCache(code, url) => IsCode(h, urls, attempts, code, url)
  }

  ghost predicate Coded(h: Encoder, urls: set<string>, attempts: nat, s: Server) {
    && AllCodes(h, urls, attempts, s.table)
    && AllCodes(h, urls, attempts, s.cache)
    && (forall t :: t in s.tasks ==> TaskCodes(h, urls, attempts, s.tasks[t]))
    && (forall a :: a in s.answers ==> IsCode(h, urls, attempts, a.1, a.0))
    && (forall a :: a in s.redirects ==> IsCode(h, urls, attempts, a.0, a.1))
  }

  /** A lookup that moves on to another attempt stays within the bound. */
  ghost predicate Bounded(h: Encoder, attempts: nat, s: Server, m: Move) {
    m.Lookup? && TaskOf(s, m.t).LookingUp? && TaskOf(Next(h, s, m), m.t).LookingUp?
    ==> TaskOf(Next(h, s, m), m.t).attempt < attempts
  }

  lemma TaskInHand(h: Encoder, urls: set<string>, attempts: nat, s: Server, t: ThreadId)
    requires Coded(h, urls, attempts, s)
    ensures var task := TaskOf(s, t);
            && TaskCodes(h, urls, attempts, task)
            && (task.LookingUp? || task.Storing? ==>
                  IsCode(h, urls, attempts, Candidate(h, task.url, task.attempt), task.url))
  {
    hide Candidate;
  }

  lemma NextTables(h: Encoder, urls: set<string>, attempts: nat, s: Server, m: Move)
    requires Coded(h, urls, attempts, s)
    ensures AllCodes(h, urls, attempts, Next(h, s, m).table)
    ensures AllCodes(h, urls, attempts, Next(h, s, m).cache)
  {
    hide Candidate;
    if !m.Evict? {
      TaskInHand(h, urls, attempts, s, m.t);
    }
  }

  lemma NextTasks(h: Encoder, urls: set<string>, attempts: nat, s: Server, m: Move)
    requires Coded(h, urls, attempts, s) && attempts > 0
    requires Bounded(h, attempts, s, m) && (m.BeginPost? ==> m.url in urls)
    ensures forall t :: t in Next(h, s, m).tasks ==> TaskCodes(h, urls, attempts, Next(h, s, m).tasks[t])
  {
    hide Next, TaskCodes;
    OtherTasksStay(h, s, m);
    if !m.Evict? {
      OwnTask(h, urls, attempts, s, m);
    }
  }

  lemma OtherTasksStay(h: Encoder, s: Server, m: Move)
    ensures forall t :: t in Next(h, s, m).tasks && (m.Evict? || t != m.t) ==>
              t in s.tasks && Next(h, s, m).tasks[t] == s.tasks[t]
  {
  }

  lemma OwnTask(h: Encoder, urls: set<string>, attempts: nat, s: Server, m: Move)
    requires Coded(h, urls, attempts, s) && attempts > 0
    requires Bounded(h, attempts, s, m) && (m.BeginPost? ==> m.url in urls) && !m.Evict?
    ensures TaskCodes(h, urls, attempts, TaskOf(Next(h, s, m), m.t))
  {
    hide Candidate;
    TaskInHand(h, urls, attempts, s, m.t);
  }

  lemma NextAnswers(h: Encoder, urls: set<string>, attempts: nat, s: Server, m: Move)
    requires Coded(h, urls, attempts, s)
    ensures forall a :: a in Next(h, s, m).answers ==> IsCode(h, urls, attempts, a.1, a.0)
    ensures forall a :: a in Next(h, s, m).redirects ==> IsCode(h, urls, attempts, a.0, a.1)
  {
    hide Candidate;
    if !m.Evict? {
      TaskInHand(h, urls, attempts, s, m.t);
    }
  }

  lemma NextCoded(h: Encoder, urls: set<string>, attempts: nat, s: Server, m: Move)
    requires Coded(h, urls, attempts, s) && attempts > 0
    requires Bounded(h, attempts, s, m) && (m.BeginPost? ==> m.url in urls)
    ensures Coded(h, urls, attempts, Next(h, s, m))
  {
    hide Next;
    NextTables(h, urls, attempts, s, m);
    NextTasks(h, urls, attempts, s, m);
    NextAnswers(h, urls, attempts, s, m);
  }

  /**
   However threads interleave, and whichever lookups and stores fail, every entry
   of the table and of the cache, every answer and every redirect pairs a posted
   URL with one of its five candidates.
   */
  lemma {:induction false} StepsCoded(h: Encoder, urls: set<string>, s: Server, ms: seq<Move>)
    requires Coded(h, urls, MAX_ATTEMPTS, s) && PostsOnly(ms, urls)
    ensures Coded(h, urls, MAX_ATTEMPTS, Steps(h, s, ms))
    decreases |ms|
  {
    if ms != [] {
      assert Bounded(h, MAX_ATTEMPTS, s, ms[0]);
      NextCoded(h, urls, MAX_ATTEMPTS, s, ms[0]);
      StepsCoded(h, urls, Next(h, s, ms[0]), ms[1..]);
    }
  }

  /** No two of the URLs have the same first candidate. */
  predicate FirstCandidatesDistinct(h: Encoder, urls: set<string>) {
    forall u, v :: u in urls && v in urls && u != v ==> Candidate(h, u, 0) != Candidate(h, v, 0)
  }

  /** The candidate a thread works on, if present, belongs to its URL. */
  lemma CandidateIsOwn(h: Encoder, urls: set<string>, s: Server, t: ThreadId)
    requires FirstCandidatesDistinct(h, urls) && Coded(h, urls, 1, s)
    ensures var task := TaskOf(s, t);
            task.LookingUp? || task.Storing? ==>
              var code := Candidate(h, task.url, task.attempt);
              task.attempt == 0 && (code in s.table ==> s.table[code] == task.url)
  {
    hide Candidate;
    var task := TaskOf(s, t);
    TaskInHand(h, urls, 1, s, t);
    if task.LookingUp? || task.Storing? {
      var code := Candidate(h, task.url, task.attempt);
      assert code in s.table ==> IsCode(h, urls, 1, code, s.table[code]);
    }
  }

  lemma NextFirst(h: Encoder, urls: set<string>, s: Server, m: Move)
    requires FirstCandidatesDistinct(h, urls) && Coded(h, urls, 1, s)
    ensures Bounded(h, 1, s, m)
    ensures Within(s.table, Next(h, s, m).table)
  {
    hide Candidate, FirstCandidatesDistinct, Coded;
    if !m.Evict? {
      CandidateIsOwn(h, urls, s, m.t);
    }
  }

  /**
   If no two posted URLs share their first candidate, every interleaving gives
   each URL its first candidate and never changes an entry.
   */
  lemma {:induction false} StepsFirst(h: Encoder, urls: set<string>, s: Server, ms: seq<Move>)
    requires FirstCandidatesDistinct(h, urls)
    requires Coded(h, urls, 1, s) && PostsOnly(ms, urls)
    ensures Coded(h, urls, 1, Steps(h, s, ms))
    ensures Within(s.table, Steps(h, s, ms).table)
    decreases |ms|
  {
    if ms != [] {
      NextFirst(h, urls, s, ms[0]);
      NextCoded(h, urls, 1, s, ms[0]);
      StepsFirst(h, urls, Next(h, s, ms[0]), ms[1..]);
    }
  }

  // ---------------------------------------------------------------------------
  // What an answer is worth.

  /** Every answered code is in the table, for the URL it was answered to. */
  ghost predicate Kept(s: Server) {
    forall a :: a in s.answers ==> a.1 in s.table && s.table[a.1] == a.0
  }

  lemma NextKept(h: Encoder, urls: set<string>, s: Server, m: Move)
    requires FirstCandidatesDistinct(h, urls) && Coded(h, urls, 1, s) && Kept(s)
    ensures Kept(Next(h, s, m))
  {
    hide Candidate, FirstCandidatesDistinct, Coded;
    NextFirst(h, urls, s, m);
    if !m.Evict? {
      CandidateIsOwn(h, urls, s, m.t);
    }
  }

  lemma {:induction false} StepsKept(h: Encoder, urls: set<string>, s: Server, ms: seq<Move>)
    requires FirstCandidatesDistinct(h, urls) && PostsOnly(ms, urls)
    requires Coded(h, urls, 1, s) && Kept(s)
    ensures Kept(Steps(h, s, ms))
    decreases |ms|
  {
    hide Next, Kept, Coded, FirstCandidatesDistinct;
    if ms != [] {
      NextFirst(h, urls, s, ms[0]);
      NextCoded(h, urls, 1, s, ms[0]);
      NextKept(h, urls, s, ms[0]);
      StepsKept(h, urls, Next(h, s, ms[0]), ms[1..]);
    }
  }

  /** Every redirect of an answered code goes to the URL it was answered to. */
  ghost predicate RedirectsAgree(s: Server) {
    forall a, r :: a in s.answers && r in s.redirects && r.0 == a.1 ==> r.1 == a.0
  }

  lemma CodedRedirectsAgree(h: Encoder, urls: set<string>, s: Server)
    requires FirstCandidatesDistinct(h, urls) && Coded(h, urls, 1, s)
    ensures RedirectsAgree(s)
  {
    hide Candidate;
    forall a, r | a in s.answers && r in s.redirects && r.0 == a.1
      ensures r.1 == a.0
    {
      assert IsCode(h, urls, 1, a.1, a.0) && IsCode(h, urls, 1, r.0, r.1);
    }
  }

  lemma CacheIsOwn(h: Encoder, urls: set<string>, s: Server, url: string, code: string)
    requires FirstCandidatesDistinct(h, urls) && Coded(h, urls, 1, s) && (url, code) in s.answers
    ensures code in s.cache ==> s.cache[code] == url
  {
    hide Candidate;
    assert IsCode(h, urls, 1, code, url);
    if code in s.cache {
      assert IsCode(h, urls, 1, code, s.cache[code]);
    }
  }

  /** A thread serves a GET of the code, and has nothing else than this URL for it. */
  predicate Serving(task: Task, url: string, code: string) {
    task == ReadingCache(code) || task == ReadingTable(code) || task == WritingCache(code, url)
  }

  /** How many steps of its own a GET still takes, at most. */
  function StepsLeft(task: Task): nat {
    match task
    case ReadingCache(_) => 3
    case ReadingTable(_) => 2
    case WritingCache(_, _) => 1
    case _ => 0
  }

  /** The thread's move is the one its GET waits for. */
  predicate IsTurn(m: Move, t: ThreadId, left: nat) {
    !m.Evict? && m.t == t
    && ((left == 3 && m.ReadCache?) || (left == 2 && m.ReadTable?) || (left == 1 && m.WriteCache?))
  }

  /** The moves hold the steps a GET still takes, in order, among any others. */
  predicate HasTurns(ms: seq<Move>, t: ThreadId, left: nat)
    decreases |ms|
  {
    left == 0 || (ms != [] && HasTurns(ms[1..], t, if IsTurn(ms[0], t, left) then left - 1 else left))
  }

  lemma NextServes(h: Encoder, urls: set<string>, s: Server, m: Move, t: ThreadId, url: string, code: string)
    requires FirstCandidatesDistinct(h, urls) && Coded(h, urls, 1, s) && Kept(s) && (url, code) in s.answers
    requires Serving(TaskOf(s, t), url, code) && m != ReadTable(t, true)
    ensures var q := Next(h, s, m);
            var left := StepsLeft(TaskOf(s, t));
            if !IsTurn(m, t, left) then TaskOf(q, t) == TaskOf(s, t)
            else (Serving(TaskOf(q, t), url, code) && StepsLeft(TaskOf(q, t)) == left - 1)
                 || (TaskOf(q, t) == Idle && (code, url) in q.redirects)
    ensures (url, code) in Next(h, s, m).answers
  {
    hide Candidate, Coded, FirstCandidatesDistinct;
    CacheIsOwn(h, urls, s, url, code);
  }

  /** A thread redirects this code to this URL in its step from `s` by `m`. */
  ghost predicate RedirectsNow(h: Encoder, s: Server, m: Move, t: ThreadId, url: string, code: string) {
    && IsTurn(m, t, StepsLeft(TaskOf(s, t)))
    && TaskOf(Next(h, s, m), t) == Idle && (code, url) in Next(h, s, m).redirects
  }

  /**
   POST, then GET, with any steps of other threads between and around their own: a
   GET of an answered code whose look-up does not fail stays with that code and its
   URL up to a step, the `n`th, in which it redirects to the URL. It gets there as
   soon as it has had its turns.
   */
  lemma {:induction false} AnsweredGetRedirects(h: Encoder, urls: set<string>, s: Server, ms: seq<Move>,
                                                t: ThreadId, url: string, code: string) returns (n: nat)
    requires FirstCandidatesDistinct(h, urls) && PostsOnly(ms, urls)
    requires Coded(h, urls, 1, s) && Kept(s) && (url, code) in s.answers
    requires Serving(TaskOf(s, t), url, code)
    requires forall i :: 0 <= i < |ms| ==> ms[i] != ReadTable(t, true)
    ensures n <= |ms|
    ensures forall k :: 0 <= k <= n ==> Serving(TaskOf(Steps(h, s, ms[..k]), t), url, code)
    ensures n < |ms| ==> RedirectsNow(h, Steps(h, s, ms[..n]), ms[n], t, url, code)
    ensures HasTurns(ms, t, StepsLeft(TaskOf(s, t))) ==> n < |ms|
    decreases |ms|
  {
    hide Next, Coded, Kept, FirstCandidatesDistinct, Serving, IsTurn;
    if ms == [] {
      n := 0;
      ServingLeft(TaskOf(s, t), url, code);
    } else {
      var m, q := ms[0], Next(h, s, ms[0]);
      NextServes(h, urls, s, m, t, url, code);
      assert ms[..0] == [];
      if Serving(TaskOf(q, t), url, code) {
        NextFirst(h, urls, s, m);
        NextCoded(h, urls, 1, s, m);
        NextKept(h, urls, s, m);
        var rest := AnsweredGetRedirects(h, urls, q, ms[1..], t, url, code);
        n := rest + 1;
        forall k | 0 <= k <= n
          ensures Serving(TaskOf(Steps(h, s, ms[..k]), t), url, code)
        {
          if k > 0 {
            StepsFirstMove(h, s, ms, k);
          }
        }
        StepsFirstMove(h, s, ms, n);
      } else {
        n := 0;
      }
    }
  }

  lemma ServingLeft(task: Task, url: string, code: string)
    requires Serving(task, url, code)
    ensures StepsLeft(task) > 0
  {
  }

  lemma StepsFirstMove(h: Encoder, s: Server, ms: seq<Move>, k: nat)
    requires 0 < k <= |ms|
    ensures Steps(h, s, ms[..k]) == Steps(h, Next(h, s, ms[0]), ms[1..][..k - 1])
  {
    hide Next;
    assert ms[..k][1..] == ms[1..][..k - 1];
  }

  // ---------------------------------------------------------------------------
  // When it goes wrong.

  /** Two answers give one code to two URLs. */
  ghost predicate Confused(s: Server) {
    exists u, v, code :: u != v && (u, code) in s.answers && (v, code) in s.answers
  }

  /** Two threads look the shared candidate up before either has stored it. */
  function Race(u: string, v: string): seq<Move> {
    [BeginPost(0, u), BeginPost(1, v), Lookup(0, false), Lookup(1, false), Store(0, true), Store(1, true)]
  }

  lemma RaceConfuses(h: Encoder, u: string, v: string)
    requires u != v && Candidate(h, u, 0) == Candidate(h, v, 0)
    ensures Confused(Steps(h, QUIET, Race(u, v)))
    ensures Steps(h, QUIET, Race(u, v)[..5]).table == map[Candidate(h, u, 0) := u]
    ensures Steps(h, QUIET, Race(u, v)).table == map[Candidate(h, u, 0) := v]
  {
    hide Candidate, Next;
    RaceEnds(h, u, v);
  }

  lemma RaceEnds(h: Encoder, u: string, v: string)
    requires u != v && Candidate(h, u, 0) == Candidate(h, v, 0)
    ensures var code, s := Candidate(h, u, 0), Steps(h, QUIET, Race(u, v));
            && Steps(h, QUIET, Race(u, v)[..5]).table == map[code := u]
            && s.table == map[code := v] && s.cache == map[] && TaskOf(s, 0) == Idle
            && (u, code) in s.answers && (v, code) in s.answers
  {
    hide Candidate;
    var code := Candidate(h, u, 0);
    var ms := Race(u, v);
    var s1 := Next(h, QUIET, ms[0]);
    var s2 := Next(h, s1, ms[1]);
    var s3 := Next(h, s2, ms[2]);
    var s4 := Next(h, s3, ms[3]);
    var s5 := Next(h, s4, ms[4]);
    var s6 := Next(h, s5, ms[5]);
    assert s4.tasks[0] == Storing(u, 0) && s4.tasks[1] == Storing(v, 0);
    assert s5.table == map[code := u] && s6.table == map[code := v];
    assert (u, code) in s6.answers && (v, code) in s6.answers;
    StepsSix(h, QUIET, ms, [s1, s2, s3, s4, s5, s6]);
  }

  /** A GET that nobody interrupts. */
  function Fetch(t: ThreadId, code: string): seq<Move> {
    [BeginGet(t, code), ReadCache(t, false), ReadTable(t, false), WriteCache(t)]
  }

  lemma FetchRedirects(h: Encoder, s: Server, t: ThreadId, code: string)
    requires TaskOf(s, t) == Idle && code !in s.cache && code in s.table
    ensures var q := Steps(h, s, Fetch(t, code));
            q.redirects == s.redirects + {(code, s.table[code])} && q.answers == s.answers
  {
    var ms := Fetch(t, code);
    var s1 := Next(h, s, ms[0]);
    var s2 := Next(h, s1, ms[1]);
    var s3 := Next(h, s2, ms[2]);
    var s4 := Next(h, s3, ms[3]);
    assert s1.tasks[t] == ReadingCache(code) && s2.tasks[t] == ReadingTable(code);
    assert s3.tasks[t] == WritingCache(code, s.table[code]);
    StepsFour(h, s, ms, s1, s2, s3, s4);
  }

  lemma {:induction false} StepsJoin(h: Encoder, s: Server, a: seq<Move>, b: seq<Move>)
    ensures Steps(h, s, a + b) == Steps(h, Steps(h, s, a), b)
    decreases |a|
  {
    hide Next;
    if a == [] {
      assert [] + b == b;
    } else {
      StepsJoin(h, Next(h, s, a[0]), a[1..], b);
      assert (a + b)[1..] == a[1..] + b;
    }
  }

  /** After the race, a GET of the code answered to the first URL redirects to the second. */
  lemma RaceMisleads(h: Encoder, u: string, v: string)
    requires u != v && Candidate(h, u, 0) == Candidate(h, v, 0)
    ensures !RedirectsAgree(Steps(h, QUIET, Race(u, v) + Fetch(0, Candidate(h, u, 0))))
  {
    hide Candidate, Next, Steps;
    var code, s := Candidate(h, u, 0), Steps(h, QUIET, Race(u, v));
    RaceEnds(h, u, v);
    FetchRedirects(h, s, 0, code);
    StepsJoin(h, QUIET, Race(u, v), Fetch(0, code));
    var q := Steps(h, QUIET, Race(u, v) + Fetch(0, code));
    assert (u, code) in q.answers && (code, v) in q.redirects;
  }

  lemma StepsSix(h: Encoder, s: Server, ms: seq<Move>, ss: seq<Server>)
    requires |ms| == |ss| == 6
    requires ss[0] == Next(h, s, ms[0])
    requires forall i :: 1 <= i < 6 ==> ss[i] == Next(h, ss[i - 1], ms[i])
    ensures Steps(h, s, ms[..5]) == ss[4] && Steps(h, s, ms) == ss[5]
  {
    hide Next;
    StepsSnoc(h, s, [], ms[0]);
    assert [] + [ms[0]] == ms[..1];
    for i := 1 to 6
      invariant Steps(h, s, ms[..i]) == ss[i - 1]
      invariant i > 5 ==> Steps(h, s, ms[..5]) == ss[4]
    {
      StepsSnoc(h, s, ms[..i], ms[i]);
      assert ms[..i] + [ms[i]] == ms[..i + 1];
    }
    assert ms[..6] == ms;
  }

  lemma {:induction false} StepsSnoc(h: Encoder, s: Server, ms: seq<Move>, m: Move)
    ensures Steps(h, s, ms + [m]) == Next(h, Steps(h, s, ms), m)
    decreases |ms|
  {
    hide Next;
    if ms == [] {
      assert [] + [m] == [m];
      assert Steps(h, s, [m]) == Steps(h, Next(h, s, m), [m][1..]);
    } else {
      assert (ms + [m])[1..] == ms[1..] + [m];
      StepsSnoc(h, Next(h, s, ms[0]), ms[1..], m);
    }
  }

  /** The race answers the first URL a code that ends up holding the second. */
  lemma RaceBreaksAnswer(h: Encoder, u: string, v: string)
    requires u != v && Candidate(h, u, 0) == Candidate(h, v, 0)
    ensures !Kept(Steps(h, QUIET, Race(u, v)))
  {
    RaceConfuses(h, u, v);
  }

  /**
   The exact condition for distinct codes under interleaving: no run posting only
   these URLs answers two of them the same code if and only if their first
   candidates are pairwise distinct.
   */
  lemma DistinctAnswersExactly(h: Encoder, urls: set<string>)
    ensures FirstCandidatesDistinct(h, urls)
            <==> forall ms :: PostsOnly(ms, urls) ==> !Confused(Steps(h, QUIET, ms))
  {
    hide Candidate, Next, Confused;
    if FirstCandidatesDistinct(h, urls) {
      forall ms | PostsOnly(ms, urls)
        ensures !Confused(Steps(h, QUIET, ms))
      {
        StepsKept(h, urls, QUIET, ms);
        KeptIsNotConfused(Steps(h, QUIET, ms));
      }
    } else {
      var u, v :| u in urls && v in urls && u != v && Candidate(h, u, 0) == Candidate(h, v, 0);
      RaceConfuses(h, u, v);
      assert PostsOnly(Race(u, v), urls);
    }
  }

  lemma KeptIsNotConfused(s: Server)
    requires Kept(s)
    ensures !Confused(s)
  {
    forall u, v, code | (u, code) in s.answers && (v, code) in s.answers
      ensures u == v
    {
      assert s.table[code] == u && s.table[code] == v;
    }
  }

  /**
   The exact condition for an answer to last: in every run posting only these
   URLs, and at every point of it, each answered code holds its URL and redirects
   nowhere else, if and only if their first candidates are pairwise distinct.
   */
  lemma AnswersLastExactly(h: Encoder, urls: set<string>)
    ensures FirstCandidatesDistinct(h, urls)
            <==> forall ms :: PostsOnly(ms, urls) ==>
                   Kept(Steps(h, QUIET, ms)) && RedirectsAgree(Steps(h, QUIET, ms))
  {
    hide Candidate, Next, Kept, RedirectsAgree;
    if FirstCandidatesDistinct(h, urls) {
      QuietIsKept(h, urls);
      forall ms | PostsOnly(ms, urls)
        ensures Kept(Steps(h, QUIET, ms)) && RedirectsAgree(Steps(h, QUIET, ms))
      {
        StepsFirst(h, urls, QUIET, ms);
        StepsKept(h, urls, QUIET, ms);
        CodedRedirectsAgree(h, urls, Steps(h, QUIET, ms));
      }
    } else {
      var u, v :| u in urls && v in urls && u != v && Candidate(h, u, 0) == Candidate(h, v, 0);
      RaceBreaksAnswer(h, u, v);
      assert PostsOnly(Race(u, v), urls);
    }
  }

  /** The same for redirects alone. */
  lemma RedirectsAgreeExactly(h: Encoder, urls: set<string>)
    ensures FirstCandidatesDistinct(h, urls)
            <==> forall ms :: PostsOnly(ms, urls) ==> RedirectsAgree(Steps(h, QUIET, ms))
  {
    hide Candidate, Next, RedirectsAgree;
    if FirstCandidatesDistinct(h, urls) {
      AnswersLastExactly(h, urls);
    } else {
      var u, v :| u in urls && v in urls && u != v && Candidate(h, u, 0) == Candidate(h, v, 0);
      RaceMisleads(h, u, v);
      assert PostsOnly(Race(u, v) + Fetch(0, Candidate(h, u, 0)), urls);
    }
  }

  lemma QuietIsKept(h: Encoder, urls: set<string>)
    ensures Coded(h, urls, 1, QUIET) && Kept(QUIET)
  {
  }

  /** A failed lookup alone breaks injectivity: one thread, one request after the other. */
  lemma FailedLookupOverwrites(h: Encoder, u: string, v: string)
    requires u != v && Candidate(h, u, 0) == Candidate(h, v, 0)
    ensures var ms := [BeginPost(0, u), Lookup(0, false), Store(0, true),
                       BeginPost(0, v), Lookup(0, true), Store(0, true)];
            && Steps(h, QUIET, ms[..5]).table == map[Candidate(h, u, 0) := u]
            && Steps(h, QUIET, ms).table == map[Candidate(h, u, 0) := v]
            && Confused(Steps(h, QUIET, ms))
  {
    var ms := [BeginPost(0, u), Lookup(0, false), Store(0, true), BeginPost(0, v), Lookup(0, true), Store(0, true)];
    var code := Candidate(h, u, 0);
    var s1 := Next(h, QUIET, ms[0]);
    var s2 := Next(h, s1, ms[1]);
    var s3 := Next(h, s2, ms[2]);
    var s4 := Next(h, s3, ms[3]);
    var s5 := Next(h, s4, ms[4]);
    var s6 := Next(h, s5, ms[5]);
    assert s3.table == map[code := u] && s5.table == s3.table;
    assert s6.table == map[code := v];
    assert (u, code) in s6.answers && (v, code) in s6.answers;
    StepsSix(h, QUIET, ms, [s1, s2, s3, s4, s5, s6]);
  }

  predicate OneThread(ms: seq<Move>) {
    forall i, j :: 0 <= i < |ms| && 0 <= j < |ms| && !ms[i].Evict? && !ms[j].Evict? ==> ms[i].t == ms[j].t
  }

  /**
   One thread, one request after the other: as look-ups may fail, answers are
   distinct under the same condition as with any number of threads.
   */
  lemma OneThreadExactly(h: Encoder, urls: set<string>)
    ensures FirstCandidatesDistinct(h, urls)
            <==> forall ms :: PostsOnly(ms, urls) && OneThread(ms) ==> !Confused(Steps(h, QUIET, ms))
  {
    hide Candidate, Next, Confused;
    if FirstCandidatesDistinct(h, urls) {
      DistinctAnswersExactly(h, urls);
    } else {
      var u, v :| u in urls && v in urls && u != v && Candidate(h, u, 0) == Candidate(h, v, 0);
      FailedLookupOverwrites(h, u, v);
      var ms := [BeginPost(0, u), Lookup(0, false), Store(0, true),
                 BeginPost(0, v), Lookup(0, true), Store(0, true)];
      assert PostsOnly(ms, urls) && OneThread(ms);
    }
  }

  // ---------------------------------------------------------------------------
  // Atomic requests are the runs without interleaving.

  /** Left alone, a thread that looks up from an attempt on ends as the atomic POST does. */
  lemma {:induction false} LookupsRunAlone(h: Encoder, s: Server, t: ThreadId, url: string, attempt: nat, works: bool)
    returns (ms: seq<Move>)
    requires attempt < MAX_ATTEMPTS && TaskOf(s, t) == LookingUp(url, attempt)
    ensures var j := Slot(h, s.table, url, attempt);
            var after := Steps(h, s, ms);
            var code := Candidate(h, url, j);
            && TaskOf(after, t) == Idle && after.cache == s.cache
            && (if j == MAX_ATTEMPTS then after.table == s.table && after.answers == s.answers
                else if code in s.table then after.table == s.table && after.answers == s.answers + {(url, code)}
                else if works then after.table == s.table[code := url] && after.answers == s.answers + {(url, code)}
                else after.table == s.table && after.answers == s.answers)
    decreases MAX_ATTEMPTS - attempt
  {
    hide Candidate;
    var look := Lookup(t, false);
    var s1 := Next(h, s, look);
    var code := Candidate(h, url, attempt);
    if Taken(h, s.table, url, attempt) && attempt + 1 < MAX_ATTEMPTS {
      var rest := LookupsRunAlone(h, s1, t, url, attempt + 1, works);
      ms := [look] + rest;
      assert ms[1..] == rest;
    } else if code in s.table {
      ms := [look];
      assert ms[1..] == [];
      assert Steps(h, s, ms) == s1;
      assert Taken(h, s.table, url, attempt) ==> Slot(h, s.table, url, attempt + 1) == MAX_ATTEMPTS;
    } else {
      ms := [look, Store(t, works)];
      assert ms[1..] == [Store(t, works)] && ms[1..][1..] == [];
      assert Steps(h, s1, ms[1..]) == Next(h, s1, Store(t, works));
    }
  }

  /** So does a whole POST by an idle thread: the atomic model is one of the schedules. */
  lemma PostRunsAlone(h: Encoder, s: Server, t: ThreadId, url: string, version: string, works: bool)
    returns (ms: seq<Move>)
    requires TaskOf(s, t) == Idle
    ensures var (table, r) := Post(h, s.table, url, version, works);
            var after := Steps(h, s, ms);
            && after.table == table && TaskOf(after, t) == Idle && after.cache == s.cache
            && after.answers == s.answers + if r.statusCode == 200 then {(url, r.body)} else {}
  {
    hide Candidate;
    var begin := BeginPost(t, url);
    var rest := LookupsRunAlone(h, Next(h, s, begin), t, url, 0, works);
    ms := [begin] + rest;
    assert ms[1..] == rest;
  }

  /** So does a GET: from the cache, from the table with a copy to the cache, or not at all. */
  lemma GetRunsAlone(h: Encoder, base: string, s: Server, t: ThreadId, code: string, version: string)
    requires TaskOf(s, t) == Idle && |code| == 6 && Within(s.cache, s.table)
    ensures var (q, r) := Get(base, State(s.table, s.cache), base + "/" + code, version, None);
            var after := Steps(h, s, Fetch(t, code));
            && State(after.table, after.cache) == q && TaskOf(after, t) == Idle && after.answers == s.answers
            && after.redirects == s.redirects + if r.statusCode == 302 then {(code, s.table[code])} else {}
  {
    assert (base + "/" + code)[|base| + 1..] == code;
    var ms := Fetch(t, code);
    var s1 := Next(h, s, ms[0]);
    var s2 := Next(h, s1, ms[1]);
    var s3 := Next(h, s2, ms[2]);
    var s4 := Next(h, s3, ms[3]);
    assert s1.tasks[t] == ReadingCache(code);
    StepsFour(h, s, ms, s1, s2, s3, s4);
  }

  lemma StepsFour(h: Encoder, s: Server, ms: seq<Move>, s1: Server, s2: Server, s3: Server, s4: Server)
    requires |ms| == 4
    requires s1 == Next(h, s, ms[0]) && s2 == Next(h, s1, ms[1]) && s3 == Next(h, s2, ms[2]) && s4 == Next(h, s3, ms[3])
    ensures Steps(h, s, ms) == s4
  {
    hide Next;
    assert ms[1..][1..] == [ms[2], ms[3]] && [ms[2], ms[3]][1..] == [ms[3]] && [ms[3]][1..] == [];
    assert Steps(h, s2, [ms[2], ms[3]]) == Steps(h, s3, [ms[3]]) == s4;
  }
}

/**
 Interleaved requests against atomic ones. Each POST and GET that is answered
 takes effect at one of its own steps; the atomic requests in that order leave the
 same table and cache and give the same answers and redirects. That is so for
 every interleaving exactly when no two posted URLs share their first candidate,
 and for a single thread whenever no lookup fails.
 */
module ShortenerLinear {
  import opened Options
  import opened Shortener
  import opened ShortenerThreads

  /** The stores, with the (URL, code) pairs answered and the (code, URL) pairs redirected so far. */
  datatype Record = Record(state: State, answers: set<(string, string)>, redirects: set<(string, string)>)

  function Seen(s: Server): Record {
    Record(State(s.table, s.cache), s.answers, s.redirects)
  }

  const START := Record(EMPTY, {}, {})

  /** One atomic request, with its answer put on record. */
  function Atomic(h: Encoder, base: string, r: Record, e: Event): Record {
    match e
    case Posting(url, version, works) =>
      var (t, res) := Post(h, r.state.table, url, version, works);
      r.(state := r.state.(table := t),
         answers := if res.statusCode == 200 then r.answers + {(url, res.body)} else r.answers)
    case Fetching(uri, version, page) =>
      var (q, res) := Get(base, r.state, uri, version, page);
      r.(state := q,
         redirects := if res.statusCode == 302 then r.redirects + {(uri[|base| + 1..], res.headers[0].value)}
                      else r.redirects)
    case Evicting(code) => r.(state := r.state.(cache := r.state.cache - {code}))
  }

  function AtomicRun(h: Encoder, base: string, r: Record, es: seq<Event>): Record
    decreases |es|
  {
    if es == [] then r else AtomicRun(h, base, Atomic(h, base, r, es[0]), es[1..])
  }

  lemma {:induction false} AtomicRunIsRun(h: Encoder, base: string, r: Record, es: seq<Event>)
    ensures AtomicRun(h, base, r, es).state == Run(h, base, r.state, es)
    decreases |es|
  {
    if es != [] {
      AtomicRunIsRun(h, base, Atomic(h, base, r, es[0]), es[1..]);
    }
  }

  /** The request, if any, that takes effect in this step. */
  function Point(h: Encoder, base: string, s: Server, m: Move): seq<Event> {
    if m.Evict? then [Evicting(m.code)]
    else
      var task := TaskOf(s, m.t);
      if m.Lookup? && task.LookingUp?
         && Found(s.table, Candidate(h, task.url, task.attempt), m.fails) == Some(task.url) then
        [Posting(task.url, "", true)]
      else if m.Store? && task.Storing? && m.works then [Posting(task.url, "", true)]
      else if m.ReadCache? && task.ReadingCache? && Found(s.cache, task.code, m.fails).Some? then
        [Fetching(base + "/" + task.code, "", None)]
      else if m.WriteCache? && task.WritingCache? then [Fetching(base + "/" + task.code, "", None)]
      else []
  }

  /** The requests in the order in which they take effect. */
  function Linear(h: Encoder, base: string, s: Server, ms: seq<Move>): seq<Event>
    decreases |ms|
  {
    if ms == [] then [] else Point(h, base, s, ms[0]) + Linear(h, base, Next(h, s, ms[0]), ms[1..])
  }

  // ---------------------------------------------------------------------------
  // One step.

  /** A POST in hand has passed only candidates of other URLs, and stores where none is. */
  ghost predicate OnCourse(h: Encoder, s: Server, t: ThreadId) {
    match TaskOf(s, t)
    case LookingUp(url, attempt) => attempt < MAX_ATTEMPTS && ProbedPast(h, s.table, url, attempt)
    case Storing(url, attempt) =>
      attempt < MAX_ATTEMPTS && ProbedPast(h, s.table, url, attempt) && !Taken(h, s.table, url, attempt)
    case _ => true
  }

  /** What the cache holds, or a thread is about to put there, is in the table. */
  ghost predicate CacheIn(s: Server) {
    && Within(s.cache, s.table)
    && forall t :: t in s.tasks && s.tasks[t].WritingCache? ==>
         s.tasks[t].code in s.table && s.table[s.tasks[t].code] == s.tasks[t].found
  }

  lemma SlotIs(h: Encoder, t: Table, url: string, j: nat)
    requires j < MAX_ATTEMPTS && ProbedPast(h, t, url, j) && !Taken(h, t, url, j)
    ensures Slot(h, t, url, 0) == j
  {
    hide Taken;
    assert forall i: nat :: i < j ==> Taken(h, t, url, i);
    assert !(Slot(h, t, url, 0) < j);
  }

  /** On course, a store never changes an entry. */
  lemma NextGrows(h: Encoder, s: Server, m: Move)
    requires !m.Evict? ==> OnCourse(h, s, m.t)
    ensures Within(s.table, Next(h, s, m).table)
  {
    hide Candidate, ProbedPast;
  }

  lemma NextCacheIn(h: Encoder, s: Server, m: Move)
    requires CacheIn(s) && (!m.Evict? ==> OnCourse(h, s, m.t))
    ensures CacheIn(Next(h, s, m))
  {
    hide Candidate, OnCourse;
    NextGrows(h, s, m);
  }

  lemma PostPoint(h: Encoder, base: string, s: Server, m: Move)
    requires (m.Lookup? || m.Store?) && OnCourse(h, s, m.t)
    ensures Seen(Next(h, s, m)) == AtomicRun(h, base, Seen(s), Point(h, base, s, m))
  {
    hide Candidate, Slot, ProbedPast;
    var task := TaskOf(s, m.t);
    if Point(h, base, s, m) != [] {
      SlotIs(h, s.table, task.url, task.attempt);
      var e := Posting(task.url, "", true);
      assert [e][1..] == [];
      assert AtomicRun(h, base, Seen(s), [e]) == Atomic(h, base, Seen(s), e);
    }
  }

  /** Every code in the table is one that an encoder gives. */
  lemma CodedLength(h: Encoder, urls: set<string>, attempts: nat, s: Server, code: string)
    requires Coded(h, urls, attempts, s) && code in s.table
    ensures |code| == |Candidate(h, "", 0)|
  {
    assert IsCode(h, urls, attempts, code, s.table[code]);
  }

  lemma FetchPoint(h: Encoder, base: string, s: Server, m: Move, code: string)
    requires CacheIn(s) && code in s.table && |code| == |Candidate(h, "", 0)|
    ensures var r := Atomic(h, base, Seen(s), Fetching(base + "/" + code, "", None));
            r == Seen(s).(state := State(s.table, s.cache[code := s.table[code]]),
                          redirects := s.redirects + {(code, s.table[code])})
  {
    var uri := base + "/" + code;
    assert uri[|base| + 1..] == code;
    assert code in s.cache ==> s.cache[code := s.table[code]] == s.cache;
  }

  lemma GetPoint(h: Encoder, base: string, urls: set<string>, s: Server, m: Move)
    requires m.ReadCache? || m.WriteCache?
    requires Coded(h, urls, MAX_ATTEMPTS, s) && CacheIn(s)
    ensures Seen(Next(h, s, m)) == AtomicRun(h, base, Seen(s), Point(h, base, s, m))
  {
    hide Coded, Atomic;
    var task := TaskOf(s, m.t);
    if Point(h, base, s, m) != [] {
      var code := task.code;
      CodedLength(h, urls, MAX_ATTEMPTS, s, code);
      FetchPoint(h, base, s, m, code);
      var e := Fetching(base + "/" + code, "", None);
      assert [e][1..] == [];
      assert AtomicRun(h, base, Seen(s), [e]) == Atomic(h, base, Seen(s), e);
      assert code in s.cache ==> s.cache[code := s.table[code]] == s.cache;
    }
  }

  lemma EvictPoint(h: Encoder, base: string, s: Server, m: Move)
    requires m.Evict?
    ensures Seen(Next(h, s, m)) == AtomicRun(h, base, Seen(s), Point(h, base, s, m))
  {
    var e := Evicting(m.code);
    assert [e][1..] == [];
    assert AtomicRun(h, base, Seen(s), [e]) == Atomic(h, base, Seen(s), e);
  }

  /** A step is the atomic request that takes effect in it, or changes nothing that can be seen. */
  lemma NextIsAtomic(h: Encoder, base: string, urls: set<string>, s: Server, m: Move)
    requires Coded(h, urls, MAX_ATTEMPTS, s) && CacheIn(s) && (!m.Evict? ==> OnCourse(h, s, m.t))
    ensures Seen(Next(h, s, m)) == AtomicRun(h, base, Seen(s), Point(h, base, s, m))
  {
    hide Coded, CacheIn, OnCourse, Candidate;
    match m {
      case Evict(_) => EvictPoint(h, base, s, m);
      case Lookup(_, _) => PostPoint(h, base, s, m);
      case Store(_, _) => PostPoint(h, base, s, m);
      case ReadCache(_, _) => GetPoint(h, base, urls, s, m);
      case WriteCache(_) => GetPoint(h, base, urls, s, m);
      case _ =>
    }
  }

  lemma {:induction false} AtomicRunJoin(h: Encoder, base: string, r: Record, a: seq<Event>, b: seq<Event>)
    ensures AtomicRun(h, base, r, a + b) == AtomicRun(h, base, AtomicRun(h, base, r, a), b)
    decreases |a|
  {
    hide Atomic;
    if a == [] {
      assert [] + b == b;
    } else {
      AtomicRunJoin(h, base, Atomic(h, base, r, a[0]), a[1..], b);
      assert (a + b)[1..] == a[1..] + b;
    }
  }

  // ---------------------------------------------------------------------------
  // Any number of threads, with distinct first candidates.

  lemma FirstOnCourse(h: Encoder, urls: set<string>, s: Server, t: ThreadId)
    requires FirstCandidatesDistinct(h, urls) && Coded(h, urls, 1, s)
    ensures OnCourse(h, s, t)
  {
    hide Candidate, FirstCandidatesDistinct;
    CandidateIsOwn(h, urls, s, t);
  }

  lemma MoreAttempts(h: Encoder, urls: set<string>, s: Server)
    requires Coded(h, urls, 1, s)
    ensures Coded(h, urls, MAX_ATTEMPTS, s)
  {
    hide Candidate;
    forall code, url | IsCode(h, urls, 1, code, url)
      ensures IsCode(h, urls, MAX_ATTEMPTS, code, url)
    {
    }
  }

  /**
   With distinct first candidates every interleaving is linearizable: the atomic
   requests, in the order in which they take effect, leave the same stores and give
   the same answers and redirects.
   */
  lemma {:induction false} StepsAreAtomic(h: Encoder, base: string, urls: set<string>, s: Server, ms: seq<Move>)
    requires FirstCandidatesDistinct(h, urls) && PostsOnly(ms, urls)
    requires Coded(h, urls, 1, s) && CacheIn(s)
    ensures Seen(Steps(h, s, ms)) == AtomicRun(h, base, Seen(s), Linear(h, base, s, ms))
    decreases |ms|
  {
    hide Next, Point, Coded, CacheIn, FirstCandidatesDistinct, AtomicRun, OnCourse;
    if ms == [] {
      EmptyRun(h, base, Seen(s));
    } else {
      var m, q := ms[0], Next(h, s, ms[0]);
      if !m.Evict? {
        FirstOnCourse(h, urls, s, m.t);
      }
      MoreAttempts(h, urls, s);
      NextIsAtomic(h, base, urls, s, m);
      NextFirst(h, urls, s, m);
      NextCoded(h, urls, 1, s, m);
      NextCacheIn(h, s, m);
      StepsAreAtomic(h, base, urls, q, ms[1..]);
      AtomicRunJoin(h, base, Seen(s), Point(h, base, s, m), Linear(h, base, q, ms[1..]));
    }
  }

  lemma EmptyRun(h: Encoder, base: string, r: Record)
    ensures AtomicRun(h, base, r, []) == r
  {
  }

  /** Some order of atomic requests explains all that an interleaving leaves and answers. */
  ghost predicate Explains(h: Encoder, base: string, ms: seq<Move>, es: seq<Event>) {
    Seen(Steps(h, QUIET, ms)) == AtomicRun(h, base, START, es)
  }

  ghost predicate AnswersHold(r: Record) {
    forall a :: a in r.answers ==> a.1 in r.state.table && r.state.table[a.1] == a.0
  }

  lemma AtomicHolds(h: Encoder, base: string, r: Record, e: Event)
    requires AnswersHold(r)
    ensures AnswersHold(Atomic(h, base, r, e))
  {
    ApplyGrows(h, base, r.state, e);
    if e.Posting? {
      AnswerIsStored(h, r.state.table, e.url, e.version, e.works);
    }
    hide Post;
  }

  lemma {:induction false} AtomicRunHolds(h: Encoder, base: string, r: Record, es: seq<Event>)
    requires AnswersHold(r)
    ensures AnswersHold(AtomicRun(h, base, r, es))
    decreases |es|
  {
    hide Atomic, AnswersHold;
    if es != [] {
      AtomicHolds(h, base, r, es[0]);
      AtomicRunHolds(h, base, Atomic(h, base, r, es[0]), es[1..]);
    }
  }

  lemma ExplainedIsNotConfused(h: Encoder, base: string, ms: seq<Move>, es: seq<Event>)
    requires Explains(h, base, ms, es)
    ensures !Confused(Steps(h, QUIET, ms))
  {
    AtomicRunHolds(h, base, START, es);
    var s := Steps(h, QUIET, ms);
    hide Steps, AtomicRun;
    forall u, v, code | (u, code) in s.answers && (v, code) in s.answers
      ensures u == v
    {
      assert s.table[code] == u && s.table[code] == v;
    }
  }

  /**
   The exact condition: every interleaving of requests that post only these URLs is
   explained by some order of atomic requests if and only if no two of the URLs
   share their first candidate.
   */
  lemma LinearizableExactly(h: Encoder, base: string, urls: set<string>)
    ensures FirstCandidatesDistinct(h, urls)
            <==> forall ms :: PostsOnly(ms, urls) ==> exists es :: Explains(h, base, ms, es)
  {
    hide FirstCandidatesDistinct, Steps, AtomicRun, Confused;
    if FirstCandidatesDistinct(h, urls) {
      forall ms | PostsOnly(ms, urls)
        ensures exists es :: Explains(h, base, ms, es)
      {
        QuietIsKept(h, urls);
        StepsAreAtomic(h, base, urls, QUIET, ms);
        assert Explains(h, base, ms, Linear(h, base, QUIET, ms));
      }
    }
    if forall ms :: PostsOnly(ms, urls) ==> exists es :: Explains(h, base, ms, es) {
      forall ms | PostsOnly(ms, urls)
        ensures !Confused(Steps(h, QUIET, ms))
      {
        var es :| Explains(h, base, ms, es);
        ExplainedIsNotConfused(h, base, ms, es);
      }
      DistinctAnswersExactly(h, urls);
    }
  }

  // ---------------------------------------------------------------------------
  // One thread whose lookups do not fail, with any candidates.

  predicate Reliable(m: Move, t: ThreadId) {
    !m.Evict? ==> m.t == t && m != Lookup(t, true)
  }

  lemma NextOnCourse(h: Encoder, s: Server, m: Move, t: ThreadId)
    requires Reliable(m, t) && OnCourse(h, s, t)
    ensures OnCourse(h, Next(h, s, m), t)
  {
    hide Candidate;
  }

  lemma {:induction false} ReliableStepsAreAtomic(h: Encoder, base: string, urls: set<string>, s: Server,
                                                  ms: seq<Move>, t: ThreadId)
    requires (forall i :: 0 <= i < |ms| ==> Reliable(ms[i], t)) && PostsOnly(ms, urls)
    requires Coded(h, urls, MAX_ATTEMPTS, s) && CacheIn(s) && OnCourse(h, s, t)
    ensures Seen(Steps(h, s, ms)) == AtomicRun(h, base, Seen(s), Linear(h, base, s, ms))
    decreases |ms|
  {
    hide Next, Point, Coded, CacheIn, AtomicRun, OnCourse;
    if ms == [] {
      EmptyRun(h, base, Seen(s));
    } else {
      var m, q := ms[0], Next(h, s, ms[0]);
      assert Reliable(m, t);
      NextIsAtomic(h, base, urls, s, m);
      AlwaysBounded(h, s, m);
      NextCoded(h, urls, MAX_ATTEMPTS, s, m);
      NextCacheIn(h, s, m);
      NextOnCourse(h, s, m, t);
      ReliableStepsAreAtomic(h, base, urls, q, ms[1..], t);
      AtomicRunJoin(h, base, Seen(s), Point(h, base, s, m), Linear(h, base, q, ms[1..]));
    }
  }

  lemma AlwaysBounded(h: Encoder, s: Server, m: Move)
    ensures Bounded(h, MAX_ATTEMPTS, s, m)
  {
  }

  /**
   One thread, one request after the other, without a failing lookup: always the
   atomic requests in their order, whatever the candidates, and so distinct answers.
   */
  lemma SequentialIsAtomic(h: Encoder, base: string, ms: seq<Move>, t: ThreadId)
    requires forall i :: 0 <= i < |ms| ==> Reliable(ms[i], t)
    ensures Explains(h, base, ms, Linear(h, base, QUIET, ms))
    ensures !Confused(Steps(h, QUIET, ms))
  {
    hide Steps, AtomicRun, Linear, Confused;
    var urls := set i | 0 <= i < |ms| && ms[i].BeginPost? :: ms[i].url;
    QuietIsFine(h, urls, t);
    ReliableStepsAreAtomic(h, base, urls, QUIET, ms, t);
    ExplainedIsNotConfused(h, base, ms, Linear(h, base, QUIET, ms));
  }

  lemma QuietIsFine(h: Encoder, urls: set<string>, t: ThreadId)
    ensures Coded(h, urls, MAX_ATTEMPTS, QUIET) && CacheIn(QUIET) && OnCourse(h, QUIET, t)
  {
  }
}

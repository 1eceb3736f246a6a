/**
 The URL shortener: an open-addressing table of short codes in the database,
 probed five times and never deleted from, read through a cache that may drop
 entries at any time. Requests are atomic here; `ShortenerThreads` interleaves
 them.
 */
module Shortener {
  import opened Options
  import opened Decimal
  import opened Base62
  import opened LineReader
  import opened Http

  const MAX_ATTEMPTS := 5

  // Any six characters can be a short code, and any function give them out.
  type Code = s: string | |s| == SHORT_URL_LENGTH witness "000000"
  type Encoder = string -> Code

  type Table = map<string, string>

  function Salted(url: string, attempt: nat): string {
    if attempt == 0 then url else url + "#" + Decimal.ToString(attempt)
  }

  /** The code a URL is given at an attempt. */
  function Candidate(h: Encoder, url: string, attempt: nat): Code {
    h(Salted(url, attempt))
  }

  /** The encoder of the server: the base 62 code of the hash. */
  function EncoderOf(hash: string -> HashValue): Encoder {
    url => Encode(hash(url))
  }

  function Find(t: Table, code: string): Option<string> {
    if code in t then Some(t[code]) else None
  }

  // ---------------------------------------------------------------------------
  // The stores, by their interfaces.

  class DatabaseClient {
    var table: Table

    method Lookup(code: string) returns (url: Option<string>)
      ensures url == Find(table, code)
    {
      url := if code in table then Some(table[code]) else None;
    }

    /** Upserts; `works` is the database's answer, and a failed store changes nothing. */
    method Store(code: string, url: string, works: bool) returns (ok: bool)
      modifies this
      ensures ok == works
      ensures table == if works then old(table)[code := url] else old(table)
    {
      if works {
        table := table[code := url];
      }
      ok := works;
    }
  }

  class RedisClient {
    var cache: Table

    method Get(code: string) returns (url: Option<string>)
      ensures url == Find(cache, code)
    {
      url := if code in cache then Some(cache[code]) else None;
    }

    method Set(code: string, url: string)
      modifies this
      ensures cache == old(cache)[code := url]
    {
      cache := cache[code := url];
    }

    method Evict(code: string)
      modifies this
      ensures cache == old(cache) - {code}
    {
      cache := cache - {code};
    }
  }

  // ---------------------------------------------------------------------------
  // What the requests do.

  /** The candidate of an attempt belongs to another URL. */
  predicate Taken(h: Encoder, t: Table, url: string, attempt: nat) {
    var code := Candidate(h, url, attempt);
    code in t && t[code] != url
  }

  /** The first attempt from `attempt` on whose candidate is free or the URL's own. */
  function Slot(h: Encoder, t: Table, url: string, attempt: nat): (j: nat)
    requires attempt <= MAX_ATTEMPTS
    ensures attempt <= j <= MAX_ATTEMPTS
    ensures forall i :: attempt <= i < j ==> Taken(h, t, url, i)
    ensures j < MAX_ATTEMPTS ==> !Taken(h, t, url, j)
    decreases MAX_ATTEMPTS - attempt
  {
    if attempt == MAX_ATTEMPTS || !Taken(h, t, url, attempt) then attempt
    else Slot(h, t, url, attempt + 1)
  }

  lemma SlotStep(h: Encoder, t: Table, url: string, attempt: nat)
    requires attempt <= MAX_ATTEMPTS
    ensures Slot(h, t, url, attempt)
            == if attempt == MAX_ATTEMPTS || !Taken(h, t, url, attempt) then attempt
               else Slot(h, t, url, attempt + 1)
  {
  }

  function Shortened(version: string, code: string): Response {
    Response(version, 200, "OK", [Header("Content-Type", "text/plain")], code)
  }

  const STORE_FAILED := SERVER_ERROR.(body := "Failed to store URL mapping")
  const EXHAUSTED := SERVER_ERROR.(body := "Could not generate unique short URL")

  /** The table and the response after `url` is posted. */
  function Post(h: Encoder, t: Table, url: string, version: string, works: bool): (Table, Response) {
    var j := Slot(h, t, url, 0);
    if j == MAX_ATTEMPTS then (t, EXHAUSTED)
    else
      var code := Candidate(h, url, j);
      if code in t then (t, Shortened(version, code))
      else if works then (t[code := url], Shortened(version, code))
      else (t, STORE_FAILED)
  }

  function Redirect(version: string, url: string): Response {
    Response(version, 302, "Found", [Header("Location", url)], "")
  }

  function Page(version: string, page: Option<string>): Response {
    match page
    case Some(content) => Response(version, 200, "OK", [Header("Content-Type", "text/html")], content)
    case None => NOT_FOUND
  }

  datatype State = State(table: Table, cache: Table)

  /** The state and the response after `uri` is fetched; `page` is the file served on the base path. */
  function Get(base: string, s: State, uri: string, version: string, page: Option<string>): (State, Response) {
    if uri == base then (s, Page(version, page))
    else if |uri| != |base| + SHORT_URL_LENGTH + 1 then (s, NOT_FOUND)
    else
      var code := uri[|base| + 1..];
      if code in s.cache then (s, Redirect(version, s.cache[code]))
      else if code in s.table then
        (s.(cache := s.cache[code := s.table[code]]), Redirect(version, s.table[code]))
      else (s, NOT_FOUND)
  }

  class ShortenRequestHandler {
    const baseUri: string
    const hash: string -> HashValue
    const redis: RedisClient
    const db: DatabaseClient

    constructor (baseUri: string, hash: string -> HashValue, redis: RedisClient, db: DatabaseClient)
      ensures this.baseUri == baseUri && this.hash == hash && this.redis == redis && this.db == db
    {
      this.baseUri := baseUri;
      this.hash := hash;
      this.redis := redis;
      this.db := db;
    }

    function Stores(): State
      reads redis, db
    {
      State(db.table, redis.cache)
    }

    method HandleRequest(request: Request, works: bool, page: Option<string>) returns (res: Response)
      modifies db, redis
      ensures (Stores(), res) ==
              if request.verb == "POST" then
                var (t, r) := Post(EncoderOf(hash), old(db.table), request.body, request.version, works);
                (old(Stores()).(table := t), r)
              else if request.verb == "GET" then
                Get(baseUri, old(Stores()), request.uri, request.version, page)
              else (old(Stores()), NOT_ALLOWED)
      ensures request.verb != "POST" && request.verb != "GET" ==>
                res == Response("HTTP/1.1", 405, "Method Not Allowed", [Header("Content-Type", "text/plain")],
                                "405 Method Not Allowed")
    {
      if request.verb == "POST" {
        res := HandlePostRequest(request, works);
      } else if request.verb == "GET" {
        res := HandleGetRequest(request, page);
      } else {
        res := NOT_ALLOWED;
      }
    }

    method HandlePostRequest(request: Request, works: bool) returns (res: Response)
      modifies db
      ensures (db.table, res) == Post(EncoderOf(hash), old(db.table), request.body, request.version, works)
    {
      hide Encode, Slot;
      var longUrl := request.body;
      var attempt := 0;
      while attempt < MAX_ATTEMPTS
        invariant attempt <= MAX_ATTEMPTS && db.table == old(db.table)
        invariant Slot(EncoderOf(hash), db.table, longUrl, attempt) == Slot(EncoderOf(hash), db.table, longUrl, 0)
      {
        SlotStep(EncoderOf(hash), db.table, longUrl, attempt);
        var salted := if attempt == 0 then longUrl else longUrl + "#" + Decimal.ToString(attempt);
        var candidate := Base62Encode(hash(salted));
        var existing := db.Lookup(candidate);
        if existing.Some? {
          if existing.value == longUrl {
            return Response(request.version, 200, "OK", [Header("Content-Type", "text/plain")], candidate);
          }
          attempt := attempt + 1;
          continue;
        }
        var stored := db.Store(candidate, longUrl, works);
        if !stored {
          return SERVER_ERROR.(body := "Failed to store URL mapping");
        }
        return Response(request.version, 200, "OK", [Header("Content-Type", "text/plain")], candidate);
      }
      SlotStep(EncoderOf(hash), db.table, longUrl, attempt);
      return SERVER_ERROR.(body := "Could not generate unique short URL");
    }

    method HandleGetRequest(request: Request, page: Option<string>) returns (res: Response)
      modifies redis
      ensures (Stores(), res) == Get(baseUri, old(Stores()), request.uri, request.version, page)
    {
      if request.uri == baseUri {
        if page.Some? {
          return Response(request.version, 200, "OK", [Header("Content-Type", "text/html")], page.value);
        }
        return NOT_FOUND;
      }
      if |request.uri| != |baseUri| + SHORT_URL_LENGTH + 1 {
        return NOT_FOUND;
      }
      var shortUrl := request.uri[|baseUri| + 1..];
      var cached := redis.Get(shortUrl);
      if cached.Some? {
        return Response(request.version, 302, "Found", [Header("Location", cached.value)], "");
      }
      var longUrl := db.Lookup(shortUrl);
      if longUrl.None? {
        return NOT_FOUND;
      }
      redis.Set(shortUrl, longUrl.value);
      return Response(request.version, 302, "Found", [Header("Location", longUrl.value)], "");
    }
  }

  // ---------------------------------------------------------------------------
  // Runs of atomic requests.

  datatype Event =
    | Posting(url: string, version: string, works: bool)
    | Fetching(uri: string, version: string, page: Option<string>)
    | Evicting(code: string)

  function Apply(h: Encoder, base: string, s: State, e: Event): State {
    match e
    case Posting(url, version, works) => s.(table := Post(h, s.table, url, version, works).0)
    case Fetching(uri, version, page) => Get(base, s, uri, version, page).0
    case Evicting(code) => s.(cache := s.cache - {code})
  }

  function Run(h: Encoder, base: string, s: State, es: seq<Event>): State
    decreases |es|
  {
    if es == [] then s else Run(h, base, Apply(h, base, s, es[0]), es[1..])
  }

  const EMPTY := State(map[], map[])

  /**
   An entry lies on its URL's probe chain: its code is one of the five
   candidates, and every earlier candidate belongs to another URL.
   */
  ghost predicate OnChain(h: Encoder, t: Table, code: string) {
    code in t && exists j: nat ::
      j < MAX_ATTEMPTS && code == Candidate(h, t[code], j) && ProbedPast(h, t, t[code], j)
  }

  ghost predicate ProbedPast(h: Encoder, t: Table, url: string, j: nat) {
    forall i: nat :: i < j ==> Taken(h, t, url, i)
  }

  ghost predicate Chained(h: Encoder, t: Table) {
    forall code :: code in t ==> OnChain(h, t, code)
  }

  predicate Within(small: Table, large: Table) {
    forall code :: code in small ==> code in large && large[code] == small[code]
  }

  /** Every entry is on its chain, and the cache holds nothing the table does not. */
  ghost predicate Sound(h: Encoder, s: State) {
    Chained(h, s.table) && Within(s.cache, s.table)
  }

  /** A stored entry is never overwritten. */
  lemma ApplyGrows(h: Encoder, base: string, s: State, e: Event)
    ensures Within(s.table, Apply(h, base, s, e).table)
  {
  }

  lemma {:induction false} RunGrows(h: Encoder, base: string, s: State, es: seq<Event>)
    ensures Within(s.table, Run(h, base, s, es).table)
    decreases |es|
  {
    if es != [] {
      ApplyGrows(h, base, s, es[0]);
      RunGrows(h, base, Apply(h, base, s, es[0]), es[1..]);
    }
  }

  lemma ChainSurvives(h: Encoder, t: Table, u: Table, code: string)
    requires OnChain(h, t, code) && Within(t, u)
    ensures OnChain(h, u, code)
  {
    hide Candidate;
    var j: nat :| j < MAX_ATTEMPTS && code == Candidate(h, t[code], j) && ProbedPast(h, t, t[code], j);
    forall i: nat | i < j
      ensures Taken(h, u, u[code], i)
    {
      assert Taken(h, t, t[code], i);
    }
    assert ProbedPast(h, u, u[code], j);
  }

  lemma ApplySound(h: Encoder, base: string, s: State, e: Event)
    requires Sound(h, s)
    ensures Sound(h, Apply(h, base, s, e))
  {
    hide Candidate;
    var s' := Apply(h, base, s, e);
    ApplyGrows(h, base, s, e);
    forall code | code in s'.table
      ensures OnChain(h, s'.table, code)
    {
      if code in s.table {
        ChainSurvives(h, s.table, s'.table, code);
      } else {
        var j := Slot(h, s.table, e.url, 0);
        forall i: nat | i < j
          ensures Taken(h, s'.table, e.url, i)
        {
          assert Taken(h, s.table, e.url, i);
        }
        assert ProbedPast(h, s'.table, e.url, j);
      }
    }
  }

  /** The chains and the cache stay sound over every run. */
  lemma {:induction false} RunSound(h: Encoder, base: string, s: State, es: seq<Event>)
    requires Sound(h, s)
    ensures Sound(h, Run(h, base, s, es))
    decreases |es|
  {
    if es != [] {
      ApplySound(h, base, s, es[0]);
      RunSound(h, base, Apply(h, base, s, es[0]), es[1..]);
    }
  }

  /** From empty stores every run reaches a sound state, and stores only what was posted. */
  lemma {:induction false} ReachableIsSound(h: Encoder, base: string, es: seq<Event>)
    ensures Sound(h, Run(h, base, EMPTY, es))
    ensures forall code :: code in Run(h, base, EMPTY, es).table ==>
              PostedIn(es, Run(h, base, EMPTY, es).table[code])
  {
    RunSound(h, base, EMPTY, es);
    RunStoresPosted(h, base, EMPTY, es);
  }

  predicate PostedIn(es: seq<Event>, url: string) {
    exists i :: 0 <= i < |es| && es[i].Posting? && es[i].url == url
  }

  lemma {:induction false} RunStoresPosted(h: Encoder, base: string, s: State, es: seq<Event>)
    ensures var t := Run(h, base, s, es).table;
            forall code :: code in t && code !in s.table ==> PostedIn(es, t[code])
    decreases |es|
  {
    hide Slot, Candidate;
    if es != [] {
      var s', t := Apply(h, base, s, es[0]), Run(h, base, s, es).table;
      RunGrows(h, base, s', es[1..]);
      RunStoresPosted(h, base, s', es[1..]);
      forall code | code in t && code !in s.table
        ensures PostedIn(es, t[code])
      {
        if code in s'.table {
          assert es[0].Posting? && es[0].url == t[code];
        } else {
          var i :| 0 <= i < |es[1..]| && es[1..][i].Posting? && es[1..][i].url == t[code];
          assert es[i + 1] == es[1..][i];
        }
      }
    }
  }

  /** Each URL sits under at most one code. */
  lemma OneCodePerUrl(h: Encoder, t: Table, c: string, d: string)
    requires Chained(h, t) && c in t && d in t && t[c] == t[d]
    ensures c == d
  {
    hide Candidate;
    assert OnChain(h, t, c) && OnChain(h, t, d);
    var i: nat :| i < MAX_ATTEMPTS && c == Candidate(h, t[c], i) && ProbedPast(h, t, t[c], i);
    var j: nat :| j < MAX_ATTEMPTS && d == Candidate(h, t[d], j) && ProbedPast(h, t, t[d], j);
    assert !Taken(h, t, t[c], i) && !Taken(h, t, t[c], j);
  }

  /** A URL that is in the table is found again, under the same code. */
  lemma SlotFinds(h: Encoder, t: Table, code: string)
    requires OnChain(h, t, code)
    ensures var j := Slot(h, t, t[code], 0); j < MAX_ATTEMPTS && Candidate(h, t[code], j) == code
  {
    hide Candidate;
    var i: nat :| i < MAX_ATTEMPTS && code == Candidate(h, t[code], i) && ProbedPast(h, t, t[code], i);
    var j := Slot(h, t, t[code], 0);
    assert !Taken(h, t, t[code], i);
    assert i <= j;
  }

  /** What a 200 answer to a POST means: the code is in the table, for that URL. */
  lemma AnswerIsStored(h: Encoder, t: Table, url: string, version: string, works: bool)
    ensures var (u, r) := Post(h, t, url, version, works);
            r.statusCode == 200 ==> |r.body| == SHORT_URL_LENGTH && r.body in u && u[r.body] == url
  {
  }

  /**
   POST, then anything, then GET: if the POST answered 200 with a code, GET of
   that code redirects to the URL, whatever requests, failed stores and evictions
   came between.
   */
  lemma PostThenGet(h: Encoder, base: string, s: State, url: string, version: string, works: bool,
                    es: seq<Event>, version': string, page: Option<string>)
    requires Sound(h, s)
    requires Post(h, s.table, url, version, works).1.statusCode == 200
    ensures var code := Post(h, s.table, url, version, works).1.body;
            var after := Run(h, base, Apply(h, base, s, Posting(url, version, works)), es);
            Get(base, after, base + "/" + code, version', page).1 == Redirect(version', url)
  {
    var posted := Apply(h, base, s, Posting(url, version, works));
    var code := Post(h, s.table, url, version, works).1.body;
    var after := Run(h, base, posted, es);
    AnswerIsStored(h, s.table, url, version, works);
    ApplySound(h, base, s, Posting(url, version, works));
    RunSound(h, base, posted, es);
    RunGrows(h, base, posted, es);
    GetAnswers(base, after, code, version', page);
  }

  lemma GetAnswers(base: string, s: State, code: string, version: string, page: Option<string>)
    requires Within(s.cache, s.table) && code in s.table && |code| == SHORT_URL_LENGTH
    ensures Get(base, s, base + "/" + code, version, page).1 == Redirect(version, s.table[code])
  {
    var uri := base + "/" + code;
    assert uri[|base| + 1..] == code;
  }

  /** Posting a URL again, after anything, answers the same code and stores nothing. */
  lemma PostIsStable(h: Encoder, base: string, s: State, url: string, version: string, works: bool,
                     es: seq<Event>, version': string, works': bool)
    requires Sound(h, s)
    requires Post(h, s.table, url, version, works).1.statusCode == 200
    ensures var code := Post(h, s.table, url, version, works).1.body;
            var after := Run(h, base, Apply(h, base, s, Posting(url, version, works)), es);
            Post(h, after.table, url, version', works') == (after.table, Shortened(version', code))
  {
    var posted := Apply(h, base, s, Posting(url, version, works));
    var code := Post(h, s.table, url, version, works).1.body;
    var after := Run(h, base, posted, es);
    AnswerIsStored(h, s.table, url, version, works);
    ApplySound(h, base, s, Posting(url, version, works));
    RunSound(h, base, posted, es);
    RunGrows(h, base, posted, es);
    assert OnChain(h, after.table, code);
    SlotFinds(h, after.table, code);
  }

  /** Distinct URLs are never answered the same code, at any two points of a run. */
  lemma PostIsInjective(h: Encoder, base: string, s: State, url: string, version: string, works: bool,
                        es: seq<Event>, url': string, version': string, works': bool)
    requires Sound(h, s) && url != url'
    requires Post(h, s.table, url, version, works).1.statusCode == 200
    requires var after := Run(h, base, Apply(h, base, s, Posting(url, version, works)), es);
             Post(h, after.table, url', version', works').1.statusCode == 200
    ensures var after := Run(h, base, Apply(h, base, s, Posting(url, version, works)), es);
            Post(h, s.table, url, version, works).1.body != Post(h, after.table, url', version', works').1.body
  {
    var posted := Apply(h, base, s, Posting(url, version, works));
    var after := Run(h, base, posted, es);
    AnswerIsStored(h, s.table, url, version, works);
    AnswerIsStored(h, after.table, url', version', works');
    RunGrows(h, base, posted, es);
    ApplyGrows(h, base, after, Posting(url', version', works'));
  }

  /**
   The three failures told apart: no unique code exactly when all five candidates
   hold other URLs, a failed store exactly when the database refuses a needed
   one; either way the table is unchanged.
   */
  lemma PostFailures(h: Encoder, t: Table, url: string, version: string, works: bool)
    ensures var (u, r) := Post(h, t, url, version, works);
            var j := Slot(h, t, url, 0);
            && (r == EXHAUSTED <==> forall i: nat :: i < MAX_ATTEMPTS ==> Taken(h, t, url, i))
            && (r == STORE_FAILED <==> !works && j < MAX_ATTEMPTS && Candidate(h, url, j) !in t)
            && (r.statusCode == 200 || r == EXHAUSTED || r == STORE_FAILED)
            && (r.statusCode != 200 ==> u == t)
  {
    var j := Slot(h, t, url, 0);
    assert STORE_FAILED.body[0] != EXHAUSTED.body[0];
    if j < MAX_ATTEMPTS {
      assert !Taken(h, t, url, j);
    }
  }

  /**
   The cache is transparent: it never changes an answer, and a fetch leaves it
   within the table. A fetch redirects exactly when the URI is a six-character
   code of the table.
   */
  lemma CacheIsTransparent(base: string, s: State, uri: string, version: string, page: Option<string>)
    requires Within(s.cache, s.table)
    ensures var (after, r) := Get(base, s, uri, version, page);
            && r == Get(base, s.(cache := map[]), uri, version, page).1
            && after.table == s.table && Within(after.cache, s.table) && Within(s.cache, after.cache)
            && (r.statusCode == 302 <==>
                  uri != base && |uri| == |base| + 1 + SHORT_URL_LENGTH && uri[|base| + 1..] in s.table)
  {
  }

  // ---------------------------------------------------------------------------
  // What a reader makes of the responses.

  /** A stored URL is a raw request body, and a redirect makes it a header. */
  lemma RedirectIsReadExactly(reader: Reader, version: string, url: string)
    ensures ReadAsMeant(reader, Redirect(version, url)) <==> OneLine(reader, url)
    ensures Sendable(Redirect(version, url)) <==> OneLine(Strict, url)
  {
    hide OneLine, ReadAsMeant;
    var res := Redirect(version, url);
    TextIsReadExactly(reader, res);
    PlainIsOneLine(reader, "Found");
    PlainIsOneLine(Strict, "Found");
    PlainIsOneLine(reader, "Location");
    PlainIsOneLine(Strict, "Location");
    assert UnbrokenHeader(reader, res.headers[0]) <==> OneLine(reader, url);
    assert UnbrokenHeader(Strict, res.headers[0]) <==> OneLine(Strict, url);
    assert Free(res.headers[0].name, ':');
  }

  lemma OthersArePlain(version: string)
    ensures forall code :: IsPlainResponse(Shortened(version, code))
    ensures forall page :: IsPlainResponse(Page(version, page))
  {
    hide IsPlainHeader;
    FailuresArePlain(NOT_FOUND.body);
    ContentTypesArePlain();
  }

  lemma PostIsReadAsMeant(h: Encoder, t: Table, url: string, version: string, works: bool, reader: Reader)
    ensures var res := Post(h, t, url, version, works).1; Sendable(res) && ReadAsMeant(reader, res)
  {
    hide Slot, Candidate, Sendable, IsPlainResponse, ReadAsMeant;
    OthersArePlain(version);
    FailuresArePlain(STORE_FAILED.body);
    FailuresArePlain(EXHAUSTED.body);
    PlainIsSendable(reader, Post(h, t, url, version, works).1);
  }

  lemma GetIsReadAsMeant(reader: Reader, base: string, s: State, uri: string, version: string, page: Option<string>)
    requires Within(s.cache, s.table) && forall code :: code in s.table ==> OneLine(reader, s.table[code])
    ensures ReadAsMeant(reader, Get(base, s, uri, version, page).1)
  {
    hide OneLine, IsPlainResponse, ReadAsMeant, Page;
    OthersArePlain(version);
    FailuresArePlain(NOT_FOUND.body);
    PlainIsSendable(reader, NOT_FOUND);
    PlainIsSendable(reader, Page(version, page));
    if |uri| > |base| {
      var code := uri[|base| + 1..];
      if code in s.table {
        RedirectIsReadExactly(reader, version, s.table[code]);
      }
    }
  }

  predicate PostsIn(es: seq<Event>, urls: set<string>) {
    forall i :: 0 <= i < |es| && es[i].Posting? ==> es[i].url in urls
  }

  /** In every run that posts only these URLs, every GET is answered by a text that is read as it is meant. */
  ghost predicate AllReadAsMeant(reader: Reader, h: Encoder, base: string, urls: set<string>) {
    forall es, uri, version, page :: PostsIn(es, urls) ==>
      ReadAsMeant(reader, Get(base, Run(h, base, EMPTY, es), uri, version, page).1)
  }

  /** A URL posted to empty stores is what its code redirects to. */
  lemma PostedIsFetched(h: Encoder, base: string, url: string, version: string)
    ensures var s := Run(h, base, EMPTY, [Posting(url, version, true)]);
            Get(base, s, base + "/" + Candidate(h, url, 0), version, None).1 == Redirect(version, url)
  {
    hide Candidate;
    var e := Posting(url, version, true);
    assert [e][1..] == [];
    assert !Taken(h, map[], url, 0);
    assert Run(h, base, EMPTY, [e]) == Apply(h, base, EMPTY, e);
    GetAnswers(base, Apply(h, base, EMPTY, e), Candidate(h, url, 0), version, None);
  }

  /**
   The exact condition on what is posted: every answer to a GET, in every run, is
   read as it is meant if and only if no URL has inside it what the reader takes
   for a line end.
   */
  lemma GetsAreReadExactly(reader: Reader, h: Encoder, base: string, urls: set<string>)
    ensures AllReadAsMeant(reader, h, base, urls) <==> forall url :: url in urls ==> OneLine(reader, url)
  {
    hide OneLine, ReadAsMeant, Candidate, Get, Run;
    if forall url :: url in urls ==> OneLine(reader, url) {
      forall es, uri, version, page | PostsIn(es, urls)
        ensures ReadAsMeant(reader, Get(base, Run(h, base, EMPTY, es), uri, version, page).1)
      {
        ReachableIsSound(h, base, es);
        GetIsReadAsMeant(reader, base, Run(h, base, EMPTY, es), uri, version, page);
      }
    }
    if AllReadAsMeant(reader, h, base, urls) {
      forall url | url in urls
        ensures OneLine(reader, url)
      {
        var es := [Posting(url, "", true)];
        assert PostsIn(es, urls);
        PostedIsFetched(h, base, url, "");
        RedirectIsReadExactly(reader, "", url);
      }
    }
  }

  /** A URL with CR LF inside: the run that posts it, and the GET that answers two headers for one. */
  lemma LineEndSplitsHeader(h: Encoder, base: string, version: string)
    ensures var url := "a\r\nX: y";
            var s := Run(h, base, EMPTY, [Posting(url, version, true)]);
            var res := Get(base, s, base + "/" + Candidate(h, url, 0), version, None).1;
            && Text(res) == Text(Response(version, 302, "Found", [Header("Location", "a"), Header("X", "y")], ""))
            && !ReadAsMeant(Strict, res)
  {
    hide Candidate, ReadAsMeant, Get, Run, Text;
    var url := "a\r\nX: y";
    PostedIsFetched(h, base, url, version);
    assert url == "a" + CRLF + Field(Header("X", "y"));
    SplitValueIsTwoHeaders(Redirect(version, url), "Location", "a", "X", "y");
    RedirectIsReadExactly(Strict, version, url);
    OneLineMeans(url);
    assert url[1] == '\r' && url[2] == '\n';
  }

  /** A lone line feed or carriage return misleads the lenient reader only. */
  lemma LoneMarksMisleadLenient(version: string, url: string)
    requires url == "a\nX: y" || url == "a\rb"
    ensures ReadAsMeant(Strict, Redirect(version, url)) && !ReadAsMeant(Lenient, Redirect(version, url))
  {
    hide ReadAsMeant;
    RedirectIsReadExactly(Strict, version, url);
    RedirectIsReadExactly(Lenient, version, url);
    OneLineMeans(url);
    assert url[1] == '\n' || url[1] == '\r';
  }
}

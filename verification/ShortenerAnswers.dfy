/**
 The answers of the shortener, field by field, for the codes of the hash itself:
 what a POST and a GET answer and what they leave in the stores.
 */
module ShortenerAnswers {
  import opened Options
  import opened Decimal
  import opened Base62
  import opened Http
  import opened Shortener

  /** Six base 62 digits that stand for the hash. */
  predicate IsCodeOf(code: string, hash: HashValue) {
    |code| == 6 && AllBase62(code) && Value(code) == CodeValue(hash)
  }

  /** The codes of a URL and of the URL with the number of the attempt behind it. */
  predicate AreCodes(codes: seq<string>, hash: string -> HashValue, url: string) {
    && |codes| == 5
    && IsCodeOf(codes[0], hash(url)) && IsCodeOf(codes[1], hash(url + "#1")) && IsCodeOf(codes[2], hash(url + "#2"))
    && IsCodeOf(codes[3], hash(url + "#3")) && IsCodeOf(codes[4], hash(url + "#4"))
  }

  lemma CodeIsEncoded(code: string, hash: HashValue)
    requires IsCodeOf(code, hash)
    ensures code == Encode(hash)
  {
    ValueOfEncode(hash);
    ValueInjective(code, Encode(hash));
  }

  lemma EncodedIsCode(hash: HashValue)
    ensures IsCodeOf(Encode(hash), hash)
  {
    ValueOfEncode(hash);
  }

  lemma SaltedIs(url: string)
    ensures Salted(url, 0) == url && Salted(url, 1) == url + "#1" && Salted(url, 2) == url + "#2"
    ensures Salted(url, 3) == url + "#3" && Salted(url, 4) == url + "#4"
  {
    SmallTexts();
    hide Decimal.ToString;
    assert url + "#" + "1" == url + "#1" && url + "#" + "2" == url + "#2";
    assert url + "#" + "3" == url + "#3" && url + "#" + "4" == url + "#4";
  }

  lemma SmallTexts()
    ensures Decimal.ToString(1) == "1" && Decimal.ToString(2) == "2"
    ensures Decimal.ToString(3) == "3" && Decimal.ToString(4) == "4"
  {
    ToStringIs(1);
    ToStringIs(2);
    ToStringIs(3);
    ToStringIs(4);
  }

  /** The candidates of the server are these codes. */
  lemma CodesAreCandidates(hash: string -> HashValue, url: string, codes: seq<string>)
    requires AreCodes(codes, hash, url)
    ensures |codes| == 5 && forall j: nat :: j < 5 ==> codes[j] == Candidate(EncoderOf(hash), url, j)
  {
    hide Encode;
    SaltedIs(url);
    CodeIsEncoded(codes[0], hash(url));
    CodeIsEncoded(codes[1], hash(url + "#1"));
    CodeIsEncoded(codes[2], hash(url + "#2"));
    CodeIsEncoded(codes[3], hash(url + "#3"));
    CodeIsEncoded(codes[4], hash(url + "#4"));
    hide Salted, IsCodeOf;
    forall j: nat | j < 5
      ensures codes[j] == Candidate(EncoderOf(hash), url, j)
    {
      assert j == 0 || j == 1 || j == 2 || j == 3 || j == 4;
    }
  }

  lemma CodesExist(hash: string -> HashValue, url: string) returns (codes: seq<string>)
    ensures AreCodes(codes, hash, url)
  {
    codes := [Encode(hash(url)), Encode(hash(url + "#1")), Encode(hash(url + "#2")),
              Encode(hash(url + "#3")), Encode(hash(url + "#4"))];
    EncodedIsCode(hash(url));
    EncodedIsCode(hash(url + "#1"));
    EncodedIsCode(hash(url + "#2"));
    EncodedIsCode(hash(url + "#3"));
    EncodedIsCode(hash(url + "#4"));
    hide Encode, IsCodeOf;
  }

  /** The code is there, for another URL. */
  predicate Other(t: Table, code: string, url: string) {
    code in t && t[code] != url
  }

  /**
   A POST, when the codes of the first `j` attempts hold other URLs: a free code is
   stored and answered, the URL's own is answered, and a refused store is an error.
   */
  lemma PostAnswersCode(hash: string -> HashValue, t: Table, url: string, version: string, works: bool,
                        codes: seq<string>, j: nat)
    requires AreCodes(codes, hash, url) && j < 5 && forall i :: 0 <= i < j ==> Other(t, codes[i], url)
    ensures var (u, res) := Post(EncoderOf(hash), t, url, version, works);
            var code := codes[j];
            var answered := Response(version, 200, "OK", [Header("Content-Type", "text/plain")], code);
            && (code !in t && works ==> res == answered && u == t[code := url])
            && (code in t && t[code] == url ==> res == answered && u == t)
            && (code !in t && !works ==>
                  u == t && res == Response("HTTP/1.1", 500, "Internal Server Error",
                                            [Header("Content-Type", "text/plain")], "Failed to store URL mapping"))
  {
    hide Encode, Candidate, AreCodes;
    var h := EncoderOf(hash);
    CodesAreCandidates(hash, url, codes);
    forall i: nat | i < j
      ensures Taken(h, t, url, i)
    {
      assert Other(t, codes[i], url);
    }
    hide Taken;
    assert Slot(h, t, url, 0) >= j;
    assert Slot(h, t, url, 0) > j ==> Taken(h, t, url, j);
    TakenMeans(h, t, url, j);
    hide Slot;
  }

  lemma TakenMeans(h: Encoder, t: Table, url: string, j: nat)
    ensures Taken(h, t, url, j) <==> Candidate(h, url, j) in t && t[Candidate(h, url, j)] != url
  {
  }

  /** When all five codes hold other URLs. */
  lemma PostExhausts(hash: string -> HashValue, t: Table, url: string, version: string, works: bool,
                     codes: seq<string>)
    requires AreCodes(codes, hash, url) && forall i :: 0 <= i < 5 ==> Other(t, codes[i], url)
    ensures Post(EncoderOf(hash), t, url, version, works)
            == (t, Response("HTTP/1.1", 500, "Internal Server Error", [Header("Content-Type", "text/plain")],
                            "Could not generate unique short URL"))
  {
    hide Encode, Candidate, AreCodes;
    var h := EncoderOf(hash);
    CodesAreCandidates(hash, url, codes);
    forall i: nat | i < 5
      ensures Taken(h, t, url, i)
    {
      assert Other(t, codes[i], url);
    }
    hide Taken;
    assert Slot(h, t, url, 0) == 5;
    hide Slot;
  }

  /** On empty stores two URLs with different code values are both answered, each its own code. */
  lemma TwoPostsAnswered(hash: string -> HashValue, url: string, url': string, version: string)
    requires CodeValue(hash(url)) != CodeValue(hash(url'))
    ensures var (t, res) := Post(EncoderOf(hash), map[], url, version, true);
            var (u, res') := Post(EncoderOf(hash), t, url', version, true);
            && res.statusCode == 200 && IsCodeOf(res.body, hash(url))
            && res'.statusCode == 200 && IsCodeOf(res'.body, hash(url'))
            && u == map[res.body := url, res'.body := url']
  {
    hide Encode, Post, AllBase62;
    var codes := CodesExist(hash, url);
    var codes' := CodesExist(hash, url');
    PostAnswersCode(hash, map[], url, version, true, codes, 0);
    PostAnswersCode(hash, map[codes[0] := url], url', version, true, codes', 0);
    assert codes[0] != codes'[0];
    assert map[][codes[0] := url] == map[codes[0] := url];
  }

  // ---------------------------------------------------------------------------
  // GET.

  lemma GetAnswersPage(base: string, s: State, version: string, page: Option<string>)
    ensures page.Some? ==>
              Get(base, s, base, version, page)
              == (s, Response(version, 200, "OK", [Header("Content-Type", "text/html")], page.value))
    ensures page.None? ==>
              Get(base, s, base, version, page)
              == (s, Response("HTTP/1.1", 404, "Not Found", [Header("Content-Type", "text/plain")], "404 Not Found"))
  {
  }

  /** A URI other than the base: a redirect for a six-character code of the table, 404 for all else. */
  lemma GetAnswersCode(base: string, s: State, uri: string, version: string, page: Option<string>)
    requires uri != base
    requires forall code :: code in s.cache ==> code in s.table && s.table[code] == s.cache[code]
    ensures var (q, res) := Get(base, s, uri, version, page);
            if |uri| == |base| + 7 && uri[|base| + 1..] in s.table then
              var url := s.table[uri[|base| + 1..]];
              && res == Response(version, 302, "Found", [Header("Location", url)], "")
              && q == State(s.table, s.cache[uri[|base| + 1..] := url])
            else
              && res == Response("HTTP/1.1", 404, "Not Found", [Header("Content-Type", "text/plain")], "404 Not Found")
              && q == s
  {
    if |uri| == |base| + 7 {
      var code := uri[|base| + 1..];
      assert code in s.cache ==> s.cache[code := s.table[code]] == s.cache;
    }
  }
}

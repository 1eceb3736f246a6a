/**
 Requests, responses and the text of a response. A reader gets the lines that are
 meant exactly when no part of the head has a line end inside. The text then frames
 itself: the status line and the headers end at the blank line and the body has the
 length the last header gives, so responses written one after the other are read
 back in one way only.
 */
module Http {
  import opened Options
  import opened Decimal
  import opened LineReader

  const HTTP_VERSION := "HTTP/1.1"

  datatype Header = Header(name: string, value: string)

  datatype Request = Request(verb: string, uri: string, version: string,
                             headers: seq<Header>, body: string, valid: bool)

  datatype Response = Response(version: string, statusCode: int, statusMessage: string,
                               headers: seq<Header>, body: string)

  function Plain(code: int, message: string, body: string): Response {
    Response(HTTP_VERSION, code, message, [Header("Content-Type", "text/plain")], body)
  }

  const BAD_REQUEST := Plain(400, "Bad Request", "400 Bad Request")
  const NOT_FOUND := Plain(404, "Not Found", "404 Not Found")
  const NOT_ALLOWED := Plain(405, "Method Not Allowed", "405 Method Not Allowed")
  const UNSUPPORTED := Plain(415, "Unsupported Media Type", "415 Unsupported Media Type")
  const SERVER_ERROR := Plain(500, "Internal Server Error", "500 Internal Server Error")

  function Line(h: Header): string {
    h.name + ": " + h.value + CRLF
  }

  function Lines(hs: seq<Header>): string {
    if hs == [] then "" else Line(hs[0]) + Lines(hs[1..])
  }

  /** All headers as written, the computed length last. */
  function Fields(r: Response): seq<Header> {
    r.headers + [Header("Content-Length", ToString(|r.body|))]
  }

  function Text(r: Response): string {
    "HTTP/1.1 " + ToString(r.statusCode) + " " + r.statusMessage + CRLF + Lines(Fields(r)) + CRLF + r.body
  }

  lemma {:induction false} LinesSnoc(hs: seq<Header>, h: Header)
    ensures Lines(hs + [h]) == Lines(hs) + Line(h)
  {
    if hs != [] {
      LinesSnoc(hs[1..], h);
      assert (hs + [h])[1..] == hs[1..] + [h];
    }
  }

  method AppendHeaders(start: string, headers: seq<Header>) returns (text: string)
    ensures text == start + Lines(headers)
  {
    text := start;
    for i := 0 to |headers|
      invariant text == start + Lines(headers[..i])
    {
      var header := headers[i];
      LinesSnoc(headers[..i], header);
      assert headers[..i + 1] == headers[..i] + [header];
      text := text + (header.name + ": " + header.value + CRLF);
    }
    assert headers[..|headers|] == headers;
  }

  /** `Response::to_string`. */
  method Serialize(r: Response) returns (text: string)
    ensures text == Text(r)
  {
    hide Lines, Fields;
    var start := "HTTP/1.1 " + Decimal.ToString(r.statusCode) + " " + r.statusMessage + CRLF;
    text := AppendHeaders(start, r.headers);
    FieldsLines(r);
    var length := "Content-Length: " + Decimal.ToString(|r.body|) + CRLF;
    Together(start, Lines(r.headers), length);
    text := text + length;
    text := text + CRLF;
    text := text + r.body;
  }

  /** The text, piece by piece: each header is a line in front of the length. */
  lemma TextIs(version: string, code: int, message: string, hs: seq<Header>, h: Header, body: string)
    ensures var start := "HTTP/1.1 " + ToString(code) + " " + message + "\r\n";
            && Text(Response(version, code, message, [], body))
               == start + "Content-Length: " + ToString(|body|) + "\r\n\r\n" + body
            && start <= Text(Response(version, code, message, hs, body))
            && Text(Response(version, code, message, [h] + hs, body))
               == start + h.name + ": " + h.value + "\r\n"
                  + Text(Response(version, code, message, hs, body))[|start|..]
  {
    hide ToString;
    var start := "HTTP/1.1 " + ToString(code) + " " + message + "\r\n";
    var none := Response(version, code, message, [], body);
    FieldsLines(none);
    assert Text(none) == start + Lines(Fields(none)) + "\r\n" + body;
    OneMoreLine(version, code, message, hs, h, body);
  }

  lemma OneMoreLine(version: string, code: int, message: string, hs: seq<Header>, h: Header, body: string)
    ensures var start := "HTTP/1.1 " + ToString(code) + " " + message + "\r\n";
            && start <= Text(Response(version, code, message, hs, body))
            && Text(Response(version, code, message, [h] + hs, body))
               == start + h.name + ": " + h.value + "\r\n"
                  + Text(Response(version, code, message, hs, body))[|start|..]
  {
    hide ToString;
    var start := "HTTP/1.1 " + ToString(code) + " " + message + "\r\n";
    var q, r := Response(version, code, message, hs, body), Response(version, code, message, [h] + hs, body);
    assert Fields(r) == [h] + Fields(q) && Fields(r)[1..] == Fields(q);
    hide Fields;
    assert Lines(Fields(r)) == Line(h) + Lines(Fields(q));
    assert Text(q) == start + (Lines(Fields(q)) + "\r\n" + body);
    assert Text(r) == start + Line(h) + (Lines(Fields(q)) + "\r\n" + body);
    hide Lines;
    assert start + h.name + ": " + h.value + "\r\n" == start + Line(h);
  }

  lemma Together(a: string, b: string, c: string)
    ensures a + b + c == a + (b + c)
  {
  }

  lemma FieldsLines(r: Response)
    ensures Lines(Fields(r)) == Lines(r.headers) + ("Content-Length: " + ToString(|r.body|) + CRLF)
  {
    var h := Header("Content-Length", ToString(|r.body|));
    LinesSnoc(r.headers, h);
    assert "Content-Length: " == "Content-Length" + ": ";
    assert Line(h) == "Content-Length: " + ToString(|r.body|) + CRLF;
  }

  // ---------------------------------------------------------------------------
  // The text, read back.

  function Field(h: Header): string {
    h.name + ": " + h.value
  }

  function StatusLine(r: Response): string {
    "HTTP/1.1 " + ToString(r.statusCode) + " " + r.statusMessage
  }

  function HeaderLines(hs: seq<Header>): seq<string> {
    seq(|hs|, i requires 0 <= i < |hs| => Field(hs[i]))
  }

  /** The lines that the head of the text is meant to have. */
  function HeadLines(r: Response): seq<string> {
    [StatusLine(r)] + HeaderLines(Fields(r))
  }

  predicate UnbrokenHeader(reader: Reader, h: Header) {
    OneLine(reader, h.name) && OneLine(reader, h.value)
  }

  /** No part of the status line or of a header has a line end inside. */
  predicate Unbroken(reader: Reader, r: Response) {
    OneLine(reader, r.statusMessage) && forall i :: 0 <= i < |r.headers| ==> UnbrokenHeader(reader, r.headers[i])
  }

  /** A reader of the text, whatever follows it, gets the lines and the body that are meant. */
  ghost predicate ReadAsMeant(reader: Reader, r: Response) {
    forall x :: ReadHead(reader, Text(r) + x) == Some((HeadLines(r), r.body + x))
  }

  lemma {:induction false} LinesJoined(hs: seq<Header>)
    ensures Lines(hs) == Joined(HeaderLines(hs))
  {
    if hs != [] {
      LinesJoined(hs[1..]);
      assert HeaderLines(hs)[1..] == HeaderLines(hs[1..]);
    }
  }

  lemma TextJoined(r: Response, x: string)
    ensures Text(r) + x == Joined(HeadLines(r)) + (CRLF + (r.body + x))
  {
    LinesJoined(Fields(r));
    assert HeadLines(r)[1..] == HeaderLines(Fields(r));
    hide Lines, HeaderLines, Fields;
    assert Text(r) == StatusLine(r) + CRLF + Lines(Fields(r)) + CRLF + r.body;
  }

  lemma DecimalIsOneLine(reader: Reader, n: int)
    ensures OneLine(reader, ToString(n))
  {
    ToStringAlphabet(n);
    hide ToString;
    PlainIsOneLine(reader, ToString(n));
  }

  /** A text without either character has no line end for any reader. */
  lemma PlainIsOneLine(reader: Reader, s: string)
    requires IsPlain(s)
    ensures OneLine(reader, s)
  {
    hide OneLine;
    OneLineMeans(s);
    assert reader == Strict || reader == Lenient;
  }

  lemma FieldIsOneLine(reader: Reader, h: Header)
    ensures OneLine(reader, Field(h)) <==> UnbrokenHeader(reader, h)
  {
    hide OneLine;
    assert Field(h) == h.name + [':'] + (" " + h.value) && " " + h.value == "" + [' '] + h.value;
    OneLineJoin(reader, h.name, ':', " " + h.value);
    OneLineJoin(reader, "", ' ', h.value);
    OneLineEmpty(reader);
  }

  lemma StatusIsOneLine(reader: Reader, r: Response)
    ensures OneLine(reader, StatusLine(r)) <==> OneLine(reader, r.statusMessage)
  {
    hide ToString;
    PlainIsOneLine(reader, "HTTP/1.1");
    DecimalIsOneLine(reader, r.statusCode);
    hide OneLine;
    var code := ToString(r.statusCode);
    assert StatusLine(r) == "HTTP/1.1" + [' '] + (code + [' '] + r.statusMessage);
    OneLineJoin(reader, "HTTP/1.1", ' ', code + [' '] + r.statusMessage);
    OneLineJoin(reader, code, ' ', r.statusMessage);
  }

  lemma LengthIsOneLine(reader: Reader, r: Response)
    ensures UnbrokenHeader(reader, Header("Content-Length", ToString(|r.body|)))
  {
    PlainIsOneLine(reader, "Content-Length");
    DecimalIsOneLine(reader, |r.body|);
  }

  lemma HeadLinesAreOneLine(reader: Reader, r: Response)
    ensures (forall i :: 0 <= i < |HeadLines(r)| ==> OneLine(reader, HeadLines(r)[i])) <==> Unbroken(reader, r)
  {
    hide OneLine, ToString, StatusLine, Field;
    var lines, fs := HeadLines(r), Fields(r);
    StatusIsOneLine(reader, r);
    LengthIsOneLine(reader, r);
    forall i | 0 <= i < |fs|
      ensures OneLine(reader, lines[i + 1]) <==> UnbrokenHeader(reader, fs[i])
    {
      FieldIsOneLine(reader, fs[i]);
    }
    forall i | 0 <= i < |lines|
      ensures OneLine(reader, lines[i])
              <==> if i == 0 then OneLine(reader, r.statusMessage) else UnbrokenHeader(reader, fs[i - 1])
    {
    }
    hide UnbrokenHeader;
    if Unbroken(reader, r) {
    } else if forall i :: 0 <= i < |lines| ==> OneLine(reader, lines[i]) {
      assert OneLine(reader, lines[0]);
      forall i | 0 <= i < |r.headers|
        ensures UnbrokenHeader(reader, r.headers[i])
      {
        assert OneLine(reader, lines[i + 1]) && fs[i] == r.headers[i];
      }
    }
  }

  /**
   A reader gets the lines and the body that are meant exactly when no part of the
   head has inside it what the reader takes for a line end.
   */
  lemma TextIsReadExactly(reader: Reader, r: Response)
    ensures ReadAsMeant(reader, r) <==> Unbroken(reader, r)
  {
    hide OneLine, Unbroken, ReadHead, Text, HeadLines;
    forall x
      ensures ReadHead(reader, Text(r) + x) == Some((HeadLines(r), r.body + x)) <==> Unbroken(reader, r)
    {
      TextJoined(r, x);
      HeadLinesNotEmpty(r);
      LinesAreRead(reader, HeadLines(r), r.body + x);
      HeadLinesAreOneLine(reader, r);
    }
    assert ReadHead(reader, Text(r) + "") == Some((HeadLines(r), r.body + "")) <==> Unbroken(reader, r);
  }

  lemma HeadLinesNotEmpty(r: Response)
    ensures forall i :: 0 <= i < |HeadLines(r)| ==> HeadLines(r)[i] != ""
  {
  }

  /** A header value with CR LF inside is the text of two headers. */
  lemma SplitValueIsTwoHeaders(r: Response, name: string, value: string, name': string, value': string)
    ensures Text(r.(headers := [Header(name, value + CRLF + Field(Header(name', value')))]))
            == Text(r.(headers := [Header(name, value), Header(name', value')]))
  {
    var one := [Header(name, value + CRLF + Field(Header(name', value')))];
    var two := [Header(name, value), Header(name', value')];
    var q, p := r.(headers := one), r.(headers := two);
    FieldsLines(q);
    FieldsLines(p);
    assert two[1..] == [Header(name', value')] && two[1..][1..] == [] && one[1..] == [];
    assert Lines(one) == Lines(two);
  }

  // ---------------------------------------------------------------------------
  // Unique framing.

  /** Every line reads back as it is written, and every header as its name and value. */
  predicate Sendable(r: Response) {
    Unbroken(Strict, r) && forall i :: 0 <= i < |r.headers| ==> Free(r.headers[i].name, ':')
  }

  /** Neither of the characters that end a line. */
  predicate IsPlain(s: string) {
    Free(s, '\r') && Free(s, '\n')
  }

  predicate IsPlainHeader(h: Header) {
    IsPlain(h.name) && Free(h.name, ':') && IsPlain(h.value)
  }

  predicate IsPlainResponse(r: Response) {
    IsPlain(r.statusMessage) && forall i :: 0 <= i < |r.headers| ==> IsPlainHeader(r.headers[i])
  }

  /** Made of plain parts, a response can be sent and any reader reads it as it is meant. */
  lemma PlainIsSendable(reader: Reader, r: Response)
    requires IsPlainResponse(r)
    ensures Sendable(r) && ReadAsMeant(reader, r)
  {
    hide OneLine, Free, ReadAsMeant, UnbrokenHeader;
    PlainIsOneLine(Strict, r.statusMessage);
    PlainIsOneLine(reader, r.statusMessage);
    forall i | 0 <= i < |r.headers|
      ensures UnbrokenHeader(Strict, r.headers[i]) && UnbrokenHeader(reader, r.headers[i])
    {
      assert IsPlainHeader(r.headers[i]);
      PlainHeaderIsUnbroken(Strict, r.headers[i]);
      PlainHeaderIsUnbroken(reader, r.headers[i]);
    }
    TextIsReadExactly(reader, r);
  }

  lemma PlainHeaderIsUnbroken(reader: Reader, h: Header)
    requires IsPlainHeader(h)
    ensures UnbrokenHeader(reader, h)
  {
    PlainIsOneLine(reader, h.name);
    PlainIsOneLine(reader, h.value);
  }

  /** Texts of letters, blanks and a few marks. */
  lemma ContentTypesArePlain()
    ensures IsPlainHeader(Header("Content-Type", "text/plain"))
    ensures IsPlainHeader(Header("Content-Type", "text/html"))
    ensures IsPlainHeader(Header("Content-Type", "application/json"))
  {
  }

  lemma FailuresArePlain(body: string)
    ensures IsPlainResponse(NOT_FOUND.(body := body)) && IsPlainResponse(SERVER_ERROR.(body := body))
  {
    hide IsPlainHeader;
    ContentTypesArePlain();
  }

  lemma RefusalsArePlain(body: string)
    ensures IsPlainResponse(BAD_REQUEST.(body := body)) && IsPlainResponse(NOT_ALLOWED.(body := body))
    ensures IsPlainResponse(UNSUPPORTED.(body := body))
  {
    hide IsPlainHeader;
    ContentTypesArePlain();
  }

  /** A text is cut in one way only at the first occurrence of a character. */
  lemma CutsOnce(a: string, x: string, b: string, y: string, c: char)
    requires Free(a, c) && Free(b, c) && a + [c] + x == b + [c] + y
    ensures a == b && x == y
  {
    var s := a + [c] + x;
    assert s[|a|] == c && s[|b|] == c;
    assert forall i :: 0 <= i < |a| ==> s[i] == a[i];
    assert forall i :: 0 <= i < |b| ==> s[i] == b[i];
    assert a == s[..|a|] && b == s[..|b|];
    assert x == s[|a| + 1..] && y == s[|b| + 1..];
  }

  lemma FieldInjective(g: Header, h: Header)
    requires Free(g.name, ':') && Free(h.name, ':') && Field(g) == Field(h)
    ensures g == h
  {
    assert Field(g) == g.name + [':'] + (" " + g.value) && Field(h) == h.name + [':'] + (" " + h.value);
    CutsOnce(g.name, " " + g.value, h.name, " " + h.value, ':');
    DropPrefix(" ", g.value, h.value);
  }

  lemma StatusInjective(q: Response, r: Response)
    requires StatusLine(q) == StatusLine(r)
    ensures q.statusCode == r.statusCode && q.statusMessage == r.statusMessage
  {
    ToStringAlphabet(q.statusCode);
    ToStringAlphabet(r.statusCode);
    hide ToString;
    var qc, rc := ToString(q.statusCode), ToString(r.statusCode);
    assert StatusLine(q) == "HTTP/1.1 " + (qc + [' '] + q.statusMessage);
    assert StatusLine(r) == "HTTP/1.1 " + (rc + [' '] + r.statusMessage);
    DropPrefix("HTTP/1.1 ", qc + [' '] + q.statusMessage, rc + [' '] + r.statusMessage);
    CutsOnce(qc, q.statusMessage, rc, r.statusMessage, ' ');
    ToStringInjective(q.statusCode, r.statusCode);
  }

  lemma FieldsInjective(q: Response, r: Response)
    requires Sendable(q) && Sendable(r) && HeaderLines(Fields(q)) == HeaderLines(Fields(r))
    ensures q.headers == r.headers && |q.body| == |r.body|
  {
    hide ToString, Unbroken, Field;
    var qs, rs := Fields(q), Fields(r);
    assert |qs| == |HeaderLines(qs)| && |rs| == |HeaderLines(rs)|;
    forall i | 0 <= i < |qs|
      ensures qs[i] == rs[i]
    {
      assert Field(qs[i]) == HeaderLines(qs)[i] && Field(rs[i]) == HeaderLines(rs)[i];
      FieldInjective(qs[i], rs[i]);
    }
    assert q.headers == qs[..|qs| - 1] && r.headers == rs[..|rs| - 1];
    assert qs[|qs| - 1] == rs[|rs| - 1];
    ToStringInjective(|q.body|, |r.body|);
  }

  /**
   The text of a response is self-delimiting: followed by anything, it determines
   the response, the unused version field apart, and what follows.
   */
  lemma TextIsFramed(q: Response, x: string, r: Response, y: string)
    requires Sendable(q) && Sendable(r) && Text(q) + x == Text(r) + y
    ensures q.(version := r.version) == r && x == y
  {
    hide Text, Unbroken, ReadHead, StatusLine, HeaderLines, Fields;
    TextIsReadExactly(Strict, q);
    TextIsReadExactly(Strict, r);
    assert ReadHead(Strict, Text(q) + x) == Some((HeadLines(q), q.body + x));
    assert ReadHead(Strict, Text(r) + y) == Some((HeadLines(r), r.body + y));
    assert HeadLines(q)[0] == HeadLines(r)[0] && HeadLines(q)[1..] == HeadLines(r)[1..];
    StatusInjective(q, r);
    FieldsInjective(q, r);
    assert q.body == (q.body + x)[..|q.body|] && x == (q.body + x)[|q.body|..];
    assert r.body == (r.body + y)[..|r.body|] && y == (r.body + y)[|r.body|..];
  }

  lemma DropPrefix(p: string, x: string, y: string)
    requires p + x == p + y
    ensures x == y
  {
    assert x == (p + x)[|p|..] && y == (p + y)[|p|..];
  }

  /** The text of responses sent back to back. */
  function Stream(rs: seq<Response>): string {
    if rs == [] then "" else Text(rs[0]) + Stream(rs[1..])
  }

  /** A stream of responses is read back in one way only. */
  lemma {:induction false} StreamIsFramed(qs: seq<Response>, rs: seq<Response>)
    requires forall i :: 0 <= i < |qs| ==> Sendable(qs[i])
    requires forall i :: 0 <= i < |rs| ==> Sendable(rs[i])
    requires Stream(qs) == Stream(rs)
    ensures |qs| == |rs| && forall i :: 0 <= i < |qs| ==> qs[i].(version := rs[i].version) == rs[i]
    decreases |qs|
  {
    if qs != [] {
      TextNotEmpty(qs[0]);
    }
    if rs != [] {
      TextNotEmpty(rs[0]);
    }
    if qs != [] && rs != [] {
      hide Text, Sendable;
      TextIsFramed(qs[0], Stream(qs[1..]), rs[0], Stream(rs[1..]));
      StreamIsFramed(qs[1..], rs[1..]);
      forall i | 0 <= i < |qs|
        ensures qs[i].(version := rs[i].version) == rs[i]
      {
        if i > 0 {
          assert qs[i] == qs[1..][i - 1] && rs[i] == rs[1..][i - 1];
        }
      }
    }
  }

  lemma TextNotEmpty(r: Response)
    ensures Text(r) != ""
  {
  }
}

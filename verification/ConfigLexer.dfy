/**
 The lexer of the nginx-style configuration parser: a five-state character
 machine over an input stream with one character of unget.

 `Lex` says declaratively what the next lexeme of a text is (skip blanks, then
 take the longest run the first character allows); `ParseToken` is the machine.
 */
module ConfigLexer {
  datatype TokenType =
    | Start
    | Normal
    | StartBlock
    | EndBlock
    | Comment
    | StatementEnd
    | Eof
    | Error

  // Only the text of a word matters to the parser.
  datatype Token = Token(kind: TokenType, value: string)

  datatype Lexeme = Lexeme(kind: TokenType, value: string, rest: string)

  // The character sets a scan can stop at.
  datatype Stop = NonBlank | LineEnd | Quote(mark: char) | WordEnd

  predicate IsBlank(c: char) {
    c == ' ' || c == '\t' || c == '\n' || c == '\r'
  }

  // A carriage return is blank but does not end a word.
  predicate EndsWord(c: char) {
    c == ' ' || c == '\t' || c == '\n' || c == ';' || c == '{' || c == '}'
  }

  predicate IsQuote(c: char) {
    c == '"' || c == '\''
  }

  predicate Stops(stop: Stop, c: char) {
    match stop
    case NonBlank => !IsBlank(c)
    case LineEnd => c == '\n' || c == '\r'
    case Quote(mark) => c == mark
    case WordEnd => EndsWord(c)
  }

  /** The length of the longest prefix of `s` without a stop character. */
  function Scan(s: string, stop: Stop): (n: nat)
    ensures n <= |s|
  {
    if s == [] || Stops(stop, s[0]) then 0 else 1 + Scan(s[1..], stop)
  }

  lemma {:induction false} ScanStops(s: string, stop: Stop)
    ensures forall i :: 0 <= i < Scan(s, stop) ==> !Stops(stop, s[i])
    ensures Scan(s, stop) < |s| ==> Stops(stop, s[Scan(s, stop)])
  {
    if s != [] && !Stops(stop, s[0]) {
      ScanStops(s[1..], stop);
      assert forall i :: 1 <= i < |s| ==> s[i] == s[1..][i - 1];
    }
  }

  datatype LexState = InitialWhitespace | SingleQuote | DoubleQuote | InComment | InNormal

  /** The stop character that ends a token in `state`. */
  function StopOf(state: LexState): Stop {
    match state
    case InitialWhitespace => NonBlank
    case SingleQuote => Quote('\'')
    case DoubleQuote => Quote('"')
    case InComment => LineEnd
    case InNormal => WordEnd
  }

  /** The state a first character that is no token by itself leads to. */
  function StateAfter(c: char): LexState {
    if c == '#' then InComment
    else if c == '"' then DoubleQuote
    else if c == '\'' then SingleQuote
    else InNormal
  }

  predicate Completes(kind: TokenType) {
    kind != Eof && kind != Error
  }

  /** The next lexeme of a text. A completed token uses up at least one character. */
  function Lex(s: string): (l: Lexeme)
    ensures Completes(l.kind) ==> |l.rest| < |s|
    ensures !Completes(l.kind) ==> l.rest == ""
  {
    var r := s[Scan(s, NonBlank)..];
    if r == "" then Lexeme(Eof, "", "")
    else if r[0] == '{' then Lexeme(StartBlock, "{", r[1..])
    else if r[0] == '}' then Lexeme(EndBlock, "}", r[1..])
    else if r[0] == ';' then Lexeme(StatementEnd, ";", r[1..])
    else Rest(StateAfter(r[0]), [r[0]], r[1..])
  }

  /**
   The lexeme of which `begun` has been read, when `s` follows: a word stops
   before its delimiter, a quoted string after its closing quote, a comment
   drops its line end. Without a stop character a quoted string is an error and
   anything else is dropped at the end of the text.
   */
  function Rest(state: LexState, begun: string, s: string): (l: Lexeme)
    requires state != InitialWhitespace
    ensures Completes(l.kind) ==> |l.rest| <= |s|
    ensures !Completes(l.kind) ==> l.rest == ""
  {
    var n := Scan(s, StopOf(state));
    if state == SingleQuote || state == DoubleQuote then
      if n == |s| then Lexeme(Error, "", "") else Lexeme(Normal, begun + s[..n + 1], s[n + 1..])
    else if n == |s| then
      Lexeme(Eof, "", "")
    else if state == InComment then
      Lexeme(Comment, begun + s[..n], s[n + 1..])
    else
      Lexeme(Normal, begun + s[..n], s[n..])
  }

  /** The character machine, one character a call. */
  function Machine(state: LexState, begun: string, s: string): Lexeme
    decreases |s|
  {
    if s == "" then
      Lexeme(if state == SingleQuote || state == DoubleQuote then Error else Eof, "", "")
    else
      var c, tail := s[0], s[1..];
      match state
      case InitialWhitespace =>
        if c == '{' then Lexeme(StartBlock, [c], tail)
        else if c == '}' then Lexeme(EndBlock, [c], tail)
        else if c == '#' then Machine(InComment, [c], tail)
        else if c == '"' then Machine(DoubleQuote, [c], tail)
        else if c == '\'' then Machine(SingleQuote, [c], tail)
        else if c == ';' then Lexeme(StatementEnd, [c], tail)
        else if IsBlank(c) then Machine(state, begun, tail)
        else Machine(InNormal, begun + [c], tail)
      case SingleQuote =>
        if c == '\'' then Lexeme(Normal, begun + [c], tail) else Machine(state, begun + [c], tail)
      case DoubleQuote =>
        if c == '"' then Lexeme(Normal, begun + [c], tail) else Machine(state, begun + [c], tail)
      case InComment =>
        if c == '\n' || c == '\r' then Lexeme(Comment, begun, tail) else Machine(state, begun + [c], tail)
      case InNormal =>
        if EndsWord(c) then Lexeme(Normal, begun, s) else Machine(state, begun + [c], tail)
  }

  /** Inside a token the machine computes the longest-run reading. */
  lemma {:induction false} MachineReadsRest(state: LexState, begun: string, s: string)
    requires state != InitialWhitespace
    ensures Machine(state, begun, s) == Rest(state, begun, s)
    decreases |s|
  {
    var stop := StopOf(state);
    if s != "" {
      if Stops(stop, s[0]) {
        assert begun + s[..0] == begun;
      } else {
        MachineReadsRest(state, begun + [s[0]], s[1..]);
        RestStep(state, begun, s);
      }
    }
  }

  /** The machine, started on a fresh token, computes the next lexeme. */
  lemma {:induction false} MachineLexes(s: string)
    ensures Machine(InitialWhitespace, "", s) == Lex(s)
  {
    if s != "" {
      if IsBlank(s[0]) {
        MachineLexes(s[1..]);
        BlankStep(s);
      } else {
        MachineReadsRest(StateAfter(s[0]), [s[0]], s[1..]);
        assert "" + [s[0]] == [s[0]];
      }
    }
  }

  /** Reading one blank before the token. */
  lemma BlankStep(s: string)
    requires s != "" && IsBlank(s[0])
    ensures Lex(s) == Lex(s[1..])
  {
    var n := Scan(s[1..], NonBlank);
    assert s[n + 1..] == s[1..][n..];
  }

  /** Reading one more character of the token in progress. */
  lemma RestStep(state: LexState, begun: string, s: string)
    requires state != InitialWhitespace && s != "" && !Stops(StopOf(state), s[0])
    ensures Rest(state, begun, s) == Rest(state, begun + [s[0]], s[1..])
  {
    var n := Scan(s[1..], StopOf(state));
    if n < |s| - 1 {
      assert s[..n + 1] == [s[0]] + s[1..][..n];
      assert s[..n + 2] == [s[0]] + s[1..][..n + 1];
      assert begun + [s[0]] + s[1..][..n] == begun + s[..n + 1];
      assert begun + [s[0]] + s[1..][..n + 1] == begun + s[..n + 2];
    }
  }

  /** The input stream, with the end-of-file flag that `get` sets. */
  class CharStream {
    const text: string
    var pos: nat
    var good: bool

    constructor (text: string)
      ensures Valid() && this.text == text && Remaining() == text && good
    {
      this.text := text;
      pos := 0;
      good := true;
    }

    ghost predicate Valid()
      reads this
    {
      pos <= |text| && (!good ==> pos == |text|)
    }

    ghost function Remaining(): string
      requires Valid()
      reads this
    {
      text[pos..]
    }

    method Get() returns (c: char)
      requires Valid() && good
      modifies this
      ensures Valid()
      ensures good <==> old(pos) < |text|
      ensures good ==> c == text[old(pos)] && pos == old(pos) + 1
      ensures !good ==> pos == old(pos)
    {
      if pos < |text| {
        c := text[pos];
        pos := pos + 1;
      } else {
        c := '\0';
        good := false;
      }
    }

    method Unget()
      requires Valid() && good && pos > 0
      modifies this
      ensures Valid() && good && pos == old(pos) - 1
    {
      pos := pos - 1;
    }
  }

  method ParseToken(input: CharStream) returns (kind: TokenType, value: string)
    requires input.Valid()
    modifies input
    ensures input.Valid()
    ensures var l := Lex(old(input.Remaining()));
            && kind == l.kind
            && input.Remaining() == l.rest
            && (Completes(kind) ==> value == l.value)
  {
    var state := InitialWhitespace;
    value := "";
    ghost var l := Lex(input.Remaining());
    MachineLexes(input.Remaining());
    while input.good
      invariant input.Valid()
      invariant Machine(state, value, input.Remaining()) == l
      decreases |input.text| - input.pos, input.good
    {
      ghost var s := input.Remaining();
      var c := input.Get();
      if !input.good {
        break;
      }
      assert s[0] == c && s[1..] == input.Remaining();
      match state {
        case InitialWhitespace =>
          if c == '{' {
            return StartBlock, [c];
          } else if c == '}' {
            return EndBlock, [c];
          } else if c == '#' {
            value := [c];
            state := InComment;
          } else if c == '"' {
            value := [c];
            state := DoubleQuote;
          } else if c == '\'' {
            value := [c];
            state := SingleQuote;
          } else if c == ';' {
            return StatementEnd, [c];
          } else if c == ' ' || c == '\t' || c == '\n' || c == '\r' {
          } else {
            value := value + [c];
            state := InNormal;
          }
        case SingleQuote =>
          if c == '\'' {
            return Normal, value + [c];
          }
          value := value + [c];
        case DoubleQuote =>
          if c == '"' {
            return Normal, value + [c];
          }
          value := value + [c];
        case InComment =>
          if c == '\n' || c == '\r' {
            return Comment, value;
          }
          value := value + [c];
        case InNormal =>
          if c == ' ' || c == '\t' || c == '\n' || c == ';' || c == '{' || c == '}' {
            input.Unget();
            assert input.Remaining() == s;
            return Normal, value;
          }
          value := value + [c];
      }
    }
    assert input.Remaining() == "";
    if state == SingleQuote || state == DoubleQuote {
      return Error, value;
    }
    return Eof, value;
  }

  /** All tokens of a text, up to and including the first end-of-file or error. */
  function Tokens(s: string): (ts: seq<Token>)
    decreases |s|
  {
    var l := Lex(s);
    [Token(l.kind, if l.kind == Normal then l.value else "")] + if Completes(l.kind) then Tokens(l.rest) else []
  }

  /**
   The token loop makes at most one call per character and one more, and only
   its last call reports the end of the text or an error.
   */
  lemma {:induction false} TokensTerminate(s: string)
    ensures 1 <= |Tokens(s)| <= |s| + 1
    ensures forall i :: 0 <= i < |Tokens(s)| ==> (Completes(Tokens(s)[i].kind) <==> i < |Tokens(s)| - 1)
    decreases |s|
  {
    var l := Lex(s);
    if Completes(l.kind) {
      TokensTerminate(l.rest);
    }
  }

  // ---------------------------------------------------------------------------
  // Lexable tokens: what the printer may write and the lexer reads back.

  predicate IsWord(w: string) {
    && w != ""
    && !IsBlank(w[0]) && w[0] != '#' && !IsQuote(w[0])
    && forall i :: 0 <= i < |w| ==> !EndsWord(w[i])
  }

  predicate IsQuoted(w: string) {
    && |w| >= 2
    && IsQuote(w[0]) && w[|w| - 1] == w[0]
    && forall i :: 1 <= i < |w| - 1 ==> w[i] != w[0]
  }

  predicate Lexable(w: string) {
    IsWord(w) || IsQuoted(w)
  }

  /** A scan has only one result that its postcondition allows. */
  lemma ScanIs(s: string, stop: Stop, n: nat)
    requires n <= |s|
    requires forall i :: 0 <= i < n ==> !Stops(stop, s[i])
    requires n < |s| ==> Stops(stop, s[n])
    ensures Scan(s, stop) == n
  {
    ScanStops(s, stop);
  }

  /** Blanks before a text change none of its tokens. */
  lemma {:induction false} LexSkipsBlanks(b: string, s: string)
    requires forall i :: 0 <= i < |b| ==> IsBlank(b[i])
    ensures Lex(b + s) == Lex(s)
  {
    if b == "" {
      assert b + s == s;
    } else {
      LexSkipsBlanks(b[1..], s);
      assert (b + s)[1..] == b[1..] + s;
      BlankStep(b + s);
    }
  }

  /** A lexable token followed by a delimiter is read back as it was written. */
  lemma LexReadsToken(w: string, s: string)
    requires Lexable(w) && s != "" && EndsWord(s[0])
    ensures Lex(w + s) == Lexeme(Normal, w, s)
  {
    var r := w + s;
    ScanIs(r, NonBlank, 0);
    assert r[0..] == r;
    assert r[1..] == w[1..] + s;
    if IsWord(w) {
      RestReadsWord(w, s);
    } else {
      RestReadsQuoted(w, s);
    }
  }

  lemma RestReadsWord(w: string, s: string)
    requires IsWord(w) && s != "" && EndsWord(s[0])
    ensures Rest(InNormal, [w[0]], w[1..] + s) == Lexeme(Normal, w, s)
  {
    var tail := w[1..] + s;
    ScanIs(tail, WordEnd, |w| - 1);
    assert tail[..|w| - 1] == w[1..];
    assert [w[0]] + w[1..] == w;
    assert tail[|w| - 1..] == s;
  }

  lemma RestReadsQuoted(w: string, s: string)
    requires IsQuoted(w)
    ensures Rest(StateAfter(w[0]), [w[0]], w[1..] + s) == Lexeme(Normal, w, s)
  {
    var tail := w[1..] + s;
    ScanIs(tail, Quote(w[0]), |w| - 2);
    assert tail[..|w| - 1] == w[1..];
    assert [w[0]] + w[1..] == w;
    assert tail[|w| - 1..] == s;
  }

  /** Every word the lexer reports is lexable. */
  lemma LexedIsLexable(s: string)
    requires Lex(s).kind == Normal
    ensures Lexable(Lex(s).value)
  {
    ScanStops(s, NonBlank);
    var r := s[Scan(s, NonBlank)..];
    RestIsLexable(r[0], r[1..]);
  }

  lemma RestIsLexable(c: char, s: string)
    requires !IsBlank(c) && !EndsWord(c) && Rest(StateAfter(c), [c], s).kind == Normal
    ensures Lexable(Rest(StateAfter(c), [c], s).value)
  {
    var n := Scan(s, StopOf(StateAfter(c)));
    ScanStops(s, StopOf(StateAfter(c)));
    if IsQuote(c) {
      var w := [c] + s[..n + 1];
      assert forall i :: 1 <= i < |w| ==> w[i] == s[i - 1];
      assert IsQuoted(w);
    } else {
      var w := [c] + s[..n];
      assert forall i :: 1 <= i < |w| ==> w[i] == s[i - 1];
      assert IsWord(w);
    }
  }

  // ---------------------------------------------------------------------------
  // Texts one after the other.

  /** A token completed within a text is not changed by what follows the text. */
  lemma LexExtends(s: string, t: string)
    requires Completes(Lex(s).kind)
    ensures Lex(s + t) == Lex(s).(rest := Lex(s).rest + t)
  {
    ScanStops(s, NonBlank);
    var k := Scan(s, NonBlank);
    var r := s[k..];
    ScanIs(s + t, NonBlank, k);
    assert (s + t)[k..] == r + t;
    assert (r + t)[1..] == r[1..] + t;
    if r[0] != '{' && r[0] != '}' && r[0] != ';' {
      RestExtends(StateAfter(r[0]), [r[0]], r[1..], t);
    }
  }

  lemma RestExtends(state: LexState, begun: string, s: string, t: string)
    requires state != InitialWhitespace && Completes(Rest(state, begun, s).kind)
    ensures Rest(state, begun, s + t) == Rest(state, begun, s).(rest := Rest(state, begun, s).rest + t)
  {
    ScanStops(s, StopOf(state));
    var n := Scan(s, StopOf(state));
    ScanIs(s + t, StopOf(state), n);
    assert (s + t)[..n] == s[..n] && (s + t)[..n + 1] == s[..n + 1];
    assert (s + t)[n..] == s[n..] + t && (s + t)[n + 1..] == s[n + 1..] + t;
  }
}

/**
 The configuration printer, and the proof that parsing undoes it: every
 printable tree is rebuilt from its text, whatever the indentation, and every
 accepted text has a printable tree.
 */
module ConfigPrinter {
  import opened ConfigLexer
  import opened ConfigGrammar

  /** The trees the printer writes in a form the lexer can read. */
  predicate Printable(b: seq<Stmt>) {
    forall i :: 0 <= i < |b| ==> PrintableStmt(b[i])
  }

  predicate PrintableStmt(s: Stmt) {
    s.tokens != [] && AllLexable(s.tokens) && (s.Node? ==> Printable(s.body))
  }

  predicate AllLexable(tokens: seq<string>) {
    forall i :: 0 <= i < |tokens| ==> Lexable(tokens[i])
  }

  function Indent(depth: int): string
    decreases depth
  {
    if depth <= 0 then "" else Indent(depth - 1) + "  "
  }

  function Spaced(tokens: seq<string>): string {
    if |tokens| <= 1 then (if tokens == [] then "" else tokens[0])
    else Spaced(tokens[..|tokens| - 1]) + " " + tokens[|tokens| - 1]
  }

  function PrintBlock(b: seq<Stmt>, depth: int): string
    decreases b, 2
  {
    if b == [] then "" else PrintBlock(b[..|b| - 1], depth) + PrintStmt(b[|b| - 1], depth)
  }

  function PrintStmt(s: Stmt, depth: int): string
    decreases s, 1
  {
    Indent(depth) + Spaced(s.tokens) + PrintEnd(s, depth) + "\n"
  }

  function PrintEnd(s: Stmt, depth: int): string
    decreases s, 0
  {
    match s
    case Leaf(_) => ";"
    case Node(_, body) => " {\n" + PrintBlock(body, depth + 1) + Indent(depth) + "}"
  }

  // ---------------------------------------------------------------------------
  // Lexing printed text.

  lemma {:induction false} IndentIsBlank(depth: int)
    ensures forall i :: 0 <= i < |Indent(depth)| ==> IsBlank(Indent(depth)[i])
    decreases depth
  {
    if depth > 0 {
      IndentIsBlank(depth - 1);
    }
  }

  lemma TokensOfBlanks(b: string, s: string)
    requires forall i :: 0 <= i < |b| ==> IsBlank(b[i])
    ensures Tokens(b + s) == Tokens(s)
  {
    LexSkipsBlanks(b, s);
  }

  lemma TokensOfWord(w: string, s: string)
    requires Lexable(w) && s != "" && EndsWord(s[0])
    ensures Tokens(w + s) == [Token(Normal, w)] + Tokens(s)
  {
    LexReadsToken(w, s);
  }

  lemma TokensOfMark(m: Token, c: string, s: string)
    requires (m == OPEN && c == "{") || (m == CLOSE && c == "}") || (m == SEMICOLON && c == ";")
    ensures Tokens(c + s) == [m] + Tokens(s)
  {
    LexOfMark(m, c, s);
    hide Lex;
  }

  lemma LexOfMark(m: Token, c: string, s: string)
    requires (m == OPEN && c == "{") || (m == CLOSE && c == "}") || (m == SEMICOLON && c == ";")
    ensures Lex(c + s) == Lexeme(m.kind, c, s)
  {
    ScanIs(c + s, NonBlank, 0);
    assert (c + s)[0..] == c + s;
    assert (c + s)[1..] == s;
  }

  lemma {:induction false} TokensOfSpaced(tokens: seq<string>, s: string)
    requires tokens != [] && AllLexable(tokens) && s != "" && EndsWord(s[0])
    ensures Tokens(Spaced(tokens) + s) == Words(tokens) + Tokens(s)
    decreases |tokens|
  {
    hide Lex, Tokens;
    var n := |tokens| - 1;
    var w := tokens[n];
    TokensOfWord(w, s);
    if n == 0 {
      assert Words(tokens) == [Token(Normal, w)];
    } else {
      var last := " " + (w + s);
      TokensOfBlanks(" ", w + s);
      TokensOfSpaced(tokens[..n], last);
      assert Spaced(tokens) + s == Spaced(tokens[..n]) + last;
      assert Words(tokens) + Tokens(s) == Words(tokens[..n]) + ([Token(Normal, w)] + Tokens(s));
    }
  }

  lemma {:induction false} TokensOfBlock(b: seq<Stmt>, depth: int, s: string)
    requires Printable(b)
    ensures Tokens(PrintBlock(b, depth) + s) == FlatBlock(b) + Tokens(s)
    decreases b, 2
  {
    hide Lex, Tokens, PrintStmt, FlatStmt;
    if b == [] {
      assert "" + s == s;
    } else {
      var n := |b| - 1;
      var last := PrintStmt(b[n], depth);
      TokensOfStmt(b[n], depth, s);
      TokensOfBlock(b[..n], depth, last + s);
      assert PrintBlock(b, depth) + s == PrintBlock(b[..n], depth) + (last + s);
      Associative(FlatBlock(b[..n]), FlatStmt(b[n]), Tokens(s));
    }
  }

  lemma {:induction false} TokensOfStmt(s: Stmt, depth: int, t: string)
    requires PrintableStmt(s)
    ensures Tokens(PrintStmt(s, depth) + t) == FlatStmt(s) + Tokens(t)
    decreases s, 1
  {
    hide Lex;
    var end := PrintEnd(s, depth) + ("\n" + t);
    var words := Spaced(s.tokens) + end;
    assert PrintStmt(s, depth) + t == Indent(depth) + words;
    IndentIsBlank(depth);
    TokensOfBlanks(Indent(depth), words);
    TokensOfSpaced(s.tokens, end);
    TokensOfEnd(s, depth, "\n" + t);
    TokensOfBlanks("\n", t);
    FlatStmtSplits(s, Tokens(t));
  }

  /** The tokens of a statement after its words. */
  function FlatEnd(s: Stmt): seq<Token> {
    match s
    case Leaf(_) => [SEMICOLON]
    case Node(_, body) => [OPEN] + FlatBlock(body) + [CLOSE]
  }

  lemma FlatStmtSplits(s: Stmt, ts: seq<Token>)
    ensures Words(s.tokens) + (FlatEnd(s) + ts) == FlatStmt(s) + ts
  {
  }

  lemma PrintEndSplits(body: string, indent: string, t: string)
    ensures " {\n" + body + indent + "}" + t == " " + ("{" + ("\n" + (body + (indent + ("}" + t)))))
  {
    assert " {\n" == " " + "{" + "\n";
  }

  lemma FlatEndSplits(body: seq<Stmt>, ts: seq<Token>)
    ensures [OPEN] + (FlatBlock(body) + ([CLOSE] + ts)) == [OPEN] + FlatBlock(body) + [CLOSE] + ts
  {
  }

  lemma {:induction false} TokensOfEnd(s: Stmt, depth: int, t: string)
    requires PrintableStmt(s)
    ensures Tokens(PrintEnd(s, depth) + t) == FlatEnd(s) + Tokens(t)
    decreases s, 0
  {
    hide Lex;
    match s {
      case Leaf(_) =>
        TokensOfMark(SEMICOLON, ";", t);
      case Node(_, body) =>
        var close := "}" + t;
        var body' := PrintBlock(body, depth + 1) + (Indent(depth) + close);
        TokensOfMark(CLOSE, "}", t);
        IndentIsBlank(depth);
        TokensOfBlanks(Indent(depth), close);
        TokensOfBlock(body, depth + 1, Indent(depth) + close);
        TokensOfBlanks("\n", body');
        TokensOfMark(OPEN, "{", "\n" + body');
        TokensOfBlanks(" ", "{" + ("\n" + body'));
        PrintEndSplits(PrintBlock(body, depth + 1), Indent(depth), t);
        FlatEndSplits(body, Tokens(t));
    }
  }

  // ---------------------------------------------------------------------------
  // Round trips.

  lemma {:induction false} PrintableIsWellFormed(b: seq<Stmt>)
    requires Printable(b)
    ensures WellFormed(b)
    decreases b
  {
    forall i | 0 <= i < |b|
      ensures WellFormedStmt(b[i])
    {
      assert PrintableStmt(b[i]);
      if b[i].Node? {
        PrintableIsWellFormed(b[i].body);
      }
    }
  }

  lemma {:induction false} SignificantFlat(ts: seq<Token>)
    requires NoComment(ts)
    ensures Significant(ts) == ts
  {
    if ts != [] {
      SignificantFlat(ts[1..]);
    }
  }

  predicate NoComment(ts: seq<Token>) {
    forall i :: 0 <= i < |ts| ==> ts[i].kind != Comment
  }

  lemma {:induction false} FlatHasNoComment(b: seq<Stmt>)
    ensures NoComment(FlatBlock(b))
    decreases b
  {
    if b != [] {
      var s := b[|b| - 1];
      FlatHasNoComment(b[..|b| - 1]);
      if s.Node? {
        FlatHasNoComment(s.body);
      }
      assert NoComment(FlatEnd(s));
      FlatStmtSplits(s, []);
      assert FlatStmt(s) + [] == FlatStmt(s) && FlatEnd(s) + [] == FlatEnd(s);
    }
  }

  /** Printing, then parsing, rebuilds the tree. */
  lemma PrintThenParse(b: seq<Stmt>, depth: int)
    requires Printable(b) && b != []
    ensures Parse(PrintBlock(b, depth)) == Done(Accepted(b))
  {
    hide PrintBlock, Run;
    var text := PrintBlock(b, depth);
    TokensOfBlock(b, depth, "");
    assert text + "" == text;
    assert Tokens("") == [EOF];
    FlatHasNoComment(b);
    SignificantFlat(FlatBlock(b) + [EOF]);
    PrintableIsWellFormed(b);
    ParserAcceptsGrammar(text, b);
  }

  /** All words of a token stream are lexable. */
  predicate LexableWords(ts: seq<Token>) {
    forall i :: 0 <= i < |ts| && ts[i].kind == Normal ==> Lexable(ts[i].value)
  }

  lemma {:induction false} TokensAreLexable(s: string)
    ensures LexableWords(Tokens(s))
    decreases |s|
  {
    if Completes(Lex(s).kind) {
      TokensAreLexable(Lex(s).rest);
      if Lex(s).kind == Normal {
        LexedIsLexable(s);
      }
    }
  }

  lemma {:induction false} SignificantAreLexable(ts: seq<Token>)
    requires LexableWords(ts)
    ensures LexableWords(Significant(ts))
  {
    if ts != [] {
      SignificantAreLexable(ts[1..]);
    }
  }

  lemma {:induction false} LexableTreeIsPrintable(b: seq<Stmt>)
    requires WellFormed(b) && LexableWords(FlatBlock(b))
    ensures Printable(b)
    decreases b, 0
  {
    if b != [] {
      var n := |b| - 1;
      var init, last := FlatBlock(b[..n]), FlatStmt(b[n]);
      LexableParts(init, last);
      LexableTreeIsPrintable(b[..n]);
      assert WellFormedStmt(b[n]);
      LexableStmtIsPrintable(b[n]);
      assert forall i :: 0 <= i < n ==> PrintableStmt(b[..n][i]);
    }
  }

  lemma {:induction false} LexableStmtIsPrintable(s: Stmt)
    requires WellFormedStmt(s) && LexableWords(FlatStmt(s))
    ensures PrintableStmt(s)
    decreases s, 1
  {
    FlatStmtSplits(s, []);
    assert FlatEnd(s) + [] == FlatEnd(s) && FlatStmt(s) + [] == FlatStmt(s);
    LexableParts(Words(s.tokens), FlatEnd(s));
    assert forall i :: 0 <= i < |s.tokens| ==> Words(s.tokens)[i] == Token(Normal, s.tokens[i]);
    if s.Node? {
      LexableParts([OPEN] + FlatBlock(s.body), [CLOSE]);
      LexableParts([OPEN], FlatBlock(s.body));
      LexableTreeIsPrintable(s.body);
    }
  }

  lemma LexableParts(s: seq<Token>, t: seq<Token>)
    requires LexableWords(s + t)
    ensures LexableWords(s) && LexableWords(t)
  {
    assert forall i :: 0 <= i < |s| ==> s[i] == (s + t)[i];
    assert forall i :: 0 <= i < |t| ==> t[i] == (s + t)[|s| + i];
  }

  /** The tree of an accepted text is printable, and not empty. */
  lemma AcceptedIsPrintable(text: string, b: seq<Stmt>)
    requires Parse(text) == Done(Accepted(b))
    ensures Printable(b) && b != []
  {
    var sig := Significant(Tokens(text));
    ParserAcceptsGrammar(text, b);
    TokensAreLexable(text);
    SignificantAreLexable(Tokens(text));
    LexableParts(FlatBlock(b), [EOF]);
    LexableTreeIsPrintable(b);
  }

  /** Parsing, printing and parsing again is parsing: printing normalises a text. */
  lemma ParsePrintParse(text: string, b: seq<Stmt>, depth: int)
    requires Parse(text) == Done(Accepted(b))
    ensures Parse(PrintBlock(b, depth)) == Parse(text)
  {
    AcceptedIsPrintable(text, b);
    PrintThenParse(b, depth);
  }

  // ---------------------------------------------------------------------------
  // Concatenated texts.

  /**
   Nothing is dropped at the end of the text: after the last completed token
   only blanks remain, not a word or a comment cut off.
   */
  predicate EndsClean(s: string)
    decreases |s|
  {
    var l := Lex(s);
    if Completes(l.kind) then EndsClean(l.rest) else forall i :: 0 <= i < |s| ==> IsBlank(s[i])
  }

  lemma {:induction false} TokensOfConcatenation(s: string, t: string)
    requires EndsClean(s)
    ensures Tokens(s) != []
    ensures Tokens(s + t) == Tokens(s)[..|Tokens(s)| - 1] + Tokens(t)
    decreases |s|
  {
    hide Lex, Tokens;
    if Completes(Lex(s).kind) {
      TokensOfConcatenation(Lex(s).rest, t);
      ConcatenationStep(s, t);
    } else {
      TokensOfBlanks(s, t);
      TokensOfBlanks(s, "");
      assert s + "" == s;
      EmptyTokens();
      assert [EOF][..0] == [];
    }
  }

  lemma ConcatenationStep(s: string, t: string)
    requires Completes(Lex(s).kind)
    requires var ts := Tokens(Lex(s).rest);
             ts != [] && Tokens(Lex(s).rest + t) == ts[..|ts| - 1] + Tokens(t)
    ensures Tokens(s) != []
    ensures Tokens(s + t) == Tokens(s)[..|Tokens(s)| - 1] + Tokens(t)
  {
    hide Lex, Tokens;
    LexExtends(s, t);
    TokensUnfold(s);
    TokensUnfold(s + t);
    InitOfCons(Tokens(s)[0], Tokens(Lex(s).rest), Tokens(t));
  }

  lemma TokensUnfold(s: string)
    requires Completes(Lex(s).kind)
    ensures var l := Lex(s);
            Tokens(s) == [Token(l.kind, if l.kind == Normal then l.value else "")] + Tokens(l.rest)
  {
    hide Lex;
  }

  lemma InitOfCons(t: Token, ts: seq<Token>, us: seq<Token>)
    requires ts != []
    ensures ([t] + ts)[..|ts|] + us == [t] + (ts[..|ts| - 1] + us)
  {
  }

  lemma {:induction false} SignificantOfConcatenation(s: seq<Token>, t: seq<Token>)
    ensures Significant(s + t) == Significant(s) + Significant(t)
  {
    if s == [] {
      assert s + t == t;
    } else {
      assert (s + t)[1..] == s[1..] + t;
      SignificantOfConcatenation(s[1..], t);
    }
  }

  lemma {:induction false} FlatOfConcatenation(a: seq<Stmt>, b: seq<Stmt>)
    ensures FlatBlock(a + b) == FlatBlock(a) + FlatBlock(b)
    decreases |b|
  {
    if b == [] {
      assert a + b == a;
    } else {
      var n := |b| - 1;
      FlatOfConcatenation(a, b[..n]);
      FlatBlockSnoc(a + b[..n], b[n]);
      assert a + b == (a + b[..n]) + [b[n]];
      Associative(FlatBlock(a), FlatBlock(b[..n]), FlatStmt(b[n]));
    }
  }

  /**
   An accepted text that ends in a newline ends clean: a newline completes a
   word and a comment, and an open quote is an error.
   */
  lemma {:induction false} NewlineEndsClean(s: string)
    requires s != "" && s[|s| - 1] == '\n'
    requires Tokens(s)[|Tokens(s)| - 1].kind == Eof
    ensures EndsClean(s)
    decreases |s|
  {
    var l := Lex(s);
    if Completes(l.kind) {
      LexLeavesSuffix(s);
      if l.rest != "" {
        NewlineEndsClean(l.rest);
      }
    } else {
      EofMeansBlank(s);
    }
  }

  lemma EofMeansBlank(s: string)
    requires s != "" && s[|s| - 1] == '\n' && Lex(s).kind == Eof
    ensures forall i :: 0 <= i < |s| ==> IsBlank(s[i])
  {
    var k := Scan(s, NonBlank);
    ScanStops(s, NonBlank);
    if k < |s| {
      ScanStops(s[k..][1..], StopOf(StateAfter(s[k])));
    }
  }

  lemma LexLeavesSuffix(s: string)
    requires Completes(Lex(s).kind)
    ensures var rest := Lex(s).rest; rest != "" ==> rest[|rest| - 1] == s[|s| - 1]
  {
    hide Rest, Scan;
    var r := s[Scan(s, NonBlank)..];
    if r[0] != '{' && r[0] != '}' && r[0] != ';' {
      RestLeavesSuffix(StateAfter(r[0]), [r[0]], r[1..]);
    }
  }

  lemma RestLeavesSuffix(state: LexState, begun: string, s: string)
    requires state != InitialWhitespace && Completes(Rest(state, begun, s).kind)
    ensures var rest := Rest(state, begun, s).rest; rest != "" ==> rest[|rest| - 1] == s[|s| - 1]
  {
  }

  /** Accepted texts that end clean concatenate to the concatenated statements. */
  lemma ConcatenationParses(s: string, a: seq<Stmt>, t: string, b: seq<Stmt>)
    requires Parse(s) == Done(Accepted(a)) && EndsClean(s) && Parse(t) == Done(Accepted(b))
    ensures Parse(s + t) == Done(Accepted(a + b))
  {
    hide Lex, Tokens, Significant, FlatBlock, Run, EndsClean;
    ParserAcceptsGrammar(s, a);
    ParserAcceptsGrammar(t, b);
    ParserAcceptsGrammar(s + t, a + b);
    TokensOfConcatenation(s, t);
    var init := Tokens(s)[..|Tokens(s)| - 1];
    TokensDelivered(s);
    SignificantInit(Tokens(s), FlatBlock(a));
    SignificantOfConcatenation(init, Tokens(t));
    FlatOfConcatenation(a, b);
    assert FlatBlock(a) + (FlatBlock(b) + [EOF]) == FlatBlock(a + b) + [EOF];
  }

  lemma SignificantInit(ts: seq<Token>, flat: seq<Token>)
    requires Delivered(ts) && Significant(ts) == flat + [EOF]
    ensures Significant(ts[..|ts| - 1]) == flat
    ensures ts[|ts| - 1] == EOF
  {
    hide Significant;
    SignificantSnoc(ts);
    SameLast(Significant(ts[..|ts| - 1]), ts[|ts| - 1], flat, EOF);
  }

  lemma SignificantSnoc(ts: seq<Token>)
    requires Delivered(ts)
    ensures var n := |ts| - 1; Significant(ts) == Significant(ts[..n]) + [ts[n]]
  {
    var n := |ts| - 1;
    SignificantOne(ts[n]);
    hide Significant;
    assert ts == ts[..n] + [ts[n]];
    SignificantOfConcatenation(ts[..n], [ts[n]]);
  }

  lemma SameLast(x: seq<Token>, t: Token, y: seq<Token>, u: Token)
    requires x + [t] == y + [u]
    ensures x == y && t == u
  {
    assert (x + [t])[|x|] == t && (y + [u])[|y|] == u;
    assert x == (x + [t])[..|x|] && y == (y + [u])[..|y|];
  }

  lemma SignificantOne(t: Token)
    requires t.kind != Comment
    ensures Significant([t]) == [t]
  {
  }

  /** In particular when the first text ends in a newline. */
  lemma NewlineConcatenationParses(s: string, a: seq<Stmt>, t: string, b: seq<Stmt>)
    requires Parse(s) == Done(Accepted(a)) && s != "" && s[|s| - 1] == '\n' && Parse(t) == Done(Accepted(b))
    ensures Parse(s + t) == Done(Accepted(a + b))
  {
    hide Lex, Tokens, Significant, FlatBlock, Run, EndsClean;
    ParserAcceptsGrammar(s, a);
    TokensDelivered(s);
    SignificantInit(Tokens(s), FlatBlock(a));
    NewlineEndsClean(s);
    ConcatenationParses(s, a, t, b);
  }

  // The other half: a text that does not end clean spoils some text after it.

  const PROBE := "x;"
  const PROBE_TREE := [Leaf(["x"])]

  lemma EmptyTokens()
    ensures Tokens("") == [EOF]
  {
  }

  /** A statement of one word, whatever follows. */
  lemma TokensOfSimple(w: string, s: string)
    requires IsWord(w)
    ensures Tokens(w + (";" + s)) == FlatBlock([Leaf([w])]) + Tokens(s)
  {
    hide Lex, Tokens;
    TokensOfMark(SEMICOLON, ";", s);
    TokensOfWord(w, ";" + s);
    FlatOfSimple(w);
    assert [Token(Normal, w)] + ([SEMICOLON] + Tokens(s)) == [Token(Normal, w), SEMICOLON] + Tokens(s);
  }

  lemma FlatOfSimple(w: string)
    ensures FlatBlock([Leaf([w])]) == [Token(Normal, w), SEMICOLON]
  {
    assert FlatBlock([Leaf([w])]) == [] + FlatStmt(Leaf([w]));
    assert Words([w]) == [Token(Normal, w)];
  }

  lemma ProbeTokens()
    ensures Tokens(PROBE) == [Token(Normal, "x"), SEMICOLON, EOF]
    ensures Significant(Tokens(PROBE)) == Tokens(PROBE)
  {
    hide Lex, Tokens;
    EmptyTokens();
    TokensOfSimple("x", "");
    FlatOfSimple("x");
    assert PROBE == "x" + (";" + "");
    SignificantFlat(Tokens(PROBE));
  }

  lemma ProbeParses()
    ensures Parse(PROBE) == Done(Accepted(PROBE_TREE))
  {
    hide Lex, Tokens, Run, Significant;
    ProbeTokens();
    FlatOfSimple("x");
    ParserAcceptsGrammar(PROBE, PROBE_TREE);
  }

  /** A word cut off at the end of the text grows into the text that follows; a comment swallows it. */
  lemma CutOffLexes(s: string)
    requires Lex(s).kind == Eof && exists i :: 0 <= i < |s| && !IsBlank(s[i])
    ensures Lex(s + PROBE).kind == Eof
            || (Lex(s + PROBE).kind == Normal && |Lex(s + PROBE).value| > 1)
  {
    var k := Scan(s, NonBlank);
    ScanStops(s, NonBlank);
    var r := s[k..];
    var tail := r[1..];
    ScanIs(s + PROBE, NonBlank, k);
    assert (s + PROBE)[k..] == r + PROBE;
    assert (r + PROBE)[1..] == tail + PROBE;
    CutOffRest(StateAfter(r[0]), r[0], tail);
  }

  lemma CutOffRest(state: LexState, c: char, tail: string)
    requires state != InitialWhitespace && Rest(state, [c], tail).kind == Eof
    ensures var l := Rest(state, [c], tail + PROBE); l.kind == Eof || (l.kind == Normal && |l.value| > 1)
  {
    ScanStops(tail, StopOf(state));
    if state == InComment {
      ScanIs(tail + PROBE, LineEnd, |tail| + 2);
    } else {
      ScanIs(tail + PROBE, WordEnd, |tail| + 1);
    }
  }

  lemma {:induction false} CutOffTokens(s: string)
    requires !EndsClean(s) && Tokens(s)[|Tokens(s)| - 1] == EOF
    ensures Significant(Tokens(s + PROBE)) != Significant(Tokens(s)[..|Tokens(s)| - 1]) + Significant(Tokens(PROBE))
    decreases |s|
  {
    hide Lex, Significant;
    var l := Lex(s);
    if Completes(l.kind) {
      LexExtends(s, PROBE);
      var t, ts, us := Tokens(s)[0], Tokens(l.rest), Tokens(l.rest + PROBE);
      CutOffTokens(l.rest);
      assert Tokens(s) == [t] + ts && Tokens(s + PROBE) == [t] + us;
      CutOffLater(t, ts, us, Significant(Tokens(PROBE)));
    } else {
      CutOffLexes(s);
      assert Tokens(s)[..0] == [];
      CutOffHere(Tokens(s + PROBE));
    }
  }

  lemma CutOffLater(t: Token, ts: seq<Token>, us: seq<Token>, probe: seq<Token>)
    requires ts != [] && Significant(us) != Significant(ts[..|ts| - 1]) + probe
    ensures Significant([t] + us) != Significant(([t] + ts)[..|ts|]) + probe
  {
    hide Significant;
    var init := ts[..|ts| - 1];
    assert ([t] + ts)[..|ts|] == [t] + init;
    SignificantOfConcatenation([t], init);
    SignificantOfConcatenation([t], us);
    CommonPrefix(Significant([t]), Significant(init), probe, Significant(us));
  }

  lemma CutOffHere(us: seq<Token>)
    requires us != [] && (us[0].kind == Eof || (us[0].kind == Normal && |us[0].value| > 1))
    ensures Significant(us) != Significant([]) + Significant(Tokens(PROBE))
  {
    hide Lex, Tokens;
    ProbeTokens();
    assert Significant(us)[0] == us[0];
    assert (Significant([]) + Tokens(PROBE))[0] == Token(Normal, "x");
  }

  lemma CommonPrefix(p: seq<Token>, x: seq<Token>, y: seq<Token>, z: seq<Token>)
    requires z != x + y
    ensures p + z != p + x + y
  {
    assert (p + z)[|p|..] == z && (p + x + y)[|p|..] == x + y;
  }

  /**
   The exact condition: an accepted text concatenates with every accepted text if
   and only if nothing was dropped at its end.
   */
  lemma ConcatenationExactly(s: string, a: seq<Stmt>)
    requires Parse(s) == Done(Accepted(a))
    ensures EndsClean(s)
            <==> forall t, b :: Parse(t) == Done(Accepted(b)) ==> Parse(s + t) == Done(Accepted(a + b))
  {
    hide Lex, Tokens, Significant, FlatBlock, Run, EndsClean, Parse;
    if EndsClean(s) {
      forall t, b | Parse(t) == Done(Accepted(b))
        ensures Parse(s + t) == Done(Accepted(a + b))
      {
        ConcatenationParses(s, a, t, b);
      }
    } else {
      ProbeParses();
      ProbeSpoils(s, a);
    }
  }

  lemma ProbeSpoils(s: string, a: seq<Stmt>)
    requires Parse(s) == Done(Accepted(a)) && !EndsClean(s)
    ensures Parse(s + PROBE) != Done(Accepted(a + PROBE_TREE))
  {
    hide Lex, Tokens, Significant, FlatBlock, Run, EndsClean, Parse;
    ParserAcceptsGrammar(s, a);
    ProbeParses();
    ParserAcceptsGrammar(PROBE, PROBE_TREE);
    ParserAcceptsGrammar(s + PROBE, a + PROBE_TREE);
    TokensDelivered(s);
    SignificantInit(Tokens(s), FlatBlock(a));
    CutOffTokens(s);
    FlatOfConcatenation(a, PROBE_TREE);
    Associative(FlatBlock(a), FlatBlock(PROBE_TREE), [EOF]);
  }

  // ---------------------------------------------------------------------------
  // The two failures, on concrete texts.

  /** The second closing brace uses the top of the empty stack. */
  lemma ExtraBracesAreUndefined()
    ensures Parse("a;}}") == Done(Undefined)
  {
    hide Lex, Tokens, Run, FlatBlock, Significant;
    var tree := [Leaf(["a"])];
    EmptyTokens();
    TokensOfMark(CLOSE, "}", "");
    TokensOfMark(CLOSE, "}", "}");
    TokensOfSimple("a", "}}");
    assert "a" + (";" + "}}") == "a;}}" && "}" + "}" == "}}" && "}" + "" == "}";
    FlatOfSimple("a");
    var ts := Tokens("a;}}");
    SignificantFlat(ts);
    assert Overclosed(tree, ts);
    UndefinedExactly("a;}}");
  }

  lemma LexOfDroppedWord()
    ensures Lex(" b").kind == Eof && Tokens(" b") == [EOF] && !EndsClean(" b")
  {
    ScanIs(" b", NonBlank, 1);
    assert " b"[1..] == "b" && "b"[1..] == "";
  }

  lemma DroppedWordIsUnclean()
    ensures !EndsClean("a; b")
  {
    hide Lex;
    LexOfDroppedWord();
    LexReadsToken("a", "; b");
    LexOfMark(SEMICOLON, ";", " b");
    assert "a" + "; b" == "a; b" && ";" + " b" == "; b";
    assert !EndsClean("; b");
  }

  /** The word behind the last statement is dropped, and the text is accepted all the same. */
  lemma TrailingWordIsDropped()
    ensures Parse("a; b") == Done(Accepted([Leaf(["a"])])) && !EndsClean("a; b")
  {
    hide Lex, Tokens, Run, FlatBlock, Significant, EndsClean;
    LexOfDroppedWord();
    DroppedWordIsUnclean();
    TokensOfSimple("a", " b");
    assert "a" + (";" + " b") == "a; b";
    FlatOfSimple("a");
    SignificantFlat(Tokens("a; b"));
    ParserAcceptsGrammar("a; b", [Leaf(["a"])]);
  }

  /** A statement appended to that text starts with the dropped word. */
  lemma DroppedWordComesBack()
    ensures Parse("a; b" + PROBE) == Done(Accepted([Leaf(["a"]), Leaf(["bx"])]))
  {
    hide Lex, Tokens, Run, FlatBlock, Significant;
    EmptyTokens();
    TokensOfSimple("bx", "");
    BlankTokens("bx;");
    TokensOfSimple("a", " bx;");
    assert "bx" + (";" + "") == "bx;" && " " + "bx;" == " bx;" && "a" + (";" + " bx;") == "a; b" + PROBE;
    var ts := Tokens("a; b" + PROBE);
    var tree := [Leaf(["a"])] + [Leaf(["bx"])];
    FlatOfSimple("a");
    FlatOfSimple("bx");
    FlatOfConcatenation([Leaf(["a"])], [Leaf(["bx"])]);
    assert ts == FlatBlock(tree) + [EOF];
    SignificantFlat(ts);
    ParserAcceptsGrammar("a; b" + PROBE, tree);
    assert tree == [Leaf(["a"]), Leaf(["bx"])];
  }

  lemma BlankTokens(s: string)
    ensures Tokens(" " + s) == Tokens(s)
  {
    hide Lex;
    BlankStep(" " + s);
    assert (" " + s)[1..] == s;
  }
}

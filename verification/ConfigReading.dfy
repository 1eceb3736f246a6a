/**
 What the lexer, the parser and the printer do, in characters: how each kind of
 token is written, what separates tokens, and the text of printed statements.
 */
module ConfigReading {
  import opened ConfigLexer
  import opened ConfigGrammar
  import opened ConfigPrinter

  /** A word: a carriage return may be inside it, but not in front. */
  predicate PlainWord(w: string) {
    && w != ""
    && w[0] != '#' && w[0] != '"' && w[0] != '\'' && w[0] != '\r'
    && forall i :: 0 <= i < |w| ==>
         w[i] != ' ' && w[i] != '\t' && w[i] != '\n' && w[i] != ';' && w[i] != '{' && w[i] != '}'
  }

  predicate Layout(g: string) {
    forall i :: 0 <= i < |g| ==> g[i] == ' ' || g[i] == '\t' || g[i] == '\n' || g[i] == '\r'
  }

  /** Layout that ends a word: its first character is no carriage return. */
  predicate Gap(g: string) {
    g != "" && g[0] != '\r' && Layout(g)
  }

  // ---------------------------------------------------------------------------
  // Tokens.

  /** Layout before a text changes none of its tokens. */
  lemma LayoutIsSkipped(g: string, s: string)
    requires Layout(g)
    ensures Tokens(g + s) == Tokens(s)
  {
    TokensOfBlanks(g, s);
  }

  lemma WordIsRead(w: string, d: char, s: string)
    requires PlainWord(w)
    requires d == ' ' || d == '\t' || d == '\n' || d == ';' || d == '{' || d == '}'
    ensures Tokens(w + ([d] + s)) == [Token(Normal, w)] + Tokens([d] + s)
  {
    hide Lex, Tokens;
    TokensOfWord(w, [d] + s);
  }

  lemma MarksAreRead(s: string)
    ensures Tokens(";" + s) == [Token(StatementEnd, "")] + Tokens(s)
    ensures Tokens("{" + s) == [Token(StartBlock, "")] + Tokens(s)
    ensures Tokens("}" + s) == [Token(EndBlock, "")] + Tokens(s)
    ensures Tokens("") == [Token(Eof, "")]
  {
    hide Lex;
    TokensOfMark(SEMICOLON, ";", s);
    TokensOfMark(OPEN, "{", s);
    TokensOfMark(CLOSE, "}", s);
    EmptyTokens();
  }

  /** Two words with any gap between them, and not one; a carriage return inside a word stays in it. */
  lemma WordsAreSeparated(u: string, g: string, v: string)
    requires PlainWord(u) && Gap(g) && PlainWord(v)
    ensures Tokens(u + g + v + ";")
            == [Token(Normal, u), Token(Normal, v), Token(StatementEnd, ""), Token(Eof, "")]
  {
    hide Lex, Tokens, PlainWord;
    var last := v + ([';'] + "");
    WordIsRead(v, ';', "");
    MarksAreRead("");
    assert ";" + "" == [';'] + "";
    WordIsRead(u, g[0], g[1..] + last);
    LayoutIsSkipped(g, last);
    assert g + last == [g[0]] + (g[1..] + last);
    assert u + g + v + ";" == u + ([g[0]] + (g[1..] + last));
  }

  /** A quoted string is read with its quotes, whatever is between them and behind it. */
  lemma QuotedIsRead(q: char, body: string, s: string)
    requires (q == '"' || q == '\'') && q !in body
    ensures Tokens([q] + body + [q] + s) == [Token(Normal, [q] + body + [q])] + Tokens(s)
  {
    var w := [q] + body + [q];
    assert forall i :: 0 < i < |w| - 1 ==> w[i] == body[i - 1];
    assert w + s == [q] + (body + [q] + s);
    LexOfQuoted(w, s);
    hide Lex;
    assert Lex(w + s) == Lexeme(Normal, w, s);
  }

  lemma LexOfQuoted(w: string, s: string)
    requires IsQuoted(w)
    ensures Lex(w + s) == Lexeme(Normal, w, s)
  {
    ScanIs(w + s, NonBlank, 0);
    assert (w + s)[0..] == w + s;
    assert (w + s)[1..] == w[1..] + s;
    RestReadsQuoted(w, s);
    hide Rest;
  }

  lemma UnclosedIsError(q: char, body: string)
    requires (q == '"' || q == '\'') && q !in body
    ensures Tokens([q] + body) == [Token(Error, "")]
  {
    var s := [q] + body;
    ScanIs(s, NonBlank, 0);
    assert s[0..] == s && s[1..] == body;
    ScanIs(body, Quote(q), |body|);
  }

  /** A comment ends at a newline or a carriage return, which it drops. */
  lemma CommentIsRead(c: string, e: char, s: string)
    requires '\n' !in c && '\r' !in c && (e == '\n' || e == '\r')
    ensures Tokens("#" + (c + ([e] + s))) == [Token(Comment, "")] + Tokens(s)
  {
    LexOfComment(c, e, s);
    hide Lex;
  }

  lemma LexOfComment(c: string, e: char, s: string)
    requires '\n' !in c && '\r' !in c && (e == '\n' || e == '\r')
    ensures Lex("#" + (c + ([e] + s))) == Lexeme(Comment, "#" + c, s)
  {
    var tail := c + ([e] + s);
    var all := "#" + tail;
    ScanIs(all, NonBlank, 0);
    assert all[0..] == all && all[1..] == tail;
    ScanIs(tail, LineEnd, |c|);
    assert tail[..|c|] == c && tail[|c| + 1..] == s;
  }

  /** A word or a comment at the end of the text is dropped. */
  lemma CutOffIsDropped(w: string)
    requires PlainWord(w) || (w != "" && w[0] == '#' && '\n' !in w && '\r' !in w)
    ensures Tokens(w) == [Token(Eof, "")]
  {
    ScanIs(w, NonBlank, 0);
    assert w[0..] == w;
    ScanIs(w[1..], StopOf(StateAfter(w[0])), |w| - 1);
  }

  // ---------------------------------------------------------------------------
  // Texts and their trees.

  lemma FlatOne(s: Stmt)
    ensures FlatBlock([s]) == FlatStmt(s)
  {
    assert FlatBlock([s]) == [] + FlatStmt(s);
  }

  /** A statement of two words, with any gap between them. */
  lemma StatementIsParsed(u: string, g: string, v: string)
    requires PlainWord(u) && Gap(g) && PlainWord(v)
    ensures Parse(u + g + v + ";") == Done(Accepted([Leaf([u, v])]))
  {
    hide Lex, Tokens, Run, Significant, FlatBlock, PlainWord;
    var text, tree := u + g + v + ";", [Leaf([u, v])];
    WordsAreSeparated(u, g, v);
    FlatOne(tree[0]);
    assert Words([u, v]) == [Token(Normal, u), Token(Normal, v)];
    SignificantFlat(Tokens(text));
    ParserAcceptsGrammar(text, tree);
  }

  /** A block with a statement inside, and an empty one. */
  lemma BlocksAreParsed(u: string, v: string)
    requires PlainWord(u) && PlainWord(v)
    ensures Parse(u + "{" + v + ";}") == Done(Accepted([Node([u], [Leaf([v])])]))
    ensures Parse(u + "{}") == Done(Accepted([Node([u], [])]))
  {
    BlockIsParsed(u, v);
    EmptyBlockIsParsed(u);
  }

  lemma BlockIsParsed(u: string, v: string)
    requires PlainWord(u) && PlainWord(v)
    ensures Parse(u + "{" + v + ";}") == Done(Accepted([Node([u], [Leaf([v])])]))
  {
    hide Lex, Tokens, Run, Significant, FlatBlock, PlainWord;
    var text, tree := u + "{" + v + ";}", [Node([u], [Leaf([v])])];
    BlockTokens(u, v);
    FlatOne(tree[0]);
    FlatOne(Leaf([v]));
    assert Words([u]) == [Token(Normal, u)] && Words([v]) == [Token(Normal, v)];
    assert FlatStmt(Leaf([v])) == [Token(Normal, v), Token(StatementEnd, "")];
    NestedIsWellFormed(u, [Leaf([v])]);
    assert Tokens(text) == FlatBlock(tree) + [EOF];
    SignificantFlat(Tokens(text));
    ParserAcceptsGrammar(text, tree);
  }

  lemma NestedIsWellFormed(u: string, body: seq<Stmt>)
    requires WellFormed(body)
    ensures WellFormed([Node([u], body)])
  {
    assert Node([u], body).body == body;
  }

  lemma BlockTokens(u: string, v: string)
    requires PlainWord(u) && PlainWord(v)
    ensures Tokens(u + "{" + v + ";}")
            == [Token(Normal, u), Token(StartBlock, ""), Token(Normal, v), Token(StatementEnd, ""),
                Token(EndBlock, ""), Token(Eof, "")]
  {
    hide Lex, Tokens, PlainWord;
    MarksAreRead("");
    MarksAreRead("}");
    var inner := v + ([';'] + "}");
    MarksAreRead(inner);
    WordIsRead(v, ';', "}");
    WordIsRead(u, '{', inner);
    assert u + "{" + v + ";}" == u + (['{'] + inner);
    assert "}" + "" == "}" && ";" + "}" == [';'] + "}" && "{" + inner == ['{'] + inner;
  }

  lemma EmptyBlockIsParsed(u: string)
    requires PlainWord(u)
    ensures Parse(u + "{}") == Done(Accepted([Node([u], [])]))
  {
    hide Lex, Tokens, Run, Significant, PlainWord;
    var text, tree := u + "{}", [Node([u], [])];
    MarksAreRead("");
    MarksAreRead("}");
    WordIsRead(u, '{', "}");
    assert text == u + (['{'] + "}") && "}" + "" == "}" && "{" + "}" == ['{'] + "}";
    FlatOne(tree[0]);
    assert FlatBlock([]) == [] && Words([u]) == [Token(Normal, u)];
    NestedIsWellFormed(u, []);
    assert Tokens(text) == FlatBlock(tree) + [EOF];
    SignificantFlat(Tokens(text));
    ParserAcceptsGrammar(text, tree);
  }

  lemma RunConsumes(p: Parser, t: Token, ts: seq<Token>)
    ensures Run(p, [t] + ts) == if Step(p, t).Next? then Run(Step(p, t).parser, ts) else Step(p, t)
  {
    assert ([t] + ts)[1..] == ts;
  }

  /** A text without a statement is rejected, and so are marks that begin one. */
  lemma NothingIsRejected()
    ensures Parse("") == Done(Rejected) && Parse(";") == Done(Rejected)
    ensures Parse("{") == Done(Rejected) && Parse("}") == Done(Rejected)
  {
    hide Lex, Tokens, Run;
    MarksAreRead("");
    assert ";" + "" == ";" && "{" + "" == "{" && "}" + "" == "}";
    RunConsumes(INITIAL, Token(Eof, ""), []);
    RunConsumes(INITIAL, Token(StatementEnd, ""), [Token(Eof, "")]);
    RunConsumes(INITIAL, Token(StartBlock, ""), [Token(Eof, "")]);
    RunConsumes(INITIAL, Token(EndBlock, ""), [Token(Eof, "")]);
    assert [Token(Eof, "")] + [] == [Token(Eof, "")];
  }

  /** An open block, and a word before a closing brace, are rejected. */
  lemma UnfinishedIsRejected(u: string)
    requires PlainWord(u)
    ensures Parse(u + "{") == Done(Rejected) && Parse(u + "}") == Done(Rejected)
  {
    hide Lex, Tokens, Run, PlainWord;
    MarksAreRead("");
    WordIsRead(u, '{', "");
    WordIsRead(u, '}', "");
    assert ['{'] + "" == "{" && ['}'] + "" == "}";
    var end := [Token(Eof, "")];
    var p := Open([], [], [u], Normal);
    RunConsumes(INITIAL, Token(Normal, u), [Token(StartBlock, "")] + end);
    RunConsumes(p, Token(StartBlock, ""), end);
    RunConsumes(INITIAL, Token(Normal, u), [Token(EndBlock, "")] + end);
    RunConsumes(p, Token(EndBlock, ""), end);
    var q := Open([Frame([], [u])], [], [], StartBlock);
    RunConsumes(q, Token(Eof, ""), []);
    assert end + [] == end && [u] == [] + [u] && [Frame([], [u])] == [] + [Frame([], [u])];
  }

  /** A closing brace too many is rejected when nothing follows it. */
  lemma OverclosedIsRejected(u: string)
    requires PlainWord(u)
    ensures Parse(u + ";}") == Done(Rejected)
  {
    hide Lex, Tokens, Run, PlainWord;
    MarksAreRead("");
    MarksAreRead("}");
    WordIsRead(u, ';', "}");
    assert u + ([';'] + "}") == u + ";}" && "}" + "" == "}" && ";" + "}" == [';'] + "}";
    var end := [Token(Eof, "")];
    var p, q := Open([], [], [u], Normal), Open([], [Leaf([u])], [], StatementEnd);
    RunConsumes(INITIAL, Token(Normal, u), [Token(StatementEnd, "")] + ([Token(EndBlock, "")] + end));
    RunConsumes(p, Token(StatementEnd, ""), [Token(EndBlock, "")] + end);
    RunConsumes(q, Token(EndBlock, ""), end);
    RunConsumes(Emptied([Leaf([u])]), Token(Eof, ""), []);
    assert end + [] == end && [u] == [] + [u] && [Leaf([u])] == [] + [Leaf([u])];
  }

  // ---------------------------------------------------------------------------
  // The printed text.

  /** Two spaces a level; none for a negative depth. */
  lemma {:induction false} IndentIs(depth: int)
    ensures |Indent(depth)| == if depth > 0 then 2 * depth else 0
    ensures forall i :: 0 <= i < |Indent(depth)| ==> Indent(depth)[i] == ' '
    decreases depth
  {
    if depth > 0 {
      IndentIs(depth - 1);
    }
  }

  /** Tokens on one line, with a space between them. */
  lemma LineIs(u: string, tokens: seq<string>)
    ensures Spaced([u]) == u
    ensures tokens != [] ==> Spaced(tokens + [u]) == Spaced(tokens) + " " + u
  {
    assert (tokens + [u])[..|tokens|] == tokens;
  }

  /** A statement, and a block with one more statement inside or behind it. */
  lemma PrintIs(tokens: seq<string>, body: seq<Stmt>, more: seq<Stmt>, s: Stmt, depth: int)
    ensures PrintStmt(Leaf(tokens), depth) == Indent(depth) + Spaced(tokens) + ";\n"
    ensures PrintStmt(Node(tokens, body), depth)
            == Indent(depth) + Spaced(tokens) + " {\n" + PrintBlock(body, depth + 1) + Indent(depth) + "}\n"
    ensures PrintBlock([], depth) == ""
    ensures PrintBlock(more + [s], depth) == PrintBlock(more, depth) + PrintStmt(s, depth)
  {
    assert (more + [s])[..|more|] == more;
    hide Indent, Spaced, PrintBlock;
    assert PrintStmt(Leaf(tokens), depth) == Indent(depth) + Spaced(tokens) + ";" + "\n";
    assert PrintStmt(Node(tokens, body), depth)
        == Indent(depth) + Spaced(tokens) + (" {\n" + PrintBlock(body, depth + 1) + Indent(depth) + "}") + "\n";
  }

  /** Both at once, on a tree. */
  lemma PrintedTree()
    ensures PrintBlock([Node(["a", "b"], [Leaf(["c"]), Node(["d"], [])])], 0) == "a b {\n  c;\n  d {\n  }\n}\n"
  {
    hide PrintBlock, PrintStmt, Indent, Spaced;
    PrintedBody();
    LineIs("a", []);
    LineIs("b", ["a"]);
    IndentIs(0);
    var body := [Leaf(["c"]), Node(["d"], [])];
    PrintIs(["a", "b"], body, [], Node(["a", "b"], body), 0);
    assert ["a"] + ["b"] == ["a", "b"] && [] + [Node(["a", "b"], body)] == [Node(["a", "b"], body)];
  }

  lemma PrintedBody()
    ensures PrintBlock([Leaf(["c"]), Node(["d"], [])], 1) == "  c;\n  d {\n  }\n"
  {
    hide PrintBlock, PrintStmt, Indent, Spaced;
    LineIs("c", []);
    LineIs("d", []);
    IndentIs(1);
    assert Indent(1) == "  ";
    var c, d := Leaf(["c"]), Node(["d"], []);
    PrintIs(["c"], [], [], c, 1);
    PrintIs(["d"], [], [c], d, 1);
    PrintIs([], [], [], c, 2);
    assert [] + [c] == [c] && [c] + [d] == [c, d];
  }
}

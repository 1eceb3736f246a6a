/**
 The configuration grammar

     config ::= stmt+        stmt ::= NORMAL+ (';' | '{' stmt* '}')

 given by the token stream of a syntax tree, and the parser's transition machine
 over its stack of open blocks. The machine is proved to accept exactly the
 token streams of the grammar, each with its tree.
 */
module ConfigGrammar {
  import opened ConfigLexer

  /** A statement: its tokens and, after `{`, its child block. */
  datatype Stmt = Leaf(tokens: seq<string>) | Node(tokens: seq<string>, body: seq<Stmt>)

  predicate WellFormed(b: seq<Stmt>) {
    forall i :: 0 <= i < |b| ==> WellFormedStmt(b[i])
  }

  predicate WellFormedStmt(s: Stmt) {
    s.tokens != [] && (s.Node? ==> WellFormed(s.body))
  }

  const OPEN := Token(StartBlock, "")
  const CLOSE := Token(EndBlock, "")
  const SEMICOLON := Token(StatementEnd, "")
  const EOF := Token(Eof, "")

  function Words(tokens: seq<string>): seq<Token> {
    seq(|tokens|, i requires 0 <= i < |tokens| => Token(Normal, tokens[i]))
  }

  /** The token stream of a block, statement by statement. */
  function FlatBlock(b: seq<Stmt>): seq<Token> {
    if b == [] then [] else FlatBlock(b[..|b| - 1]) + FlatStmt(b[|b| - 1])
  }

  function FlatStmt(s: Stmt): seq<Token> {
    match s
    case Leaf(tokens) => Words(tokens) + [SEMICOLON]
    case Node(tokens, body) => Words(tokens) + [OPEN] + FlatBlock(body) + [CLOSE]
  }

  /** The token stream without its comments. */
  function Significant(ts: seq<Token>): seq<Token> {
    if ts == [] then []
    else if ts[0].kind == Comment then Significant(ts[1..])
    else [ts[0]] + Significant(ts[1..])
  }

  // ---------------------------------------------------------------------------
  // The transition machine.

  /** An enclosing block: its finished statements and the tokens before the open brace. */
  datatype Frame = Frame(done: seq<Stmt>, tokens: seq<string>)

  /**
   The parser between two tokens: the enclosing blocks, the finished statements
   of the innermost block, the tokens of its unfinished statement and the last
   token type. `Emptied` is the state after the unchecked pop of the outermost
   block, with nothing left on the stack.
   */
  datatype Parser =
    | Open(frames: seq<Frame>, done: seq<Stmt>, tokens: seq<string>, last: TokenType)
    | Emptied(root: seq<Stmt>)
  {
    function Last(): TokenType {
      if Open? then last else EndBlock
    }

    /** The number of blocks on the stack. */
    function Depth(): nat {
      if Open? then |frames| + 1 else 0
    }
  }

  /** `Undefined` is the use of the top of an empty stack. */
  datatype Outcome = Accepted(tree: seq<Stmt>) | Rejected | Undefined

  datatype Verdict = Next(parser: Parser) | Done(outcome: Outcome)

  predicate FollowsStatement(last: TokenType) {
    last == Start || last == StatementEnd || last == StartBlock || last == EndBlock
  }

  function Step(p: Parser, t: Token): Verdict {
    var reject := Done(Rejected);
    match t.kind
    case Comment => Next(p)
    case Normal =>
      if !FollowsStatement(p.Last()) && p.Last() != Normal then reject
      else if p.Emptied? then Done(Undefined)
      else Next(p.(tokens := (if p.last == Normal then p.tokens else []) + [t.value], last := Normal))
    case StatementEnd =>
      if p.Last() != Normal then reject
      else Next(p.(done := p.done + [Leaf(p.tokens)], tokens := [], last := StatementEnd))
    case StartBlock =>
      if p.Last() != Normal then reject
      else Next(Open(p.frames + [Frame(p.done, p.tokens)], [], [], StartBlock))
    case EndBlock =>
      if p.Last() != StatementEnd && p.Last() != EndBlock && p.Last() != StartBlock then reject
      else if p.Emptied? then Done(Undefined)
      else if p.frames == [] then Next(Emptied(p.done))
      else
        var f := p.frames[|p.frames| - 1];
        Next(Open(p.frames[..|p.frames| - 1], f.done + [Node(f.tokens, p.done)], [], EndBlock))
    case Eof =>
      if p.Last() != StatementEnd && p.Last() != EndBlock then reject
      else if p.Depth() != 1 then reject
      else Done(Accepted(p.done))
    case _ => reject
  }

  function Run(p: Parser, ts: seq<Token>): Verdict
    decreases |ts|
  {
    if ts == [] then Next(p)
    else match Step(p, ts[0])
      case Next(q) => Run(q, ts[1..])
      case Done(o) => Done(o)
  }

  const INITIAL := Open([], [], [], Start)

  /** The outcome of parsing a text into an empty configuration. */
  function Parse(text: string): Verdict {
    Run(INITIAL, Tokens(text))
  }

  // ---------------------------------------------------------------------------
  // Soundness: the machine's state is the derivation of what it has read.

  function FlatFrames(frames: seq<Frame>): seq<Token> {
    if frames == [] then []
    else
      var f := frames[|frames| - 1];
      FlatFrames(frames[..|frames| - 1]) + FlatBlock(f.done) + Words(f.tokens) + [OPEN]
  }

  /** The significant tokens that led to a state. */
  function Read(p: Parser): seq<Token> {
    match p
    case Open(frames, done, tokens, _) => FlatFrames(frames) + FlatBlock(done) + Words(tokens)
    case Emptied(root) => FlatBlock(root) + [CLOSE]
  }

  predicate WellFormedFrame(f: Frame) {
    f.tokens != [] && WellFormed(f.done)
  }

  predicate Valid(p: Parser) {
    match p
    case Open(frames, done, tokens, last) =>
      && (forall i :: 0 <= i < |frames| ==> WellFormedFrame(frames[i]))
      && WellFormed(done)
      && (FollowsStatement(last) || last == Normal)
      && (tokens != [] <==> last == Normal)
      && (last == Start ==> frames == [] && done == [])
      && (last == StartBlock ==> frames != [] && done == [])
      && (last == StatementEnd || last == EndBlock ==> done != [])
    case Emptied(root) => WellFormed(root) && root != []
  }

  lemma Associative(x: seq<Token>, y: seq<Token>, z: seq<Token>)
    ensures x + y + z == x + (y + z)
  {
  }

  lemma FlatBlockSnoc(b: seq<Stmt>, s: Stmt)
    ensures FlatBlock(b + [s]) == FlatBlock(b) + FlatStmt(s)
  {
    assert (b + [s])[..|b|] == b;
  }

  lemma FlatFramesSnoc(frames: seq<Frame>, f: Frame)
    ensures FlatFrames(frames + [f]) == FlatFrames(frames) + FlatBlock(f.done) + Words(f.tokens) + [OPEN]
  {
    assert (frames + [f])[..|frames|] == frames;
  }

  lemma StepKeepsValid(p: Parser, t: Token)
    requires Valid(p) && Step(p, t).Next?
    ensures Valid(Step(p, t).parser)
  {
    if t.kind == EndBlock && p.Open? && p.frames != [] {
      var f := p.frames[|p.frames| - 1];
      assert WellFormedFrame(f);
      assert WellFormedStmt(Node(f.tokens, p.done));
    }
  }

  lemma ReadsWord(p: Parser, w: string)
    requires p.Open?
    ensures Read(p.(tokens := p.tokens + [w])) == Read(p) + [Token(Normal, w)]
  {
    assert Words(p.tokens + [w]) == Words(p.tokens) + [Token(Normal, w)];
  }

  lemma ReadsSemicolon(p: Parser)
    requires p.Open?
    ensures Read(p.(done := p.done + [Leaf(p.tokens)], tokens := [])) == Read(p) + [SEMICOLON]
  {
    FlatBlockSnoc(p.done, Leaf(p.tokens));
    assert Words([]) == [];
    AppendStatement(FlatFrames(p.frames), FlatBlock(p.done), Words(p.tokens));
  }

  lemma AppendStatement(outer: seq<Token>, before: seq<Token>, words: seq<Token>)
    ensures outer + (before + (words + [SEMICOLON])) + [] == outer + before + words + [SEMICOLON]
  {
  }

  lemma ReadsOpen(p: Parser)
    requires p.Open?
    ensures Read(Open(p.frames + [Frame(p.done, p.tokens)], [], [], StartBlock)) == Read(p) + [OPEN]
  {
    FlatFramesSnoc(p.frames, Frame(p.done, p.tokens));
    assert Words([]) == [];
  }

  lemma ReadsClose(frames: seq<Frame>, f: Frame, b: seq<Stmt>)
    ensures FlatFrames(frames) + FlatBlock(f.done + [Node(f.tokens, b)])
            == FlatFrames(frames + [f]) + FlatBlock(b) + [CLOSE]
  {
    FlatBlockSnoc(f.done, Node(f.tokens, b));
    FlatFramesSnoc(frames, f);
    var before, words, inner := FlatBlock(f.done), Words(f.tokens), FlatBlock(b);
    AppendMany(FlatFrames(frames), before, words, inner);
  }

  lemma AppendMany(outer: seq<Token>, before: seq<Token>, words: seq<Token>, inner: seq<Token>)
    ensures outer + (before + (words + [OPEN] + inner + [CLOSE]))
            == outer + before + words + [OPEN] + inner + [CLOSE]
  {
  }

  /**
   One transition appends exactly the token it read to the derivation; a
   comment changes nothing.
   */
  lemma StepReads(p: Parser, t: Token)
    requires Valid(p) && Step(p, t).Next? && (t.kind != Normal ==> t.value == "")
    ensures Read(Step(p, t).parser) == Read(p) + if t.kind == Comment then [] else [t]
  {
    match t.kind {
      case Comment =>
      case Normal =>
        ReadsWord(p, t.value);
      case StatementEnd =>
        ReadsSemicolon(p);
      case StartBlock =>
        ReadsOpen(p);
      case EndBlock =>
        ReadsEnd(p);
    }
  }

  lemma ReadsEnd(p: Parser)
    requires p.Open? && p.tokens == []
    ensures p.frames == [] ==> Read(Emptied(p.done)) == Read(p) + [CLOSE]
    ensures p.frames != [] ==>
              var n := |p.frames| - 1; var f := p.frames[n];
              Read(Open(p.frames[..n], f.done + [Node(f.tokens, p.done)], [], EndBlock)) == Read(p) + [CLOSE]
  {
    assert Words([]) == [];
    if p.frames != [] {
      var n := |p.frames| - 1;
      ReadsClose(p.frames[..n], p.frames[n], p.done);
      assert p.frames[..n] + [p.frames[n]] == p.frames;
      assert Read(p) == FlatFrames(p.frames) + FlatBlock(p.done);
    }
  }

  /** The depth of the stack is one more than the braces still open. */
  function Opens(ts: seq<Token>): int {
    if ts == [] then 0
    else
      var k := ts[|ts| - 1].kind;
      Opens(ts[..|ts| - 1]) + if k == StartBlock then 1 else if k == EndBlock then -1 else 0
  }

  lemma {:induction false} DepthCountsBraces(ts: seq<Token>)
    requires Run(INITIAL, ts).Next?
    ensures Run(INITIAL, ts).parser.Depth() == 1 + Opens(ts)
  {
    if ts != [] {
      var init, t := ts[..|ts| - 1], ts[|ts| - 1];
      assert ts == init + [t];
      RunAppend(INITIAL, init, [t]);
      DepthCountsBraces(init);
    }
  }

  lemma {:induction false} RunAppend(p: Parser, s: seq<Token>, t: seq<Token>)
    decreases |s|
    ensures Run(p, s + t) == match Run(p, s) case Next(q) => Run(q, t) case Done(o) => Done(o)
  {
    if s == [] {
      assert s + t == t;
    } else {
      assert (s + t)[1..] == s[1..] + t;
      var v := Step(p, s[0]);
      if v.Next? {
        RunAppend(v.parser, s[1..], t);
      }
    }
  }

  /** A token stream as the lexer delivers it: one end-of-file or error, at the end. */
  predicate Delivered(ts: seq<Token>) {
    && ts != []
    && (forall i :: 0 <= i < |ts| ==> (Completes(ts[i].kind) <==> i < |ts| - 1))
    && (forall i :: 0 <= i < |ts| && ts[i].kind != Normal ==> ts[i].value == "")
  }

  lemma {:induction false} TokensDelivered(s: string)
    ensures Delivered(Tokens(s))
    decreases |s|
  {
    if Completes(Lex(s).kind) {
      TokensDelivered(Lex(s).rest);
    }
  }

  /** The two ways to stop other than by rejection. */
  lemma StopReads(p: Parser, t: Token)
    requires Valid(p) && Step(p, t).Done?
    ensures match Step(p, t).outcome
            case Accepted(b) => t.kind == Eof && WellFormed(b) && b != [] && Read(p) == FlatBlock(b)
            case Undefined => p.Emptied? && (t.kind == Normal || t.kind == EndBlock)
            case Rejected => true
  {
    if t.kind == Eof && p.Open? && p.frames == [] {
      assert Words([]) == [];
    }
  }

  /**
   What a run from a valid state ends with, told by the tokens alone. An
   accepting run has read a non-empty well-formed tree and the end of the text;
   a run into the empty stack has read such a tree, a closing brace too many and
   then a word or another closing brace.
   */
  lemma {:induction false} RunReads(p: Parser, ts: seq<Token>)
    requires Valid(p) && Delivered(ts)
    ensures Run(p, ts).Done?
    ensures Reads(Run(p, ts).outcome, Read(p) + Significant(ts))
    decreases |ts|
  {
    var t, rest := ts[0], ts[1..];
    var v := Step(p, t);
    if v.Next? {
      EofStops(p, t);
      DeliveredTail(ts);
      StepKeepsValid(p, t);
      StepReads(p, t);
      RunReads(v.parser, rest);
      SignificantCons(Read(p), ts);
    } else {
      StopReads(p, t);
      if v.outcome.Accepted? {
        assert rest == [];
      } else if v.outcome.Undefined? {
        OvercloseReads(p.root, ts);
      }
    }
  }

  lemma OvercloseReads(root: seq<Stmt>, ts: seq<Token>)
    requires WellFormed(root) && root != []
    requires ts != [] && (ts[0].kind == Normal || ts[0].kind == EndBlock)
    ensures ClosesTooMuch(FlatBlock(root) + [CLOSE] + Significant(ts))
  {
    assert Significant(ts)[0] == ts[0];
    assert Overclosed(root, FlatBlock(root) + [CLOSE] + Significant(ts));
  }

  lemma SignificantCons(read: seq<Token>, ts: seq<Token>)
    requires ts != []
    ensures read + Significant(ts)
            == read + (if ts[0].kind == Comment then [] else [ts[0]]) + Significant(ts[1..])
  {
    if ts[0].kind == Comment {
      assert read + [] == read;
    } else {
      Associative(read, [ts[0]], Significant(ts[1..]));
    }
  }

  lemma EofStops(p: Parser, t: Token)
    requires Step(p, t).Next?
    ensures Completes(t.kind)
  {
  }

  lemma DeliveredTail(ts: seq<Token>)
    requires Delivered(ts) && Completes(ts[0].kind)
    ensures Delivered(ts[1..])
  {
    assert |ts| > 1;
  }

  ghost predicate Reads(o: Outcome, read: seq<Token>) {
    match o
    case Accepted(b) => WellFormed(b) && b != [] && read == FlatBlock(b) + [EOF]
    case Undefined => ClosesTooMuch(read)
    case Rejected => true
  }

  /** Some complete statements, their block closed, and a word or another closing brace. */
  ghost predicate ClosesTooMuch(ts: seq<Token>) {
    exists b :: Overclosed(b, ts)
  }

  predicate Overclosed(b: seq<Stmt>, ts: seq<Token>) {
    && WellFormed(b) && b != []
    && var n := |FlatBlock(b)|;
    && |ts| > n + 1 && ts[..n + 1] == FlatBlock(b) + [CLOSE]
    && (ts[n + 1].kind == Normal || ts[n + 1].kind == EndBlock)
  }

  // ---------------------------------------------------------------------------
  // Completeness: every derivation is read.

  lemma {:induction false} CommentsAreSkipped(p: Parser, ts: seq<Token>)
    ensures Run(p, ts) == Run(p, Significant(ts))
    decreases |ts|
  {
    if ts != [] {
      var t := ts[0];
      assert t.kind != Comment ==> Significant(ts)[1..] == Significant(ts[1..]);
      if Step(p, t).Next? {
        CommentsAreSkipped(Step(p, t).parser, ts[1..]);
      }
    }
  }

  /** The state after a block has been read where a statement may begin. */
  function AfterBlock(p: Parser, b: seq<Stmt>): Parser
    requires p.Open?
  {
    if b == [] then p
    else p.(done := p.done + b, last := if b[|b| - 1].Leaf? then StatementEnd else EndBlock)
  }

  lemma {:induction false} RunWords(p: Parser, tokens: seq<string>)
    requires p.Open? && ((FollowsStatement(p.last) && p.tokens == []) || p.last == Normal) && tokens != []
    ensures Run(p, Words(tokens)) == Next(p.(tokens := p.tokens + tokens, last := Normal))
    decreases |tokens|
  {
    var q := p.(tokens := p.tokens + [tokens[0]], last := Normal);
    assert Step(p, Words(tokens)[0]) == Next(q);
    if |tokens| > 1 {
      RunWords(q, tokens[1..]);
      assert Words(tokens)[1..] == Words(tokens[1..]);
      assert q.tokens + tokens[1..] == p.tokens + tokens;
    }
  }

  lemma {:induction false} RunStmt(p: Parser, s: Stmt)
    requires p.Open? && FollowsStatement(p.last) && p.tokens == [] && WellFormedStmt(s)
    ensures Run(p, FlatStmt(s)) == Next(AfterBlock(p, [s]))
    decreases s, 0
  {
    var q := p.(tokens := s.tokens, last := Normal);
    RunWords(p, s.tokens);
    assert p.tokens + s.tokens == s.tokens;
    match s {
      case Leaf(tokens) =>
        RunOne(q, SEMICOLON);
        RunThen(p, Words(tokens), q, [SEMICOLON], AfterBlock(p, [s]));
      case Node(tokens, body) =>
        var inner := Open(p.frames + [Frame(p.done, tokens)], [], [], StartBlock);
        RunOne(q, OPEN);
        RunThen(p, Words(tokens), q, [OPEN], inner);
        RunBlock(inner, body);
        RunThen(p, Words(tokens) + [OPEN], inner, FlatBlock(body), AfterBlock(inner, body));
        CloseBlock(p, tokens, body);
        RunThen(p, Words(tokens) + [OPEN] + FlatBlock(body), AfterBlock(inner, body), [CLOSE], AfterBlock(p, [s]));
    }
  }

  lemma RunOne(p: Parser, t: Token)
    ensures Run(p, [t]) == Step(p, t)
  {
  }

  lemma RunThen(p: Parser, s: seq<Token>, q: Parser, t: seq<Token>, r: Parser)
    requires Run(p, s) == Next(q) && Run(q, t) == Next(r)
    ensures Run(p, s + t) == Next(r)
  {
    RunAppend(p, s, t);
  }

  lemma RunStops(p: Parser, s: seq<Token>, q: Parser, t: seq<Token>)
    requires Run(p, s) == Next(q) && t != [] && Step(q, t[0]).Done?
    ensures Run(p, s + t) == Step(q, t[0])
  {
    RunAppend(p, s, t);
  }

  lemma CloseBlock(p: Parser, tokens: seq<string>, body: seq<Stmt>)
    requires p.Open? && p.tokens == []
    ensures var inner := Open(p.frames + [Frame(p.done, tokens)], [], [], StartBlock);
            Run(AfterBlock(inner, body), [CLOSE]) == Next(AfterBlock(p, [Node(tokens, body)]))
  {
    var inner := Open(p.frames + [Frame(p.done, tokens)], [], [], StartBlock);
    RunOne(AfterBlock(inner, body), CLOSE);
    assert inner.frames[..|p.frames|] == p.frames;
    assert [] + body == body;
  }

  lemma AfterBlockSnoc(p: Parser, b: seq<Stmt>)
    requires p.Open? && b != []
    ensures var n := |b| - 1; AfterBlock(AfterBlock(p, b[..n]), [b[n]]) == AfterBlock(p, b)
  {
    var n := |b| - 1;
    assert p.done + b[..n] + [b[n]] == p.done + b;
    assert p.done + [b[n]] == p.done + b || n > 0;
  }

  lemma {:induction false} RunBlock(p: Parser, b: seq<Stmt>)
    requires p.Open? && FollowsStatement(p.last) && p.tokens == [] && WellFormed(b)
    ensures Run(p, FlatBlock(b)) == Next(AfterBlock(p, b))
    decreases b, 1
  {
    if b != [] {
      var n := |b| - 1;
      var q := AfterBlock(p, b[..n]);
      RunBlock(p, b[..n]);
      RunStmt(q, b[n]);
      RunThen(p, FlatBlock(b[..n]), q, FlatStmt(b[n]), AfterBlock(q, [b[n]]));
      AfterBlockSnoc(p, b);
    }
  }

  // ---------------------------------------------------------------------------
  // The parser and the grammar agree.

  /**
   A text is accepted with tree `b` exactly when its tokens, comments removed,
   are the derivation of `b` from `config`.
   */
  lemma ParserAcceptsGrammar(text: string, b: seq<Stmt>)
    ensures Parse(text) == Done(Accepted(b))
            <==> WellFormed(b) && b != [] && Significant(Tokens(text)) == FlatBlock(b) + [EOF]
  {
    OutcomeReads(text);
    if WellFormed(b) && b != [] && Significant(Tokens(text)) == FlatBlock(b) + [EOF] {
      DerivationAccepted(text, b);
    }
  }

  lemma OutcomeReads(text: string)
    ensures Parse(text).Done? && Reads(Parse(text).outcome, Significant(Tokens(text)))
  {
    TokensDelivered(text);
    RunReads(INITIAL, Tokens(text));
    assert Read(INITIAL) + Significant(Tokens(text)) == Significant(Tokens(text));
  }

  /** An empty outermost block, where a statement may begin. */
  predicate Fresh(p: Parser) {
    p.Open? && p.frames == [] && p.done == [] && p.tokens == [] && FollowsStatement(p.last)
  }

  lemma RunInitial(p: Parser, b: seq<Stmt>)
    requires Fresh(p) && WellFormed(b) && b != []
    ensures Run(p, FlatBlock(b)) == Next(AfterBlock(p, b))
    ensures AfterBlock(p, b).done == b
  {
    RunBlock(p, b);
    assert [] + b == b;
  }

  lemma RunDerivation(p: Parser, b: seq<Stmt>)
    requires Fresh(p) && WellFormed(b) && b != []
    ensures Run(p, FlatBlock(b) + [EOF]) == Done(Accepted(b))
  {
    RunInitial(p, b);
    RunAccepts(p, FlatBlock(b), AfterBlock(p, b));
  }

  lemma RunAccepts(p: Parser, s: seq<Token>, q: Parser)
    requires Run(p, s) == Next(q)
    requires q.Open? && q.frames == [] && (q.last == StatementEnd || q.last == EndBlock)
    ensures Run(p, s + [EOF]) == Done(Accepted(q.done))
  {
    RunStops(p, s, q, [EOF]);
  }

  lemma DerivationAccepted(text: string, b: seq<Stmt>)
    requires WellFormed(b) && b != [] && Significant(Tokens(text)) == FlatBlock(b) + [EOF]
    ensures Parse(text) == Done(Accepted(b))
  {
    CommentsAreSkipped(INITIAL, Tokens(text));
    RunDerivation(INITIAL, b);
  }

  /** A token stream derives from at most one tree. */
  lemma GrammarIsUnambiguous(a: seq<Stmt>, b: seq<Stmt>)
    requires WellFormed(a) && WellFormed(b) && FlatBlock(a) == FlatBlock(b)
    ensures a == b
  {
    RunBlock(INITIAL, a);
    RunBlock(INITIAL, b);
    assert [] + a == a && [] + b == b;
  }

  /**
   Parsing uses the top of an empty stack exactly when a prefix of the text
   closes one block more than it opened after complete statements, and a word or
   another closing brace follows.
   */
  lemma UndefinedExactly(text: string)
    ensures Parse(text) == Done(Undefined) <==> ClosesTooMuch(Significant(Tokens(text)))
  {
    OutcomeReads(text);
    if ClosesTooMuch(Significant(Tokens(text))) {
      CommentsAreSkipped(INITIAL, Tokens(text));
      RunOverclosed(INITIAL, Significant(Tokens(text)));
    }
  }

  lemma RunOverclosed(p: Parser, ts: seq<Token>)
    requires Fresh(p) && ClosesTooMuch(ts)
    ensures Run(p, ts) == Done(Undefined)
  {
    var b :| Overclosed(b, ts);
    var n := |FlatBlock(b)|;
    RunInitial(p, b);
    RunOne(AfterBlock(p, b), CLOSE);
    RunThen(p, FlatBlock(b), AfterBlock(p, b), [CLOSE], Emptied(b));
    assert ts == ts[..n + 1] + ts[n + 1..];
    RunStops(p, ts[..n + 1], Emptied(b), ts[n + 1..]);
  }

  // ---------------------------------------------------------------------------
  // Parsing into a configuration that already has statements.

  function Behind(before: seq<Stmt>, p: Parser): Parser {
    match p
    case Emptied(root) => Emptied(before + root)
    case Open(frames, done, _, _) =>
      if frames == [] then p.(done := before + done)
      else p.(frames := frames[0 := Frame(before + frames[0].done, frames[0].tokens)])
  }

  function BehindVerdict(before: seq<Stmt>, v: Verdict): Verdict {
    match v
    case Next(p) => Next(Behind(before, p))
    case Done(Accepted(b)) => Done(Accepted(before + b))
    case Done(_) => v
  }

  lemma StepBehind(before: seq<Stmt>, p: Parser, t: Token)
    ensures Step(Behind(before, p), t) == BehindVerdict(before, Step(p, t))
  {
    var q := Behind(before, p);
    assert q.Last() == p.Last() && q.Depth() == p.Depth();
    if p.Open? {
      match t.kind {
        case StatementEnd =>
          assert before + (p.done + [Leaf(p.tokens)]) == before + p.done + [Leaf(p.tokens)];
        case StartBlock =>
          OpenBehind(before, p);
        case EndBlock =>
          if p.frames != [] {
            CloseBehind(before, p);
          }
        case _ =>
      }
    }
  }

  lemma OpenBehind(before: seq<Stmt>, p: Parser)
    requires p.Open?
    ensures var q := Behind(before, p);
            Behind(before, Open(p.frames + [Frame(p.done, p.tokens)], [], [], StartBlock))
            == Open(q.frames + [Frame(q.done, q.tokens)], [], [], StartBlock)
  {
    var q := Behind(before, p);
    var frames := p.frames + [Frame(p.done, p.tokens)];
    assert q.frames + [Frame(q.done, q.tokens)]
        == frames[0 := Frame(before + frames[0].done, frames[0].tokens)];
  }

  lemma CloseBehind(before: seq<Stmt>, p: Parser)
    requires p.Open? && p.frames != []
    ensures var n := |p.frames| - 1; var q := Behind(before, p); var f, g := p.frames[n], q.frames[n];
            Behind(before, Open(p.frames[..n], f.done + [Node(f.tokens, p.done)], [], EndBlock))
            == Open(q.frames[..n], g.done + [Node(g.tokens, q.done)], [], EndBlock)
  {
    var n := |p.frames| - 1;
    var q := Behind(before, p);
    var f := p.frames[n];
    if n == 0 {
      assert before + (f.done + [Node(f.tokens, p.done)]) == before + f.done + [Node(f.tokens, p.done)];
    } else {
      assert q.frames[..n] == p.frames[..n][0 := q.frames[0]];
    }
  }

  lemma {:induction false} RunBehind(before: seq<Stmt>, p: Parser, ts: seq<Token>)
    ensures Run(Behind(before, p), ts) == BehindVerdict(before, Run(p, ts))
    decreases |ts|
  {
    if ts != [] {
      StepBehind(before, p, ts[0]);
      if Step(p, ts[0]).Next? {
        RunBehind(before, Step(p, ts[0]).parser, ts[1..]);
      }
    }
  }

  /** The parsed statements are appended to those already there. */
  lemma ParsingAppends(before: seq<Stmt>, text: string)
    ensures Run(Open([], before, [], Start), Tokens(text)) == BehindVerdict(before, Parse(text))
  {
    RunBehind(before, INITIAL, Tokens(text));
    assert before + [] == before;
  }
}

/**
 The parser and the printer on configuration objects. `Parse` builds the tree
 in place through a stack of open blocks; it follows the transition machine of
 `ConfigGrammar` step by step, and the objects it leaves represent the machine's
 tree.
 */
module ConfigParser {
  import opened ConfigLexer
  import opened ConfigGrammar
  import opened ConfigPrinter

  method AppendIndent(s: string, depth: int) returns (r: string)
    ensures r == s + Indent(depth)
  {
    r := s;
    var i := 0;
    while i < depth
      invariant 0 <= i && (i <= depth || i == 0)
      invariant r == s + Indent(i)
    {
      r := r + "  ";
      i := i + 1;
    }
  }

  method AppendTokens(s: string, tokens: seq<string>) returns (r: string)
    ensures r == s + Spaced(tokens)
  {
    r := s;
    for i := 0 to |tokens|
      invariant r == s + Spaced(tokens[..i])
    {
      SpacedSnoc(tokens, i);
      if i != 0 {
        r := r + " ";
      }
      r := r + tokens[i];
    }
    assert tokens[..|tokens|] == tokens;
  }

  class NginxConfigStatement {
    var tokens: seq<string>
    var childBlock: NginxConfig?

    constructor ()
      ensures tokens == [] && childBlock == null
    {
      tokens := [];
      childBlock := null;
    }

    method ToString(depth: int, ghost value: Stmt, ghost closed: set<object>) returns (r: string)
      requires IsStmt(this, value, closed)
      ensures r == PrintStmt(value, depth)
      decreases value, 0
    {
      hide PrintBlock, Indent, Spaced, IsBlock;
      r := AppendIndent("", depth);
      r := AppendTokens(r, tokens);
      ghost var words := r;
      if childBlock != null {
        r := r + " {\n";
        var body := childBlock.ToString(depth + 1, value.body, closed);
        r := r + body;
        r := AppendIndent(r, depth);
        r := r + "}";
        Regroup(words, body, Indent(depth));
      } else {
        r := r + ";";
      }
      assert r == words + PrintEnd(value, depth);
      r := r + "\n";
    }
  }

  lemma Regroup(words: string, body: string, indent: string)
    ensures words + " {\n" + body + indent + "}" == words + (" {\n" + body + indent + "}")
  {
  }

  lemma SpacedSnoc(tokens: seq<string>, i: nat)
    requires i < |tokens|
    ensures Spaced(tokens[..i + 1]) == Spaced(tokens[..i]) + (if i == 0 then "" else " ") + tokens[i]
  {
    assert tokens[..i + 1][..i] == tokens[..i];
    assert i == 0 ==> tokens[..i + 1] == [tokens[0]];
  }

  class NginxConfig {
    var statements: seq<NginxConfigStatement>

    constructor ()
      ensures statements == []
    {
      statements := [];
    }

    method ToString(depth: int, ghost value: seq<Stmt>, ghost closed: set<object>) returns (r: string)
      requires IsBlock(statements, value, closed)
      ensures r == PrintBlock(value, depth)
      decreases value, 1
    {
      r := "";
      for i := 0 to |statements|
        invariant r == PrintBlock(value[..i], depth)
      {
        var statement := statements[i].ToString(depth, value[i], closed);
        assert value[..i + 1][..i] == value[..i];
        r := r + statement;
      }
      assert value[..|statements|] == value;
    }
  }

  // ---------------------------------------------------------------------------
  // Objects and the values they represent.

  /**
   `s` is a finished statement of value `v`: it and everything below it lies in
   `closed`, which the parser no longer writes to.
   */
  ghost predicate IsStmt(s: NginxConfigStatement, v: Stmt, closed: set<object>)
    reads closed
    decreases v, 1
  {
    && s in closed
    && s.tokens == v.tokens
    && match v
       case Leaf(_) => s.childBlock == null
       case Node(_, body) =>
         s.childBlock != null && s.childBlock in closed && IsBlock(s.childBlock.statements, body, closed)
  }

  ghost predicate IsBlock(ss: seq<NginxConfigStatement>, b: seq<Stmt>, closed: set<object>)
    reads closed
    decreases b, 2
  {
    |ss| == |b| && forall i :: 0 <= i < |b| ==> IsStmt(ss[i], b[i], closed)
  }

  lemma {:induction false} StmtStays(s: NginxConfigStatement, v: Stmt, small: set<object>, large: set<object>)
    requires IsStmt(s, v, small) && small <= large
    ensures IsStmt(s, v, large)
    decreases v, 1
  {
    if v.Node? {
      BlockStays(s.childBlock.statements, v.body, small, large);
    }
  }

  lemma {:induction false} BlockStays(ss: seq<NginxConfigStatement>, b: seq<Stmt>,
                                      small: set<object>, large: set<object>)
    requires IsBlock(ss, b, small) && small <= large
    ensures IsBlock(ss, b, large)
    decreases b, 2
  {
    forall i | 0 <= i < |b|
      ensures IsStmt(ss[i], b[i], large)
    {
      StmtStays(ss[i], b[i], small, large);
    }
  }

  /**
   The block `c` has finished statements `done` and then one unfinished statement
   with these tokens and this child block.
   */
  ghost predicate IsLevel(c: NginxConfig, done: seq<Stmt>, tokens: seq<string>, child: NginxConfig?,
                          closed: set<object>, made: set<object>)
    reads c, closed, made
  {
    && c !in closed
    && c.statements != []
    && var n := |c.statements| - 1;
    && IsBlock(c.statements[..n], done, closed)
    && var s := c.statements[n];
    && s !in closed && s in made
    && s.tokens == tokens && s.childBlock == child
  }

  /**
   The stack mirrors the machine: each stacked block is the child block of the
   last statement of the block beneath it.
   */
  ghost predicate Mirrors(stack: seq<NginxConfig>, config: NginxConfig, p: Parser,
                          closed: set<object>, made: set<object>)
    reads stack, config, closed, made
  {
    && |stack| == p.Depth()
    && match p
       case Emptied(root) =>
         IsBlock(config.statements, root, closed)
       case Open(frames, done, tokens, _) =>
         && var top := |frames|;
         && stack[0] == config
         && (forall i :: 1 <= i < |stack| ==> stack[i] in made)
         && (forall i, j :: 0 <= i < j < |stack| ==> stack[i] != stack[j])
         && (forall i :: 0 <= i < top ==>
               IsLevel(stack[i], frames[i].done, frames[i].tokens, stack[i + 1], closed, made))
         && stack[top] !in closed
         && if tokens == [] then IsBlock(stack[top].statements, done, closed)
            else IsLevel(stack[top], done, tokens, null, closed, made)
  }

  method AddToken(stack: seq<NginxConfig>, config: NginxConfig, token: string, startStatement: bool,
                  ghost p: Parser, ghost closed: set<object>, ghost made: set<object>)
    returns (ghost made': set<object>)
    requires p.Open? && Mirrors(stack, config, p, closed, made)
    requires startStatement <==> p.tokens == []
    modifies stack[|stack| - 1], made
    ensures fresh(made' - made) && made <= made'
    ensures Mirrors(stack, config, p.(tokens := p.tokens + [token], last := Normal), closed, made')
  {
    hide IsStmt, IsBlock;
    made' := made;
    var top := stack[|stack| - 1];
    if startStatement {
      var statement := new NginxConfigStatement();
      top.statements := top.statements + [statement];
      made' := made' + {statement};
      assert top.statements[..|top.statements| - 1] == old(top.statements);
    }
    var statement := top.statements[|top.statements| - 1];
    statement.tokens := statement.tokens + [token];
  }

  /** At `;` the last statement is finished: nothing is written, it becomes closed. */
  lemma FinishStatement(stack: seq<NginxConfig>, config: NginxConfig,
                        p: Parser, closed: set<object>, made: set<object>)
    returns (closed': set<object>)
    requires p.Open? && p.tokens != [] && Mirrors(stack, config, p, closed, made)
    ensures closed <= closed' <= closed + made
    ensures Mirrors(stack, config, p.(done := p.done + [Leaf(p.tokens)], tokens := [], last := StatementEnd),
                    closed', made)
  {
    var top := stack[|stack| - 1];
    var n := |top.statements| - 1;
    var s := top.statements[n];
    closed' := closed + {s};
    forall i | 0 <= i < |p.frames|
      ensures IsLevel(stack[i], p.frames[i].done, p.frames[i].tokens, stack[i + 1], closed', made)
    {
      LevelStays(stack[i], p.frames[i], stack[i + 1], closed, closed', made);
    }
    BlockStays(top.statements[..n], p.done, closed, closed');
    assert IsStmt(s, Leaf(p.tokens), closed');
    assert top.statements == top.statements[..n] + [s];
  }

  lemma LevelStays(c: NginxConfig, f: Frame, child: NginxConfig?,
                   small: set<object>, large: set<object>, made: set<object>)
    requires IsLevel(c, f.done, f.tokens, child, small, made)
    requires small <= large && c !in large && c.statements[|c.statements| - 1] !in large
    ensures IsLevel(c, f.done, f.tokens, child, large, made)
  {
    BlockStays(c.statements[..|c.statements| - 1], f.done, small, large);
  }

  /** The block on top of the stack is finished, and with it the statement it belongs to. */
  lemma FinishBlock(stack: seq<NginxConfig>, config: NginxConfig,
                    p: Parser, closed: set<object>, made: set<object>)
    returns (closed': set<object>)
    requires p.Open? && p.tokens == [] && p.frames != [] && Mirrors(stack, config, p, closed, made)
    ensures closed <= closed' <= closed + made
    ensures var n := |p.frames| - 1; var f := p.frames[n];
            Mirrors(stack[..n + 1], config,
                    Open(p.frames[..n], f.done + [Node(f.tokens, p.done)], [], EndBlock), closed', made)
  {
    var n := |p.frames| - 1;
    var f := p.frames[n];
    var inner, outer := stack[n + 1], stack[n];
    var m := |outer.statements| - 1;
    assert IsLevel(outer, f.done, f.tokens, inner, closed, made);
    var s := outer.statements[m];
    closed' := closed + {s, inner};
    forall i | 0 <= i < n
      ensures IsLevel(stack[i], p.frames[i].done, p.frames[i].tokens, stack[i + 1], closed', made)
    {
      LevelStays(stack[i], p.frames[i], stack[i + 1], closed, closed', made);
    }
    BlockStays(outer.statements[..m], f.done, closed, closed');
    BlockStays(inner.statements, p.done, closed, closed');
    assert IsStmt(s, Node(f.tokens, p.done), closed');
    assert outer.statements == outer.statements[..m] + [s];
  }

  /** The unchecked pop of the outermost block writes nothing. */
  lemma EmptyStack(stack: seq<NginxConfig>, config: NginxConfig,
                   p: Parser, closed: set<object>, made: set<object>)
    requires p.Open? && p.tokens == [] && p.frames == [] && Mirrors(stack, config, p, closed, made)
    ensures Mirrors(stack[..0], config, Emptied(p.done), closed, made)
  {
  }

  method OpenBlock(stack: seq<NginxConfig>, config: NginxConfig,
                   ghost p: Parser, ghost closed: set<object>, ghost made: set<object>)
    returns (stack': seq<NginxConfig>, ghost made': set<object>)
    requires p.Open? && p.tokens != [] && Mirrors(stack, config, p, closed, made)
    modifies made
    ensures fresh(made' - made) && made <= made'
    ensures Mirrors(stack', config, Open(p.frames + [Frame(p.done, p.tokens)], [], [], StartBlock), closed, made')
  {
    var top := stack[|stack| - 1];
    var block := new NginxConfig();
    var statement := top.statements[|top.statements| - 1];
    statement.childBlock := block;
    stack' := stack + [block];
    made' := made + {block};
  }

  /** What `parse` reports, or that it used the top of the empty stack. */
  datatype ParseResult = Success | Failure | EmptyStackUsed

  /** An unfinished statement has tokens exactly after a word. */
  predicate Steady(p: Parser) {
    p.Open? ==> (FollowsStatement(p.last) || p.last == Normal) && (p.tokens != [] <==> p.last == Normal)
  }

  lemma StepSteady(p: Parser, t: Token)
    requires Steady(p) && Step(p, t).Next?
    ensures Steady(Step(p, t).parser)
  {
  }

  function TokenOf(kind: TokenType, value: string): Token {
    Token(kind, if kind == Normal then value else "")
  }

  /** A run over a text starts with the step on its first lexeme. */
  lemma RunLexeme(p: Parser, s: string)
    ensures var l := Lex(s);
            match Step(p, TokenOf(l.kind, l.value))
            case Next(q) => Completes(l.kind) && Run(p, Tokens(s)) == Run(q, Tokens(l.rest))
            case Done(o) => Run(p, Tokens(s)) == Done(o)
  {
    hide Lex;
    var l := Lex(s);
    var t := TokenOf(l.kind, l.value);
    assert Tokens(s)[0] == t;
    if Step(p, t).Next? {
      EofStops(p, t);
      assert Tokens(s)[1..] == Tokens(l.rest);
    }
  }

  /**
   Parsing appends to whatever statements the configuration holds. On success
   the configuration represents the machine's tree; `closed` is a footprint in
   which it can be read.
   */
  method Parse(input: CharStream, config: NginxConfig, ghost before: seq<Stmt>, ghost held: set<object>)
    returns (result: ParseResult, ghost closed: set<object>)
    requires input.Valid() && config !in held && input !in held && IsBlock(config.statements, before, held)
    modifies input, config
    ensures var v := Run(Open([], before, [], Start), Tokens(old(input.Remaining())));
            && v.Done?
            && (result == Success <==> v.outcome.Accepted?) && (result == Failure <==> v.outcome.Rejected?)
            && (result == EmptyStackUsed <==> v.outcome.Undefined?)
            && (result == Success ==>
                  && IsBlock(config.statements, v.outcome.tree, closed)
                  && |config.statements| == |v.outcome.tree|
                  && forall i :: 0 <= i < |config.statements| ==>
                       config.statements[i].tokens == v.outcome.tree[i].tokens
                       && (config.statements[i].childBlock == null <==> v.outcome.tree[i].Leaf?))
  {
    hide Lex, Tokens, Run, IsLevel, Mirrors;
    var stack := [config];
    var last := Start;
    closed := held;
    ghost var made := {};
    ghost var p := Open([], before, [], Start);
    ghost var v := Run(p, Tokens(input.Remaining()));
    StartMirrors(config, before, held);
    while true
      invariant input.Valid() && input !in closed && input !in made && config !in made
      invariant fresh(made) && closed <= held + made
      invariant Mirrors(stack, config, p, closed, made)
      invariant Steady(p) && p.Last() == last
      invariant v == Run(p, Tokens(input.Remaining()))
      decreases |input.Remaining()|
    {
      label Read:
      ghost var s := input.Remaining();
      var kind, token := ParseToken(input);
      MirrorsDepth(stack, config, p, closed, made);
      RunLexeme(p, s);
      ghost var t := TokenOf(kind, token);
      ghost var q := Step(p, t);
      if kind == Error {
        return Failure, closed;
      }
      if kind == Comment {
        continue;
      }
      if kind == Normal {
        if last == Start || last == StatementEnd || last == StartBlock || last == EndBlock || last == Normal {
          if stack == [] {
            return EmptyStackUsed, closed;
          }
          made := AddToken(stack, config, token, last != Normal, p, closed, made);
        } else {
          return Failure, closed;
        }
      } else if kind == StatementEnd {
        if last != Normal {
          return Failure, closed;
        }
        closed := FinishStatement(stack, config, p, closed, made);
      } else if kind == StartBlock {
        if last != Normal {
          return Failure, closed;
        }
        stack, made := OpenBlock(stack, config, p, closed, made);
      } else if kind == EndBlock {
        if last != StatementEnd && last != EndBlock && last != StartBlock {
          return Failure, closed;
        }
        if stack == [] {
          return EmptyStackUsed, closed;
        }
        if |stack| == 1 {
          EmptyStack(stack, config, p, closed, made);
        } else {
          closed := FinishBlock(stack, config, p, closed, made);
        }
        stack := stack[..|stack| - 1];
      } else if kind == Eof {
        if last != StatementEnd && last != EndBlock {
          return Failure, closed;
        } else if |stack| != 1 {
          return Failure, closed;
        }
        return Success, closed;
      } else {
        return Failure, closed;
      }
      last := kind;
      StepSteady(p, t);
      p := q.parser;
    }
  }

  lemma StartMirrors(config: NginxConfig, before: seq<Stmt>, held: set<object>)
    requires config !in held && IsBlock(config.statements, before, held)
    ensures Mirrors([config], config, Open([], before, [], Start), held, {})
  {
  }

  lemma MirrorsDepth(stack: seq<NginxConfig>, config: NginxConfig, p: Parser, closed: set<object>, made: set<object>)
    requires Mirrors(stack, config, p, closed, made)
    ensures |stack| == p.Depth()
    ensures p.Open? ==> stack[|stack| - 1] == config || stack[|stack| - 1] in made
    ensures p.Open? && p.frames == [] && p.tokens == [] ==> IsBlock(config.statements, p.done, closed)
    ensures p.Emptied? ==> IsBlock(config.statements, p.root, closed)
  {
  }
}

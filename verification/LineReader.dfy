/**
 Reading a text line by line, up to the first empty line. Lines that end in CR LF
 are read as they were written exactly when none has a line end inside.
 */
module LineReader {
  import opened Options

  const CRLF := "\r\n"

  /** A strict reader ends a line at CR LF, a lenient one also at a lone CR or LF. */
  datatype Reader = Strict | Lenient

  /** The length of the line end that a text starts with. */
  function EndAt(reader: Reader, s: string): (n: nat)
    ensures n <= |s|
  {
    if CRLF <= s then 2
    else if reader == Lenient && s != "" && (s[0] == '\r' || s[0] == '\n') then 1
    else 0
  }

  /** No line end starts in the text. */
  predicate OneLine(reader: Reader, s: string) {
    s == "" || (EndAt(reader, s) == 0 && OneLine(reader, s[1..]))
  }

  predicate Free(s: string, c: char) {
    forall i :: 0 <= i < |s| ==> s[i] != c
  }

  /** For a lenient reader: neither character occurs. For a strict one: the pair does not. */
  lemma {:induction false} OneLineMeans(s: string)
    ensures OneLine(Lenient, s) <==> Free(s, '\r') && Free(s, '\n')
    ensures OneLine(Strict, s) <==> forall i :: 0 <= i < |s| - 1 ==> !(s[i] == '\r' && s[i + 1] == '\n')
  {
    if s != "" {
      OneLineMeans(s[1..]);
      assert s == [s[0]] + s[1..];
      assert forall i :: 0 < i < |s| ==> s[i] == s[1..][i - 1];
      assert CRLF <= s <==> |s| > 1 && s[0] == '\r' && s[1] == '\n';
    }
  }

  /** The first line, and what follows its end. */
  function ReadLine(reader: Reader, s: string): (r: Option<(string, string)>)
    ensures r.Some? ==> |r.value.1| < |s|
  {
    var n := EndAt(reader, s);
    if n > 0 then Some(("", s[n..]))
    else if s == "" then None
    else match ReadLine(reader, s[1..])
      case None => None
      case Some((line, rest)) => Some(([s[0]] + line, rest))
  }

  /** The lines before the first empty one, and what follows that. */
  function ReadHead(reader: Reader, s: string): Option<(seq<string>, string)>
    decreases |s|
  {
    match ReadLine(reader, s)
    case None => None
    case Some((line, rest)) =>
      if line == "" then Some(([], rest))
      else match ReadHead(reader, rest)
        case None => None
        case Some((lines, body)) => Some(([line] + lines, body))
  }

  lemma {:induction false} ReadsLine(reader: Reader, line: string, rest: string)
    requires OneLine(reader, line)
    ensures ReadLine(reader, line + (CRLF + rest)) == Some((line, rest))
  {
    if line == "" {
      assert "" + (CRLF + rest) == CRLF + rest && (CRLF + rest)[2..] == rest;
    } else {
      assert line == [line[0]] + line[1..];
      hide ReadLine;
      ReadsLine(reader, line[1..], rest);
      NoEndAt(reader, line, CRLF + rest);
      ReadsOn(reader, line[0], line[1..], CRLF + rest);
    }
  }

  /** Reading one more character of the first line. */
  lemma ReadsOn(reader: Reader, c: char, line: string, rest: string)
    requires EndAt(reader, [c] + line + rest) == 0 && ReadLine(reader, line + rest).Some?
    ensures var r := ReadLine(reader, line + rest).value;
            ReadLine(reader, [c] + line + rest) == Some(([c] + r.0, r.1))
  {
    hide EndAt;
    assert ([c] + line + rest)[1..] == line + rest;
  }

  lemma NoEndAt(reader: Reader, line: string, rest: string)
    requires line != "" && CRLF <= rest && EndAt(reader, line) == 0
    ensures EndAt(reader, line + rest) == 0
  {
    var s := line + rest;
    assert s[0] == line[0] && s[1] == if |line| > 1 then line[1] else '\r';
    assert forall t: string :: CRLF <= t <==> |t| > 1 && t[0] == '\r' && t[1] == '\n';
  }

  /** A line with a line end inside is read as a shorter one. */
  lemma {:induction false} ReadsShorter(reader: Reader, line: string, rest: string)
    requires !OneLine(reader, line)
    ensures ReadLine(reader, line + rest).Some? && |ReadLine(reader, line + rest).value.0| < |line|
  {
    var s := line + rest;
    assert s[0] == line[0] && s[1..] == line[1..] + rest;
    if EndAt(reader, line) > 0 {
      assert CRLF <= line ==> CRLF <= s;
    } else {
      ReadsShorter(reader, line[1..], rest);
    }
  }

  function Joined(lines: seq<string>): string {
    if lines == [] then "" else lines[0] + CRLF + Joined(lines[1..])
  }

  /** Lines are read back as written exactly when none has a line end inside. */
  lemma {:induction false} LinesAreRead(reader: Reader, lines: seq<string>, rest: string)
    requires forall i :: 0 <= i < |lines| ==> lines[i] != ""
    ensures ReadHead(reader, Joined(lines) + (CRLF + rest)) == Some((lines, rest))
            <==> forall i :: 0 <= i < |lines| ==> OneLine(reader, lines[i])
    decreases |lines|
  {
    hide OneLine, ReadLine;
    var s := Joined(lines) + (CRLF + rest);
    if lines == [] {
      OneLineEmpty(reader);
      ReadsLine(reader, "", rest);
      assert s == "" + (CRLF + rest);
    } else {
      var more := Joined(lines[1..]) + (CRLF + rest);
      assert s == lines[0] + (CRLF + more);
      if OneLine(reader, lines[0]) {
        ReadsLine(reader, lines[0], more);
        LinesAreRead(reader, lines[1..], rest);
        FirstAndRest(lines, ReadHead(reader, more), rest);
        assert forall i :: 0 < i < |lines| ==> lines[i] == lines[1..][i - 1];
      } else {
        ReadsShorter(reader, lines[0], CRLF + more);
      }
    }
  }

  lemma OneLineEmpty(reader: Reader)
    ensures OneLine(reader, "")
  {
  }

  lemma FirstAndRest(lines: seq<string>, read: Option<(seq<string>, string)>, rest: string)
    requires lines != []
    ensures read == Some((lines[1..], rest))
            <==> read.Some? && ([lines[0]] + read.value.0, read.value.1) == (lines, rest)
  {
    assert lines == [lines[0]] + lines[1..];
    if read.Some? {
      assert ([lines[0]] + read.value.0)[1..] == read.value.0;
    }
  }

  /** Two parts with a separator between them have a line end inside exactly when one has. */
  lemma {:induction false} OneLineJoin(reader: Reader, a: string, c: char, b: string)
    requires c != '\r' && c != '\n'
    ensures OneLine(reader, a + [c] + b) <==> OneLine(reader, a) && OneLine(reader, b)
  {
    var s := a + [c] + b;
    if a == "" {
      assert s[0] == c && s[1..] == b;
    } else {
      OneLineJoin(reader, a[1..], c, b);
      assert s[1..] == a[1..] + [c] + b;
      assert s[0] == a[0] && s[1] == if |a| > 1 then a[1] else c;
      assert forall t: string :: CRLF <= t <==> |t| > 1 && t[0] == '\r' && t[1] == '\n';
    }
  }
}

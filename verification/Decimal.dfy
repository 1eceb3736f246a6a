/**
 The decimal text of integers, as `std::to_string` writes it and `std::stoi`
 reads it.
 */
module Decimal {
  import opened Options

  const INT_MIN := -0x8000_0000
  const INT_MAX := 0x7FFF_FFFF

  type Int32 = n: int | INT_MIN <= n <= INT_MAX

  predicate IsDigit(c: char) {
    '0' <= c <= '9'
  }

  predicate AllDigits(s: string) {
    forall i :: 0 <= i < |s| ==> IsDigit(s[i])
  }

  function DigitChar(d: nat): (c: char)
    requires d < 10
    ensures IsDigit(c) && DigitValue(c) == d
  {
    '0' + d as char
  }

  function DigitValue(c: char): nat {
    if IsDigit(c) then (c - '0') as nat else 0
  }

  function Digits(n: nat): (s: string)
    ensures s != ""
  {
    (if n < 10 then "" else Digits(n / 10)) + [DigitChar(n % 10)]
  }

  function ToString(n: int): (s: string)
    ensures s != ""
  {
    if n < 0 then "-" + Digits(-n) else Digits(n)
  }

  function Number(s: string): nat {
    if s == "" then 0 else 10 * Number(s[..|s| - 1]) + DigitValue(s[|s| - 1])
  }

  lemma {:induction false} DigitsAreDigits(n: nat)
    ensures AllDigits(Digits(n))
  {
    if n >= 10 {
      DigitsAreDigits(n / 10);
    }
  }

  lemma {:induction false} NumberOfDigits(n: nat)
    ensures Number(Digits(n)) == n
  {
    var high := if n < 10 then "" else Digits(n / 10);
    NumberSnoc(high, n % 10);
    if n >= 10 {
      NumberOfDigits(n / 10);
    }
  }

  lemma NumberSnoc(s: string, d: nat)
    requires d < 10
    ensures Number(s + [DigitChar(d)]) == 10 * Number(s) + d
  {
    assert (s + [DigitChar(d)])[..|s|] == s;
  }

  // ---------------------------------------------------------------------------
  // Reading.

  // The white space of the C locale.
  predicate IsSpace(c: char) {
    c == ' ' || c == '\t' || c == '\n' || c == '\U{0B}' || c == '\U{0C}' || c == '\r'
  }

  function SpaceRun(s: string): (n: nat)
    ensures n <= |s|
  {
    if s == "" || !IsSpace(s[0]) then 0 else 1 + SpaceRun(s[1..])
  }

  function DigitRun(s: string): (n: nat)
    ensures n <= |s|
  {
    if s == "" || !IsDigit(s[0]) then 0 else 1 + DigitRun(s[1..])
  }

  datatype Parsed = Parsed(value: Int32, used: nat)

  /**
   The integer at the start of `s` and the number of characters used for it:
   white space, an optional sign and at least one digit. `None` stands for both
   exceptions, no digits and out of range.
   */
  function Stoi(s: string): (r: Option<Parsed>)
    ensures r.Some? ==> r.value.used <= |s|
  {
    var b := SpaceRun(s);
    var signed := b < |s| && (s[b] == '-' || s[b] == '+');
    var start := if signed then b + 1 else b;
    var n := DigitRun(s[start..]);
    if n == 0 then None
    else
      var magnitude: int := Number(s[start..][..n]);
      var value: int := if signed && s[b] == '-' then -magnitude else magnitude;
      if INT_MIN <= value <= INT_MAX then Some(Parsed(value, start + n)) else None
  }

  lemma {:induction false} DigitRunOfDigits(s: string)
    requires AllDigits(s)
    ensures DigitRun(s) == |s|
  {
    if s != "" {
      DigitRunOfDigits(s[1..]);
    }
  }

  /** Reading back a printed integer uses all of the text, over the whole range. */
  lemma StoiReadsToString(n: Int32)
    ensures Stoi(ToString(n)) == Some(Parsed(n, |ToString(n)|))
  {
    hide Stoi, Digits, Number;
    var i: int := n;
    if i < 0 {
      NumberOfDigits(-i);
      DigitsAreDigits(-i);
      StoiReadsDigits("-", Digits(-i));
    } else {
      NumberOfDigits(i);
      DigitsAreDigits(i);
      StoiReadsDigits("", Digits(i));
      assert "" + Digits(i) == Digits(i);
    }
  }

  lemma StoiReadsDigits(sign: string, digits: string)
    requires (sign == "" || sign == "-") && digits != "" && AllDigits(digits)
    requires var v: int := Number(digits); INT_MIN <= (if sign == "" then v else -v) <= INT_MAX
    ensures var v: int := Number(digits);
            Stoi(sign + digits) == Some(Parsed(if sign == "" then v else -v, |sign + digits|))
  {
    hide Number, DigitRun;
    var s := sign + digits;
    assert s[0] == if sign == "" then digits[0] else '-';
    assert s[|sign|..] == digits;
    DigitRunOfDigits(digits);
    assert digits[..|digits|] == digits;
  }

  /** Different integers have different texts. */
  lemma ToStringInjective(a: int, b: int)
    requires ToString(a) == ToString(b)
    ensures a == b
  {
    SignOfToString(a);
    SignOfToString(b);
    NumberOfDigits(if a < 0 then -a else a);
    NumberOfDigits(if b < 0 then -b else b);
  }

  lemma SignOfToString(n: int)
    ensures ToString(n)[0] == '-' <==> n < 0
    ensures n < 0 ==> ToString(n)[1..] == Digits(-n)
  {
    DigitsAreDigits(if n < 0 then -n else n);
  }

  predicate DecimalChar(c: char) {
    IsDigit(c) || c == '-'
  }

  lemma ToStringAlphabet(n: int)
    ensures forall i :: 0 <= i < |ToString(n)| ==> DecimalChar(ToString(n)[i])
  {
    DigitsAreDigits(if n < 0 then -n else n);
  }

  // ---------------------------------------------------------------------------
  // In characters.

  /** The text of an integer: its last digit behind the text of the rest, a minus in front. */
  lemma ToStringIs(n: int)
    requires n >= 0
    ensures n < 10 ==> ToString(n) == ["0123456789"[n]]
    ensures n >= 10 ==> ToString(n) == ToString(n / 10) + ["0123456789"[n % 10]]
    ensures n > 0 ==> ToString(-n) == "-" + ToString(n)
  {
    DigitCharIs(n % 10);
  }

  lemma DigitCharIs(d: nat)
    requires d < 10
    ensures DigitChar(d) == "0123456789"[d]
  {
  }

  predicate DigitsOnly(s: string) {
    forall i :: 0 <= i < |s| ==> '0' <= s[i] <= '9'
  }

  /** Spaces of any kind. */
  predicate SpacesOnly(s: string) {
    forall i :: 0 <= i < |s| ==>
      s[i] == ' ' || s[i] == '\t' || s[i] == '\n' || s[i] == '\r' || s[i] == '\U{0B}' || s[i] == '\U{0C}'
  }

  lemma {:induction false} SpaceRunIs(g: string, s: string)
    requires SpacesOnly(g) && (s == "" || !IsSpace(s[0]))
    ensures SpaceRun(g + s) == |g|
  {
    if g == "" {
      assert g + s == s;
    } else {
      SpaceRunIs(g[1..], s);
      assert (g + s)[1..] == g[1..] + s;
    }
  }

  lemma {:induction false} DigitRunIs(d: string, s: string)
    requires DigitsOnly(d) && (s == "" || s[0] < '0' || '9' < s[0])
    ensures DigitRun(d + s) == |d|
  {
    if d == "" {
      assert d + s == s;
    } else {
      DigitRunIs(d[1..], s);
      assert (d + s)[1..] == d[1..] + s;
    }
  }

  lemma NumberIs(s: string, n: nat)
    requires n < 10
    ensures Number("") == 0 && Number(s + ["0123456789"[n]]) == 10 * Number(s) + n
  {
    DigitCharIs(n);
    NumberSnoc(s, n);
  }

  /**
   Reading an integer: any spaces, all the digits there are, and whatever follows;
   only a number out of range is refused.
   */
  lemma StoiReads(g: string, d: string, s: string)
    requires SpacesOnly(g) && d != "" && DigitsOnly(d) && (s == "" || s[0] < '0' || '9' < s[0])
    ensures var v: int := Number(d);
            Stoi(g + (d + s)) == if v <= 0x7FFF_FFFF then Some(Parsed(v, |g| + |d|)) else None
  {
    hide Number, Stoi;
    StartsWithDigit(d, s);
    SpaceRunIs(g, d + s);
    DigitRunIs(d, s);
    hide *;
    Behind(g, d + s);
    Front(d, s);
    StoiAt(g + (d + s), |g|, d + s, d);
  }

  lemma StartsWithDigit(d: string, s: string)
    requires d != "" && DigitsOnly(d)
    ensures var c := (d + s)[0]; !IsSpace(c) && c != '-' && c != '+'
  {
  }

  /** With a sign in front of the digits. */
  lemma StoiReadsSigned(g: string, c: char, d: string, s: string)
    requires SpacesOnly(g) && (c == '+' || c == '-')
    requires d != "" && DigitsOnly(d) && (s == "" || s[0] < '0' || '9' < s[0])
    ensures var n: int := Number(d);
            var v := if c == '-' then -n else n;
            Stoi(g + ([c] + (d + s)))
            == if -0x8000_0000 <= v <= 0x7FFF_FFFF then Some(Parsed(v, |g| + 1 + |d|)) else None
  {
    hide *;
    SpaceRunToSign(g, c, d + s);
    DigitRunIs(d, s);
    BehindSign(g, c, d + s);
    Front(d, s);
    StoiAtSign(g + ([c] + (d + s)), |g|, d + s, d);
  }

  lemma SpaceRunToSign(g: string, c: char, s: string)
    requires SpacesOnly(g) && (c == '+' || c == '-')
    ensures SpaceRun(g + ([c] + s)) == |g|
  {
    hide SpaceRun, SpacesOnly;
    SpaceRunIs(g, [c] + s);
  }

  lemma Behind(g: string, s: string)
    ensures (g + s)[|g|..] == s && |g + s| == |g| + |s| && (s != "" ==> (g + s)[|g|] == s[0])
  {
  }

  lemma BehindSign(g: string, c: char, s: string)
    ensures var all := g + ([c] + s); |all| > |g| && all[|g|] == c && all[|g| + 1..] == s
  {
  }

  lemma Front(d: string, s: string)
    ensures (d + s)[..|d|] == d
  {
  }

  lemma StoiAt(s: string, b: nat, digits: string, d: string)
    requires b < |s| && SpaceRun(s) == b && s[b] != '-' && s[b] != '+' && s[b..] == digits
    requires |d| <= |digits| && DigitRun(digits) == |d| && d != "" && digits[..|d|] == d
    ensures var v: int := Number(d);
            Stoi(s) == if v <= 0x7FFF_FFFF then Some(Parsed(v, b + |d|)) else None
  {
    hide SpaceRun, DigitRun, Number;
  }

  lemma StoiAtSign(s: string, b: nat, digits: string, d: string)
    requires b < |s| && SpaceRun(s) == b && (s[b] == '-' || s[b] == '+') && s[b + 1..] == digits
    requires |d| <= |digits| && DigitRun(digits) == |d| && d != "" && digits[..|d|] == d
    ensures var n: int := Number(d);
            var v := if s[b] == '-' then -n else n;
            Stoi(s) == if -0x8000_0000 <= v <= 0x7FFF_FFFF then Some(Parsed(v, b + 1 + |d|)) else None
  {
    hide SpaceRun, DigitRun, Number;
  }

  /** Without a digit behind the spaces and the sign nothing is read. */
  lemma StoiNeedsDigits(g: string, sign: string, s: string)
    requires SpacesOnly(g) && (sign == "" || sign == "+" || sign == "-")
    requires s == "" || s[0] < '0' || '9' < s[0]
    requires sign == "" && s != "" ==> s[0] != '+' && s[0] != '-' && !SpacesOnly([s[0]])
    ensures Stoi(g + (sign + s)) == None
  {
    var tail := sign + s;
    var all := g + tail;
    if tail != "" {
      assert tail[0] == if sign == "" then s[0] else sign[0];
      assert SpacesOnly([tail[0]]) <==> IsSpace([tail[0]][0]);
      assert all[|g|] == tail[0];
    }
    hide SpaceRun, SpacesOnly;
    SpaceRunIs(g, tail);
    assert all[|g| + |sign|..] == s;
  }

  /** What follows a printed integer is not used, unless it begins with a digit. */
  lemma StoiReadsFirst(n: Int32, s: string)
    requires s == "" || s[0] < '0' || '9' < s[0]
    ensures Stoi(ToString(n) + s) == Some(Parsed(n, |ToString(n)|))
  {
    hide Stoi, Digits, Number;
    var i: int := n;
    var sign, d := if i < 0 then "-" else "", Digits(if i < 0 then -i else i);
    NumberOfDigits(if i < 0 then -i else i);
    DigitsAreDigits(if i < 0 then -i else i);
    if i < 0 {
      StoiReadsSigned("", '-', d, s);
      assert "-" == ['-'];
    } else {
      StoiReads("", d, s);
    }
    assert ToString(n) == sign + d;
    assert ToString(n) + s == "" + (if i < 0 then ['-'] + (d + s) else d + s);
  }
}

/**
 The short code of a hash value: its base 62 digits, least significant first,
 padded in front to six characters and cut to six characters. Padding in front
 of a little-endian number multiplies it, and cutting keeps its low digits; the
 lemmas give the exact value and the exact collisions.
 */
module Base62 {
  const SHORT_URL_LENGTH := 6

  const DECIMAL := "0123456789"
  const LOWER := "abcdefghijklmnopqrstuvwxyz"
  const UPPER := "ABCDEFGHIJKLMNOPQRSTUVWXYZ"
  const BASE62_CHARS := DECIMAL + LOWER + UPPER

  type HashValue = n: int | 0 <= n < 0x1_0000_0000_0000_0000

  predicate IsBase62(c: char) {
    '0' <= c <= '9' || 'a' <= c <= 'z' || 'A' <= c <= 'Z'
  }

  predicate AllBase62(s: string) {
    forall i :: 0 <= i < |s| ==> IsBase62(s[i])
  }

  function DigitOf(c: char): (d: nat)
    requires IsBase62(c)
    ensures d < 62
  {
    if '0' <= c <= '9' then (c - '0') as nat
    else if 'a' <= c <= 'z' then (c - 'a') as nat + 10
    else (c - 'A') as nat + 36
  }

  function CharOf(d: nat): (c: char)
    requires d < 62
    ensures IsBase62(c) && DigitOf(c) == d
  {
    if d < 10 then '0' + d as char
    else if d < 36 then 'a' + (d - 10) as char
    else 'A' + (d - 36) as char
  }

  lemma Alphabet(d: nat)
    requires d < 62
    ensures |BASE62_CHARS| == 62 && BASE62_CHARS[d] == CharOf(d)
  {
    DecimalPart(if d < 10 then d else 0);
    LowerPart(if 10 <= d < 36 then d - 10 else 0);
    UpperPart(if 36 <= d then d - 36 else 0);
  }

  lemma DecimalPart(d: nat)
    requires d < 10
    ensures |DECIMAL| == 10 && DECIMAL[d] == '0' + d as char
  {
  }

  lemma LowerPart(d: nat)
    requires d < 26
    ensures |LOWER| == 26 && LOWER[d] == 'a' + d as char
  {
  }

  lemma UpperPart(d: nat)
    requires d < 26
    ensures |UPPER| == 26 && UPPER[d] == 'A' + d as char
  {
  }

  // ---------------------------------------------------------------------------
  // Encoding.

  /** The base 62 digits of a number, least significant first; none for zero. */
  function Digits(n: nat): (s: string)
    ensures AllBase62(s)
  {
    if n == 0 then "" else [CharOf(n % 62)] + Digits(n / 62)
  }

  function Pad(s: string): (r: string)
    ensures |r| >= SHORT_URL_LENGTH
    decreases SHORT_URL_LENGTH - |s|
  {
    if |s| < SHORT_URL_LENGTH then Pad("0" + s) else s
  }

  function Encode(n: nat): (r: string)
    ensures |r| == SHORT_URL_LENGTH
  {
    Pad(Digits(n))[..SHORT_URL_LENGTH]
  }

  method Base62Encode(hash: HashValue) returns (base62Url: string)
    ensures base62Url == Encode(hash)
  {
    base62Url := "";
    var num: nat := hash;
    ghost var turns := 0;
    while num > 0
      invariant base62Url + Digits(num) == Digits(hash)
      invariant |base62Url| == turns
    {
      Alphabet(num % 62);
      ghost var before := base62Url;
      base62Url := base62Url + [BASE62_CHARS[num % 62]];
      assert before + Digits(num) == base62Url + Digits(num / 62);
      num := num / 62;
      turns := turns + 1;
    }
    HashHasFewDigits(hash);
    assert turns <= 11;
    assert base62Url == Digits(hash);
    while |base62Url| < SHORT_URL_LENGTH
      invariant Pad(base62Url) == Pad(Digits(hash))
    {
      base62Url := "0" + base62Url;
    }
    base62Url := base62Url[..SHORT_URL_LENGTH];
  }

  // ---------------------------------------------------------------------------
  // The value of a code.

  function Pow62(k: nat): (p: nat)
    ensures p > 0
  {
    if k == 0 then 1 else 62 * Pow62(k - 1)
  }

  /** A code read as a little-endian base 62 number. */
  function Value(s: string): nat
    requires AllBase62(s)
  {
    if s == "" then 0 else DigitOf(s[0]) + 62 * Value(s[1..])
  }

  lemma {:induction false} ValueOfDigits(n: nat)
    ensures Value(Digits(n)) == n
  {
    if n > 0 {
      ValueOfDigits(n / 62);
      assert Digits(n)[1..] == Digits(n / 62);
    }
  }

  /** A number below 62^k has at most k digits, and no fewer than k above 62^(k-1). */
  lemma {:induction false} DigitCount(n: nat, k: nat)
    ensures n < Pow62(k) <==> |Digits(n)| <= k
    decreases k
  {
    if n > 0 && k > 0 {
      DigitCount(n / 62, k - 1);
      assert n < 62 * Pow62(k - 1) <==> n / 62 < Pow62(k - 1);
    }
  }

  /** The digit loop turns once per digit, so at most 11 times on 64 bits. */
  lemma HashHasFewDigits(hash: HashValue)
    ensures |Digits(hash)| <= 11
  {
    hide Digits;
    assert Pow62(6) == 56_800_235_584;
    assert Pow62(9) == 238_328 * Pow62(6);
    assert Pow62(11) == 3_844 * Pow62(9);
    DigitCount(hash, 11);
  }

  lemma {:induction false} ValueOfConcatenation(s: string, t: string)
    requires AllBase62(s) && AllBase62(t)
    ensures AllBase62(s + t) && Value(s + t) == Value(s) + Pow62(|s|) * Value(t)
  {
    if s == "" {
      assert s + t == t;
    } else {
      ValueOfConcatenation(s[1..], t);
      assert (s + t)[1..] == s[1..] + t;
      Regroup(62, Pow62(|s| - 1), Value(t));
      assert Value(s + t) == DigitOf(s[0]) + 62 * (Value(s[1..]) + Pow62(|s| - 1) * Value(t));
    }
  }

  lemma {:induction false} ValueBound(s: string)
    requires AllBase62(s)
    ensures Value(s) < Pow62(|s|)
  {
    if s != "" {
      ValueBound(s[1..]);
    }
  }

  /** Codes of equal length and equal value are equal. */
  lemma {:induction false} ValueInjective(s: string, t: string)
    requires AllBase62(s) && AllBase62(t) && |s| == |t| && Value(s) == Value(t)
    ensures s == t
  {
    if s != "" {
      var a, b := Value(s[1..]), Value(t[1..]);
      assert DigitOf(s[0]) - DigitOf(t[0]) == 62 * (b - a);
      ValueInjective(s[1..], t[1..]);
      assert s[0] == t[0];
      assert s == [s[0]] + s[1..] && t == [t[0]] + t[1..];
    }
  }

  lemma Regroup(a: nat, b: nat, c: nat)
    ensures a * b * c == a * (b * c)
  {
  }

  lemma ValueOfZero(s: string)
    requires AllBase62(s)
    ensures AllBase62("0" + s) && Value("0" + s) == Value(s) * 62
  {
    assert ("0" + s)[1..] == s;
  }

  lemma {:induction false} ValueOfPad(s: string)
    requires AllBase62(s) && |s| <= SHORT_URL_LENGTH
    ensures AllBase62(Pad(s)) && |Pad(s)| == SHORT_URL_LENGTH
    ensures Value(Pad(s)) == Value(s) * Pow62(SHORT_URL_LENGTH - |s|)
    decreases SHORT_URL_LENGTH - |s|
  {
    if |s| < SHORT_URL_LENGTH {
      ValueOfZero(s);
      ValueOfPad("0" + s);
      Regroup(Value(s), 62, Pow62(SHORT_URL_LENGTH - |s| - 1));
    } else {
      assert Pow62(0) == 1;
    }
  }

  /** The value of the code of `n`. */
  function CodeValue(n: nat): nat {
    var d := |Digits(n)|;
    if d <= SHORT_URL_LENGTH then n * Pow62(SHORT_URL_LENGTH - d) else n % Pow62(SHORT_URL_LENGTH)
  }

  lemma CutValue(s: string, n: nat)
    requires AllBase62(s) && n <= |s|
    ensures Value(s[..n]) == Value(s) % Pow62(n)
  {
    ValueOfConcatenation(s[..n], s[n..]);
    ValueBound(s[..n]);
    assert s == s[..n] + s[n..];
    Remainder(Value(s), Pow62(n), Value(s[n..]), Value(s[..n]));
  }

  lemma Remainder(v: nat, p: nat, q: nat, r: nat)
    requires r < p && v == r + p * q
    ensures v % p == r
  {
    assert v == p * (v / p) + v % p;
    var d := v / p - q;
    assert p * d == p * (v / p) - p * q;
    SmallMultiple(p, d);
  }

  lemma SmallMultiple(p: int, d: int)
    requires -p < p * d < p
    ensures d == 0
  {
  }

  /**
   The exact value of a code: `n * 62^(6-d)` for a number of `d` digits, at
   most six, and `n mod 62^6` for a longer one.
   */
  lemma ValueOfEncode(n: nat)
    ensures AllBase62(Encode(n)) && Value(Encode(n)) == CodeValue(n)
  {
    var s := Digits(n);
    ValueOfDigits(n);
    if |s| <= SHORT_URL_LENGTH {
      ValueOfPad(s);
      assert Pad(s)[..SHORT_URL_LENGTH] == Pad(s);
    } else {
      CutValue(s, SHORT_URL_LENGTH);
    }
  }

  /** Two numbers share a code exactly when their code values agree. */
  lemma EncodeCollision(n: nat, m: nat)
    ensures Encode(n) == Encode(m) <==> CodeValue(n) == CodeValue(m)
  {
    ValueOfEncode(n);
    ValueOfEncode(m);
    if CodeValue(n) == CodeValue(m) {
      ValueInjective(Encode(n), Encode(m));
    }
  }

  /** The codes of zero and of the numbers of one digit. */
  lemma SmallCodes(n: nat)
    requires 0 < n < 62
    ensures Encode(0) == "000000"
    ensures var alphabet := "0123456789" + "abcdefghijklmnopqrstuvwxyz" + "ABCDEFGHIJKLMNOPQRSTUVWXYZ";
            |alphabet| == 62 && Encode(n) == "00000" + [alphabet[n]]
  {
    var c := CharOf(n);
    Alphabet(n);
    assert Digits(n) == [c] + Digits(0) == [c];
    PadIs("");
    PadIs([c]);
  }

  lemma PadIs(s: string)
    ensures s == "" ==> Pad(s) == "000000"
    ensures |s| == 1 ==> Pad(s) == "00000" + s
  {
    if |s| == 1 {
      PadOne(s);
    } else if s == "" {
      PadOne("0");
      assert Pad("") == Pad("0" + "") && "0" + "" == "0";
    }
  }

  lemma PadOne(s: string)
    requires |s| == 1
    ensures Pad(s) == "00000" + s
  {
    assert Pad(s) == Pad("0" + s) == Pad("0" + ("0" + s)) == Pad("0" + ("0" + ("0" + s)))
        == Pad("0" + ("0" + ("0" + ("0" + s)))) == Pad("0" + ("0" + ("0" + ("0" + ("0" + s)))));
    assert "0" + ("0" + ("0" + ("0" + ("0" + s)))) == "00000" + s;
  }

  /** The smallest numbers that share a code. */
  lemma OneCollides()
    ensures Encode(1) == Encode(62)
  {
    EncodeCollision(1, 62);
    assert CodeValue(1) == CodeValue(62);
  }

  /** With at least six digits: exactly when they agree modulo 62^6. */
  lemma LargeCollision(n: nat, m: nat)
    requires n >= Pow62(5) && m >= Pow62(5)
    ensures Encode(n) == Encode(m) <==> n % Pow62(6) == m % Pow62(6)
  {
    EncodeCollision(n, m);
    LargeCodeValue(n);
    LargeCodeValue(m);
  }

  lemma LargeCodeValue(n: nat)
    requires n >= Pow62(5)
    ensures CodeValue(n) == n % Pow62(6)
  {
    DigitCount(n, 5);
    DigitCount(n, 6);
    if |Digits(n)| == 6 {
      assert Pow62(0) == 1;
      Remainder(n, Pow62(6), 0, n);
    }
  }

  lemma {:induction false} PowSum(a: nat, b: nat)
    ensures Pow62(a + b) == Pow62(a) * Pow62(b)
  {
    if a > 0 {
      PowSum(a - 1, b);
      Regroup(62, Pow62(a - 1), Pow62(b));
    }
  }

  lemma DigitsOfTimes62(m: nat)
    requires m > 0
    ensures |Digits(m * 62)| == |Digits(m)| + 1
  {
    var n := m * 62;
    Remainder(n, 62, m, 0);
    assert n > 0 && n / 62 == m;
  }

  /** Multiplying by a power of 62 adds that many digits. */
  lemma {:induction false} DigitsOfShift(n: nat, k: nat)
    requires n > 0
    ensures |Digits(n * Pow62(k))| == |Digits(n)| + k
    decreases k
  {
    hide Digits;
    if k > 0 {
      var m := n * Pow62(k - 1);
      DigitsOfShift(n, k - 1);
      Regroup(n, Pow62(k - 1), 62);
      assert n * Pow62(k) == m * 62;
      DigitsOfTimes62(m);
    } else {
      assert n * Pow62(0) == n;
    }
  }

  /**
   Positive numbers of at most six digits: exactly when the larger is the
   smaller times a power of 62.
   */
  lemma SmallCollision(n: nat, m: nat)
    requires 0 < n <= m < Pow62(6)
    ensures Encode(n) == Encode(m) <==> exists k: nat :: m == n * Pow62(k)
  {
    hide CodeValue, Pow62, Digits, Encode;
    EncodeCollision(n, m);
    SmallCodeValue(n);
    SmallCodeValue(m);
    var d, e := |Digits(n)|, |Digits(m)|;
    DigitCount(m, e);
    DigitCount(n, e);
    if CodeValue(n) == CodeValue(m) {
      PowSum(e - d, 6 - e);
      Regroup(n, Pow62(e - d), Pow62(6 - e));
      Cancel(m, n * Pow62(e - d), Pow62(6 - e));
    }
    forall k: nat | m == n * Pow62(k)
      ensures CodeValue(n) == CodeValue(m)
    {
      DigitsOfShift(n, k);
      PowSum(k, 6 - e);
      Regroup(n, Pow62(k), Pow62(6 - e));
    }
  }

  lemma SmallCodeValue(n: nat)
    requires n < Pow62(6)
    ensures |Digits(n)| <= 6 && CodeValue(n) == n * Pow62(6 - |Digits(n)|)
  {
    DigitCount(n, 6);
  }

  lemma Cancel(a: nat, b: nat, p: nat)
    requires p > 0 && a * p == b * p
    ensures a == b
  {
  }
}

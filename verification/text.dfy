/** The JavaScript string and number primitives the services rely on:
    `startsWith`, `split` on one character, `Number(...)`, `toString()` of an
    integer, and `toUpperCase()`.
 */
module Text {
  import opened Wrappers

  predicate IsDigit(c: char) {
    '0' <= c <= '9'
  }

  predicate AllDigits(s: string) {
    forall i :: 0 <= i < |s| ==> IsDigit(s[i])
  }

  function DigitChar(d: nat): (c: char)
    requires d < 10
    ensures IsDigit(c)
  {
    ('0' as int + d) as char
  }

  function DigitValue(c: char): (d: nat)
    requires IsDigit(c)
    ensures d < 10
  {
    c as int - '0' as int
  }

  /** `String.prototype.startsWith`. */
  predicate StartsWith(s: string, prefix: string) {
    |prefix| <= |s| && s[..|prefix|] == prefix
  }

  /** A string starts with `prefix` exactly when it is `prefix` followed by
      the rest that `slice(prefix.length)` returns. */
  lemma StartsWithSlice(s: string, prefix: string)
    ensures StartsWith(s, prefix) <==> |prefix| <= |s| && s == prefix + s[|prefix|..]
    ensures StartsWith(prefix + s, prefix)
  {
    if |prefix| <= |s| && s == prefix + s[|prefix|..] {
      assert s[..|prefix|] == prefix;
    }
    assert (prefix + s)[..|prefix|] == prefix;
  }

  // ---------------------------------------------------------------------------
  // Integers as decimal text
  // ---------------------------------------------------------------------------

  /** `n.toString()` for a non-negative integer: its decimal digits, with no
      leading zero except for 0 itself. */
  function NatToDecimal(n: nat): (s: string)
    ensures 0 < |s| && AllDigits(s)
    ensures 1 < |s| ==> s[0] != '0'
    ensures n < 10 <==> |s| == 1
  {
    if n < 10 then [DigitChar(n)] else NatToDecimal(n / 10) + [DigitChar(n % 10)]
  }

  /** `i.toString()` for any integer. */
  function IntToDecimal(i: int): (r: string)
    ensures 0 <= i ==> 0 < |r| && AllDigits(r)
    ensures i < 0 ==> 1 < |r| && r[0] == '-' && AllDigits(r[1..])
  {
    if i < 0 then "-" + NatToDecimal(-i) else NatToDecimal(i)
  }

  /** The value of a string of decimal digits. */
  function DigitsValue(s: string): nat
    requires AllDigits(s)
  {
    if s == [] then 0 else DigitsValue(s[..|s| - 1]) * 10 + DigitValue(s[|s| - 1])
  }

  /** JavaScript's `Number(s)` on the strings this model covers: the empty
      string is 0, an optional sign followed by decimal digits is that integer,
      and every other string is NaN (`None`). */
  function ParseNumber(s: string): (r: Option<int>)
    ensures s == "" ==> r == Some(0)
    ensures 0 < |s| && AllDigits(s) ==> r == Some(DigitsValue(s))
    ensures 1 < |s| && s[0] == '-' && AllDigits(s[1..]) ==> r == Some(-(DigitsValue(s[1..]) as int))
    ensures 1 < |s| && s[0] == '+' && AllDigits(s[1..]) ==> r == Some(DigitsValue(s[1..]))
    ensures r.Some? <==> s == "" || AllDigits(s) || (1 < |s| && (s[0] == '-' || s[0] == '+') && AllDigits(s[1..]))
  {
    if s == [] then Some(0)
    else if (s[0] == '-' || s[0] == '+') && 1 < |s| && AllDigits(s[1..]) then
      Some(if s[0] == '-' then -(DigitsValue(s[1..]) as int) else DigitsValue(s[1..]))
    else if AllDigits(s) then
      Some(DigitsValue(s))
    else None
  }

  lemma {:induction false} DigitsOfNatToDecimal(n: nat)
    ensures DigitsValue(NatToDecimal(n)) == n
    decreases n
  {
    if n >= 10 {
      var p := NatToDecimal(n / 10);
      var s := NatToDecimal(n);
      assert s == p + [DigitChar(n % 10)];
      assert s[..|s| - 1] == p;
      DigitsOfNatToDecimal(n / 10);
    }
  }

  /** `Number(String(n)) === n` for every non-negative integer. */
  lemma NatToDecimalRoundTrip(n: nat)
    ensures ParseNumber(NatToDecimal(n)) == Some(n)
  {
    DigitsOfNatToDecimal(n);
    var s := NatToDecimal(n);
    assert IsDigit(s[0]);
  }

  /** `Number("-" + digits)` is the negated value of the digits. */
  lemma ParseNegative(d: string)
    requires 0 < |d| && AllDigits(d)
    ensures ParseNumber("-" + d) == Some(-(DigitsValue(d) as int))
  {
    assert ("-" + d)[1..] == d;
  }

  /** `Number(String(i)) === i` for every integer, negative ones included. */
  lemma IntToDecimalRoundTrip(i: int)
    ensures ParseNumber(IntToDecimal(i)) == Some(i)
  {
    if i < 0 {
      DigitsOfNatToDecimal(-i);
      ParseNegative(NatToDecimal(-i));
    } else {
      NatToDecimalRoundTrip(i);
    }
  }

  // ---------------------------------------------------------------------------
  // Splitting on one separator
  // ---------------------------------------------------------------------------

  /** The position of the first `c` in `s`. */
  function IndexOf(s: string, c: char): (i: nat)
    requires c in s
    ensures i < |s| && s[i] == c && c !in s[..i]
  {
    if s[0] == c then 0 else
      assert c in s[1..];
      var j := IndexOf(s[1..], c);
      assert s[..j + 1] == [s[0]] + s[1..][..j];
      j + 1
  }

  /** `parts.join(sep)`. */
  function Join(parts: seq<string>, sep: char): string
    requires 0 < |parts|
  {
    if |parts| == 1 then parts[0] else parts[0] + [sep] + Join(parts[1..], sep)
  }

  /** `s.split(sep)` for a one-character separator: the pieces between
      consecutive separators, none of which contains the separator, and which
      join back to `s`. A string without the separator is one piece. */
  function Split(s: string, sep: char): (r: seq<string>)
    ensures 0 < |r|
    ensures forall i :: 0 <= i < |r| ==> sep !in r[i]
    ensures Join(r, sep) == s
    ensures sep !in s <==> |r| == 1
    decreases |s|
  {
    if sep !in s then [s]
    else
      var i := IndexOf(s, sep);
      var rest := Split(s[i + 1..], sep);
      var r := [s[..i]] + rest;
      assert r[1..] == rest;
      assert s == s[..i] + [sep] + s[i + 1..];
      r
  }

  /** Splitting `a:b` where neither side holds a colon gives back `[a, b]`. */
  lemma {:induction false} SplitAroundSeparator(a: string, b: string, sep: char)
    requires sep !in a && sep !in b
    ensures Split(a + [sep] + b, sep) == [a, b]
  {
    var s := a + [sep] + b;
    assert s[|a|] == sep;
    var i := IndexOf(s, sep);
    assert i == |a|;
    assert s[..i] == a;
    assert s[i + 1..] == b;
  }

  // ---------------------------------------------------------------------------
  // Upper case
  // ---------------------------------------------------------------------------

  function UpperChar(c: char): char {
    if 'a' <= c <= 'z' then (c as int - 32) as char else c
  }

  /** `s.toUpperCase()` on ASCII letters; every other character is kept. */
  function ToUpper(s: string): (r: string)
    ensures |r| == |s|
    ensures forall i :: 0 <= i < |s| ==> r[i] == UpperChar(s[i])
  {
    seq(|s|, i requires 0 <= i < |s| => UpperChar(s[i]))
  }

  /** Upper-casing twice is upper-casing once. */
  lemma ToUpperIdempotent(s: string)
    ensures ToUpper(ToUpper(s)) == ToUpper(s)
  {
  }
}

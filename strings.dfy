/** The two Python string builtins the progress store relies on:
    `str.strip()` (usernames and submitted translations) and `str(int)`
    (the key under which a translation is stored). */
module Strings {

  /** The characters for which Python's `str.isspace()` holds; `str.strip()`
      with no argument removes exactly these from both ends. */
  predicate IsSpace(c: char) {
    var x := c as int;
    (9 <= x <= 13) || (28 <= x <= 32) || x == 0x85 || x == 0xA0 || x == 0x1680
    || (0x2000 <= x <= 0x200A) || x == 0x2028 || x == 0x2029 || x == 0x202F
    || x == 0x205F || x == 0x3000
  }

  /** All characters of `s` are whitespace (vacuously true of the empty string). */
  predicate Blank(s: string) {
    forall i :: 0 <= i < |s| ==> IsSpace(s[i])
  }

  /** `s` is empty or neither starts nor ends with whitespace. */
  predicate Trimmed(s: string) {
    s == [] || (!IsSpace(s[0]) && !IsSpace(s[|s| - 1]))
  }

  /** Removes leading whitespace: the result is the suffix of `s` that starts
      at its first non-space character. */
  function TrimStart(s: string): (r: string)
    ensures |r| <= |s| && r == s[|s| - |r|..]
    ensures r == [] || !IsSpace(r[0])
    ensures forall i :: 0 <= i < |s| - |r| ==> IsSpace(s[i])
  {
    if s != [] && IsSpace(s[0]) then
      var t := s[1..];
      var r := TrimStart(t);
      assert t[|t| - |r|..] == s[|s| - |r|..];
      assert forall i :: 1 <= i < |s| - |r| ==> s[i] == t[i - 1];
      r
    else
      s
  }

  /** Removes trailing whitespace: the result is the prefix of `s` that ends
      at its last non-space character. */
  function TrimEnd(s: string): (r: string)
    ensures |r| <= |s| && r == s[..|r|]
    ensures r == [] || !IsSpace(r[|r| - 1])
    ensures forall i :: |r| <= i < |s| ==> IsSpace(s[i])
  {
    if s != [] && IsSpace(s[|s| - 1]) then
      var t := s[..|s| - 1];
      var r := TrimEnd(t);
      assert t[..|r|] == s[..|r|];
      assert forall i :: |r| <= i < |s| - 1 ==> s[i] == t[i];
      r
    else
      s
  }

  /** Python's `s.strip()`: whitespace is removed from either end until
      neither end is whitespace. */
  function Strip(s: string): (r: string)
    ensures Trimmed(r)
    ensures r == [] <==> Blank(s)
    ensures Trimmed(s) ==> r == s
    decreases |s|
  {
    if s != [] && IsSpace(s[0]) then
      assert Blank(s) <==> Blank(s[1..]) by {
        assert forall i :: 1 <= i < |s| ==> s[i] == s[1..][i - 1];
      }
      Strip(s[1..])
    else if s != [] && IsSpace(s[|s| - 1]) then
      assert |s| >= 2 && s[..|s| - 1][0] == s[0];
      Strip(s[..|s| - 1])
    else
      s
  }

  /** The strip is exactly the removal of the leading, then the trailing
      whitespace. */
  lemma {:induction false} StripTrims(s: string)
    ensures Strip(s) == TrimEnd(TrimStart(s))
    decreases |s|
  {
    if s != [] && IsSpace(s[0]) {
      StripTrims(s[1..]);
      assert TrimStart(s) == TrimStart(s[1..]);
    } else if s != [] && IsSpace(s[|s| - 1]) {
      var t := s[..|s| - 1];
      StripTrims(t);
      assert t != [] && t[0] == s[0];
      assert TrimStart(t) == t && TrimStart(s) == s;
      assert TrimEnd(s) == TrimEnd(t);
    } else {
      assert TrimStart(s) == s && TrimEnd(s) == s;
    }
  }

  /** The character for the decimal digit `d`. */
  function DigitChar(d: int): char
    requires 0 <= d < 10
  {
    (48 + d) as char
  }

  /** The decimal numeral of a natural number, without sign or leading zeros. */
  function NatStr(n: nat): (r: string)
    ensures r != [] && forall i :: 0 <= i < |r| ==> '0' <= r[i] <= '9'
    ensures n >= 10 ==> |r| >= 2
    ensures n < 10 ==> |r| == 1
    decreases n
  {
    if n < 10 then [DigitChar(n)] else NatStr(n / 10) + [DigitChar(n % 10)]
  }

  /** Python's `str(i)` for an integer: a minus sign for negatives, then the numeral. */
  function Str(i: int): (r: string)
    ensures r != []
    ensures i < 0 <==> r[0] == '-'
  {
    if i < 0 then "-" + NatStr(-i) else NatStr(i)
  }

  /** Different naturals have different numerals. */
  lemma {:induction false} NatStrInjective(a: nat, b: nat)
    requires NatStr(a) == NatStr(b)
    ensures a == b
    decreases a
  {
    if a >= 10 && b >= 10 {
      var sa, sb := NatStr(a), NatStr(b);
      assert sa[|sa| - 1] == DigitChar(a % 10);
      assert sb[|sb| - 1] == DigitChar(b % 10);
      assert (DigitChar(a % 10) as int) == 48 + a % 10;
      assert (DigitChar(b % 10) as int) == 48 + b % 10;
      assert sa[..|sa| - 1] == NatStr(a / 10);
      assert sb[..|sb| - 1] == NatStr(b / 10);
      NatStrInjective(a / 10, b / 10);
    } else if a < 10 && b < 10 {
      assert NatStr(a)[0] == DigitChar(a) && NatStr(b)[0] == DigitChar(b);
      assert (DigitChar(a) as int) == 48 + a;
      assert (DigitChar(b) as int) == 48 + b;
    }
  }

  /** The value of a string of decimal digits, read left to right (Python's
      `int(s)` on such a string). */
  function DecimalValue(s: string): (v: int)
    ensures s == [] ==> v == 0
  {
    if s == [] then 0 else 10 * DecimalValue(s[..|s| - 1]) + (s[|s| - 1] as int - 48)
  }

  /** The value of an optionally signed numeral (Python's `int(s)`). */
  function IntValue(s: string): int {
    if s != [] && s[0] == '-' then -DecimalValue(s[1..]) else DecimalValue(s)
  }

  /** The numeral of `n` reads back as `n`. */
  lemma {:induction false} NatStrValue(n: nat)
    ensures DecimalValue(NatStr(n)) == n
    decreases n
  {
    var r := NatStr(n);
    if n < 10 {
      assert r[..|r| - 1] == [];
    } else {
      NatStrValue(n / 10);
      assert r[..|r| - 1] == NatStr(n / 10);
    }
  }

  /** `int(str(i)) == i`: the key of a sentence index is its decimal numeral. */
  lemma StrValue(i: int)
    ensures IntValue(Str(i)) == i
  {
    var s := Str(i);
    if i < 0 {
      var t := NatStr(-i);
      assert s == "-" + t;
      assert s[1..] == t;
      NatStrValue(-i);
    } else {
      assert s == NatStr(i);
      NatStrValue(i);
    }
  }

  /** `str` is injective on integers, so distinct sentence indices give
      distinct translation keys. */
  lemma StrInjective(a: int, b: int)
    requires Str(a) == Str(b)
    ensures a == b
  {
    if a < 0 && b < 0 {
      assert Str(a)[1..] == NatStr(-a);
      assert Str(b)[1..] == NatStr(-b);
      NatStrInjective(-a, -b);
    } else if a >= 0 && b >= 0 {
      NatStrInjective(a, b);
    }
  }
}

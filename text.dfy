/**
 * The string operations the two components rely on: `toLowerCase`,
 * `includes`, and the decimal rendering of an integer inside a template
 * literal (`${n} jours`), with a parser for that rendering as its inverse.
 * Lower-casing is ASCII only.
 */
module Text {
  import opened Wrappers

  predicate IsUpper(c: char) {
    'A' <= c <= 'Z'
  }

  function LowerChar(c: char): (r: char)
    ensures !IsUpper(r)
    ensures IsUpper(c) ==> r as int == c as int + 32
    ensures !IsUpper(c) ==> r == c
  {
    if IsUpper(c) then (c as int + 32) as char else c
  }

  /** `s.toLowerCase()`, restricted to the ASCII letters. */
  function Lower(s: string): (r: string)
    ensures |r| == |s|
    ensures forall i :: 0 <= i < |s| ==> r[i] == LowerChar(s[i])
  {
    if s == [] then [] else [LowerChar(s[0])] + Lower(s[1..])
  }

  lemma LowerIdempotent(s: string)
    ensures Lower(Lower(s)) == Lower(s)
  {
  }

  /** `hay.includes(needle)`: the needle is a prefix of some suffix of the hay. */
  predicate Includes(hay: string, needle: string)
    ensures Includes(hay, needle) ==> |needle| <= |hay|
    ensures needle == [] ==> Includes(hay, needle)
    decreases |hay|
  {
    needle <= hay || (hay != [] && Includes(hay[1..], needle))
  }

  /** The needle occurs in the hay starting at index `i`. */
  ghost predicate OccursAt(hay: string, needle: string, i: int) {
    0 <= i && i + |needle| <= |hay| && hay[i..i + |needle|] == needle
  }

  /** An occurrence at any index is found by `Includes`. */
  lemma {:induction false} IncludesOfOccurs(hay: string, needle: string, i: int)
    requires OccursAt(hay, needle, i)
    ensures Includes(hay, needle)
    decreases i
  {
    if i == 0 {
      assert needle <= hay;
    } else {
      assert hay[1..][i - 1..i - 1 + |needle|] == hay[i..i + |needle|];
      IncludesOfOccurs(hay[1..], needle, i - 1);
    }
  }

  /** `Includes` only answers true when there is an occurrence. */
  lemma {:induction false} OccursOfIncludes(hay: string, needle: string)
    requires Includes(hay, needle)
    ensures exists i :: OccursAt(hay, needle, i)
    decreases |hay|
  {
    if needle <= hay {
      assert OccursAt(hay, needle, 0);
    } else {
      OccursOfIncludes(hay[1..], needle);
      var i :| OccursAt(hay[1..], needle, i);
      assert hay[1..][i..i + |needle|] == hay[i + 1..i + 1 + |needle|];
      assert OccursAt(hay, needle, i + 1);
    }
  }

  /** `Includes` is exactly "occurs at some index". */
  lemma IncludesIff(hay: string, needle: string)
    ensures Includes(hay, needle) <==> exists i :: OccursAt(hay, needle, i)
  {
    if Includes(hay, needle) {
      OccursOfIncludes(hay, needle);
    }
    if exists i :: OccursAt(hay, needle, i) {
      var i :| OccursAt(hay, needle, i);
      IncludesOfOccurs(hay, needle, i);
    }
  }

  predicate IsDigit(c: char) {
    '0' <= c <= '9'
  }

  predicate AllDigits(s: string) {
    forall i :: 0 <= i < |s| ==> IsDigit(s[i])
  }

  function DigitChar(n: nat): (c: char)
    requires n < 10
    ensures IsDigit(c)
  {
    (n + '0' as int) as char
  }

  function DigitValue(c: char): (n: nat)
    requires IsDigit(c)
    ensures n < 10
    ensures DigitChar(n) == c
  {
    c as int - '0' as int
  }

  /** The decimal digits of `n`, most significant first, without leading zeros. */
  function Decimal(n: nat): (s: string)
    ensures s != [] && AllDigits(s)
    ensures n >= 10 <==> |s| > 1
    decreases n
  {
    if n < 10 then [DigitChar(n)] else Decimal(n / 10) + [DigitChar(n % 10)]
  }

  /** The number a string of decimal digits denotes. */
  function DecimalValue(s: string): nat
    requires AllDigits(s)
    decreases |s|
  {
    if s == [] then 0 else 10 * DecimalValue(s[..|s| - 1]) + DigitValue(s[|s| - 1])
  }

  lemma {:induction false} DecimalRoundTrip(n: nat)
    ensures DecimalValue(Decimal(n)) == n
    decreases n
  {
    if n >= 10 {
      DecimalRoundTrip(n / 10);
      var s := Decimal(n);
      assert s[..|s| - 1] == Decimal(n / 10);
      assert DigitValue(DigitChar(n % 10)) == n % 10;
    } else {
      assert DigitValue(DigitChar(n)) == n;
    }
  }

  /** How a JavaScript template literal renders an integer: an optional minus sign, then its digits. */
  function IntText(i: int): (r: string)
    ensures r != [] && (r[0] == '-' <==> i < 0)
    ensures i < 0 ==> r[1..] != [] && AllDigits(r[1..])
    ensures i >= 0 ==> AllDigits(r)
  {
    if i < 0 then "-" + Decimal(-i) else Decimal(i)
  }

  /** Length of the longest prefix of `s` made of digits. */
  function DigitRun(s: string): (k: nat)
    ensures k <= |s| && AllDigits(s[..k])
    ensures k < |s| ==> !IsDigit(s[k])
    decreases |s|
  {
    if s == [] || !IsDigit(s[0]) then 0 else 1 + DigitRun(s[1..])
  }

  /** Reads an integer written as by `IntText` off the front of `s`; gives it and what follows. */
  function ParseIntPrefix(s: string): Option<(int, string)> {
    if s != [] && s[0] == '-' then
      var k := DigitRun(s[1..]);
      if k == 0 then None else Some((-(DecimalValue(s[1..][..k]) as int), s[1..][k..]))
    else
      var k := DigitRun(s);
      if k == 0 then None else Some((DecimalValue(s[..k]), s[k..]))
  }

  lemma {:induction false} DigitRunOfDigits(t: string, u: string)
    requires AllDigits(t)
    requires u == [] || !IsDigit(u[0])
    ensures DigitRun(t + u) == |t|
    decreases |t|
  {
    if t != [] {
      assert (t + u)[1..] == t[1..] + u;
      DigitRunOfDigits(t[1..], u);
    } else {
      assert t + u == u;
    }
  }

  lemma NegativeTextRoundTrip(n: nat, rest: string)
    requires n > 0
    requires rest == [] || !IsDigit(rest[0])
    ensures ParseIntPrefix("-" + Decimal(n) + rest) == Some((-(n as int), rest))
  {
    var d := Decimal(n);
    var s := "-" + d + rest;
    assert s[0] == '-' && s[1..] == d + rest;
    DigitRunOfDigits(d, rest);
    assert s[1..][..|d|] == d;
    assert s[1..][|d|..] == rest;
    DecimalRoundTrip(n);
  }

  lemma NonNegativeTextRoundTrip(n: nat, rest: string)
    requires rest == [] || !IsDigit(rest[0])
    ensures ParseIntPrefix(Decimal(n) + rest) == Some((n as int, rest))
  {
    var d := Decimal(n);
    var s := d + rest;
    assert IsDigit(s[0]);
    DigitRunOfDigits(d, rest);
    assert s[..|d|] == d;
    assert s[|d|..] == rest;
    DecimalRoundTrip(n);
  }

  /** Parsing undoes rendering, whatever non-digit text follows the number. */
  lemma IntTextRoundTrip(i: int, rest: string)
    requires rest == [] || !IsDigit(rest[0])
    ensures ParseIntPrefix(IntText(i) + rest) == Some((i, rest))
  {
    if i < 0 {
      assert IntText(i) + rest == "-" + Decimal(-i) + rest;
      NegativeTextRoundTrip(-i, rest);
    } else {
      NonNegativeTextRoundTrip(i, rest);
    }
  }
}

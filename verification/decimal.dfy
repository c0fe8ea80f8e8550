/** Decimal digit strings: recognising them, their value, and rendering a
    natural number back as the shortest digit string. Every puzzle reads its
    numbers from text with some flavour of this. */
module Decimal {

  import opened Wrappers

  predicate IsDigit(c: char) {
    '0' <= c <= '9'
  }

  predicate AllDigits(s: seq<char>) {
    forall k :: 0 <= k < |s| ==> IsDigit(s[k])
  }

  /** Value of a digit string read most significant digit first. */
  function Value(s: seq<char>): nat
    requires AllDigits(s)
  {
    if s == [] then 0 else Value(s[..|s| - 1]) * 10 + (s[|s| - 1] as int - '0' as int)
  }

  /** The shortest decimal rendering of `n` ("0" for zero). */
  function Render(n: nat): (s: seq<char>)
    ensures |s| > 0 && AllDigits(s)
    ensures s[0] == '0' ==> n == 0
  {
    if n < 10 then ['0' + n as char] else Render(n / 10) + ['0' + (n % 10) as char]
  }

  /** Number of leading characters of `s` that are digits: the length of
      what a greedy `\d+` (or a `%zu` scan) consumes at the front of `s`. */
  function DigitPrefix(s: seq<char>): (k: nat)
    ensures k <= |s| && AllDigits(s[..k])
    ensures k < |s| ==> !IsDigit(s[k])
  {
    if s == [] || !IsDigit(s[0]) then 0 else 1 + DigitPrefix(s[1..])
  }

  /** Natural number written as a whole string of digits (at least one). */
  function ParseNat(s: seq<char>): (r: Option<nat>)
    ensures r.Some? <==> |s| > 0 && AllDigits(s)
  {
    if |s| > 0 && AllDigits(s) then Some(Value(s)) else None
  }

  /** Digits, possibly after one leading sign. */
  predicate SignedNumeral(s: seq<char>) {
    || (|s| > 0 && AllDigits(s))
    || (|s| > 1 && (s[0] == '-' || s[0] == '+') && AllDigits(s[1..]))
  }

  /** An integer with an optional leading sign, as Java's `Integer.parseInt`
      and `Long.parseLong` accept it (width limits aside). */
  function ParseSigned(s: seq<char>): (r: Option<int>)
    ensures |s| > 0 && AllDigits(s) ==> r == Some(Value(s))
    ensures s == [] ==> r == None
    ensures r.Some? <==> SignedNumeral(s)
    ensures r.Some? && s[0] == '-' ==> r.value == -(Value(s[1..]) as int)
    ensures r.Some? && s[0] == '+' ==> r.value == Value(s[1..])
  {
    if |s| > 0 && s[0] == '-' then
      match ParseNat(s[1..]) case Some(v) => Some(-(v as int)) case None => None
    else if |s| > 0 && s[0] == '+' then
      match ParseNat(s[1..]) case Some(v) => Some(v as int) case None => None
    else
      match ParseNat(s) case Some(v) => Some(v as int) case None => None
  }

  /** Signed rendering, the inverse of `ParseSigned`. */
  function RenderSigned(n: int): (s: seq<char>)
    ensures |s| > 0
  {
    if n < 0 then ['-'] + Render(-n) else Render(n)
  }

  lemma {:induction false} ValueOfRender(n: nat)
    ensures Value(Render(n)) == n
  {
    if n >= 10 {
      var s := Render(n);
      assert s[..|s| - 1] == Render(n / 10);
      ValueOfRender(n / 10);
    }
  }

  lemma {:induction false} DigitPrefixOfDigits(s: seq<char>, rest: seq<char>)
    requires AllDigits(s)
    requires rest == [] || !IsDigit(rest[0])
    ensures DigitPrefix(s + rest) == |s|
  {
    if s != [] {
      assert (s + rest)[1..] == s[1..] + rest;
      DigitPrefixOfDigits(s[1..], rest);
    }
  }

  /** Reading back what `Render` wrote gives the number again. */
  lemma ParseRender(n: nat)
    ensures ParseNat(Render(n)) == Some(n)
  {
    ValueOfRender(n);
  }

  lemma ParseRenderSigned(n: int)
    ensures ParseSigned(RenderSigned(n)) == Some(n)
  {
    if n < 0 {
      assert RenderSigned(n)[1..] == Render(-n);
      ParseRender(-n);
    } else {
      ParseRender(n);
    }
  }
}

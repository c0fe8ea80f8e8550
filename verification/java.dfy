/** The parts of Java's semantics the Java puzzles lean on: remainder and
    division on integers, which truncate toward zero, and `String.split`
    with a one-character separator. */
module JavaLang {

  import opened Text

  /** Java's `%` for a positive divisor: the remainder takes the sign of
      the dividend. */
  function JavaRem(a: int, b: int): (r: int)
    requires b > 0
    ensures a >= 0 ==> r == a % b
    ensures a < 0 ==> r <= 0
  {
    if a >= 0 then a % b else -((-a) % b)
  }

  /** Java's `/` on `long`: the quotient is truncated toward zero, so the
      remainder left over has the sign of the dividend and is smaller than
      the divisor in magnitude. */
  function JavaDiv(a: int, b: int): (q: int)
    requires b != 0
    ensures a >= 0 ==> 0 <= a - q * b < Abs(b)
    ensures a < 0 ==> 0 <= q * b - a < Abs(b)
  {
    if b > 0 then
      (if a >= 0 then a / b else -((-a) / b))
    else
      (if a >= 0 then -(a / (-b)) else (-a) / (-b))
  }

  function Abs(x: int): nat {
    if x < 0 then -x else x
  }

  /** A remainder of zero means the same under Java's `%` and Dafny's. */
  lemma RemZero(a: int, b: int)
    requires b > 0
    ensures JavaRem(a, b) == 0 <==> a % b == 0
  {
    if a < 0 {
      var q, r := (-a) / b, (-a) % b;
      assert -a == q * b + r;
      if r == 0 {
        assert a == (-q) * b;
        DivModUnique(a, b, -q, 0);
      } else {
        assert a == (-q - 1) * b + (b - r);
        DivModUnique(a, b, -q - 1, b - r);
      }
    }
  }

  lemma MulAtLeast(k: int, b: int)
    requires k >= 1 && b > 0
    ensures k * b >= b
  {
    if k > 1 {
      MulAtLeast(k - 1, b);
      assert k * b == (k - 1) * b + b;
    }
  }

  /** Division is determined by its quotient and remainder. */
  lemma DivModUnique(a: int, b: int, q: int, r: int)
    requires b > 0 && 0 <= r < b && a == q * b + r
    ensures a / b == q && a % b == r
  {
    var q', r' := a / b, a % b;
    assert a == q' * b + r';
    assert (q' - q) * b == r - r';
    if q' > q {
      MulAtLeast(q' - q, b);
    } else if q' < q {
      MulAtLeast(q - q', b);
    }
  }

  /** Trailing empty strings are removed from the result of Java's `split`. */
  function DropTrailingEmpty(parts: seq<string>): (r: seq<string>)
    ensures r <= parts && (r == [] || r[|r| - 1] != [])
    ensures forall k :: |r| <= k < |parts| ==> parts[k] == []
  {
    if parts == [] then []
    else if parts[|parts| - 1] == [] then DropTrailingEmpty(parts[..|parts| - 1])
    else parts
  }

  /** Java's `String.split` at a one-character separator: the empty string
      gives one empty piece; otherwise the pieces between separators,
      without trailing empty ones. */
  function JavaSplit(s: string, sep: char): (r: seq<string>)
    ensures s != [] ==> r <= Split(s, sep)
  {
    if s == [] then [[]] else DropTrailingEmpty(Split(s, sep))
  }
}

/** Camp cleanup (04/cleaning.py): each line holds two section ranges
    "lo-hi,lo-hi"; a line is counted when one range contains the other, or
    when the two ranges overlap. */
module Cleaning {

  import opened Wrappers
  import opened Decimal
  import opened Text

  /** A closed range of section numbers. */
  datatype Interval = Interval(lo: int, hi: int)

  /** Why a line could not be read: a word that does not start with
      "digits-digits", or a line that does not split into exactly two words.
      Both surface as ValueError in the source. */
  datatype ParseError = NoMatch(word: string) | WrongArity

  predicate FullyContains(a: Interval, b: Interval) {
    a.lo <= b.lo && a.hi >= b.hi
  }

  predicate Overlaps(a: Interval, b: Interval) {
    (a.lo <= b.hi && a.hi >= b.lo) || (b.lo <= a.hi && b.hi >= a.lo)
  }

  predicate Contains(a: Interval, x: int) {
    a.lo <= x <= a.hi
  }

  /** `Interval.from_string`: the word must START with "digits-digits"
      (a prefix match; anything may follow). */
  function FromString(s: string): (r: Result<Interval, ParseError>)
    ensures r.Ok? ==> 0 <= r.value.lo && 0 <= r.value.hi
    ensures r.Ok? ==> |s| > 0 && IsDigit(s[0])
    ensures r.Err? ==> r.error == NoMatch(s)
    ensures var k := DigitPrefix(s);
      r.Ok? <==> 0 < k < |s| && s[k] == '-' && DigitPrefix(s[k + 1..]) > 0
    ensures r.Ok? ==> var k := DigitPrefix(s); var m := DigitPrefix(s[k + 1..]);
      r.value == Interval(Value(s[..k]), Value(s[k + 1..][..m]))
  {
    var k := DigitPrefix(s);
    if k == 0 || k == |s| || s[k] != '-' then Err(NoMatch(s))
    else
      var rest := s[k + 1..];
      var m := DigitPrefix(rest);
      if m == 0 then Err(NoMatch(s))
      else Ok(Interval(Value(s[..k]), Value(rest[..m])))
  }

  /** `fst, snd = parse_intervals(line)`: the generator parses lazily, so the
      first word is parsed before the second is asked for, and a third word
      is parsed (and may fail on its own) before the unpacking complains. */
  function Unpack2(parts: seq<string>): (r: Result<(Interval, Interval), ParseError>)
    requires |parts| >= 1
    ensures r.Ok? <==> |parts| == 2 && FromString(parts[0]).Ok? && FromString(parts[1]).Ok?
    ensures r.Ok? ==> r.value == (FromString(parts[0]).value, FromString(parts[1]).value)
  {
    match FromString(parts[0])
    case Err(e) => Err(e)
    case Ok(fst) =>
      if |parts| < 2 then Err(WrongArity)
      else
        match FromString(parts[1])
        case Err(e) => Err(e)
        case Ok(snd) =>
          if |parts| == 2 then Ok((fst, snd))
          else
            match FromString(parts[2])
            case Err(e) => Err(e)
            case Ok(_) => Err(WrongArity)
  }

  function ParseIntervals(line: string): Result<(Interval, Interval), ParseError> {
    Unpack2(Split(line, ','))
  }

  /** `has_containment`: whether one range of the line contains the other;
      a line that does not parse raises its parse error. */
  function HasContainment(line: string): (r: Result<bool, ParseError>)
    ensures r.Ok? <==> ParseIntervals(line).Ok?
    ensures r.Err? ==> r.error == ParseIntervals(line).error
  {
    match ParseIntervals(line)
    case Err(e) => Err(e)
    case Ok((fst, snd)) => Ok(FullyContains(fst, snd) || FullyContains(snd, fst))
  }

  /** `has_overlap`: whether the two ranges of the line overlap; a line
      that does not parse raises its parse error. */
  function HasOverlap(line: string): (r: Result<bool, ParseError>)
    ensures r.Ok? <==> ParseIntervals(line).Ok?
    ensures r.Err? ==> r.error == ParseIntervals(line).error
  {
    match ParseIntervals(line)
    case Err(e) => Err(e)
    case Ok((fst, snd)) => Ok(Overlaps(fst, snd))
  }

  // ---------------------------------------------------------------------
  // Properties of the range predicates

  /** Containment is exactly the two end-point comparisons, and it is
      reflexive. */
  lemma FullyContainsMeaning(a: Interval, b: Interval)
    requires b.lo <= b.hi
    ensures FullyContains(a, b) <==> forall x :: Contains(b, x) ==> Contains(a, x)
    ensures FullyContains(a, a)
  {
    if !FullyContains(a, b) {
      if a.lo > b.lo {
        assert Contains(b, b.lo) && !Contains(a, b.lo);
      } else {
        assert Contains(b, b.hi) && !Contains(a, b.hi);
      }
    }
  }

  /** Two well-formed ranges overlap exactly when they share a section, and
      the test does not depend on the order of its arguments. */
  lemma OverlapsMeaning(a: Interval, b: Interval)
    requires a.lo <= a.hi && b.lo <= b.hi
    ensures Overlaps(a, b) <==> exists x :: Contains(a, x) && Contains(b, x)
    ensures Overlaps(a, b) == Overlaps(b, a)
  {
    if Overlaps(a, b) {
      var x := if a.lo <= b.lo then b.lo else a.lo;
      assert Contains(a, x) && Contains(b, x);
    }
  }

  /** The two disjuncts of `overlaps` state the same condition. */
  lemma OverlapsDisjunctsAgree(a: Interval, b: Interval)
    ensures Overlaps(a, b) == (a.lo <= b.hi && a.hi >= b.lo)
    ensures Overlaps(a, b) == (b.lo <= a.hi && b.hi >= a.lo)
  {
  }

  /** A well-formed range that is contained in another overlaps it. */
  lemma ContainmentImpliesOverlap(a: Interval, b: Interval)
    requires a.lo <= a.hi && b.lo <= b.hi
    requires FullyContains(a, b)
    ensures Overlaps(a, b) && Overlaps(b, a)
  {
    assert Contains(a, b.lo) && Contains(b, b.lo);
    OverlapsMeaning(a, b);
  }

  // ---------------------------------------------------------------------
  // Properties of the line reader

  /** A line made of two comma-free words splits into exactly those words. */
  lemma SplitPair(p: string, q: string)
    requires ',' !in p && ',' !in q
    ensures Split(p + [','] + q, ',') == [p, q]
  {
    SplitCons(p, q, ',');
    SplitNoSep(q, ',');
  }

  /** "digits-digits" followed by text that does not continue the second
      number reads as the range of the two values. */
  lemma FromStringDigits(a: string, b: string, rest: string)
    requires |a| > 0 && AllDigits(a) && |b| > 0 && AllDigits(b)
    requires rest == [] || !IsDigit(rest[0])
    ensures FromString(a + ['-'] + b + rest) == Ok(Interval(Value(a), Value(b)))
  {
    var tail := b + rest;
    var dash := ['-'] + tail;
    var s := a + dash;
    DigitRun(a, dash);
    assert s[|a|] == dash[0] == '-';
    assert s[|a| + 1..] == s[|a|..][1..] == tail;
    DigitRun(b, rest);
    FromStringAt(s, |a|, |b|);
    Regroup(a, b, rest);
  }

  lemma Regroup(a: string, b: string, rest: string)
    ensures a + ['-'] + b + rest == a + (['-'] + (b + rest))
  {
  }

  /** A run of digits followed by something that is not a digit. */
  lemma DigitRun(a: string, t: string)
    requires AllDigits(a) && (t == [] || !IsDigit(t[0]))
    ensures DigitPrefix(a + t) == |a| && (a + t)[..|a|] == a && (a + t)[|a|..] == t
  {
    DigitPrefixOfDigits(a, t);
  }

  /** `FromString` once the two digit runs have been measured. */
  lemma FromStringAt(s: string, k: nat, m: nat)
    requires 0 < k < |s| && DigitPrefix(s) == k && s[k] == '-'
    requires 0 < m && DigitPrefix(s[k + 1..]) == m
    ensures FromString(s) == Ok(Interval(Value(s[..k]), Value(s[k + 1..][..m])))
  {
  }

  /** Words without a leading "digits-digits" raise ValueError: no dash,
      no second number, no first number, or a letter in place of the dash. */
  lemma FromStringRejects()
    ensures FromString("12") == Err(NoMatch("12"))
    ensures FromString("3-") == Err(NoMatch("3-"))
    ensures FromString("-4-5") == Err(NoMatch("-4-5"))
    ensures FromString("7x8") == Err(NoMatch("7x8"))
  {
    assert DigitPrefix("12") == 2 by {
      assert "12"[1..] == "2" && "2"[1..] == [];
    }
    assert DigitPrefix("3-") == 1 by {
      assert "3-"[1..] == "-";
    }
    assert DigitPrefix("3-"[2..]) == 0 by {
      assert "3-"[2..] == [];
    }
    assert DigitPrefix("7x8") == 1 by {
      assert "7x8"[1..] == "x8";
    }
  }

  /** Rendering a range as "lo-hi" and reading it back gives the range,
      whatever text follows as long as it does not continue the number. */
  lemma FromStringRender(lo: nat, hi: nat, rest: string)
    requires rest == [] || !IsDigit(rest[0])
    ensures FromString(Render(lo) + ['-'] + Render(hi) + rest) == Ok(Interval(lo, hi))
  {
    FromStringDigits(Render(lo), Render(hi), rest);
    ValueOfRender(lo);
    ValueOfRender(hi);
  }

  /** On a line of two well-formed ranges, `has_containment` says whether
      every section of one range lies in the other. */
  lemma HasContainmentMeaning(line: string)
    requires ParseIntervals(line).Ok?
    requires ParseIntervals(line).value.0.lo <= ParseIntervals(line).value.0.hi
    requires ParseIntervals(line).value.1.lo <= ParseIntervals(line).value.1.hi
    ensures var (a, b) := ParseIntervals(line).value;
      HasContainment(line) == Ok((forall x :: Contains(b, x) ==> Contains(a, x)) || (forall x :: Contains(a, x) ==> Contains(b, x)))
  {
    var (a, b) := ParseIntervals(line).value;
    FullyContainsMeaning(a, b);
    FullyContainsMeaning(b, a);
  }

  /** On a line of two well-formed ranges, `has_overlap` says whether the
      ranges share a section. */
  lemma HasOverlapMeaning(line: string)
    requires ParseIntervals(line).Ok?
    requires ParseIntervals(line).value.0.lo <= ParseIntervals(line).value.0.hi
    requires ParseIntervals(line).value.1.lo <= ParseIntervals(line).value.1.hi
    ensures var (a, b) := ParseIntervals(line).value;
      HasOverlap(line) == Ok(exists x :: Contains(a, x) && Contains(b, x))
  {
    var (a, b) := ParseIntervals(line).value;
    OverlapsMeaning(a, b);
  }

  /** `has_containment` does not care which of the two ranges comes first. */
  lemma HasContainmentSymmetric(p: string, q: string)
    requires ',' !in p && ',' !in q
    ensures HasContainment(p + [','] + q) == Ok(true) <==> HasContainment(q + [','] + p) == Ok(true)
    ensures HasContainment(p + [','] + q).Ok? <==> HasContainment(q + [','] + p).Ok?
  {
    SplitPair(p, q);
    SplitPair(q, p);
  }

  /** `has_overlap` does not care which of the two ranges comes first
      either: the line parses either way round or neither, and when it
      parses the answer is the same. */
  lemma HasOverlapSymmetric(p: string, q: string)
    requires ',' !in p && ',' !in q
    ensures HasOverlap(p + [','] + q).Ok? <==> HasOverlap(q + [','] + p).Ok?
    ensures HasOverlap(p + [','] + q).Ok? ==> HasOverlap(p + [','] + q) == HasOverlap(q + [','] + p)
  {
    SplitPair(p, q);
    SplitPair(q, p);
  }

  /** A line written as "lo-hi,lo-hi" reads back as its two ranges. */
  lemma ReadRenderedLine(a: Interval, b: Interval)
    requires 0 <= a.lo && 0 <= a.hi && 0 <= b.lo && 0 <= b.hi
    ensures ParseIntervals(Render(a.lo) + ['-'] + Render(a.hi) + [','] + Render(b.lo) + ['-'] + Render(b.hi)) == Ok((a, b))
  {
    var p := Render(a.lo) + ['-'] + Render(a.hi);
    var q := Render(b.lo) + ['-'] + Render(b.hi);
    RegroupLine(Render(a.lo), Render(a.hi), Render(b.lo), Render(b.hi));
    assert ',' !in p && ',' !in q by {
      DigitsHaveNoComma(Render(a.lo)); DigitsHaveNoComma(Render(a.hi));
      DigitsHaveNoComma(Render(b.lo)); DigitsHaveNoComma(Render(b.hi));
    }
    SplitPair(p, q);
    FromStringRender(a.lo, a.hi, []);
    FromStringRender(b.lo, b.hi, []);
    assert p + [] == p && q + [] == q;
  }

  lemma RegroupLine(w: string, x: string, y: string, z: string)
    ensures w + ['-'] + x + [','] + y + ['-'] + z == (w + ['-'] + x) + [','] + (y + ['-'] + z)
  {
  }

  lemma DigitsHaveNoComma(s: string)
    requires AllDigits(s)
    ensures ',' !in s
  {
  }
}

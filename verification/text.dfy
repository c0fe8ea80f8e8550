/** Splitting a line at a separator character, as Python's `str.split`
    does, and joining the pieces again. */
module Text {

  /** Python's `str.split(sep)`: the pieces between separators, empty pieces
      included, so there is always at least one piece. */
  function Split(s: string, sep: char): (parts: seq<string>)
    ensures |parts| >= 1
    ensures forall k :: 0 <= k < |parts| ==> sep !in parts[k]
  {
    if s == [] then [[]]
    else if s[0] == sep then [[]] + Split(s[1..], sep)
    else
      var r := Split(s[1..], sep);
      [[s[0]] + r[0]] + r[1..]
  }

  /** Joining the pieces with the separator gives back the line. */
  function Join(parts: seq<string>, sep: char): string
    requires |parts| >= 1
  {
    if |parts| == 1 then parts[0] else parts[0] + [sep] + Join(parts[1..], sep)
  }

  lemma {:induction false} SplitNoSep(s: string, sep: char)
    requires sep !in s
    ensures Split(s, sep) == [s]
  {
    if s != [] {
      SplitNoSep(s[1..], sep);
      assert s == [s[0]] + s[1..];
    }
  }

  lemma {:induction false} SplitCons(p: string, q: string, sep: char)
    requires sep !in p
    ensures Split(p + [sep] + q, sep) == [p] + Split(q, sep)
  {
    if p == [] {
      assert (p + [sep] + q)[1..] == q;
    } else {
      assert (p + [sep] + q)[1..] == p[1..] + [sep] + q;
      SplitCons(p[1..], q, sep);
      var r := Split(p[1..] + [sep] + q, sep);
      assert r[0] == p[1..] && r[1..] == Split(q, sep);
      assert p == [p[0]] + p[1..];
    }
  }

  /** Splitting and joining are inverse to each other. */
  lemma {:induction false} JoinSplit(s: string, sep: char)
    ensures Join(Split(s, sep), sep) == s
  {
    if s == [] {
    } else if s[0] == sep {
      JoinSplit(s[1..], sep);
      assert s == [] + [sep] + s[1..];
    } else {
      JoinSplit(s[1..], sep);
      var r := Split(s[1..], sep);
      if |r| == 1 {
        assert s == [s[0]] + r[0];
      } else {
        assert r == [r[0]] + r[1..];
        assert Join(r, sep) == r[0] + [sep] + Join(r[1..], sep);
        assert s == [s[0]] + r[0] + [sep] + Join(r[1..], sep);
      }
    }
  }

}

/** Crate stacks (05/CargoSpace.cpp): a drawing of crate layers is read top
    layer first into a row of stacks, and move lines shift crates between
    stacks either one at a time (CrateMover 9000) or in bulk (9001). */
module Cargo {

  import opened Wrappers
  import opened Decimal

  /** Each stack lists its crates from the bottom (front of the deque) to
      the top (back of the deque). */
  type Stacks = seq<seq<char>>

  /** `isalpha` in the C locale. */
  predicate IsAlpha(c: char) {
    ('A' <= c <= 'Z') || ('a' <= c <= 'z')
  }

  // ---------------------------------------------------------------------
  // Layers

  /** The number of crate columns a layer line reaches: columns sit at
      character positions 1, 5, 9, ... */
  function LayerWidth(layer: string): (w: nat)
    ensures forall i: nat :: i < w <==> 1 + 4 * i < |layer|
  {
    (|layer| + 2) / 4
  }

  /** The crate a layer puts into column `i`, if the character there is a letter. */
  function CrateAt(layer: string, i: nat): (c: seq<char>)
    ensures |c| <= 1
    ensures |c| == 1 <==> 1 + 4 * i < |layer| && IsAlpha(layer[1 + 4 * i])
  {
    if 1 + 4 * i < |layer| && IsAlpha(layer[1 + 4 * i]) then [layer[1 + 4 * i]] else []
  }

  /** The stacks after a layer is slid underneath them. */
  function WithLayer(stacks: Stacks, layer: string): (r: Stacks)
    ensures |r| == if |stacks| < LayerWidth(layer) then LayerWidth(layer) else |stacks|
  {
    var n := if |stacks| < LayerWidth(layer) then LayerWidth(layer) else |stacks|;
    seq(n, i requires 0 <= i < n =>
      CrateAt(layer, i) + (if i < |stacks| then stacks[i] else []))
  }

  // ---------------------------------------------------------------------
  // Move lines

  /** A parsed move line, with the stack numbers already made 0-based. */
  datatype Move = Move(count: nat, from: int, to: int)

  /** The digits at the front of `s` and what follows them, if there is at
      least one digit. */
  function Number(s: string): (r: Option<(nat, string)>)
    ensures r.Some? ==> |r.value.1| < |s|
  {
    var k := DigitPrefix(s);
    if k == 0 then None else Some((Value(s[..k]), s[k..]))
  }

  /** A literal followed by a number. */
  function Field(literal: string, s: string): (r: Option<(nat, string)>)
    ensures r.Some? ==> |r.value.1| < |s|
  {
    if literal <= s then Number(s[|literal|..]) else None
  }

  /** `regex_match` against `move (\d+) from (\d+) to (\d)`: the whole line
      must match, and the destination is a single digit. */
  function ParseMove(line: string): (r: Option<Move>)
    ensures r.Some? ==> 0 <= r.value.to + 1 <= 9 && r.value.from >= -1
  {
    match Field("move ", line)
    case None => None
    case Some((count, rest)) =>
      match Field(" from ", rest)
      case None => None
      case Some((from, rest')) =>
        if |rest'| == 5 && rest'[..4] == " to " && IsDigit(rest'[4])
        then Some(Move(count, from - 1, rest'[4] as int - '0' as int - 1))
        else None
  }

  /** The line that describes a move, with 1-based stack numbers. */
  function MoveLine(count: nat, from: nat, to: nat): string {
    "move " + Render(count) + " from " + Render(from) + " to " + Render(to)
  }

  // ---------------------------------------------------------------------
  // Move semantics

  /** The elements of `s` in reverse order. */
  function Reverse(s: seq<char>): (r: seq<char>)
    ensures |r| == |s|
    ensures forall i :: 0 <= i < |s| ==> r[i] == s[|s| - 1 - i]
  {
    if s == [] then [] else Reverse(s[1..]) + [s[0]]
  }

  /** The number of crates on all stacks. */
  function Total(stacks: Stacks): nat {
    if stacks == [] then 0 else Total(stacks[..|stacks| - 1]) + |stacks[|stacks| - 1]|
  }

  /** One crate from the top of `from` onto the top of `to`. */
  function SingleMove(stacks: Stacks, from: nat, to: nat): (r: Stacks)
    requires from < |stacks| && to < |stacks| && stacks[from] != []
    ensures |r| == |stacks| && (from != to ==> |r[from]| == |stacks[from]| - 1 && |r[to]| == |stacks[to]| + 1)
  {
    var src := stacks[from];
    var s := stacks[from := src[..|src| - 1]];
    s[to := s[to] + [src[|src| - 1]]]
  }

  /** `k` single moves in a row: the reference reading of the CrateMover 9000. */
  function Repeated(stacks: Stacks, from: nat, to: nat, k: nat): (r: Stacks)
    requires from < |stacks| && to < |stacks| && from != to && k <= |stacks[from]|
    ensures |r| == |stacks| && |r[to]| == |stacks[to]| + k
    decreases k
  {
    if k == 0 then stacks
    else Repeated(SingleMove(stacks, from, to), from, to, k - 1)
  }

  /** What `execute_move` reports: a completed move, a line the pattern
      rejects (stacks untouched), or a stack number `at` rejects. */
  datatype Outcome = Moved | Unparsed | OutOfRange

  class CargoSpace {
    var stacks: Stacks

    constructor ()
      ensures stacks == []
    {
      stacks := [];
    }

    /** `add_layer`: the crate letter of column i is at position 1 + 4i; a
        column without a stack yet gets one, and a letter goes to the bottom. */
    method AddLayer(layer: string)
      modifies this
      ensures stacks == WithLayer(old(stacks), layer)
    {
      ghost var s0 := stacks;
      var i := 0;
      var j := 1;
      while j < |layer|
        invariant j == 1 + 4 * i && i <= LayerWidth(layer)
        invariant |stacks| == if |s0| < i then i else |s0|
        invariant forall k :: 0 <= k < i ==> stacks[k] == WithLayer(s0, layer)[k]
        invariant forall k :: i <= k < |stacks| ==> stacks[k] == s0[k]
      {
        var c := layer[j];
        if i >= |stacks| {
          stacks := stacks + [[]];
        }
        if IsAlpha(c) {
          stacks := stacks[i := [c] + stacks[i]];
        }
        i := i + 1;
        j := j + 4;
      }
      assert !(i < LayerWidth(layer));
      forall k | i <= k < |stacks|
        ensures stacks[k] == WithLayer(s0, layer)[k]
      {
        assert !(k < LayerWidth(layer)) && CrateAt(layer, k) == [];
      }
    }

    /** `execute_move`: parses the line, then moves one crate at a time or
        all at once. */
    method ExecuteMove(line: string, oneByOne: bool) returns (outcome: Outcome)
      requires MoveDefined(stacks, ParseMove(line), oneByOne)
      modifies this
      ensures ParseMove(line).None? <==> outcome == Unparsed
      ensures outcome == Unparsed ==> stacks == old(stacks)
      ensures ParseMove(line).Some? ==>
        var m := ParseMove(line).value;
        (outcome, stacks) == (if oneByOne then OneByOneResult(old(stacks), m) else BulkResult(old(stacks), m))
    {
      var parsed := ParseMove(line);
      if parsed.None? {
        return Unparsed;
      }
      var m := parsed.value;
      if oneByOne {
        outcome := MoveOneByOne(m.count, m.from, m.to);
      } else {
        outcome := MoveBulk(m.count, m.from, m.to);
      }
    }

    /** The `one_by_one` branch: `count` times, the top crate of `from` goes
        onto `to`. `at` throws for a stack number out of range, but only
        once the loop runs, after the crate has left `from`. */
    method MoveOneByOne(count: nat, from: int, to: int) returns (outcome: Outcome)
      requires OneByOneDefined(stacks, Move(count, from, to))
      modifies this
      ensures (outcome, stacks) == OneByOneResult(old(stacks), Move(count, from, to))
    {
      if count == 0 {
        return Moved;
      }
      if !(0 <= from < |stacks|) {
        return OutOfRange;
      }
      if !(0 <= to < |stacks|) {
        stacks := stacks[from := stacks[from][..|stacks[from]| - 1]];
        return OutOfRange;
      }
      if from == to {
        CycleCrates(count, from);
      } else {
        ShiftCrates(count, from, to);
        RepeatedReverses(old(stacks), from, to, count);
      }
      return Moved;
    }

    /** The loop of the `one_by_one` branch when source and destination are
        the same stack: each crate is put back where it was, so `back()`
        never meets an empty stack once it held a crate, whatever `count`. */
    method CycleCrates(count: nat, from: nat)
      requires from < |stacks| && (count > 0 ==> stacks[from] != [])
      modifies this
      ensures stacks == old(stacks)
    {
      ghost var s0 := stacks;
      var k := 0;
      while k < count
        invariant k <= count && stacks == s0
        invariant k < count ==> stacks[from] != []
      {
        var c := stacks[from][|stacks[from]| - 1];
        stacks := stacks[from := stacks[from][..|stacks[from]| - 1]];
        assert stacks[from] + [c] == s0[from];
        stacks := stacks[from := stacks[from] + [c]];
        k := k + 1;
      }
    }

    /** The loop of the `one_by_one` branch between two different stacks:
        the crates arrive in the reverse of their order on `from`. */
    method ShiftCrates(count: nat, from: nat, to: nat)
      requires from < |stacks| && to < |stacks| && from != to && count <= |stacks[from]|
      modifies this
      ensures var src := old(stacks)[from];
        stacks == old(stacks)[from := src[..|src| - count]][to := old(stacks)[to] + Reverse(src[|src| - count..])]
    {
      ghost var s0 := stacks;
      ShiftNone(s0, from, to);
      var k := 0;
      while k < count
        invariant k <= count && stacks == Shifted(s0, from, to, k)
      {
        var top := stacks[from];
        ShiftOne(s0, from, to, k);
        stacks := stacks[from := top[..|top| - 1]][to := stacks[to] + [top[|top| - 1]]];
        k := k + 1;
      }
    }

    /** The bulk branch: the top `count` crates of `from` go onto `to`, in
        their order. */
    method MoveBulk(count: nat, from: int, to: int) returns (outcome: Outcome)
      requires BulkDefined(stacks, Move(count, from, to))
      modifies this
      ensures (outcome, stacks) == BulkResult(old(stacks), Move(count, from, to))
    {
      if !(0 <= from < |stacks| && 0 <= to < |stacks|) {
        return OutOfRange;
      }
      var n := |stacks[from]|;
      var moved := stacks[from][n - count..];
      stacks := stacks[to := stacks[to] + moved];
      stacks := stacks[from := stacks[from][..n - count]];
      return Moved;
    }

    /** `get_topmost_crates`. */
    method GetTopmostCrates() returns (s: string)
      ensures |s| == |stacks|
      ensures forall i :: 0 <= i < |stacks| ==>
        s[i] == if stacks[i] == [] then ' ' else stacks[i][|stacks[i]| - 1]
    {
      s := [];
      var i := 0;
      while i < |stacks|
        invariant i <= |stacks| && |s| == i
        invariant forall k :: 0 <= k < i ==>
          s[k] == if stacks[k] == [] then ' ' else stacks[k][|stacks[k]| - 1]
      {
        s := s + [if stacks[i] == [] then ' ' else stacks[i][|stacks[i]| - 1]];
        i := i + 1;
      }
    }
  }

  /** The conditions under which `execute_move` has defined behaviour. A
      stack number out of range makes `at` throw `out_of_range`, which is
      defined; what is not is `back()` on an empty stack, an iterator moved
      before `begin()`, and a bulk insert of a stack's own range into itself. */
  predicate MoveDefined(stacks: Stacks, parsed: Option<Move>, oneByOne: bool) {
    parsed.Some? ==>
      if oneByOne then OneByOneDefined(stacks, parsed.value) else BulkDefined(stacks, parsed.value)
  }

  /** The one-by-one loop reaches `back()` on an empty stack exactly when
      `from` is empty at the first crate, or when it runs dry while giving
      its crates to another valid stack. Onto itself, a stack never empties;
      towards an invalid `to`, the first `at(to)` throws after one crate. */
  predicate OneByOneDefined(stacks: Stacks, m: Move) {
    0 <= m.from < |stacks| && m.count > 0 ==>
      && stacks[m.from] != []
      && (0 <= m.to < |stacks| && m.to != m.from ==> m.count <= |stacks[m.from]|)
  }

  /** The bulk branch reaches `end() - count` and `insert` only once
      `at(from)` has not thrown; there `count` must fit in the stack and the
      inserted range must not lie in the destination. */
  predicate BulkDefined(stacks: Stacks, m: Move) {
    0 <= m.from < |stacks| ==> m.count <= |stacks[m.from]| && m.from != m.to
  }

  /** The one-at-a-time move, as the result of taking the crates off one by one. */
  function OneByOneResult(stacks: Stacks, m: Move): (Outcome, Stacks)
    requires OneByOneDefined(stacks, m)
  {
    if m.count == 0 then (Moved, stacks)
    else if !(0 <= m.from < |stacks|) then (OutOfRange, stacks)
    else
      var src := stacks[m.from];
      if !(0 <= m.to < |stacks|) then (OutOfRange, stacks[m.from := src[..|src| - 1]])
      else if m.from == m.to then (Moved, stacks)
      else (Moved, Repeated(stacks, m.from, m.to, m.count))
  }

  /** The bulk move: `at` is checked for both stacks before anything changes. */
  function BulkResult(stacks: Stacks, m: Move): (Outcome, Stacks)
    requires BulkDefined(stacks, m)
  {
    if !(0 <= m.from < |stacks| && 0 <= m.to < |stacks|) then (OutOfRange, stacks)
    else
      var src := stacks[m.from];
      (Moved, stacks[m.to := stacks[m.to] + src[|src| - m.count..]][m.from := src[..|src| - m.count]])
  }

  // ---------------------------------------------------------------------
  // Properties

  /** A number rendered in front of a non-digit is read back. */
  lemma NumberRender(n: nat, rest: string)
    requires rest == [] || !IsDigit(rest[0])
    ensures Number(Render(n) + rest) == Some((n, rest))
  {
    DigitPrefixOfDigits(Render(n), rest);
    assert (Render(n) + rest)[..|Render(n)|] == Render(n);
    assert (Render(n) + rest)[|Render(n)|..] == rest;
    ValueOfRender(n);
  }

  /** A literal and a rendered number in front of a non-digit are read back. */
  lemma FieldRender(literal: string, n: nat, rest: string)
    requires rest == [] || !IsDigit(rest[0])
    ensures Field(literal, literal + Render(n) + rest) == Some((n, rest))
  {
    assert (literal + Render(n) + rest)[|literal|..] == Render(n) + rest;
    NumberRender(n, rest);
  }

  /** A well-formed move line is parsed back, with stack numbers made
      0-based; the destination must be one digit. */
  lemma ParseMoveLine(count: nat, from: nat, to: nat)
    requires 1 <= to <= 9
    ensures ParseMove(MoveLine(count, from, to)) == Some(Move(count, from - 1, to - 1))
  {
    var tail := " to " + Render(to);
    var rest := " from " + Render(from) + tail;
    MoveLineParts(count, from, to);
    FieldRender("move ", count, rest);
    FieldRender(" from ", from, tail);
    ParseMoveAt(MoveLine(count, from, to), count, rest, from, tail);
  }

  lemma MoveLineParts(count: nat, from: nat, to: nat)
    requires 1 <= to <= 9
    ensures MoveLine(count, from, to) == "move " + Render(count) + (" from " + Render(from) + (" to " + Render(to)))
    ensures " to " + Render(to) == " to " + [('0' as int + to) as char]
  {
  }

  /** `ParseMove` once both fields have been read. */
  lemma ParseMoveAt(line: string, count: nat, rest: string, from: nat, tail: string)
    requires Field("move ", line) == Some((count, rest)) && Field(" from ", rest) == Some((from, tail))
    requires |tail| == 5 && tail[..4] == " to " && IsDigit(tail[4])
    ensures ParseMove(line) == Some(Move(count, from - 1, tail[4] as int - '0' as int - 1))
  {
  }

  /** A destination written with two digits does not match the pattern. */
  lemma TwoDigitDestinationRejected()
    ensures ParseMove("move 1 from 2 to 10") == None
  {
    TwoDigitLine();
    FieldRender("move ", 1, " from 2 to 10");
    FieldRender(" from ", 2, " to 10");
  }

  lemma TwoDigitLine()
    ensures "move 1 from 2 to 10" == "move " + Render(1) + " from 2 to 10"
    ensures " from 2 to 10" == " from " + Render(2) + " to 10"
  {
    assert Render(1) == "1" && Render(2) == "2";
  }

  /** The pointwise reading of `RepeatedReverses`. */
  lemma RepeatedShape(stacks: Stacks, from: nat, to: nat, k: nat)
    requires from < |stacks| && to < |stacks| && from != to && k <= |stacks[from]|
    ensures var r := Repeated(stacks, from, to, k); var src := stacks[from];
      && |r| == |stacks|
      && r[from] == src[..|src| - k]
      && r[to] == stacks[to] + Reverse(src[|src| - k..])
      && forall i :: 0 <= i < |stacks| && i != from && i != to ==> r[i] == stacks[i]
  {
    RepeatedReverses(stacks, from, to, k);
  }

  /** `count` single moves between two stacks: the crates arrive on `to` in
      the reverse of their order on `from`. */
  lemma RepeatedReverses(stacks: Stacks, from: nat, to: nat, k: nat)
    requires from < |stacks| && to < |stacks| && from != to && k <= |stacks[from]|
    ensures var src := stacks[from];
      Repeated(stacks, from, to, k) == stacks[from := src[..|src| - k]][to := stacks[to] + Reverse(src[|src| - k..])]
  {
    ShiftNone(stacks, from, to);
    RepeatedFrom(stacks, from, to, 0, k);
  }

  /** After `j` single moves, `k` more make `j + k`. */
  lemma {:induction false} RepeatedFrom(s0: Stacks, from: nat, to: nat, j: nat, k: nat)
    requires from < |s0| && to < |s0| && from != to && j + k <= |s0[from]|
    ensures |Shifted(s0, from, to, j)[from]| == |s0[from]| - j
    ensures Repeated(Shifted(s0, from, to, j), from, to, k) == Shifted(s0, from, to, j + k)
    decreases k
  {
    var s := Shifted(s0, from, to, j);
    if k > 0 {
      ShiftOne(s0, from, to, j);
      var src := s[from];
      var t := s[from := src[..|src| - 1]];
      assert t[to] == s[to];
      assert SingleMove(s, from, to) == Shifted(s0, from, to, j + 1);
      RepeatedFrom(s0, from, to, j + 1, k - 1);
    }
  }

  /** Moves the source defines although they ask for more crates than a
      stack holds or name a stack that does not exist: "move 5 from 1 to 1"
      puts each crate back, "move 3 from 1 to 9" throws from `at(8)` after
      the first crate left, and a bulk "move 1 from 9 to 9" throws from
      `at(8)` before anything changes. */
  lemma DefinedEdgeMoves()
    ensures var s := [['A', 'B'], [], []];
      OneByOneDefined(s, Move(5, 0, 0)) && OneByOneResult(s, Move(5, 0, 0)) == (Moved, s)
    ensures var s := [['A'], [], []];
      OneByOneDefined(s, Move(3, 0, 8)) && OneByOneResult(s, Move(3, 0, 8)) == (OutOfRange, [[], [], []])
    ensures var s := [['A'], [], []];
      BulkDefined(s, Move(1, 8, 8)) && BulkResult(s, Move(1, 8, 8)) == (OutOfRange, s)
    ensures !OneByOneDefined([[], ['B']], Move(1, 0, 1)) && !BulkDefined([['A'], []], Move(1, 0, 0))
  {
    var s := [['A'], [], []];
    assert s[0 := s[0][..|s[0]| - 1]] == [[], [], []];
  }

  /** Both machines take the same crates off `from`; the CrateMover 9000
      stacks them in reverse order, the 9001 in their order. */
  lemma OneByOneReversesBulk(stacks: Stacks, m: Move)
    requires 0 <= m.from < |stacks| && 0 <= m.to < |stacks| && m.from != m.to
    requires m.count <= |stacks[m.from]|
    ensures var a := OneByOneResult(stacks, m).1; var b := BulkResult(stacks, m).1;
      && a[m.from] == b[m.from]
      && a[m.to] == stacks[m.to] + Reverse(b[m.to][|stacks[m.to]|..])
  {
    if m.count > 0 {
      RepeatedShape(stacks, m.from, m.to, m.count);
    }
    var b := BulkResult(stacks, m).1;
    assert b[m.to][|stacks[m.to]|..] == stacks[m.from][|stacks[m.from]| - m.count..];
  }

  /** Replacing one stack changes the total by the difference in height. */
  lemma {:induction false} TotalUpdate(stacks: Stacks, i: nat, a: seq<char>)
    requires i < |stacks|
    ensures Total(stacks[i := a]) == Total(stacks) - |stacks[i]| + |a|
  {
    var n := |stacks|;
    var s' := stacks[i := a];
    if i == n - 1 {
      assert s'[..n - 1] == stacks[..n - 1];
    } else {
      assert s'[..n - 1] == stacks[..n - 1][i := a];
      TotalUpdate(stacks[..n - 1], i, a);
    }
  }

  /** A completed move keeps every crate: the total is unchanged, `from`
      loses `count` crates, `to` gains them and no other stack changes. */
  lemma OneByOneKeepsCrates(stacks: Stacks, m: Move)
    requires MoveDefined(stacks, Some(m), true)
    requires 0 <= m.from < |stacks| && 0 <= m.to < |stacks| && m.from != m.to
    ensures OneByOneResult(stacks, m).0 == Moved
    ensures var r := OneByOneResult(stacks, m).1;
      && |r| == |stacks| && Total(r) == Total(stacks)
      && |r[m.from]| == |stacks[m.from]| - m.count
      && |r[m.to]| == |stacks[m.to]| + m.count
      && forall i :: 0 <= i < |stacks| && i != m.from && i != m.to ==> r[i] == stacks[i]
  {
    if m.count > 0 {
      var src := stacks[m.from];
      var n := |src|;
      var s1 := stacks[m.from := src[..n - m.count]];
      var s2 := s1[m.to := stacks[m.to] + Reverse(src[n - m.count..])];
      RepeatedShape(stacks, m.from, m.to, m.count);
      RepeatedReverses(stacks, m.from, m.to, m.count);
      assert OneByOneResult(stacks, m).1 == s2;
      TotalUpdate(stacks, m.from, src[..n - m.count]);
      TotalUpdate(s1, m.to, stacks[m.to] + Reverse(src[n - m.count..]));
    }
  }

  /** The same for the bulk move. */
  lemma BulkKeepsCrates(stacks: Stacks, m: Move)
    requires MoveDefined(stacks, Some(m), false)
    requires 0 <= m.from < |stacks| && 0 <= m.to < |stacks|
    ensures var (o, r) := BulkResult(stacks, m);
      && o == Moved && |r| == |stacks| && Total(r) == Total(stacks)
      && |r[m.from]| == |stacks[m.from]| - m.count
      && |r[m.to]| == |stacks[m.to]| + m.count
      && forall i :: 0 <= i < |stacks| && i != m.from && i != m.to ==> r[i] == stacks[i]
  {
    var src := stacks[m.from];
    var n := |src|;
    var s1 := stacks[m.to := stacks[m.to] + src[n - m.count..]];
    var r := s1[m.from := src[..n - m.count]];
    assert BulkResult(stacks, m) == (Moved, r);
    TotalUpdate(stacks, m.to, stacks[m.to] + src[n - m.count..]);
    TotalUpdate(s1, m.from, src[..n - m.count]);
    assert Total(r) == Total(stacks);
  }

  /** After a non-empty move the top of `to` is the crate that was
      `count` from the top of `from` (9000) or the old top of `from` (9001). */
  lemma MovedTop(stacks: Stacks, m: Move, oneByOne: bool)
    requires MoveDefined(stacks, Some(m), oneByOne)
    requires 0 <= m.from < |stacks| && 0 <= m.to < |stacks| && m.from != m.to && m.count > 0
    ensures var r := (if oneByOne then OneByOneResult(stacks, m) else BulkResult(stacks, m)).1;
      var src := stacks[m.from];
      r[m.to][|r[m.to]| - 1] == if oneByOne then src[|src| - m.count] else src[|src| - 1]
  {
    if oneByOne {
      RepeatedShape(stacks, m.from, m.to, m.count);
    }
  }

  /** Sliding a layer underneath never changes the top crate of a stack
      that already has one. */
  lemma LayerKeepsTops(stacks: Stacks, layer: string, i: nat)
    requires i < |stacks| && stacks[i] != []
    ensures var r := WithLayer(stacks, layer);
      r[i][|r[i]| - 1] == stacks[i][|stacks[i]| - 1]
  {
  }

  /** Only letters at crate positions become crates: stack `i` gains one
      crate, at its bottom, exactly when the character at 1 + 4i is a
      letter, and is otherwise unchanged. */
  lemma LayerAddsLetters(stacks: Stacks, layer: string, i: nat)
    requires i < |WithLayer(stacks, layer)|
    ensures var r := WithLayer(stacks, layer); var old_ := if i < |stacks| then stacks[i] else [];
      if 1 + 4 * i < |layer| && IsAlpha(layer[1 + 4 * i]) then r[i] == [layer[1 + 4 * i]] + old_ else r[i] == old_
  {
  }

  /** The stacks once the top `k` crates of `from` have gone onto `to`, one
      at a time. */
  function Shifted(s0: seq<seq<char>>, from: nat, to: nat, k: nat): seq<seq<char>>
    requires from < |s0| && to < |s0| && k <= |s0[from]|
  {
    var src := s0[from];
    s0[from := src[..|src| - k]][to := s0[to] + Reverse(src[|src| - k..])]
  }

  /** Moving no crate changes nothing. */
  lemma ShiftNone(s0: seq<seq<char>>, from: nat, to: nat)
    requires from < |s0| && to < |s0|
    ensures Shifted(s0, from, to, 0) == s0
  {
    var src := s0[from];
    assert src[..|src|] == src && src[|src|..] == [];
    assert s0[to] + Reverse([]) == s0[to];
    SameStacks(Shifted(s0, from, to, 0), s0);
  }

  /** Moving one more crate from `from` to `to`. */
  lemma ShiftOne(s0: seq<seq<char>>, from: nat, to: nat, k: nat)
    requires from < |s0| && to < |s0| && from != to && k < |s0[from]|
    ensures var s := Shifted(s0, from, to, k);
      var top := s[from];
      |top| > 0 && s[from := top[..|top| - 1]][to := s[to] + [top[|top| - 1]]] == Shifted(s0, from, to, k + 1)
  {
    var n := |s0[from]|;
    var s := Shifted(s0, from, to, k);
    var top := s[from];
    PopPrefix(s0[from], n - k);
    PushReversed(s0[to], s0[from], n - k - 1);
    var t := s[from := top[..|top| - 1]][to := s[to] + [top[|top| - 1]]];
    SameStacks(t, Shifted(s0, from, to, k + 1));
  }

  /** Taking the last crate off the bottom `m` of a stack. */
  lemma PopPrefix(s: seq<char>, m: nat)
    requires 0 < m <= |s|
    ensures s[..m][m - 1] == s[m - 1] && s[..m][..m - 1] == s[..m - 1]
  {
  }

  /** One more crate, put on top of `a`, extends the reversed run. */
  lemma PushReversed(a: seq<char>, s: seq<char>, k: nat)
    requires k < |s|
    ensures (a + Reverse(s[k + 1..])) + [s[k]] == a + Reverse(s[k..])
  {
    ReverseGrow(s, k);
    assert a + (Reverse(s[k + 1..]) + [s[k]]) == (a + Reverse(s[k + 1..])) + [s[k]];
  }

  /** Stack lists that agree everywhere are equal. */
  lemma SameStacks(a: seq<seq<char>>, b: seq<seq<char>>)
    requires |a| == |b| && forall i :: 0 <= i < |a| ==> a[i] == b[i]
    ensures a == b
  {
  }

  lemma ReverseGrow(s: seq<char>, k: nat)
    requires k < |s|
    ensures Reverse(s[k..]) == Reverse(s[k + 1..]) + [s[k]]
  {
    assert s[k..][1..] == s[k + 1..];
  }
}

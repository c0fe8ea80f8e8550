/** Rope bridge (09/ropes.py): the head knot of a rope follows the moves of
    the input, every other knot follows the knot before it, and the answer
    is the number of distinct positions the last knot visits. */
module Ropes {

  import opened Wrappers
  import opened Decimal

  /** A knot position, or a move vector. */
  datatype Pos = Pos(x: int, y: int)

  /** Why a move line could not be read: an empty line (IndexError), a first
      character that is not a direction, or a count `int()` rejects (both
      ValueError). */
  datatype MoveError = EmptyLine | BadDirection(line: string) | BadCount(line: string)

  function Abs(n: int): nat {
    if n < 0 then -n else n
  }

  /** Largest coordinate difference between two positions. */
  function Chebyshev(a: Pos, b: Pos): nat {
    var dx := Abs(a.x - b.x);
    var dy := Abs(a.y - b.y);
    if dx < dy then dy else dx
  }

  /** A move vector whose components are all in {-1, 0, 1}. */
  predicate IsUnit(m: Pos) {
    -1 <= m.x <= 1 && -1 <= m.y <= 1
  }

  /** The knot displaced by the move vector `m`: it lands as far from
      where it was as `m` is long. */
  function MoveKnot(k: Pos, m: Pos): (r: Pos)
    ensures r.x - k.x == m.x && r.y - k.y == m.y
    ensures Chebyshev(k, r) == Chebyshev(m, Pos(0, 0))
  {
    Pos(k.x + m.x, k.y + m.y)
  }

  predicate DoKnotsTouch(k1: Pos, k2: Pos) {
    Abs(k1.x - k2.x) <= 1 && Abs(k1.y - k2.y) <= 1
  }

  function SignedOne(x: int): (r: int)
    ensures -1 <= r <= 1
    ensures (r < 0 <==> x < 0) && (r > 0 <==> x > 0)
  {
    if x < 0 then -1 else if x > 0 then 1 else 0
  }

  /** The step a follower `k2` takes towards its leader `k1`. */
  function CalculateFollowMove(k1: Pos, k2: Pos): (r: Pos)
    ensures IsUnit(r)
    ensures (r.x < 0 <==> k1.x < k2.x) && (r.x > 0 <==> k1.x > k2.x)
    ensures (r.y < 0 <==> k1.y < k2.y) && (r.y > 0 <==> k1.y > k2.y)
  {
    Pos(SignedOne(k1.x - k2.x), SignedOne(k1.y - k2.y))
  }

  predicate IsSpace(c: char) {
    c == ' ' || c == '\t' || c == '\n' || c == '\r' || c as int == 11 || c as int == 12
  }

  /** The text with leading and trailing white space removed, as `int()`
      ignores it. */
  function Trim(s: string): (t: string)
    ensures |t| <= |s|
  {
    if s != [] && IsSpace(s[0]) then Trim(s[1..])
    else if s != [] && IsSpace(s[|s| - 1]) then Trim(s[..|s| - 1])
    else s
  }

  function Direction(c: char): Option<Pos> {
    if c == 'U' then Some(Pos(0, 1))
    else if c == 'L' then Some(Pos(-1, 0))
    else if c == 'D' then Some(Pos(0, -1))
    else if c == 'R' then Some(Pos(1, 0))
    else None
  }

  /** `n` copies of the move `m` (none for a negative `n`, like `range`). */
  function Repeat(m: Pos, n: int): (r: seq<Pos>)
    ensures |r| == if n < 0 then 0 else n
    ensures forall k :: 0 <= k < |r| ==> r[k] == m
  {
    if n <= 0 then [] else Repeat(m, n - 1) + [m]
  }

  /** The text `int(line[2:])` reads: from the third character on, without
      surrounding white space. */
  function CountText(line: string): string {
    Trim(if |line| >= 2 then line[2..] else [])
  }

  /** `parse_moves`: one unit move per step of a line "<dir> <count>". */
  function ParseMoves(line: string): (r: Result<seq<Pos>, MoveError>)
    ensures line == [] ==> r == Err(EmptyLine)
    ensures |line| > 0 && line[0] in "ULDR" ==>
      (r.Ok? <==> ParseSigned(CountText(line)).Some?)
    ensures |line| > 0 && line[0] in "ULDR" && ParseSigned(CountText(line)).None? ==>
      r == Err(BadCount(line))
    ensures r.Ok? ==> ParseSigned(CountText(line)).Some? && var n := ParseSigned(CountText(line)).value;
      |r.value| == if n < 0 then 0 else n
    ensures r.Ok? ==> |line| > 0 && line[0] in "ULDR"
    ensures r.Ok? ==> forall k :: 0 <= k < |r.value| ==> r.value[k] == Direction(line[0]).value
    ensures r.Ok? ==> forall k :: 0 <= k < |r.value| ==> IsUnit(r.value[k]) && Chebyshev(r.value[k], Pos(0, 0)) == 1
    ensures |line| > 0 && line[0] !in "ULDR" ==> r == Err(BadDirection(line))
  {
    if |line| == 0 then Err(EmptyLine)
    else match Direction(line[0])
      case None => Err(BadDirection(line))
      case Some(m) =>
        match ParseSigned(CountText(line))
        case None => Err(BadCount(line))
        case Some(n) => Ok(Repeat(m, n))
  }

  /** All moves of all lines, or the error of the first line that fails. */
  function AllMoves(lines: seq<string>): Result<seq<Pos>, MoveError> {
    if lines == [] then Ok([])
    else match ParseMoves(lines[0])
      case Err(e) => Err(e)
      case Ok(m) =>
        match AllMoves(lines[1..])
        case Err(e) => Err(e)
        case Ok(rest) => Ok(m + rest)
  }

  // ---------------------------------------------------------------------
  // One step of the whole rope

  /** The inner `for i in range(1, len(knots))` loop from index `i` on:
      each knot catches up with its predecessor, and the first knot that
      already touches its predecessor ends the update. */
  function FollowFrom(knots: seq<Pos>, i: nat): seq<Pos>
    requires 1 <= i <= |knots|
    decreases |knots| - i
  {
    if i == |knots| || DoKnotsTouch(knots[i - 1], knots[i]) then knots
    else FollowFrom(knots[i := MoveKnot(knots[i], CalculateFollowMove(knots[i - 1], knots[i]))], i + 1)
  }

  function StepRope(knots: seq<Pos>, m: Pos): seq<Pos>
    requires |knots| >= 1
  {
    FollowFrom(knots[0 := MoveKnot(knots[0], m)], 1)
  }

  /** Every knot touches the one before it. */
  predicate Taut(knots: seq<Pos>) {
    forall j :: 1 <= j < |knots| ==> DoKnotsTouch(knots[j - 1], knots[j])
  }

  /** The rope after all of `moves`, starting from `knots`. */
  function Final(knots: seq<Pos>, moves: seq<Pos>): (r: seq<Pos>)
    requires |knots| >= 1
    ensures |r| == |knots|
  {
    if moves == [] then knots
    else
      FollowFromLength(Final(knots, moves[..|moves| - 1])[0 := MoveKnot(Final(knots, moves[..|moves| - 1])[0], moves[|moves| - 1])], 1);
      StepRope(Final(knots, moves[..|moves| - 1]), moves[|moves| - 1])
  }

  /** Positions of the last knot after each of `moves`. */
  function TailVisits(knots: seq<Pos>, moves: seq<Pos>): set<Pos>
    requires |knots| >= 1
  {
    if moves == [] then {}
    else TailVisits(knots, moves[..|moves| - 1]) + {Final(knots, moves)[|knots| - 1]}
  }

  /** The moves of the whole input when `done` have been taken and `rest`
      are still to come. */
  function AfterDone(done: seq<Pos>, rest: Result<seq<Pos>, MoveError>): Result<seq<Pos>, MoveError> {
    match rest
    case Ok(ms) => Ok(done + ms)
    case Err(e) => Err(e)
  }

  function Start(numKnots: nat): (r: seq<Pos>)
    ensures |r| == numKnots && forall k :: 0 <= k < numKnots ==> r[k] == Pos(0, 0)
  {
    seq(numKnots, _ => Pos(0, 0))
  }

  /** `calculate_visited_fields`: the number of distinct positions of the
      last knot after each single step of the head. */
  method CalculateVisitedFields(lines: seq<string>, numKnots: nat) returns (r: Result<nat, MoveError>)
    requires numKnots >= 1
    ensures AllMoves(lines).Err? ==> r == Err(AllMoves(lines).error)
    ensures AllMoves(lines).Ok? ==> r == Ok(|TailVisits(Start(numKnots), AllMoves(lines).value)|)
  {
    var knots := Start(numKnots);
    var visited: set<Pos> := {};
    ghost var done: seq<Pos> := [];
    var li := 0;
    assert lines[li..] == lines;
    assert AllMoves(lines).Ok? ==> done + AllMoves(lines).value == AllMoves(lines).value;
    while li < |lines|
      invariant 0 <= li <= |lines|
      invariant |knots| == numKnots
      invariant knots == Final(Start(numKnots), done) && visited == TailVisits(Start(numKnots), done)
      invariant AllMoves(lines) == AfterDone(done, AllMoves(lines[li..]))
    {
      var parsed := ParseMoves(lines[li]);
      if parsed.Err? {
        AllMovesStep(lines, li, done);
        return Err(parsed.error);
      }
      var moves := parsed.value;
      assert AllMoves(lines) == AfterDone(done + moves, AllMoves(lines[li + 1..])) by {
        AllMovesStep(lines, li, done);
      }
      knots, visited := FollowMoves(knots, visited, moves, Start(numKnots), done);
      done := done + moves;
      li := li + 1;
    }
    assert lines[li..] == [];
    assert done + [] == done;
    return Ok(|visited|);
  }

  /** The body of the line loop of `calculate_visited_fields`: every move of
      one line takes the head one step, the knots behind it catch up until
      one already touches its predecessor, and the last knot's position is
      recorded. `start` and `done` describe the steps taken before. */
  method FollowMoves(knots0: seq<Pos>, visited0: set<Pos>, moves: seq<Pos>, ghost start: seq<Pos>, ghost done: seq<Pos>)
    returns (knots: seq<Pos>, visited: set<Pos>)
    requires |start| >= 1
    requires knots0 == Final(start, done) && visited0 == TailVisits(start, done)
    ensures knots == Final(start, done + moves) && visited == TailVisits(start, done + moves)
  {
    knots, visited := knots0, visited0;
    var c := 0;
    ghost var sofar := done;
    while c < |moves|
      invariant 0 <= c <= |moves|
      invariant |knots| == |start|
      invariant sofar == done + moves[..c]
      invariant knots == Final(start, sofar) && visited == TailVisits(start, sofar)
    {
      var move := moves[c];
      knots := StepHead(knots, move);
      FinalSnoc(start, sofar, move);
      visited := visited + {knots[|knots| - 1]};
      PrefixSnoc(done, moves, c);
      sofar := sofar + [move];
      c := c + 1;
    }
    WholePrefix(done, moves, c);
  }

  lemma PrefixSnoc(done: seq<Pos>, moves: seq<Pos>, c: nat)
    requires c < |moves|
    ensures done + moves[..c + 1] == (done + moves[..c]) + [moves[c]]
  {
    assert moves[..c + 1] == moves[..c] + [moves[c]];
  }

  lemma WholePrefix(done: seq<Pos>, moves: seq<Pos>, c: nat)
    requires c == |moves|
    ensures done + moves[..c] == done + moves
  {
    assert moves[..c] == moves;
  }

  /** One step of the head and the catching-up pass behind it, in place on
      the knot list: the inner `for i in range(1, len(knots))` loop. */
  method StepHead(knots0: seq<Pos>, move: Pos) returns (knots: seq<Pos>)
    requires |knots0| >= 1
    ensures knots == StepRope(knots0, move)
  {
    knots := knots0[0 := MoveKnot(knots0[0], move)];
    ghost var headMoved := knots;
    var i := 1;
    while i < |knots|
      invariant 1 <= i <= |knots| == |knots0|
      invariant FollowFrom(knots, i) == FollowFrom(headMoved, 1)
    {
      if DoKnotsTouch(knots[i - 1], knots[i]) {
        break;
      }
      var followMove := CalculateFollowMove(knots[i - 1], knots[i]);
      knots := knots[i := MoveKnot(knots[i], followMove)];
      i := i + 1;
    }
  }

  lemma FinalSnoc(knots: seq<Pos>, done: seq<Pos>, m: Pos)
    requires |knots| >= 1
    ensures Final(knots, done + [m]) == StepRope(Final(knots, done), m)
    ensures TailVisits(knots, done + [m]) == TailVisits(knots, done) + {StepRope(Final(knots, done), m)[|knots| - 1]}
  {
    assert (done + [m])[..|done|] == done;
  }

  lemma AllMovesUnfold(lines: seq<string>, li: nat)
    requires li < |lines|
    ensures AllMoves(lines[li..]) == match ParseMoves(lines[li])
      case Err(e) => Err(e)
      case Ok(m) => (match AllMoves(lines[li + 1..])
                     case Err(e) => Err(e)
                     case Ok(rest) => Ok(m + rest))
  {
    assert lines[li..][0] == lines[li] && lines[li..][1..] == lines[li + 1..];
  }

  /** One more line read: either it is the first rejected line, or its moves
      join those already taken. */
  lemma AllMovesStep(lines: seq<string>, li: nat, done: seq<Pos>)
    requires li < |lines|
    requires AllMoves(lines) == AfterDone(done, AllMoves(lines[li..]))
    ensures ParseMoves(lines[li]).Err? ==> AllMoves(lines) == Err(ParseMoves(lines[li]).error)
    ensures ParseMoves(lines[li]).Ok? ==>
      AllMoves(lines) == AfterDone(done + ParseMoves(lines[li]).value, AllMoves(lines[li + 1..]))
  {
    AllMovesUnfold(lines, li);
    JoinLine(done, ParseMoves(lines[li]), AllMoves(lines[li + 1..]));
  }

  /** `AfterDone` of one line's moves followed by the rest. */
  lemma JoinLine(done: seq<Pos>, line: Result<seq<Pos>, MoveError>, rest: Result<seq<Pos>, MoveError>)
    ensures line.Err? ==> AfterDone(done, Err(line.error)) == Err(line.error)
    ensures line.Ok? ==>
      AfterDone(done, match rest case Err(e) => Err(e) case Ok(r) => Ok(line.value + r))
      == AfterDone(done + line.value, rest)
  {
    if line.Ok? && rest.Ok? {
      assert done + (line.value + rest.value) == (done + line.value) + rest.value;
    }
  }

  // ---------------------------------------------------------------------
  // Properties

  /** Moving two knots by the same vector keeps their distance, and so
      whether they touch. */
  lemma MoveTranslates(a: Pos, b: Pos, m: Pos)
    ensures Chebyshev(MoveKnot(a, m), MoveKnot(b, m)) == Chebyshev(a, b)
    ensures DoKnotsTouch(MoveKnot(a, m), MoveKnot(b, m)) == DoKnotsTouch(a, b)
  {
  }

  /** Touching is reflexive and symmetric, and means Chebyshev distance at
      most one. */
  lemma TouchMeaning(a: Pos, b: Pos)
    ensures DoKnotsTouch(a, b) <==> Chebyshev(a, b) <= 1
    ensures DoKnotsTouch(a, b) == DoKnotsTouch(b, a)
    ensures DoKnotsTouch(a, a)
  {
  }

  /** A follower at most two cells away from its leader touches it after one
      follow step. */
  lemma FollowCatchesUp(leader: Pos, follower: Pos)
    requires Chebyshev(leader, follower) <= 2
    ensures DoKnotsTouch(leader, MoveKnot(follower, CalculateFollowMove(leader, follower)))
  {
  }

  lemma FollowFromLength(knots: seq<Pos>, i: nat)
    requires 1 <= i <= |knots|
    ensures |FollowFrom(knots, i)| == |knots|
    decreases |knots| - i
  {
    if i < |knots| && !DoKnotsTouch(knots[i - 1], knots[i]) {
      FollowFromLength(knots[i := MoveKnot(knots[i], CalculateFollowMove(knots[i - 1], knots[i]))], i + 1);
    }
  }

  /** The triangle inequality for the Chebyshev distance. */
  lemma Triangle(a: Pos, b: Pos, c: Pos)
    ensures Chebyshev(a, c) <= Chebyshev(a, b) + Chebyshev(b, c)
  {
  }

  /** The catching-up pass restores a taut rope when the knot at `i - 1`
      has moved by at most one cell since it touched the knot at `i`; no
      knot moves by more than one cell, the knots before `i` stay put, and
      once a knot already touches its predecessor nothing behind it moves. */
  lemma {:induction false} FollowFromTaut(knots: seq<Pos>, i: nat)
    requires 1 <= i <= |knots|
    requires forall j :: 1 <= j < i ==> DoKnotsTouch(knots[j - 1], knots[j])
    requires forall j :: i < j < |knots| ==> DoKnotsTouch(knots[j - 1], knots[j])
    requires i < |knots| ==> Chebyshev(knots[i - 1], knots[i]) <= 2
    ensures |FollowFrom(knots, i)| == |knots|
    ensures Taut(FollowFrom(knots, i))
    ensures forall j :: 0 <= j < |knots| ==> Chebyshev(FollowFrom(knots, i)[j], knots[j]) <= 1
    ensures forall j :: 0 <= j < i ==> FollowFrom(knots, i)[j] == knots[j]
    ensures i < |knots| && DoKnotsTouch(knots[i - 1], knots[i]) ==> FollowFrom(knots, i) == knots
    decreases |knots| - i
  {
    if i == |knots| || DoKnotsTouch(knots[i - 1], knots[i]) {
      assert FollowFrom(knots, i) == knots;
      TautAround(knots, i);
      forall j | 0 <= j < |knots| ensures Chebyshev(knots[j], knots[j]) <= 1 { }
    } else {
      var next := knots[i := MoveKnot(knots[i], CalculateFollowMove(knots[i - 1], knots[i]))];
      CatchUpOne(knots, i);
      FollowFromTaut(next, i + 1);
      var r := FollowFrom(next, i + 1);
      assert FollowFrom(knots, i) == r;
      assert Taut(r);
      CaughtUpBehind(knots, next, i, r);
    }
  }

  /** A rope whose knots touch before and after `i`, and at `i` itself, is
      taut. */
  lemma TautAround(knots: seq<Pos>, i: nat)
    requires 1 <= i <= |knots|
    requires forall j :: 1 <= j < i ==> DoKnotsTouch(knots[j - 1], knots[j])
    requires forall j :: i < j < |knots| ==> DoKnotsTouch(knots[j - 1], knots[j])
    requires i < |knots| ==> DoKnotsTouch(knots[i - 1], knots[i])
    ensures Taut(knots)
  {
    forall j | 1 <= j < |knots| ensures DoKnotsTouch(knots[j - 1], knots[j]) {
      if j == i { assert DoKnotsTouch(knots[i - 1], knots[i]); }
    }
  }

  /** Moving knot `i` after its predecessor leaves a rope that the pass from
      `i + 1` can take over. */
  lemma CatchUpOne(knots: seq<Pos>, i: nat)
    requires 1 <= i < |knots|
    requires forall j :: 1 <= j < i ==> DoKnotsTouch(knots[j - 1], knots[j])
    requires forall j :: i < j < |knots| ==> DoKnotsTouch(knots[j - 1], knots[j])
    requires Chebyshev(knots[i - 1], knots[i]) <= 2
    ensures var next := knots[i := MoveKnot(knots[i], CalculateFollowMove(knots[i - 1], knots[i]))];
      && Chebyshev(next[i], knots[i]) <= 1
      && (forall j :: 1 <= j < i + 1 ==> DoKnotsTouch(next[j - 1], next[j]))
      && (forall j :: i + 1 < j < |next| ==> DoKnotsTouch(next[j - 1], next[j]))
      && (i + 1 < |next| ==> Chebyshev(next[i], next[i + 1]) <= 2)
  {
    var moved := MoveKnot(knots[i], CalculateFollowMove(knots[i - 1], knots[i]));
    var next := knots[i := moved];
    FollowCatchesUp(knots[i - 1], knots[i]);
    assert Chebyshev(moved, knots[i]) <= 1;
    forall j | 1 <= j < i + 1 ensures DoKnotsTouch(next[j - 1], next[j]) {
      if j < i { assert next[j - 1] == knots[j - 1] && next[j] == knots[j]; }
    }
    forall j | i + 1 < j < |next| ensures DoKnotsTouch(next[j - 1], next[j]) {
      assert next[j - 1] == knots[j - 1] && next[j] == knots[j];
    }
    if i + 1 < |knots| {
      assert DoKnotsTouch(knots[i], knots[i + 1]);
      Triangle(moved, knots[i], knots[i + 1]);
    }
  }

  /** What the pass from `i + 1` did to `next`, seen from `knots`. */
  lemma CaughtUpBehind(knots: seq<Pos>, next: seq<Pos>, i: nat, r: seq<Pos>)
    requires i < |knots| == |next| && next == knots[i := next[i]] && Chebyshev(next[i], knots[i]) <= 1
    requires |r| == |next|
    requires forall j :: 0 <= j < |next| ==> Chebyshev(r[j], next[j]) <= 1
    requires forall j :: 0 <= j < i + 1 ==> r[j] == next[j]
    ensures forall j :: 0 <= j < |knots| ==> Chebyshev(r[j], knots[j]) <= 1
    ensures forall j :: 0 <= j < i ==> r[j] == knots[j]
  {
    forall j | 0 <= j < |knots| ensures Chebyshev(r[j], knots[j]) <= 1 {
      if j == i {
        assert r[j] == next[j];
      } else {
        assert next[j] == knots[j];
      }
    }
    forall j | 0 <= j < i ensures r[j] == knots[j] {
      assert r[j] == next[j];
    }
  }

  /** After every single step of the head, every knot touches the knot
      before it again, and no knot has moved by more than one cell. */
  lemma StepKeepsRopeTaut(knots: seq<Pos>, m: Pos)
    requires |knots| >= 1 && Taut(knots) && IsUnit(m)
    ensures |StepRope(knots, m)| == |knots|
    ensures Taut(StepRope(knots, m))
    ensures forall j :: 0 <= j < |knots| ==> Chebyshev(StepRope(knots, m)[j], knots[j]) <= 1
    ensures StepRope(knots, m)[0] == MoveKnot(knots[0], m)
  {
    var moved := knots[0 := MoveKnot(knots[0], m)];
    if 1 < |knots| {
      assert DoKnotsTouch(knots[0], knots[1]);
    }
    FollowFromTaut(moved, 1);
  }

  /** Over a whole input the rope stays taut. */
  lemma {:induction false} FinalTaut(knots: seq<Pos>, moves: seq<Pos>)
    requires |knots| >= 1 && Taut(knots)
    requires forall k :: 0 <= k < |moves| ==> IsUnit(moves[k])
    ensures Taut(Final(knots, moves))
  {
    if moves != [] {
      FinalTaut(knots, moves[..|moves| - 1]);
      StepKeepsRopeTaut(Final(knots, moves[..|moves| - 1]), moves[|moves| - 1]);
    }
  }

  /** The answer is 0 with no steps, and between 1 and the number of steps
      otherwise. */
  lemma {:induction false} TailVisitsBounds(knots: seq<Pos>, moves: seq<Pos>)
    requires |knots| >= 1
    ensures moves == [] ==> |TailVisits(knots, moves)| == 0
    ensures moves != [] ==> 1 <= |TailVisits(knots, moves)| <= |moves|
  {
    if moves != [] {
      var prefix := moves[..|moves| - 1];
      TailVisitsBounds(knots, prefix);
      var last := Final(knots, moves)[|knots| - 1];
      assert last in TailVisits(knots, moves);
      assert |TailVisits(knots, moves)| <= |TailVisits(knots, prefix)| + 1 by {
        if last in TailVisits(knots, prefix) {
          assert TailVisits(knots, moves) == TailVisits(knots, prefix);
        }
      }
    }
  }

  /** An empty line, an unknown direction and a count that is not a number
      each raise their own error. */
  lemma ParseMovesRejects()
    ensures ParseMoves("") == Err(EmptyLine)
    ensures ParseMoves("X 3") == Err(BadDirection("X 3"))
    ensures ParseMoves("U x") == Err(BadCount("U x"))
    ensures ParseMoves("U") == Err(BadCount("U"))
  {
    assert "U x"[2..] == "x";
    assert Trim("x") == "x";
    assert Trim([]) == [];
  }

  /** A line "<dir> <n>" yields exactly n copies of the direction's unit
      vector. */
  lemma ParseMovesRender(d: char, n: nat)
    requires d in "ULDR"
    ensures ParseMoves([d, ' '] + Render(n)) == Ok(Repeat(Direction(d).value, n))
  {
    var line := [d, ' '] + Render(n);
    assert line[2..] == Render(n);
    assert Trim(Render(n)) == Render(n);
    ParseRender(n);
  }
}

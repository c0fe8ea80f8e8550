/** Treetop tree house (08/trees.c): a 9 x 9 grid of tree heights. A tree
    is visible when it is strictly taller than every tree between it and
    some edge; its scenic score multiplies how far one can see from it in
    the four directions. The global `field` of the source is passed as a
    parameter; nothing here changes it. */
module Trees {

  const HEIGHT := 9
  const WIDTH := 9

  predicate IsField(field: array2<int>) {
    field.Length0 == HEIGHT && field.Length1 == WIDTH
  }

  predicate Interior(i: int, j: int) {
    0 < i < HEIGHT - 1 && 0 < j < WIDTH - 1
  }

  // ---------------------------------------------------------------------
  // Visibility

  /** Taller than every tree to its left in its row. */
  ghost predicate TallerThanLeft(field: array2<int>, i: int, j: int)
    requires IsField(field) && 0 <= i < HEIGHT && 0 <= j < WIDTH
    reads field
  {
    forall k :: 0 <= k < j ==> field[i, k] < field[i, j]
  }

  ghost predicate TallerThanRight(field: array2<int>, i: int, j: int)
    requires IsField(field) && 0 <= i < HEIGHT && 0 <= j < WIDTH
    reads field
  {
    forall k :: j < k < WIDTH ==> field[i, k] < field[i, j]
  }

  ghost predicate TallerThanAbove(field: array2<int>, i: int, j: int)
    requires IsField(field) && 0 <= i < HEIGHT && 0 <= j < WIDTH
    reads field
  {
    forall k :: 0 <= k < i ==> field[k, j] < field[i, j]
  }

  ghost predicate TallerThanBelow(field: array2<int>, i: int, j: int)
    requires IsField(field) && 0 <= i < HEIGHT && 0 <= j < WIDTH
    reads field
  {
    forall k :: i < k < HEIGHT ==> field[k, j] < field[i, j]
  }

  /** An interior tree seen from outside along its row or column. */
  ghost predicate VisibleInterior(field: array2<int>, i: int, j: int)
    requires IsField(field) && 0 <= i < HEIGHT && 0 <= j < WIDTH
    reads field
  {
    || TallerThanLeft(field, i, j) || TallerThanRight(field, i, j)
    || TallerThanAbove(field, i, j) || TallerThanBelow(field, i, j)
  }

  /** The number of visible interior trees in columns 1 .. n-1 of row i. */
  ghost function CountRow(field: array2<int>, i: int, n: int): (c: nat)
    requires IsField(field) && 0 <= i < HEIGHT && n <= WIDTH - 1
    reads field
    ensures c <= if n <= 1 then 0 else n - 1
  {
    if n <= 1 then 0
    else CountRow(field, i, n - 1) + (if VisibleInterior(field, i, n - 1) then 1 else 0)
  }

  /** The number of visible interior trees in rows 1 .. m-1. */
  ghost function CountRows(field: array2<int>, m: int): (c: nat)
    requires IsField(field) && m <= HEIGHT - 1
    reads field
  {
    if m <= 1 then 0 else CountRows(field, m - 1) + CountRow(field, m - 1, WIDTH - 1)
  }

  /** The border trees, all of them visible. */
  const BORDER := 2 * (HEIGHT + WIDTH) - 4

  /** `count_visible_trees`: four scans with a running maximum mark the
      interior trees seen from the left, right, top and bottom edges; the
      border trees are added without looking. */
  method CountVisibleTrees(field: array2<int>) returns (count: nat)
    requires IsField(field)
    ensures count == BORDER + CountRows(field, HEIGHT - 1)
  {
    var visibility := new bool[HEIGHT, WIDTH]((i, j) => false);
    ScanRows(field, visibility);
    ScanColumns(field, visibility);
    count := CountMarked(field, visibility);
    count := BORDER + count;
  }

  /** Lines 58-62: the marked interior trees, row by row. */
  method CountMarked(field: array2<int>, vis: array2<bool>) returns (count: nat)
    requires IsField(field) && vis.Length0 == HEIGHT && vis.Length1 == WIDTH
    requires forall r, c :: 0 <= r < HEIGHT && 0 <= c < WIDTH ==>
      vis[r, c] == (Interior(r, c) && VisibleInterior(field, r, c))
    ensures count == CountRows(field, HEIGHT - 1)
  {
    count := 0;
    var i := 1;
    while i < HEIGHT - 1
      invariant 1 <= i <= HEIGHT - 1
      invariant count == CountRows(field, i)
    {
      var inRow := CountMarkedInRow(field, vis, i);
      assert CountRows(field, i + 1) == CountRows(field, i) + inRow;
      count := count + inRow;
      i := i + 1;
    }
  }

  /** The inner loop of lines 59-61. */
  method CountMarkedInRow(field: array2<int>, vis: array2<bool>, i: int) returns (count: nat)
    requires IsField(field) && vis.Length0 == HEIGHT && vis.Length1 == WIDTH && 0 < i < HEIGHT - 1
    requires forall r, c :: 0 <= r < HEIGHT && 0 <= c < WIDTH ==>
      vis[r, c] == (Interior(r, c) && VisibleInterior(field, r, c))
    ensures count == CountRow(field, i, WIDTH - 1)
  {
    count := 0;
    var j := 1;
    while j < WIDTH - 1
      invariant 1 <= j <= WIDTH - 1
      invariant count == CountRow(field, i, j)
    {
      if vis[i, j] {
        count := count + 1;
      }
      j := j + 1;
    }
  }

  /** The marks the row scans leave, and those the column scans add. */
  ghost predicate RowMarks(field: array2<int>, i: int, j: int)
    requires IsField(field) && 0 <= i < HEIGHT && 0 <= j < WIDTH
    reads field
  {
    Interior(i, j) && (TallerThanLeft(field, i, j) || TallerThanRight(field, i, j))
  }

  ghost predicate ColumnMarks(field: array2<int>, i: int, j: int)
    requires IsField(field) && 0 <= i < HEIGHT && 0 <= j < WIDTH
    reads field
  {
    Interior(i, j) && (TallerThanAbove(field, i, j) || TallerThanBelow(field, i, j))
  }

  /** Lines 23-38: both scans of every interior row. */
  method ScanRows(field: array2<int>, vis: array2<bool>)
    requires IsField(field) && vis.Length0 == HEIGHT && vis.Length1 == WIDTH
    requires forall r, c :: 0 <= r < HEIGHT && 0 <= c < WIDTH ==> !vis[r, c]
    modifies vis
    ensures forall r, c :: 0 <= r < HEIGHT && 0 <= c < WIDTH ==> vis[r, c] == RowMarks(field, r, c)
  {
    var i := 1;
    while i < HEIGHT - 1
      invariant 1 <= i <= HEIGHT - 1
      invariant forall r, c :: 0 <= r < HEIGHT && 0 <= c < WIDTH ==>
        vis[r, c] == (r < i && RowMarks(field, r, c))
    {
      ScanFromLeft(field, vis, i);
      ScanFromRight(field, vis, i);
      i := i + 1;
    }
  }

  /** Lines 40-55: both scans of every interior column. */
  method ScanColumns(field: array2<int>, vis: array2<bool>)
    requires IsField(field) && vis.Length0 == HEIGHT && vis.Length1 == WIDTH
    requires forall r, c :: 0 <= r < HEIGHT && 0 <= c < WIDTH ==> vis[r, c] == RowMarks(field, r, c)
    modifies vis
    ensures forall r, c :: 0 <= r < HEIGHT && 0 <= c < WIDTH ==>
      vis[r, c] == (Interior(r, c) && VisibleInterior(field, r, c))
  {
    var j := 1;
    while j < WIDTH - 1
      invariant 1 <= j <= WIDTH - 1
      invariant forall r, c :: 0 <= r < HEIGHT && 0 <= c < WIDTH ==>
        vis[r, c] == (RowMarks(field, r, c) || (c < j && ColumnMarks(field, r, c)))
    {
      ScanFromTop(field, vis, j);
      ScanFromBottom(field, vis, j);
      j := j + 1;
    }
  }

  /** Left to right along row i: a tree taller than the running maximum
      (which starts at the edge tree) is marked. */
  method ScanFromLeft(field: array2<int>, vis: array2<bool>, i: int)
    requires IsField(field) && vis.Length0 == HEIGHT && vis.Length1 == WIDTH && 0 < i < HEIGHT - 1
    modifies vis
    ensures forall r, c :: 0 <= r < HEIGHT && 0 <= c < WIDTH ==>
      vis[r, c] == (old(vis[r, c]) || (r == i && 0 < c < WIDTH - 1 && TallerThanLeft(field, r, c)))
  {
    var max := field[i, 0];
    var j := 1;
    while j < WIDTH - 1
      invariant 1 <= j <= WIDTH - 1
      invariant forall k :: 0 <= k < j ==> field[i, k] <= max
      invariant exists k :: 0 <= k < j && field[i, k] == max
      invariant forall r, c :: 0 <= r < HEIGHT && 0 <= c < WIDTH ==>
        vis[r, c] == (old(vis[r, c]) || (r == i && 0 < c < j && TallerThanLeft(field, r, c)))
    {
      if field[i, j] > max {
        max := field[i, j];
        vis[i, j] := true;
      }
      j := j + 1;
    }
  }

  /** Right to left along row i. */
  method ScanFromRight(field: array2<int>, vis: array2<bool>, i: int)
    requires IsField(field) && vis.Length0 == HEIGHT && vis.Length1 == WIDTH && 0 < i < HEIGHT - 1
    modifies vis
    ensures forall r, c :: 0 <= r < HEIGHT && 0 <= c < WIDTH ==>
      vis[r, c] == (old(vis[r, c]) || (r == i && 0 < c < WIDTH - 1 && TallerThanRight(field, r, c)))
  {
    var max := field[i, WIDTH - 1];
    var j := WIDTH - 2;
    while j > 0
      invariant 0 <= j <= WIDTH - 2
      invariant forall k :: j < k < WIDTH ==> field[i, k] <= max
      invariant exists k :: j < k < WIDTH && field[i, k] == max
      invariant forall r, c :: 0 <= r < HEIGHT && 0 <= c < WIDTH ==>
        vis[r, c] == (old(vis[r, c]) || (r == i && j < c < WIDTH - 1 && TallerThanRight(field, r, c)))
    {
      if field[i, j] > max {
        max := field[i, j];
        vis[i, j] := true;
      }
      j := j - 1;
    }
  }

  /** Top to bottom along column j. */
  method ScanFromTop(field: array2<int>, vis: array2<bool>, j: int)
    requires IsField(field) && vis.Length0 == HEIGHT && vis.Length1 == WIDTH && 0 < j < WIDTH - 1
    modifies vis
    ensures forall r, c :: 0 <= r < HEIGHT && 0 <= c < WIDTH ==>
      vis[r, c] == (old(vis[r, c]) || (c == j && 0 < r < HEIGHT - 1 && TallerThanAbove(field, r, c)))
  {
    var max := field[0, j];
    var i := 1;
    while i < HEIGHT - 1
      invariant 1 <= i <= HEIGHT - 1
      invariant forall k :: 0 <= k < i ==> field[k, j] <= max
      invariant exists k :: 0 <= k < i && field[k, j] == max
      invariant forall r, c :: 0 <= r < HEIGHT && 0 <= c < WIDTH ==>
        vis[r, c] == (old(vis[r, c]) || (c == j && 0 < r < i && TallerThanAbove(field, r, c)))
    {
      if field[i, j] > max {
        max := field[i, j];
        vis[i, j] := true;
      }
      i := i + 1;
    }
  }

  /** Bottom to top along column j. */
  method ScanFromBottom(field: array2<int>, vis: array2<bool>, j: int)
    requires IsField(field) && vis.Length0 == HEIGHT && vis.Length1 == WIDTH && 0 < j < WIDTH - 1
    modifies vis
    ensures forall r, c :: 0 <= r < HEIGHT && 0 <= c < WIDTH ==>
      vis[r, c] == (old(vis[r, c]) || (c == j && 0 < r < HEIGHT - 1 && TallerThanBelow(field, r, c)))
  {
    var max := field[HEIGHT - 1, j];
    var i := HEIGHT - 2;
    while i > 0
      invariant 0 <= i <= HEIGHT - 2
      invariant forall k :: i < k < HEIGHT ==> field[k, j] <= max
      invariant exists k :: i < k < HEIGHT && field[k, j] == max
      invariant forall r, c :: 0 <= r < HEIGHT && 0 <= c < WIDTH ==>
        vis[r, c] == (old(vis[r, c]) || (c == j && i < r < HEIGHT - 1 && TallerThanBelow(field, r, c)))
    {
      if field[i, j] > max {
        max := field[i, j];
        vis[i, j] := true;
      }
      i := i - 1;
    }
  }

  // ---------------------------------------------------------------------
  // Scenic score

  /** Whether the look outward along `line` (line[0] is the viewer's own
      height, line[1..] the trees in one direction) stops at tree k: it is
      at least as tall as the viewer, or as tall as the tree before it. */
  predicate Stops(line: seq<int>, k: int)
    requires 1 <= k < |line|
  {
    line[k] >= line[0] || line[k] == line[k - 1]
  }

  /** How many trees are counted from position k on. */
  function CountFrom(line: seq<int>, k: nat): (r: nat)
    requires 1 <= k
    ensures k <= |line| ==> k <= r + 1 && r <= |line| - 1
    ensures k > |line| - 1 ==> r == if |line| == 0 then 0 else |line| - 1
    decreases |line| - k
  {
    if k >= |line| then (if |line| == 0 then 0 else |line| - 1)
    else if Stops(line, k) then k
    else CountFrom(line, k + 1)
  }

  /** The number of trees counted in one direction: up to and including
      the first one the look stops at, or all of them up to the edge. */
  function ViewCount(line: seq<int>): (r: nat)
    requires |line| >= 1
    ensures r <= |line| - 1
  {
    CountFrom(line, 1)
  }

  function UpLine(field: array2<int>, i0: int, j0: int): (s: seq<int>)
    requires IsField(field) && 0 <= i0 < HEIGHT && 0 <= j0 < WIDTH
    reads field
    ensures |s| == i0 + 1
  {
    seq(i0 + 1, k requires 0 <= k <= i0 reads field => field[i0 - k, j0])
  }

  function LeftLine(field: array2<int>, i0: int, j0: int): (s: seq<int>)
    requires IsField(field) && 0 <= i0 < HEIGHT && 0 <= j0 < WIDTH
    reads field
    ensures |s| == j0 + 1
  {
    seq(j0 + 1, k requires 0 <= k <= j0 reads field => field[i0, j0 - k])
  }

  function DownLine(field: array2<int>, i0: int, j0: int): (s: seq<int>)
    requires IsField(field) && 0 <= i0 < HEIGHT && 0 <= j0 < WIDTH
    reads field
    ensures |s| == HEIGHT - i0
  {
    seq(HEIGHT - i0, k requires 0 <= k < HEIGHT - i0 reads field => field[i0 + k, j0])
  }

  function RightLine(field: array2<int>, i0: int, j0: int): (s: seq<int>)
    requires IsField(field) && 0 <= i0 < HEIGHT && 0 <= j0 < WIDTH
    reads field
    ensures |s| == WIDTH - j0
  {
    seq(WIDTH - j0, k requires 0 <= k < WIDTH - j0 reads field => field[i0, j0 + k])
  }

  /** The product of the four directional counts. */
  function Score(field: array2<int>, i0: int, j0: int): nat
    requires IsField(field) && 0 <= i0 < HEIGHT && 0 <= j0 < WIDTH
    reads field
  {
    Product4(ViewCount(UpLine(field, i0, j0)), ViewCount(LeftLine(field, i0, j0)),
             ViewCount(DownLine(field, i0, j0)), ViewCount(RightLine(field, i0, j0)))
  }

  function Product4(a: nat, b: nat, c: nat, d: nat): nat {
    a * b * c * d
  }

  /** `scenic_score`: four loops count trees outward from (i0, j0) and stop
      after the first tree that blocks the view or repeats the height of
      the tree before it. */
  method ScenicScore(field: array2<int>, i0: int, j0: int) returns (score: nat)
    requires IsField(field) && 0 <= i0 < HEIGHT && 0 <= j0 < WIDTH
    ensures score == Score(field, i0, j0)
  {
    var up := LookUp(field, i0, j0);
    var left := LookLeft(field, i0, j0);
    var down := LookDown(field, i0, j0);
    var right := LookRight(field, i0, j0);
    score := Product4(up, left, down, right);
  }

  /** Lines 69-75. */
  method LookUp(field: array2<int>, i0: int, j0: int) returns (up: nat)
    requires IsField(field) && 0 <= i0 < HEIGHT && 0 <= j0 < WIDTH
    ensures up == ViewCount(UpLine(field, i0, j0))
  {
    ghost var line := UpLine(field, i0, j0);
    up := 0;
    var i := i0 - 1;
    while i >= 0
      invariant -1 <= i <= i0 - 1 && up == i0 - 1 - i
      invariant CountFrom(line, 1) == CountFrom(line, up + 1)
    {
      up := up + 1;
      assert line[up] == field[i, j0] && line[up - 1] == field[i + 1, j0] && line[0] == field[i0, j0];
      if field[i, j0] >= field[i0, j0] || field[i, j0] == field[i + 1, j0] {
        break;
      }
      i := i - 1;
    }
  }

  /** Lines 78-84. */
  method LookLeft(field: array2<int>, i0: int, j0: int) returns (left: nat)
    requires IsField(field) && 0 <= i0 < HEIGHT && 0 <= j0 < WIDTH
    ensures left == ViewCount(LeftLine(field, i0, j0))
  {
    ghost var line := LeftLine(field, i0, j0);
    left := 0;
    var j := j0 - 1;
    while j >= 0
      invariant -1 <= j <= j0 - 1 && left == j0 - 1 - j
      invariant CountFrom(line, 1) == CountFrom(line, left + 1)
    {
      left := left + 1;
      assert line[left] == field[i0, j] && line[left - 1] == field[i0, j + 1] && line[0] == field[i0, j0];
      if field[i0, j] >= field[i0, j0] || field[i0, j] == field[i0, j + 1] {
        break;
      }
      j := j - 1;
    }
  }

  /** Lines 87-93. */
  method LookDown(field: array2<int>, i0: int, j0: int) returns (down: nat)
    requires IsField(field) && 0 <= i0 < HEIGHT && 0 <= j0 < WIDTH
    ensures down == ViewCount(DownLine(field, i0, j0))
  {
    ghost var line := DownLine(field, i0, j0);
    down := 0;
    var i := i0 + 1;
    while i < HEIGHT
      invariant i0 + 1 <= i <= HEIGHT && down == i - i0 - 1
      invariant CountFrom(line, 1) == CountFrom(line, down + 1)
    {
      down := down + 1;
      assert line[down] == field[i, j0] && line[down - 1] == field[i - 1, j0] && line[0] == field[i0, j0];
      if field[i, j0] >= field[i0, j0] || field[i, j0] == field[i - 1, j0] {
        break;
      }
      i := i + 1;
    }
  }

  /** Lines 96-102. */
  method LookRight(field: array2<int>, i0: int, j0: int) returns (right: nat)
    requires IsField(field) && 0 <= i0 < HEIGHT && 0 <= j0 < WIDTH
    ensures right == ViewCount(RightLine(field, i0, j0))
  {
    ghost var line := RightLine(field, i0, j0);
    right := 0;
    var j := j0 + 1;
    while j < WIDTH
      invariant j0 + 1 <= j <= WIDTH && right == j - j0 - 1
      invariant CountFrom(line, 1) == CountFrom(line, right + 1)
    {
      right := right + 1;
      assert line[right] == field[i0, j] && line[right - 1] == field[i0, j - 1] && line[0] == field[i0, j0];
      if field[i0, j] >= field[i0, j0] || field[i0, j] == field[i0, j - 1] {
        break;
      }
      j := j + 1;
    }
  }

  /** No cell before row i, column j (in reading order) scores above `best`. */
  ghost predicate AtLeastScores(field: array2<int>, best: int, i: int, j: int)
    requires IsField(field)
    reads field
  {
    forall r, c :: 0 <= r < HEIGHT && 0 <= c < WIDTH && (r < i || (r == i && c < j)) ==> Score(field, r, c) <= best
  }

  lemma AtLeastStep(field: array2<int>, best: int, best': int, i: int, j: int)
    requires IsField(field) && 0 <= i < HEIGHT && 0 <= j < WIDTH
    requires AtLeastScores(field, best, i, j) && best <= best' && Score(field, i, j) <= best'
    ensures AtLeastScores(field, best', i, j + 1)
  {
    forall r, c | 0 <= r < HEIGHT && 0 <= c < WIDTH && (r < i || (r == i && c < j + 1))
      ensures Score(field, r, c) <= best'
    {
      if r < i || c < j {
        assert Score(field, r, c) <= best;
      }
    }
  }

  /** `best` is 0 or the score of some cell. */
  ghost predicate Attained(field: array2<int>, best: int)
    requires IsField(field)
    reads field
  {
    best == 0 || exists r, c :: 0 <= r < HEIGHT && 0 <= c < WIDTH && Score(field, r, c) == best
  }

  /** `best_scenic_score`: the largest score over all cells, starting from 0. */
  method BestScenicScore(field: array2<int>) returns (best: nat)
    requires IsField(field)
    ensures forall i, j :: 0 <= i < HEIGHT && 0 <= j < WIDTH ==> Score(field, i, j) <= best
    ensures Attained(field, best)
  {
    best := 0;
    var i := 0;
    while i < HEIGHT
      invariant 0 <= i <= HEIGHT
      invariant AtLeastScores(field, best, i, 0) && Attained(field, best)
    {
      var j := 0;
      while j < WIDTH
        invariant 0 <= j <= WIDTH
        invariant AtLeastScores(field, best, i, j) && Attained(field, best)
      {
        var score := ScenicScore(field, i, j);
        ghost var before := best;
        if score > best {
          best := score;
        }
        AtLeastStep(field, before, best, i, j);
        j := j + 1;
      }
      assert AtLeastScores(field, best, i + 1, 0);
      i := i + 1;
    }
    assert AtLeastScores(field, best, HEIGHT, 0);
  }

  // ---------------------------------------------------------------------
  // Properties

  /** The count of visible trees lies between the number of border trees
      and the number of all trees. */
  lemma CountBounds(field: array2<int>)
    requires IsField(field)
    ensures BORDER <= BORDER + CountRows(field, HEIGHT - 1) <= HEIGHT * WIDTH
  {
    RowsBound(field, HEIGHT - 1);
  }

  lemma {:induction false} RowsBound(field: array2<int>, m: int)
    requires IsField(field) && m <= HEIGHT - 1
    ensures CountRows(field, m) <= (if m <= 1 then 0 else m - 1) * (WIDTH - 2)
  {
    if m > 1 {
      RowsBound(field, m - 1);
    }
  }

  /** The look stops at the first tree that blocks it: every tree before
      the last one counted lets the view pass, and the last one counted
      blocks it unless it stands at the edge. */
  lemma {:induction false} ViewCountMeaning(line: seq<int>, k: nat)
    requires 1 <= k <= |line|
    ensures var r := CountFrom(line, k);
      && (forall m :: k <= m < r ==> !Stops(line, m))
      && (r < |line| - 1 ==> Stops(line, r))
    decreases |line| - k
  {
    if k < |line| && !Stops(line, k) {
      ViewCountMeaning(line, k + 1);
    }
  }

  /** A tree on the border sees nothing in one direction, so its score is 0. */
  lemma BorderScoresZero(field: array2<int>, i0: int, j0: int)
    requires IsField(field) && 0 <= i0 < HEIGHT && 0 <= j0 < WIDTH
    requires !Interior(i0, j0)
    ensures Score(field, i0, j0) == 0
  {
  }

  /** An interior tree sees at least one tree in every direction, and at
      most the distance to the edge. */
  lemma InteriorViewBounds(field: array2<int>, i0: int, j0: int)
    requires IsField(field) && Interior(i0, j0)
    ensures 1 <= ViewCount(UpLine(field, i0, j0)) <= i0
    ensures 1 <= ViewCount(LeftLine(field, i0, j0)) <= j0
    ensures 1 <= ViewCount(DownLine(field, i0, j0)) <= HEIGHT - 1 - i0
    ensures 1 <= ViewCount(RightLine(field, i0, j0)) <= WIDTH - 1 - j0
  {
  }
}

/** Hill climbing (12/HillClimbing.cpp): a height map is read into a
    directed graph whose edges go to grid neighbours at most one step
    higher, and breadth-first search finds the fewest steps from the start
    to the end, or from any square of height 'a'. */
module Hill {

  import opened JavaLang

  const INT_MAX := 0x7fff_ffff
  const SIZE_T_MODULUS := 0x1_0000_0000_0000_0000

  // ---------------------------------------------------------------------
  // Reading the height map

  /** The stored height of a square: the start is an 'a', the end a 'z'. */
  function Height(c: char): (h: char)
    ensures h != 'S' && h != 'E'
    ensures c != 'S' && c != 'E' ==> h == c
  {
    if c == 'S' then 'a' else if c == 'E' then 'z' else c
  }

  /** The vertices read from `s`: every character but the newlines. */
  function Vertices(s: string): (r: seq<char>)
    ensures |r| <= |s|
    ensures forall k :: 0 <= k < |r| ==> r[k] != 'S' && r[k] != 'E'
  {
    if s == [] then []
    else Vertices(s[..|s| - 1]) + (if s[|s| - 1] == '\n' then [] else [Height(s[|s| - 1])])
  }

  /** The field width: the number of vertices before the first newline that
      comes after a vertex, or 0 while there is none. */
  function FieldWidth(s: string): nat
  {
    if s == [] then 0
    else
      var w := FieldWidth(s[..|s| - 1]);
      if s[|s| - 1] == '\n' && w == 0 then |Vertices(s[..|s| - 1])| else w
  }

  /** Reading one more character of `input`. */
  lemma ReadStep(input: string, k: nat)
    requires k < |input|
    ensures var s, c := input[..k], input[k];
      && Vertices(input[..k + 1]) == Vertices(s) + (if c == '\n' then [] else [Height(c)])
      && FieldWidth(input[..k + 1]) == (if c == '\n' && FieldWidth(s) == 0 then |Vertices(s)| else FieldWidth(s))
  {
    assert input[..k + 1][..k] == input[..k];
  }

  /** The recorded position of marker `m` after reading `s`; `before` is
      what was recorded before any marker was seen. */
  function Marker(s: string, m: char, before: int): int
    requires m != '\n'
  {
    if LastMarker(s, m) >= 0 then LastMarker(s, m) else before
  }

  /** How the recorded position of a marker changes with one more character. */
  lemma MarkerStep(input: string, k: nat, m: char, before: int)
    requires k < |input| && m != '\n'
    ensures Marker(input[..k + 1], m, before)
         == if input[k] == m then |Vertices(input[..k])| else Marker(input[..k], m, before)
  {
    assert input[..k + 1][..k] == input[..k];
  }

  /** The vertex index of the last `m` in `s`, or -1. */
  function LastMarker(s: string, m: char): (r: int)
    requires m != '\n'
    ensures -1 <= r < |Vertices(s)|
    ensures r >= 0 ==> Vertices(s)[r] == Height(m)
  {
    if s == [] then -1
    else if s[|s| - 1] == m then |Vertices(s[..|s| - 1])|
    else
      var r := LastMarker(s[..|s| - 1], m);
      assert r >= 0 ==> Vertices(s)[r] == Vertices(s[..|s| - 1])[r];
      r
  }

  /** `j` is at most one higher than `i`. */
  predicate Climbable(v: seq<char>, i: int, j: int)
    requires 0 <= i < |v| && 0 <= j < |v|
  {
    v[j] as int <= v[i] as int + 1
  }

  /** The edges out of vertex `i` in a grid `w` wide: up, down, left and
      right, each if it exists and is climbable. */
  function EdgeSet(v: seq<char>, w: int, i: int): (r: set<int>)
    requires w > 0 && 0 <= i < |v|
    ensures forall j :: j in r ==> 0 <= j < |v| && j != i && Climbable(v, i, j)
  {
    (if i >= w && Climbable(v, i, i - w) then {i - w} else {})
    + (if i + w < |v| && Climbable(v, i, i + w) then {i + w} else {})
    + (if i % w > 0 && Climbable(v, i, i - 1) then {i - 1} else {})
    + (if i % w < w - 1 && i + 1 < |v| && Climbable(v, i, i + 1) then {i + 1} else {})
  }

  /** Row and column of a vertex in a grid `w` wide. */
  function Row(w: int, i: int): int
    requires w > 0
  {
    i / w
  }

  function Col(w: int, i: int): int
    requires w > 0
  {
    i % w
  }

  /** `i` and `j` are next to each other in the same row or the same column. */
  predicate GridNeighbours(w: int, i: int, j: int)
    requires w > 0
  {
    || (Row(w, i) == Row(w, j) && (Col(w, j) == Col(w, i) + 1 || Col(w, j) + 1 == Col(w, i)))
    || (Col(w, i) == Col(w, j) && (Row(w, j) == Row(w, i) + 1 || Row(w, j) + 1 == Row(w, i)))
  }

  /** Every edge target is a vertex. */
  ghost predicate EdgesInRange(edges: seq<set<int>>) {
    forall i, j :: 0 <= i < |edges| && j in edges[i] ==> 0 <= j < |edges|
  }

  /** The members of `s` below `k` in increasing order, the order in which
      a `std::set<int>` yields them. */
  function Ascending(s: set<int>, k: int): (r: seq<int>)
    ensures forall i :: 0 <= i < |r| ==> r[i] in s && 0 <= r[i] < k
    ensures forall i, j :: 0 <= i < j < |r| ==> r[i] < r[j]
    ensures forall v :: 0 <= v < k && v in s ==> v in r
    decreases k
  {
    if k <= 0 then [] else Ascending(s, k - 1) + (if k - 1 in s then [k - 1] else [])
  }

  // ---------------------------------------------------------------------
  // Distances

  /** The vertices reachable from `s` in at most `k` steps. */
  ghost function Reach(edges: seq<set<int>>, s: int, k: nat): (r: set<int>)
    requires EdgesInRange(edges) && 0 <= s < |edges|
    ensures forall x :: x in r ==> 0 <= x < |edges|
  {
    if k == 0 then {s}
    else
      var prev := Reach(edges, s, k - 1);
      prev + (set u, x | u in prev && x in edges[u] :: x)
  }

  /** `t` is `l` steps from `s`, and no fewer. */
  ghost predicate IsDistance(edges: seq<set<int>>, s: int, t: int, l: int)
    requires EdgesInRange(edges) && 0 <= s < |edges|
  {
    l >= 0 && t in Reach(edges, s, l) && forall k :: 0 <= k < l ==> t !in Reach(edges, s, k)
  }

  /** No number of steps leads from `s` to `t`. */
  ghost predicate Unreachable(edges: seq<set<int>>, s: int, t: int)
    requires EdgesInRange(edges) && 0 <= s < |edges|
  {
    forall k: nat :: t !in Reach(edges, s, k)
  }

  // ---------------------------------------------------------------------
  // The state of the search

  predicate Shape(n: int, disc: seq<bool>, p: seq<int>, d: seq<int>) {
    |disc| == n && |p| == n && |d| == n
  }

  /** The discovered vertices form a tree of parent links rooted at `s`;
      `d` is the depth in that tree, and undiscovered vertices have no
      parent. */
  ghost predicate Links(edges: seq<set<int>>, s: int, disc: seq<bool>, p: seq<int>, d: seq<int>)
    requires 0 <= s < |edges| && Shape(|edges|, disc, p, d)
  {
    && disc[s] && p[s] == -1 && d[s] == 0
    && (forall v {:trigger p[v]} :: 0 <= v < |edges| && disc[v] && v != s ==>
          0 <= p[v] < |edges| && disc[p[v]] && v in edges[p[v]] && d[v] == d[p[v]] + 1)
    && (forall v {:trigger p[v]} :: 0 <= v < |edges| && !disc[v] ==> p[v] == -1)
    && (forall v :: 0 <= v < |edges| && disc[v] ==> d[v] >= 0)
  }

  /** A discovered vertex is reachable in its depth. */
  ghost predicate Sound(edges: seq<set<int>>, s: int, disc: seq<bool>, d: seq<int>)
    requires EdgesInRange(edges) && 0 <= s < |edges| && |disc| == |edges| && |d| == |edges|
  {
    forall v {:trigger Reach(edges, s, d[v])} :: 0 <= v < |edges| && disc[v] && d[v] >= 0 ==> v in Reach(edges, s, d[v])
  }

  /** `e` is not reachable in fewer steps than its depth. */
  ghost predicate EndExact(edges: seq<set<int>>, s: int, e: int, d: seq<int>)
    requires EdgesInRange(edges) && 0 <= s < |edges| && 0 <= e < |d|
  {
    forall k :: 0 <= k < d[e] ==> e !in Reach(edges, s, k)
  }

  predicate QueueIn(disc: seq<bool>, q: seq<int>) {
    forall i :: 0 <= i < |q| ==> 0 <= q[i] < |disc| && disc[q[i]]
  }

  /** Depths along the queue never fall and span at most one level. */
  ghost predicate QueueLevels(disc: seq<bool>, d: seq<int>, q: seq<int>)
    requires |d| == |disc| && QueueIn(disc, q)
  {
    && (forall i, j :: 0 <= i <= j < |q| ==> d[q[i]] <= d[q[j]])
    && (|q| > 0 ==> d[q[|q| - 1]] <= d[q[0]] + 1)
  }

  /** The vertices in `x` have been expanded: their successors are
      discovered at most one level deeper, and they are no deeper than
      anything queued; every discovered vertex is expanded or queued. */
  ghost predicate Expanded(edges: seq<set<int>>, disc: seq<bool>, d: seq<int>, q: seq<int>, x: set<int>)
    requires EdgesInRange(edges) && |disc| == |edges| && |d| == |edges| && QueueIn(disc, q)
  {
    && (forall u {:trigger u in x} :: u in x ==> 0 <= u < |edges| && disc[u])
    && (forall u, w {:trigger w in edges[u], u in x} :: u in x && w in edges[u] ==> disc[w] && d[w] <= d[u] + 1)
    && (forall u, i {:trigger q[i], u in x} :: u in x && 0 <= i < |q| ==> d[u] <= d[q[i]])
    && (forall v :: 0 <= v < |edges| && disc[v] ==> v in x || v in q)
  }

  /** The state at the head of the outer loop of `bfs`. Until the end is
      discovered, the queue and the expanded set keep the search level by
      level. */
  ghost predicate Outer(edges: seq<set<int>>, s: int, e: int, disc: seq<bool>, p: seq<int>, d: seq<int>,
                        q: seq<int>, x: set<int>)
    requires EdgesInRange(edges) && 0 <= s < |edges| && 0 <= e < |edges|
  {
    && Shape(|edges|, disc, p, d)
    && Links(edges, s, disc, p, d) && Sound(edges, s, disc, d) && QueueIn(disc, q)
    && (disc[e] ==> EndExact(edges, s, e, d))
    && (!disc[e] ==> QueueLevels(disc, d, q) && Expanded(edges, disc, d, q, x))
  }

  /** The state inside the expansion of `u`, whose successors outside
      `rest` have been looked at. */
  ghost predicate Inner(edges: seq<set<int>>, s: int, e: int, disc: seq<bool>, p: seq<int>, d: seq<int>,
                        q: seq<int>, x: set<int>, u: int, rest: seq<int>)
    requires EdgesInRange(edges) && 0 <= s < |edges| && 0 <= e < |edges|
  {
    && Shape(|edges|, disc, p, d) && 0 <= u < |edges| && disc[u]
    && (forall i :: 0 <= i < |rest| ==> rest[i] in edges[u])
    && Links(edges, s, disc, p, d) && Sound(edges, s, disc, d) && QueueIn(disc, q)
    && (disc[e] ==> EndExact(edges, s, e, d))
    && (!disc[e] ==>
          && QueueIn(disc, [u] + q) && QueueLevels(disc, d, [u] + q) && Expanded(edges, disc, d, [u] + q, x)
          && forall w {:trigger w in edges[u]} :: w in edges[u] && w !in rest ==> disc[w] && d[w] <= d[u] + 1)
  }

  /** What `bfs` leaves behind. */
  ghost predicate Searched(edges: seq<set<int>>, s: int, e: int, p: seq<int>, d: seq<int>)
    requires EdgesInRange(edges) && 0 <= s < |edges| && 0 <= e < |edges|
  {
    && |p| == |edges| && |d| == |edges|
    && p[s] == -1 && d[s] == 0
    && (forall v :: 0 <= v < |edges| && v != s && p[v] != -1 ==>
          0 <= p[v] < |edges| && v in edges[p[v]] && d[v] == d[p[v]] + 1 && (p[v] == s || p[p[v]] != -1))
    && (forall v :: 0 <= v < |edges| && (v == s || p[v] != -1) ==> d[v] >= 0 && v in Reach(edges, s, d[v]))
    && ((e == s || p[e] != -1) ==> EndExact(edges, s, e, d))
    && (e != s && p[e] == -1 ==> Unreachable(edges, s, e))
  }

  function Undiscovered(disc: seq<bool>): set<int> {
    set v | 0 <= v < |disc| && !disc[v]
  }

  /** The loop of `bfs` on the graph `g`: the parent of each vertex, and
      the depth at which the search reached it. */
  method Search(g: seq<set<int>>, s: int, t: int) returns (p: seq<int>, ghost d: seq<int>)
    requires EdgesInRange(g) && 0 <= s < |g| && 0 <= t < |g|
    ensures Searched(g, s, t, p, d)
  {
    var n := |g|;
    var disc := seq(n, _ => false);
    p := seq(n, _ => -1);
    d := seq(n, _ => 0);
    var q := [s];
    disc := disc[s := true];
    ghost var x: set<int> := {};
    OuterInit(g, s, t, disc, p, d, q);
    while q != []
      invariant Outer(g, s, t, disc, p, d, q, x)
      decreases Undiscovered(disc), |q|
    {
      var u := q[0];
      assert q == [u] + q[1..];
      q := q[1..];
      PopKeeps(g, s, t, disc, p, d, q, x, u);
      ghost var x' := x;
      disc, p, q, d, x' := Expand(g, s, t, u, disc, p, q, d, x);
      x := x';
    }
    Done(g, s, t, disc, p, d, x);
  }

/** The body of the outer loop of `bfs`, after `u` has been taken from
      the queue: each undiscovered successor of `u`, in increasing order, is
      discovered with parent `u` and queued; the search stops looking at the
      successors of `u` once it has met `t`. */
  method Expand(g: seq<set<int>>, s: int, t: int, u: int, disc: seq<bool>, p: seq<int>, q: seq<int>,
                ghost d: seq<int>, ghost x: set<int>)
    returns (disc': seq<bool>, p': seq<int>, q': seq<int>, ghost d': seq<int>, ghost x': set<int>)
    requires EdgesInRange(g) && 0 <= s < |g| && 0 <= t < |g|
    requires 0 <= u < |g| && Inner(g, s, t, disc, p, d, q, x, u, Ascending(g[u], |g|))
    ensures Outer(g, s, t, disc', p', d', q', x')
    ensures Undiscovered(disc') < Undiscovered(disc) || (Undiscovered(disc') == Undiscovered(disc) && q' == q)
  {
    disc', p', q', d' := disc, p, q, d;
    var rest := Ascending(g[u], |g|);
    var stop := false;
    while rest != [] && !stop
      invariant Inner(g, s, t, disc', p', d', q', x, u, rest)
      invariant stop ==> disc'[t]
      invariant Undiscovered(disc') < Undiscovered(disc) || (Undiscovered(disc') == Undiscovered(disc) && q' == q)
      decreases |rest|
    {
      var v := rest[0];
      assert rest == [v] + rest[1..];
      rest := rest[1..];
      if !disc'[v] {
        DiscoverKeeps(g, s, t, disc', p', d', q', x, u, rest, v);
        assert Undiscovered(disc'[v := true]) == Undiscovered(disc') - {v};
        disc' := disc'[v := true];
        q' := q' + [v];
        p' := p'[v := u];
        d' := d'[v := d'[u] + 1];
      } else {
        SkipKeeps(g, s, t, disc', p', d', q', x, u, rest, v);
      }
      if v == t {
        stop := true;
      }
    }
    FinishKeeps(g, s, t, disc', p', d', q', x, u, rest);
    x' := if disc'[t] then x else x + {u};
  }

  /** The body of the second loop of `read_graph`: the climbable
      neighbours of vertex `i`. `inRange` is false when the right neighbour
      lies past the last vertex, where `vertices.at(right)` throws
      `out_of_range`; the neighbours found before that are still in `e`. */
  method ClimbableNeighbours(vertices: seq<char>, w: int, i: int) returns (e: set<int>, inRange: bool)
    requires w > 0 && 0 <= i < |vertices|
    ensures e == EdgeSet(vertices, w, i)
    ensures inRange <==> !(i % w < w - 1 && i + 1 == |vertices|)
  {
    e := {};
    if i >= w {
      var up := i - w;
      if vertices[up] as int <= vertices[i] as int + 1 { e := e + {up}; }
    }
    if i + w < |vertices| {
      var down := i + w;
      if vertices[down] as int <= vertices[i] as int + 1 { e := e + {down}; }
    }
    if i % w > 0 {
      var left := i - 1;
      if vertices[left] as int <= vertices[i] as int + 1 { e := e + {left}; }
    }
    if i % w < w - 1 {
      var right := i + 1;
      if right == |vertices| {
        return e, false;
      }
      if vertices[right] as int <= vertices[i] as int + 1 { e := e + {right}; }
    }
    inRange := true;
  }

  /** No vertex before `i` has height 'a'. */
  predicate NoneBefore(v: seq<char>, i: int)
    requires 0 <= i <= |v|
  {
    forall j :: 0 <= j < i ==> v[j] != 'a'
  }

  /** `s` is the last vertex of height 'a' before `i`. */
  predicate LastBefore(v: seq<char>, i: int, s: int)
    requires 0 <= i <= |v|
  {
    0 <= s < i && v[s] == 'a' && forall j :: s < j < i ==> v[j] != 'a'
  }

  lemma LastAtA(v: seq<char>, i: int)
    requires 0 <= i < |v| && v[i] == 'a'
    ensures !NoneBefore(v, i + 1) && LastBefore(v, i + 1, i)
  {
  }

  lemma PastOther(v: seq<char>, i: int, s: int)
    requires 0 <= i < |v| && v[i] != 'a'
    ensures NoneBefore(v, i + 1) == NoneBefore(v, i)
    ensures LastBefore(v, i, s) ==> LastBefore(v, i + 1, s)
  {
  }

  /** The running minimum of `find_shortest_path_from_any_a` after the
      vertices before `i`: INT_MAX or the distance from one of their 'a's,
      and no more than the steps any of their 'a's needs. */
  ghost predicate BestSoFar(edges: seq<set<int>>, v: seq<char>, e: int, i: int, shortest: int)
    requires EdgesInRange(edges) && |edges| == |v| && 0 <= e < |v| && 0 <= i <= |v|
  {
    && shortest <= INT_MAX
    && (shortest == INT_MAX || exists j :: 0 <= j < i && v[j] == 'a' && j != e && IsDistance(edges, j, e, shortest))
    && forall j, k: nat :: 0 <= j < i && v[j] == 'a' && j != e && e in Reach(edges, j, k) ==> shortest <= k
  }

  lemma BestPastOther(edges: seq<set<int>>, v: seq<char>, e: int, i: int, shortest: int)
    requires EdgesInRange(edges) && |edges| == |v| && 0 <= e < |v| && 0 <= i < |v| && v[i] != 'a'
    requires BestSoFar(edges, v, e, i, shortest)
    ensures BestSoFar(edges, v, e, i + 1, shortest)
  {
  }

  class HillClimbingAlgorithm {
    /** The constructor value-initialises `start` and `end` to vertex 0. */
    var start: int
    var end: int
    var fieldWidth: int
    var vertices: seq<char>
    var edges: seq<set<int>>
    var parent: seq<int>
    /** The depth of each discovered vertex in the search tree. */
    ghost var depth: seq<int>

    ghost predicate Valid()
      reads this
    {
      |edges| == |vertices| && EdgesInRange(edges)
    }

    constructor ()
      ensures start == 0 && end == 0 && fieldWidth == 0
      ensures vertices == [] && edges == [] && parent == []
      ensures Valid()
    {
      start := 0;
      end := 0;
      fieldWidth := 0;
      vertices := [];
      edges := [];
      parent := [];
      depth := [];
    }

    /** `read_graph`: the vertices, then the edges of every vertex. When the
        number of vertices is not a multiple of the width, the right
        neighbour of the last vertex is read past the end and `out_of_range`
        is thrown (`ok` is false), after every vertex has its edges. */
    method ReadGraph(input: string) returns (ok: bool)
      requires vertices == [] && edges == [] && fieldWidth == 0
      requires Vertices(input) != [] ==> FieldWidth(input) > 0
      modifies this
      ensures ok <==> Vertices(input) == [] || |Vertices(input)| % FieldWidth(input) == 0
      ensures vertices == Vertices(input) && fieldWidth == FieldWidth(input)
      ensures start == (if LastMarker(input, 'S') >= 0 then LastMarker(input, 'S') else old(start))
      ensures end == (if LastMarker(input, 'E') >= 0 then LastMarker(input, 'E') else old(end))
      ensures |edges| == |vertices| && forall i :: 0 <= i < |vertices| ==> edges[i] == EdgeSet(vertices, fieldWidth, i)
      ensures Valid() && parent == old(parent)
    {
      ReadVertices(input);
      ok := true;
      if vertices != [] {
        ok := AddEdges();
      }
      forall i, j | 0 <= i < |edges| && j in edges[i] ensures 0 <= j < |edges| {
        EdgeSetInRange(vertices, fieldWidth, i, j);
      }
    }

    /** The first loop of `read_graph`. */
    method ReadVertices(input: string)
      requires vertices == [] && edges == [] && fieldWidth == 0
      modifies this
      ensures vertices == Vertices(input) && fieldWidth == FieldWidth(input)
      ensures start == (if LastMarker(input, 'S') >= 0 then LastMarker(input, 'S') else old(start))
      ensures end == (if LastMarker(input, 'E') >= 0 then LastMarker(input, 'E') else old(end))
      ensures |edges| == |vertices| && forall i :: 0 <= i < |edges| ==> edges[i] == {}
      ensures parent == old(parent)
    {
      var vs, es, width, st, en := vertices, edges, fieldWidth, start, end;
      var i := 0;
      var k := 0;
      while k < |input|
        invariant k <= |input| && i == |vs|
        invariant vs == Vertices(input[..k]) && width == FieldWidth(input[..k])
        invariant st == Marker(input[..k], 'S', old(start)) && en == Marker(input[..k], 'E', old(end))
        invariant |es| == |vs| && forall j :: 0 <= j < |es| ==> es[j] == {}
        invariant parent == old(parent)
      {
        var c := input[k];
        ReadStep(input, k);
        MarkerStep(input, k, 'S', old(start));
        MarkerStep(input, k, 'E', old(end));
        if c == '\n' {
          if width == 0 {
            width := i;
          }
        } else {
          if c == 'S' {
            st := i;
            c := 'a';
          }
          if c == 'E' {
            en := i;
            c := 'z';
          }
          vs := vs + [c];
          es := es + [{}];
          i := i + 1;
        }
        k := k + 1;
      }
      assert input[..k] == input;
      vertices := vs;
      edges := es;
      fieldWidth := width;
      start := st;
      end := en;
    }

    /** The second loop of `read_graph`, with the down neighbour guarded by
        `i + field_width < vertices.size()`. */
    method AddEdges() returns (ok: bool)
      requires fieldWidth > 0
      requires |edges| == |vertices| && forall i :: 0 <= i < |edges| ==> edges[i] == {}
      modifies this
      ensures vertices == old(vertices) && fieldWidth == old(fieldWidth) && start == old(start) && end == old(end)
      ensures parent == old(parent)
      ensures ok <==> |vertices| % fieldWidth == 0
      ensures |edges| == |vertices| && forall i :: 0 <= i < |vertices| ==> edges[i] == EdgeSet(vertices, fieldWidth, i)
    {
      var v, w := vertices, fieldWidth;
      var i := 0;
      while i < |v|
        invariant i <= |v| && |edges| == |v|
        invariant vertices == v && fieldWidth == w
        invariant start == old(start) && end == old(end) && parent == old(parent)
        invariant forall j :: 0 <= j < i ==> edges[j] == EdgeSet(v, w, j)
        invariant forall j :: i <= j < |edges| ==> edges[j] == {}
        invariant i == |v| && i > 0 ==> i % w == 0
      {
        var e, inRange := ClimbableNeighbours(v, w, i);
        edges := edges[i := edges[i] + e];
        if i == |v| - 1 {
          LastRightInRange(|v|, w);
        }
        if !inRange {
          return false;
        }
        i := i + 1;
      }
      ok := true;
    }

    /** `bfs`: breadth-first search from `start`, taking the successors of
        each vertex in increasing order, and leaving the successors that
        follow `end` unvisited. */
    method Bfs()
      requires Valid() && 0 <= start < |vertices| && 0 <= end < |vertices|
      modifies this
      ensures start == old(start) && end == old(end) && fieldWidth == old(fieldWidth)
      ensures vertices == old(vertices) && edges == old(edges)
      ensures Searched(edges, start, end, parent, depth)
    {
      var p, d := Search(edges, start, end);
      parent := p;
      depth := d;
    }

    /** `find_shortest_path`: the number of parent links from `end` back to
        `start`, or INT_MAX when `end` has no parent. */
    method FindShortestPath() returns (length: int)
      requires Valid() && 0 <= start < |vertices| && 0 <= end < |vertices|
      modifies this
      ensures start == old(start) && end == old(end) && fieldWidth == old(fieldWidth)
      ensures vertices == old(vertices) && edges == old(edges)
      ensures Searched(edges, start, end, parent, depth)
      ensures (end == start || Unreachable(edges, start, end)) ==> length == INT_MAX
      ensures !(end == start || Unreachable(edges, start, end)) ==> IsDistance(edges, start, end, length)
    {
      Bfs();
      var v := end;
      length := 0;
      if parent[v] == -1 {
        if end != start {
          assert Unreachable(edges, start, end);
        }
        return INT_MAX;
      }
      while parent[v] != -1
        invariant 0 <= v < |vertices| && (v == start || parent[v] != -1)
        invariant length + depth[v] == depth[end] && depth[v] >= 0
        decreases depth[v]
      {
        v := parent[v];
        length := length + 1;
      }
      assert v == start;
      assert end in Reach(edges, start, depth[end]);
    }

    /** One iteration of `find_shortest_path_from_any_a`: the search from the
        'a' at `i`, keeping the shorter of `best` and its length. */
    method TryFrom(i: int, best: int) returns (shortest: int)
      requires Valid() && 0 <= end < |vertices| && 0 <= i < |vertices| && vertices[i] == 'a'
      requires BestSoFar(edges, vertices, end, i, best)
      modifies this
      ensures end == old(end) && vertices == old(vertices) && edges == old(edges) && fieldWidth == old(fieldWidth)
      ensures start == i && Searched(edges, start, end, parent, depth)
      ensures BestSoFar(edges, vertices, end, i + 1, shortest)
    {
      start := i;
      var length := FindShortestPath();
      shortest := best;
      if length < shortest {
        shortest := length;
      }
      forall k: nat | i != end && end in Reach(edges, i, k) ensures shortest <= k {
        if length != INT_MAX {
          DistanceAtMost(edges, i, end, length, k);
        }
      }
    }

    /** After the vertices before `i`: `shortest` is the best length from
        an 'a' so far, and the last such 'a' is the current search's start. */
    ghost predicate ScannedBefore(i: int, shortest: int, start0: int, parent0: seq<int>)
      reads this
      requires Valid() && 0 <= i <= |vertices| && 0 <= end < |vertices|
    {
      && BestSoFar(edges, vertices, end, i, shortest)
      && (NoneBefore(vertices, i) ==> start == start0 && parent == parent0)
      && (!NoneBefore(vertices, i) ==> LastBefore(vertices, i, start) && 0 <= start < |vertices|)
      && (!NoneBefore(vertices, i) ==> Searched(edges, start, end, parent, depth))
    }

    /** One pass of the loop of `find_shortest_path_from_any_a`. */
    method ScanOne(i: int, shortest: int, ghost start0: int, ghost parent0: seq<int>) returns (shortest': int)
      requires Valid() && 0 <= i < |vertices| && 0 <= end < |vertices|
      requires ScannedBefore(i, shortest, start0, parent0)
      modifies this
      ensures end == old(end) && vertices == old(vertices) && edges == old(edges) && fieldWidth == old(fieldWidth)
      ensures Valid() && ScannedBefore(i + 1, shortest', start0, parent0)
    {
      if vertices[i] == 'a' {
        shortest' := TryFrom(i, shortest);
        LastAtA(vertices, i);
      } else {
        shortest' := shortest;
        PastOther(vertices, i, start);
        BestPastOther(edges, vertices, end, i, shortest);
      }
    }

    /** `find_shortest_path_from_any_a`: the fewest steps to `end` from any
        vertex of height 'a', each tried as `start` in turn. */
    method FindShortestPathFromAnyA() returns (shortest: int)
      requires Valid() && 0 <= end < |vertices|
      modifies this
      ensures end == old(end) && vertices == old(vertices) && edges == old(edges) && fieldWidth == old(fieldWidth)
      ensures shortest == INT_MAX ||
        exists i :: 0 <= i < |vertices| && vertices[i] == 'a' && i != end && IsDistance(edges, i, end, shortest)
      ensures forall i, k: nat :: 0 <= i < |vertices| && vertices[i] == 'a' && i != end && end in Reach(edges, i, k) ==>
        shortest <= k
      ensures if NoneBefore(vertices, |vertices|) then start == old(start) && parent == old(parent)
        else LastBefore(vertices, |vertices|, start) && Searched(edges, start, end, parent, depth)
    {
      shortest := INT_MAX;
      var i := 0;
      while i < |vertices|
        invariant i <= |vertices| && Valid() && 0 <= end < |vertices|
        invariant end == old(end) && vertices == old(vertices) && edges == old(edges) && fieldWidth == old(fieldWidth)
        invariant ScannedBefore(i, shortest, old(start), old(parent))
      {
        shortest := ScanOne(i, shortest, old(start), old(parent));
        i := i + 1;
      }
    }
  }

  // ---------------------------------------------------------------------
  // Lemmas about the grid

  /** The last of `n` vertices has a column to its right exactly when `n`
      is not a multiple of the width. */
  lemma LastRightInRange(n: int, w: int)
    requires w > 0 && n > 0
    ensures (n - 1) % w < w - 1 <==> n % w != 0
  {
    var q, r := (n - 1) / w, (n - 1) % w;
    if r < w - 1 {
      DivModUnique(n, w, q, r + 1);
    } else {
      assert n == (q + 1) * w;
      DivModUnique(n, w, q + 1, 0);
    }
  }

  lemma EdgeSetInRange(v: seq<char>, w: int, i: int, j: int)
    requires w > 0 && 0 <= i < |v| && j in EdgeSet(v, w, i)
    ensures 0 <= j < |v|
  {
  }

  /** An edge of `read_graph` goes exactly to a climbable vertex beside or
      above or below, never wrapping from one row to the next. */
  lemma EdgeMeaning(v: seq<char>, w: int, i: int, j: int)
    requires w > 0 && |v| % w == 0 && 0 <= i < |v|
    ensures j in EdgeSet(v, w, i) <==> 0 <= j < |v| && GridNeighbours(w, i, j) && Climbable(v, i, j)
  {
    if j in EdgeSet(v, w, i) {
      EdgeIsNeighbour(v, w, i, j);
    }
    if 0 <= j < |v| && GridNeighbours(w, i, j) && Climbable(v, i, j) {
      NeighbourIsEdge(v, w, i, j);
    }
  }

  lemma EdgeIsNeighbour(v: seq<char>, w: int, i: int, j: int)
    requires w > 0 && 0 <= i < |v| && j in EdgeSet(v, w, i)
    ensures 0 <= j < |v| && GridNeighbours(w, i, j) && Climbable(v, i, j)
  {
    var up := if i >= w && Climbable(v, i, i - w) then {i - w} else {};
    var down := if i + w < |v| && Climbable(v, i, i + w) then {i + w} else {};
    var left := if i % w > 0 && Climbable(v, i, i - 1) then {i - 1} else {};
    var right := if i % w < w - 1 && i + 1 < |v| && Climbable(v, i, i + 1) then {i + 1} else {};
    assert EdgeSet(v, w, i) == up + down + left + right;
    if j in up {
      Vertical(w, j, i);
      assert Col(w, i) == Col(w, j) && Row(w, j) + 1 == Row(w, i);
    } else if j in down {
      Vertical(w, i, j);
      assert Col(w, i) == Col(w, j) && Row(w, j) == Row(w, i) + 1;
    } else if j in left {
      Horizontal(w, j, i);
      assert Row(w, i) == Row(w, j) && Col(w, j) + 1 == Col(w, i);
    } else {
      assert j in right;
      Horizontal(w, i, j);
      assert Row(w, i) == Row(w, j) && Col(w, j) == Col(w, i) + 1;
    }
  }

  lemma NeighbourIsEdge(v: seq<char>, w: int, i: int, j: int)
    requires w > 0 && |v| % w == 0 && 0 <= i < |v|
    requires 0 <= j < |v| && GridNeighbours(w, i, j) && Climbable(v, i, j)
    ensures j in EdgeSet(v, w, i)
  {
    if Row(w, i) == Row(w, j) && Col(w, j) == Col(w, i) + 1 {
      Horizontal(w, i, j);
    } else if Row(w, i) == Row(w, j) && Col(w, j) + 1 == Col(w, i) {
      Horizontal(w, j, i);
    } else if Col(w, i) == Col(w, j) && Row(w, j) == Row(w, i) + 1 {
      Vertical(w, i, j);
    } else {
      Vertical(w, j, i);
    }
  }

  /** `b` is right of `a` exactly when it is the next index and `a` is not
      last in its row. */
  lemma Horizontal(w: int, a: int, b: int)
    requires w > 0 && 0 <= a && 0 <= b
    ensures (Row(w, a) == Row(w, b) && Col(w, b) == Col(w, a) + 1) <==> (b == a + 1 && a % w < w - 1)
    ensures b == a + 1 ==> (a % w < w - 1 <==> b % w > 0)
  {
    var q, r := a / w, a % w;
    if b == a + 1 && r < w - 1 {
      DivModUnique(b, w, q, r + 1);
    }
    if b == a + 1 && r == w - 1 {
      assert b == (q + 1) * w;
      DivModUnique(b, w, q + 1, 0);
    }
    if Row(w, a) == Row(w, b) && Col(w, b) == Col(w, a) + 1 {
      assert b == (b / w) * w + b % w;
    }
  }

  /** `b` is below `a` exactly when it is `w` further on. */
  lemma Vertical(w: int, a: int, b: int)
    requires w > 0 && 0 <= a && 0 <= b
    ensures (Col(w, a) == Col(w, b) && Row(w, b) == Row(w, a) + 1) <==> b == a + w
  {
    var q, r := a / w, a % w;
    if b == a + w {
      assert b == (q + 1) * w + r;
      DivModUnique(b, w, q + 1, r);
    }
    if Col(w, a) == Col(w, b) && Row(w, b) == Row(w, a) + 1 {
      assert b == (b / w) * w + b % w;
      assert (q + 1) * w == q * w + w;
    }
  }

  /** The guard on the down neighbour as written: the subtraction is done on
      `size_t`. */
  predicate DownGuardAsWritten(i: int, n: int, w: int) {
    i <= (n - w - 1) % SIZE_T_MODULUS
  }

  /** On a grid of one row the guard as written lets vertex 0 look at the
      vertex `w` below it, which is past the end: `vertices.at` throws. */
  lemma DownGuardOneRow(w: int)
    requires 0 < w < SIZE_T_MODULUS
    ensures DownGuardAsWritten(0, w, w) && !(0 + w < w)
  {
  }

  /** On a grid of two rows or more the guard as written is the intended
      `i + w < n`. */
  lemma DownGuardAgrees(i: int, n: int, w: int)
    requires 0 < w < n < SIZE_T_MODULUS && 0 <= i
    ensures DownGuardAsWritten(i, n, w) <==> i + w < n
  {
  }

  // ---------------------------------------------------------------------
  // Lemmas about reachability

  /** A successor of a vertex reachable in `k` steps is reachable in `k + 1`. */
  lemma ReachStep(edges: seq<set<int>>, s: int, k: nat, u: int, w: int)
    requires EdgesInRange(edges) && 0 <= s < |edges|
    requires u in Reach(edges, s, k) && w in edges[u]
    ensures w in Reach(edges, s, k + 1)
  {
  }

  /** More steps reach at least as much. */
  lemma {:induction false} ReachGrows(edges: seq<set<int>>, s: int, k: nat, l: nat)
    requires EdgesInRange(edges) && 0 <= s < |edges| && k <= l
    ensures Reach(edges, s, k) <= Reach(edges, s, l)
    decreases l
  {
    if k < l {
      ReachGrows(edges, s, k, l - 1);
    }
  }

  /** A distance is no more than any number of steps that reaches. */
  lemma DistanceAtMost(edges: seq<set<int>>, s: int, t: int, l: int, k: nat)
    requires EdgesInRange(edges) && 0 <= s < |edges|
    requires IsDistance(edges, s, t, l) && t in Reach(edges, s, k)
    ensures l <= k
  {
  }

  /** A distance is unique. */
  lemma DistanceUnique(edges: seq<set<int>>, s: int, t: int, l1: int, l2: int)
    requires EdgesInRange(edges) && 0 <= s < |edges|
    requires IsDistance(edges, s, t, l1) && IsDistance(edges, s, t, l2)
    ensures l1 == l2
  {
  }

  // ---------------------------------------------------------------------
  // Lemmas about the search

  /** Until the end is found, a vertex reachable in `k` steps is discovered
      no deeper than `k`, unless `k` is beyond the head of the queue. */
  lemma {:induction false} Layered(edges: seq<set<int>>, s: int, disc: seq<bool>, p: seq<int>, d: seq<int>,
                                   q: seq<int>, x: set<int>, k: nat)
    requires EdgesInRange(edges) && 0 <= s < |edges| && Shape(|edges|, disc, p, d)
    requires Links(edges, s, disc, p, d) && QueueIn(disc, q)
    requires QueueLevels(disc, d, q) && Expanded(edges, disc, d, q, x)
    ensures forall w :: w in Reach(edges, s, k) ==> (disc[w] && d[w] <= k) || (|q| > 0 && k > d[q[0]])
  {
    if k > 0 {
      Layered(edges, s, disc, p, d, q, x, k - 1);
      forall w | w in Reach(edges, s, k) ensures (disc[w] && d[w] <= k) || (|q| > 0 && k > d[q[0]]) {
        LayerStep(edges, s, disc, d, q, x, k, w);
      }
    }
  }

  /** A vertex first reached in `k` steps has a predecessor reached in
      `k - 1`. */
  lemma Predecessor(edges: seq<set<int>>, s: int, k: nat, w: int) returns (u: int)
    requires EdgesInRange(edges) && 0 <= s < |edges| && k > 0
    requires w in Reach(edges, s, k) && w !in Reach(edges, s, k - 1)
    ensures u in Reach(edges, s, k - 1) && w in edges[u]
  {
    var prev := Reach(edges, s, k - 1);
    assert w in (set u, x | u in prev && x in edges[u] :: x);
    u :| u in prev && w in edges[u];
  }

  lemma LayerStep(edges: seq<set<int>>, s: int, disc: seq<bool>, d: seq<int>, q: seq<int>, x: set<int>, k: nat, w: int)
    requires EdgesInRange(edges) && 0 <= s < |edges| && |disc| == |edges| && |d| == |edges| && k > 0
    requires QueueIn(disc, q) && QueueLevels(disc, d, q) && Expanded(edges, disc, d, q, x)
    requires forall y :: y in Reach(edges, s, k - 1) ==> (disc[y] && d[y] <= k - 1) || (|q| > 0 && k - 1 > d[q[0]])
    requires w in Reach(edges, s, k)
    ensures (disc[w] && d[w] <= k) || (|q| > 0 && k > d[q[0]])
  {
    if w !in Reach(edges, s, k - 1) {
      var u := Predecessor(edges, s, k, w);
      if !(|q| > 0 && k - 1 > d[q[0]]) {
        assert disc[u] && d[u] <= k - 1;
        if u !in x {
          assert u in q;
          var i :| 0 <= i < |q| && q[i] == u;
          assert d[q[0]] <= d[q[i]];
        }
      }
    }
  }

  lemma OuterInit(edges: seq<set<int>>, s: int, e: int, disc: seq<bool>, p: seq<int>, d: seq<int>, q: seq<int>)
    requires EdgesInRange(edges) && 0 <= s < |edges| && 0 <= e < |edges|
    requires disc == seq(|edges|, _ => false)[s := true] && p == seq(|edges|, _ => -1) && d == seq(|edges|, _ => 0)
    requires q == [s]
    ensures Outer(edges, s, e, disc, p, d, q, {})
  {
    assert Reach(edges, s, 0) == {s};
  }

  lemma PopKeeps(edges: seq<set<int>>, s: int, e: int, disc: seq<bool>, p: seq<int>, d: seq<int>,
                 q: seq<int>, x: set<int>, u: int)
    requires EdgesInRange(edges) && 0 <= s < |edges| && 0 <= e < |edges|
    requires Outer(edges, s, e, disc, p, d, [u] + q, x) && 0 <= u < |edges|
    ensures Inner(edges, s, e, disc, p, d, q, x, u, Ascending(edges[u], |edges|))
  {
    assert ([u] + q)[0] == u;
    assert forall i :: 0 <= i < |q| ==> q[i] == ([u] + q)[i + 1];
  }

  /** Every discovered vertex is at most one level below the vertex being
      expanded. */
  lemma DiscoveredBelow(edges: seq<set<int>>, s: int, e: int, disc: seq<bool>, p: seq<int>, d: seq<int>,
                        q: seq<int>, x: set<int>, u: int, rest: seq<int>, v: int)
    requires EdgesInRange(edges) && 0 <= s < |edges| && 0 <= e < |edges|
    requires Inner(edges, s, e, disc, p, d, q, x, u, rest) && !disc[e]
    requires 0 <= v < |edges| && disc[v]
    ensures d[v] <= d[u] + 1
  {
    var qq := [u] + q;
    assert qq[0] == u;
    if v !in x {
      var i :| 0 <= i < |qq| && qq[i] == v;
      assert d[qq[i]] <= d[qq[|qq| - 1]];
    } else {
      assert d[v] <= d[qq[0]];
    }
  }

  lemma DiscoverKeeps(edges: seq<set<int>>, s: int, e: int, disc: seq<bool>, p: seq<int>, d: seq<int>,
                      q: seq<int>, x: set<int>, u: int, rest: seq<int>, v: int)
    requires EdgesInRange(edges) && 0 <= s < |edges| && 0 <= e < |edges|
    requires Inner(edges, s, e, disc, p, d, q, x, u, [v] + rest) && v in edges[u] && !disc[v]
    ensures Inner(edges, s, e, disc[v := true], p[v := u], d[v := d[u] + 1], q + [v], x, u, rest)
  {
    var disc', p', d', q' := disc[v := true], p[v := u], d[v := d[u] + 1], q + [v];
    assert forall i :: 0 <= i < |rest| ==> rest[i] == ([v] + rest)[i + 1];
    DiscoverLinks(edges, s, disc, p, d, u, v);
    assert QueueIn(disc', q');
    if disc[e] {
      assert d'[e] == d[e];
      assert EndExact(edges, s, e, d');
    } else if v == e {
      DiscoverEnd(edges, s, e, disc, p, d, q, x, u, [v] + rest);
    } else {
      DiscoverQueue(edges, s, e, disc, p, d, q, x, u, rest, v);
    }
  }

  /** Discovering `v` from `u` keeps the parent tree and its depths. */
  lemma DiscoverLinks(edges: seq<set<int>>, s: int, disc: seq<bool>, p: seq<int>, d: seq<int>, u: int, v: int)
    requires EdgesInRange(edges) && 0 <= s < |edges| && Shape(|edges|, disc, p, d)
    requires Links(edges, s, disc, p, d) && Sound(edges, s, disc, d)
    requires 0 <= u < |edges| && disc[u] && v in edges[u] && !disc[v]
    ensures Links(edges, s, disc[v := true], p[v := u], d[v := d[u] + 1])
    ensures Sound(edges, s, disc[v := true], d[v := d[u] + 1])
  {
    DiscoverTree(edges, s, disc, p, d, u, v);
    DiscoverSound(edges, s, disc, d, u, v);
  }

  lemma DiscoverTree(edges: seq<set<int>>, s: int, disc: seq<bool>, p: seq<int>, d: seq<int>, u: int, v: int)
    requires 0 <= s < |edges| && Shape(|edges|, disc, p, d) && Links(edges, s, disc, p, d)
    requires 0 <= u < |edges| && disc[u] && v in edges[u] && 0 <= v < |edges| && !disc[v]
    ensures Links(edges, s, disc[v := true], p[v := u], d[v := d[u] + 1])
  {
    var disc', p', d' := disc[v := true], p[v := u], d[v := d[u] + 1];
    forall w | 0 <= w < |edges| && disc'[w] && w != s
      ensures 0 <= p'[w] < |edges| && disc'[p'[w]] && w in edges[p'[w]] && d'[w] == d'[p'[w]] + 1
    {
      if w != v {
        assert disc[w] && p'[w] == p[w] && d'[w] == d[w];
        assert p[w] != v && d'[p[w]] == d[p[w]];
      }
    }
    forall w | 0 <= w < |edges| && !disc'[w] ensures p'[w] == -1 {
      assert w != v && !disc[w];
    }
    forall w | 0 <= w < |edges| && disc'[w] ensures d'[w] >= 0 {
      if w != v {
        assert disc[w];
      }
    }
  }

  lemma DiscoverSound(edges: seq<set<int>>, s: int, disc: seq<bool>, d: seq<int>, u: int, v: int)
    requires EdgesInRange(edges) && 0 <= s < |edges| && |disc| == |edges| && |d| == |edges|
    requires Sound(edges, s, disc, d)
    requires 0 <= u < |edges| && disc[u] && d[u] >= 0 && v in edges[u] && 0 <= v < |edges|
    ensures Sound(edges, s, disc[v := true], d[v := d[u] + 1])
  {
    var disc', d' := disc[v := true], d[v := d[u] + 1];
    forall w | 0 <= w < |edges| && disc'[w] && d'[w] >= 0 ensures w in Reach(edges, s, d'[w]) {
      if w == v {
        assert u in Reach(edges, s, d[u]);
        ReachStep(edges, s, d[u], u, v);
      } else {
        assert disc[w] && d'[w] == d[w];
      }
    }
  }

  /** The end, discovered from `u`, is no nearer than one level below `u`. */
  lemma DiscoverEnd(edges: seq<set<int>>, s: int, e: int, disc: seq<bool>, p: seq<int>, d: seq<int>,
                    q: seq<int>, x: set<int>, u: int, rest: seq<int>)
    requires EdgesInRange(edges) && 0 <= s < |edges| && 0 <= e < |edges|
    requires Inner(edges, s, e, disc, p, d, q, x, u, rest) && !disc[e]
    ensures forall k :: 0 <= k < d[u] + 1 ==> e !in Reach(edges, s, k)
  {
    assert ([u] + q)[0] == u;
    forall k | 0 <= k < d[u] + 1 ensures e !in Reach(edges, s, k) {
      Layered(edges, s, disc, p, d, [u] + q, x, k);
    }
  }

  lemma DiscoverQueue(edges: seq<set<int>>, s: int, e: int, disc: seq<bool>, p: seq<int>, d: seq<int>,
                      q: seq<int>, x: set<int>, u: int, rest: seq<int>, v: int)
    requires EdgesInRange(edges) && 0 <= s < |edges| && 0 <= e < |edges|
    requires Inner(edges, s, e, disc, p, d, q, x, u, [v] + rest) && v in edges[u] && !disc[v]
    requires !disc[e] && v != e
    ensures
      var disc', d', qq := disc[v := true], d[v := d[u] + 1], [u] + (q + [v]);
      && QueueIn(disc', qq) && QueueLevels(disc', d', qq) && Expanded(edges, disc', d', qq, x)
      && forall w :: w in edges[u] && w !in rest ==> disc'[w] && d'[w] <= d[u] + 1
  {
    var disc', d' := disc[v := true], d[v := d[u] + 1];
    var oq := [u] + q;
    assert [u] + (q + [v]) == oq + [v];
    assert oq[0] == u;
    LevelsAfterDiscover(disc, d, oq, v);
    ExpandedAfterDiscover(edges, disc, d, oq, x, v);
    forall w | w in edges[u] && w !in rest ensures disc'[w] && d'[w] <= d[u] + 1 {
      if w != v {
        assert w !in [v] + rest;
      }
    }
  }

  /** Queueing a newly discovered vertex one level below the head keeps
      the queue levelled. */
  lemma LevelsAfterDiscover(disc: seq<bool>, d: seq<int>, oq: seq<int>, v: int)
    requires |d| == |disc| && QueueIn(disc, oq) && QueueLevels(disc, d, oq) && oq != []
    requires 0 <= v < |disc| && !disc[v]
    ensures var disc', d' := disc[v := true], d[v := d[oq[0]] + 1];
      QueueIn(disc', oq + [v]) && QueueLevels(disc', d', oq + [v])
  {
    var disc', d', qq := disc[v := true], d[v := d[oq[0]] + 1], oq + [v];
    assert forall i :: 0 <= i < |oq| ==> qq[i] == oq[i] && d'[oq[i]] == d[oq[i]];
    forall i | 0 <= i < |oq| ensures d[oq[i]] <= d[oq[0]] + 1 {
      assert d[oq[i]] <= d[oq[|oq| - 1]];
    }
    assert QueueIn(disc', qq);
  }

  /** ... and keeps what has been expanded expanded. */
  lemma ExpandedAfterDiscover(edges: seq<set<int>>, disc: seq<bool>, d: seq<int>, oq: seq<int>, x: set<int>, v: int)
    requires EdgesInRange(edges) && |disc| == |edges| && |d| == |edges| && QueueIn(disc, oq) && oq != []
    requires QueueLevels(disc, d, oq) && Expanded(edges, disc, d, oq, x)
    requires 0 <= v < |disc| && !disc[v]
    ensures var disc', d' := disc[v := true], d[v := d[oq[0]] + 1];
      QueueIn(disc', oq + [v]) && Expanded(edges, disc', d', oq + [v], x)
  {
    var disc', d', qq := disc[v := true], d[v := d[oq[0]] + 1], oq + [v];
    assert forall i :: 0 <= i < |oq| ==> qq[i] == oq[i] && d'[oq[i]] == d[oq[i]];
    assert QueueIn(disc', qq);
    assert forall y :: y in x ==> y != v;
  }

  lemma SkipKeeps(edges: seq<set<int>>, s: int, e: int, disc: seq<bool>, p: seq<int>, d: seq<int>,
                  q: seq<int>, x: set<int>, u: int, rest: seq<int>, v: int)
    requires EdgesInRange(edges) && 0 <= s < |edges| && 0 <= e < |edges|
    requires Inner(edges, s, e, disc, p, d, q, x, u, [v] + rest) && v in edges[u] && disc[v]
    ensures Inner(edges, s, e, disc, p, d, q, x, u, rest)
  {
    assert forall i :: 0 <= i < |rest| ==> rest[i] == ([v] + rest)[i + 1];
    if !disc[e] {
      DiscoveredBelow(edges, s, e, disc, p, d, q, x, u, [v] + rest, v);
      forall w | w in edges[u] && w !in rest ensures disc[w] && d[w] <= d[u] + 1 {
        if w != v {
          assert w !in [v] + rest;
        }
      }
    }
  }

  lemma FinishKeeps(edges: seq<set<int>>, s: int, e: int, disc: seq<bool>, p: seq<int>, d: seq<int>,
                    q: seq<int>, x: set<int>, u: int, rest: seq<int>)
    requires EdgesInRange(edges) && 0 <= s < |edges| && 0 <= e < |edges|
    requires Inner(edges, s, e, disc, p, d, q, x, u, rest) && (rest == [] || disc[e])
    ensures Outer(edges, s, e, disc, p, d, q, if disc[e] then x else x + {u})
  {
    if !disc[e] {
      QueueTail(disc, d, u, q);
      FinishExpanded(edges, disc, d, q, x, u);
    }
  }

  lemma QueueTail(disc: seq<bool>, d: seq<int>, u: int, q: seq<int>)
    requires |d| == |disc| && QueueIn(disc, [u] + q) && QueueLevels(disc, d, [u] + q)
    ensures QueueIn(disc, q) && QueueLevels(disc, d, q)
  {
    var qq := [u] + q;
    assert forall i :: 0 <= i < |q| ==> q[i] == qq[i + 1];
  }

  /** Once all its successors are looked at, `u` joins the expanded set. */
  lemma FinishExpanded(edges: seq<set<int>>, disc: seq<bool>, d: seq<int>, q: seq<int>, x: set<int>, u: int)
    requires EdgesInRange(edges) && |disc| == |edges| && |d| == |edges|
    requires QueueIn(disc, [u] + q) && QueueIn(disc, q) && QueueLevels(disc, d, [u] + q)
    requires Expanded(edges, disc, d, [u] + q, x)
    requires forall w {:trigger w in edges[u]} :: w in edges[u] ==> disc[w] && d[w] <= d[u] + 1
    ensures Expanded(edges, disc, d, q, x + {u})
  {
    var qq := [u] + q;
    var x' := x + {u};
    assert qq[0] == u;
    forall y, i | y in x' && 0 <= i < |q| ensures d[y] <= d[q[i]] {
      assert q[i] == qq[i + 1];
      assert d[qq[0]] <= d[qq[i + 1]];
    }
    forall v | 0 <= v < |edges| && disc[v] ensures v in x' || v in q {
      if v !in x' {
        assert v in qq;
        var i :| 0 <= i < |qq| && qq[i] == v;
        assert i > 0 && q[i - 1] == v;
      }
    }
  }

  lemma Done(edges: seq<set<int>>, s: int, e: int, disc: seq<bool>, p: seq<int>, d: seq<int>, x: set<int>)
    requires EdgesInRange(edges) && 0 <= s < |edges| && 0 <= e < |edges|
    requires Outer(edges, s, e, disc, p, d, [], x)
    ensures Searched(edges, s, e, p, d)
  {
    forall v | 0 <= v < |edges| ensures disc[v] <==> v == s || p[v] != -1 {
    }
    if !disc[e] {
      forall k: nat ensures e !in Reach(edges, s, k) {
        Layered(edges, s, disc, p, d, [], x, k);
      }
    }
  }
}

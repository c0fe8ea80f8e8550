/** Calorie counting (01/CountingCalories.kt): blank lines separate the
    groups of numbers an elf carries; a two-state machine adds up each group
    and keeps the largest sums in `NGreatest`, a sorted linked list that
    never holds more than its capacity. */
module Calories {

  import opened Wrappers
  import opened Decimal

  // ---------------------------------------------------------------------
  // Sorted sequences and the "n greatest" relation

  /** Non-increasing from front to back. */
  predicate Descending(s: seq<int>) {
    forall i, j :: 0 <= i < j < |s| ==> s[i] >= s[j]
  }

  /** The first `k` elements (all of them when there are fewer). */
  function Take(s: seq<int>, k: int): (r: seq<int>)
    ensures |r| == if k <= 0 then 0 else if k < |s| then k else |s|
    ensures r <= s
  {
    if k <= 0 then [] else if k < |s| then s[..k] else s
  }

  /** `x` placed in front of the first element it is not smaller than. */
  function InsertSorted(x: int, s: seq<int>): (r: seq<int>)
    ensures |r| == |s| + 1
  {
    if s == [] then [x]
    else if x >= s[0] then [x] + s
    else [s[0]] + InsertSorted(x, s[1..])
  }

  /** `kept` holds the `capacity` greatest values of the multiset `all`:
      it is sorted, as long as it can be, drawn from `all`, and every value
      left out is at most every value kept. */
  ghost predicate GreatestOf(all: multiset<int>, kept: seq<int>, capacity: int) {
    && Descending(kept)
    && |kept| == (if capacity <= 0 then 0 else if capacity < |all| then capacity else |all|)
    && multiset(kept) <= all
    && (|kept| > 0 ==> forall y :: y in all - multiset(kept) ==> y <= kept[|kept| - 1])
  }

  // ---------------------------------------------------------------------
  // The linked list of NGreatest

  /** `ListNode<T>?`: `Nil` stands for `null`. */
  datatype Chain = Nil | Node(value: int, next: Chain)

  function Elements(c: Chain): (s: seq<int>)
    ensures |s| == Length(c)
  {
    match c
    case Nil => []
    case Node(v, n) => [v] + Elements(n)
  }

  function Length(c: Chain): nat {
    match c
    case Nil => 0
    case Node(_, n) => 1 + Length(n)
  }

  /** `ListNode.takeN`: the first `n` nodes, or the whole list if shorter. */
  function TakeN(c: Chain, n: nat): (r: Chain)
    ensures Elements(r) == Take(Elements(c), n)
  {
    if n == 0 then Nil
    else match c
      case Nil => Nil
      case Node(v, next) => Node(v, TakeN(next, n - 1))
  }

  /** `NGreatest._insert(x, N, count)`: copies the list from `N` on, placing
      `x` (when there is one) in front of the first value it is not smaller
      than, and cuts the result off once `count` reaches the capacity. */
  function InsertNode(x: Option<int>, c: Chain, count: int, capacity: int): (r: Chain)
    decreases capacity - count
  {
    if count >= capacity then Nil
    else if x.None? then (match c case Nil => Nil case Node(_, _) => TakeN(c, capacity - count))
    else match c
      case Nil => Node(x.value, Nil)
      case Node(v, next) =>
        if x.value >= v then Node(x.value, InsertNode(None, c, count + 1, capacity))
        else Node(v, InsertNode(x, next, count + 1, capacity))
  }

  /** `NGreatest<Int>`: the head of the list is replaced on every insert. */
  class NGreatest {
    const capacity: int
    var head: Chain
    /** Every value inserted so far. */
    ghost var inserted: multiset<int>

    ghost predicate Valid()
      reads this
    {
      GreatestOf(inserted, Elements(head), capacity)
    }

    constructor (capacity: int)
      ensures this.capacity == capacity && head == Nil && inserted == multiset{}
      ensures Valid()
    {
      this.capacity := capacity;
      head := Nil;
      inserted := multiset{};
    }

    method Insert(x: int)
      requires Valid()
      modifies this
      ensures head == InsertNode(Some(x), old(head), 0, capacity)
      ensures inserted == old(inserted) + multiset{x}
      ensures Valid()
    {
      InsertNodeGreatest(inserted, head, capacity, x);
      head := InsertNode(Some(x), head, 0, capacity);
      inserted := inserted + multiset{x};
    }

    /** `toList`: the values from head to tail. */
    method ToList() returns (l: seq<int>)
      ensures l == Elements(head)
    {
      l := [];
      var n := head;
      while n != Nil
        invariant l + Elements(n) == Elements(head)
        decreases Length(n)
      {
        l := l + [n.value];
        n := n.next;
      }
    }
  }

  // ---------------------------------------------------------------------
  // The state machine

  datatype State =
    | ReadyState(currentSum: int, topThree: NGreatest)
    | CountingState(currentSum: int, topThree: NGreatest)

  /** `consume`: a number starts or extends a group; a missing number
      (blank or non-numeric line) closes the group being counted. */
  method Consume(s: State, input: Option<int>) returns (t: State)
    requires s.topThree.Valid()
    modifies s.topThree
    ensures t.topThree == s.topThree && t.topThree.Valid()
    ensures s.ReadyState? && input.None? ==> t == s && unchanged(s.topThree)
    ensures s.ReadyState? && input.Some? ==> t == CountingState(input.value, s.topThree) && unchanged(s.topThree)
    ensures s.CountingState? && input.Some? ==> t == CountingState(s.currentSum + input.value, s.topThree) && unchanged(s.topThree)
    ensures s.CountingState? && input.None? ==>
      && t == ReadyState(0, s.topThree)
      && s.topThree.head == InsertNode(Some(s.currentSum), old(s.topThree.head), 0, s.topThree.capacity)
      && s.topThree.inserted == old(s.topThree.inserted) + multiset{s.currentSum}
  {
    match s
    case ReadyState(sum, top) =>
      if input.None? {
        t := ReadyState(sum, top);
      } else {
        t := CountingState(input.value, top);
      }
    case CountingState(sum, top) =>
      if input.None? {
        top.Insert(sum);
        t := ReadyState(0, top);
      } else {
        t := CountingState(sum + input.value, top);
      }
  }

  /** Whether the machine is counting, the running sum, and the sums of the
      groups closed so far, after the given inputs. */
  datatype Scan = Scan(counting: bool, sum: int, closed: seq<int>)

  function Step(sc: Scan, input: Option<int>): Scan {
    match input
    case Some(n) => Scan(true, if sc.counting then sc.sum + n else n, sc.closed)
    case None => if sc.counting then Scan(false, 0, sc.closed + [sc.sum]) else sc
  }

  function ScanAll(inputs: seq<Option<int>>): Scan {
    if inputs == [] then Scan(false, 0, [])
    else Step(ScanAll(inputs[..|inputs| - 1]), inputs[|inputs| - 1])
  }

  /** `toIntOrNull` on a line: digits after an optional sign give their
      value; every other line, the blank one included, gives `null`, which
      closes a group. */
  function ToIntOrNull(line: string): (r: Option<int>)
    ensures line == "" ==> r.None?
    ensures |line| > 0 && AllDigits(line) ==> r == Some(Value(line))
    ensures r.Some? <==> SignedNumeral(line)
    ensures r.Some? && line[0] == '-' ==> r.value == -(Value(line[1..]) as int)
    ensures r.Some? && line[0] == '+' ==> r.value == Value(line[1..])
  {
    ParseSigned(line)
  }

  /** The input loop of `main`: feeds every line to the machine and reads
      the list of the three largest group sums. The loop ends with the
      input, so a group that no blank line follows is never inserted. */
  method CountCalories(lines: seq<string>) returns (top: seq<int>)
    ensures GreatestOf(multiset(ScanAll(Inputs(lines)).closed), top, 3)
  {
    var nGreatest := new NGreatest(3);
    var state := ReadyState(0, nGreatest);
    var i := 0;
    ghost var sc := Scan(false, 0, []);
    while i < |lines|
      invariant 0 <= i <= |lines|
      invariant sc == ScanAll(Inputs(lines[..i]))
      invariant state.topThree == nGreatest && nGreatest.Valid() && nGreatest.capacity == 3
      invariant Mirrors(state, sc)
    {
      var input := ToIntOrNull(lines[i]);
      ScanAllSnoc(lines, i);
      state := Consume(state, input);
      sc := Step(sc, input);
      i := i + 1;
    }
    assert lines[..i] == lines;
    top := nGreatest.ToList();
  }

  /** The machine state agrees with the scan of the same inputs. */
  ghost predicate Mirrors(state: State, sc: Scan)
    reads state.topThree
  {
    && state.currentSum == sc.sum
    && state.CountingState? == sc.counting
    && state.topThree.inserted == multiset(sc.closed)
  }

  lemma ScanAllSnoc(lines: seq<string>, i: nat)
    requires i < |lines|
    ensures ScanAll(Inputs(lines[..i + 1])) == Step(ScanAll(Inputs(lines[..i])), ToIntOrNull(lines[i]))
  {
    assert lines[..i + 1] == lines[..i] + [lines[i]];
    InputsSnoc(lines[..i], lines[i]);
    assert Inputs(lines[..i + 1])[..i] == Inputs(lines[..i]);
  }

  function Inputs(lines: seq<string>): (r: seq<Option<int>>)
    ensures |r| == |lines|
  {
    seq(|lines|, k requires 0 <= k < |lines| => ToIntOrNull(lines[k]))
  }

  lemma InputsSnoc(lines: seq<string>, line: string)
    ensures Inputs(lines + [line]) == Inputs(lines) + [ToIntOrNull(line)]
  {
  }

  // ---------------------------------------------------------------------
  // Properties

  lemma TakeCons(v: int, s: seq<int>, k: int)
    requires k >= 1
    ensures Take([v] + s, k) == [v] + Take(s, k - 1)
  {
    if k - 1 < |s| {
      assert ([v] + s)[..k] == [v] + s[..k - 1];
    }
  }

  /** `_insert` on the list computes the sorted insertion cut off at the
      remaining capacity; without a value it is a plain cut-off. */
  lemma {:induction false} InsertNodeElements(x: Option<int>, c: Chain, count: int, capacity: int)
    ensures x.None? ==> Elements(InsertNode(x, c, count, capacity)) == Take(Elements(c), capacity - count)
    ensures x.Some? ==> Elements(InsertNode(x, c, count, capacity)) == Take(InsertSorted(x.value, Elements(c)), capacity - count)
    decreases capacity - count
  {
    if count >= capacity {
    } else if x.None? {
    } else {
      match c
      case Nil =>
      case Node(v, next) =>
        if x.value >= v {
          InsertNodeElements(None, c, count + 1, capacity);
          TakeCons(x.value, Elements(c), capacity - count);
        } else {
          InsertNodeElements(x, next, count + 1, capacity);
          assert Elements(c) == [v] + Elements(next);
          assert InsertSorted(x.value, Elements(c)) == [v] + InsertSorted(x.value, Elements(next));
          TakeCons(v, InsertSorted(x.value, Elements(next)), capacity - count);
        }
    }
  }

  lemma {:induction false} InsertSortedMultiset(x: int, s: seq<int>)
    ensures multiset(InsertSorted(x, s)) == multiset(s) + multiset{x}
  {
    if s != [] && x < s[0] {
      InsertSortedMultiset(x, s[1..]);
      assert s == [s[0]] + s[1..];
    }
  }

  /** `x` lands right in front of the first value it is not smaller than:
      everything before it is greater, everything after it is at most `x`. */
  lemma {:induction false} InsertSortedPosition(x: int, s: seq<int>) returns (p: nat)
    requires Descending(s)
    ensures p <= |s| && InsertSorted(x, s) == s[..p] + [x] + s[p..]
    ensures forall k :: 0 <= k < p ==> s[k] > x
    ensures p < |s| ==> s[p] <= x
  {
    if s == [] || x >= s[0] {
      p := 0;
    } else {
      var q := InsertSortedPosition(x, s[1..]);
      p := q + 1;
      assert s[..p] == [s[0]] + s[1..][..q];
      assert s[p..] == s[1..][q..];
    }
  }

  lemma InsertSortedDescending(x: int, s: seq<int>, p: nat)
    requires Descending(s)
    requires p <= |s| && (forall k :: 0 <= k < p ==> s[k] > x) && (p < |s| ==> s[p] <= x)
    ensures Descending(s[..p] + [x] + s[p..])
  {
    var r := s[..p] + [x] + s[p..];
    forall i, j | 0 <= i < j < |r| ensures r[i] >= r[j] {
      if j < p {
        assert r[i] == s[i] && r[j] == s[j];
      } else if j == p {
        assert r[i] == s[i];
      } else if i == p {
        assert r[j] == s[j - 1];
        assert s[p] >= s[j - 1];
      } else if i < p {
        assert r[i] == s[i] && r[j] == s[j - 1];
      } else {
        assert r[i] == s[i - 1] && r[j] == s[j - 1];
      }
    }
  }

  lemma TakeDescending(s: seq<int>, k: int)
    requires Descending(s)
    ensures Descending(Take(s, k))
  {
  }

  /** Inserting a value keeps the list equal to the greatest values seen. */
  lemma InsertKeepsGreatest(all: multiset<int>, kept: seq<int>, capacity: int, x: int)
    requires GreatestOf(all, kept, capacity)
    ensures GreatestOf(all + multiset{x}, Take(InsertSorted(x, kept), capacity), capacity)
  {
    var p := InsertSortedPosition(x, kept);
    var ins := InsertSorted(x, kept);
    InsertSortedDescending(x, kept, p);
    var r := Take(ins, capacity);
    TakeDescending(ins, capacity);
    assert |all + multiset{x}| == |all| + 1;
    assert |r| == (if capacity <= 0 then 0 else if capacity < |all| + 1 then capacity else |all| + 1);
    InsertedSubset(all, kept, capacity, x);
    if |r| > 0 {
      InsertedBound(all, kept, capacity, x, p);
    }
  }

  /** ... and so does `_insert` on the linked list. */
  lemma InsertNodeGreatest(all: multiset<int>, c: Chain, capacity: int, x: int)
    requires GreatestOf(all, Elements(c), capacity)
    ensures GreatestOf(all + multiset{x}, Elements(InsertNode(Some(x), c, 0, capacity)), capacity)
  {
    InsertKeepsGreatest(all, Elements(c), capacity, x);
    InsertNodeElements(Some(x), c, 0, capacity);
    GreatestOfSame(all + multiset{x}, Take(InsertSorted(x, Elements(c)), capacity),
                   Elements(InsertNode(Some(x), c, 0, capacity)), capacity);
  }

  lemma GreatestOfSame(all: multiset<int>, kept: seq<int>, kept': seq<int>, capacity: int)
    requires GreatestOf(all, kept, capacity) && kept == kept'
    ensures GreatestOf(all, kept', capacity)
  {
  }

  /** What the cut keeps and what it drops together are the old list and `x`. */
  lemma InsertedSplit(kept: seq<int>, x: int, capacity: int)
    ensures var ins := InsertSorted(x, kept); var r := Take(ins, capacity);
      multiset(r) + multiset(ins[|r|..]) == multiset(kept) + multiset{x}
  {
    var ins := InsertSorted(x, kept);
    var r := Take(ins, capacity);
    InsertSortedMultiset(x, kept);
    assert r + ins[|r|..] == ins;
    assert multiset(r + ins[|r|..]) == multiset(ins);
  }

  /** The cut list is drawn from the values seen, `x` included. */
  lemma InsertedSubset(all: multiset<int>, kept: seq<int>, capacity: int, x: int)
    requires multiset(kept) <= all
    ensures multiset(Take(InsertSorted(x, kept), capacity)) <= all + multiset{x}
  {
    var ins := InsertSorted(x, kept);
    var r := Take(ins, capacity);
    InsertedSplit(kept, x, capacity);
    var m := multiset(r) + multiset(ins[|r|..]);
    assert multiset(r) <= m;
    assert multiset(kept) + multiset{x} <= all + multiset{x};
  }

  /** Every value left out after the insert is at most the new last value. */
  lemma InsertedBound(all: multiset<int>, kept: seq<int>, capacity: int, x: int, p: nat)
    requires GreatestOf(all, kept, capacity)
    requires p <= |kept| && InsertSorted(x, kept) == kept[..p] + [x] + kept[p..]
    requires p < |kept| ==> kept[p] <= x
    requires Descending(InsertSorted(x, kept))
    requires |Take(InsertSorted(x, kept), capacity)| > 0
    ensures var r := Take(InsertSorted(x, kept), capacity);
      forall y :: y in (all + multiset{x}) - multiset(r) ==> y <= r[|r| - 1]
  {
    var ins := InsertSorted(x, kept);
    var r := Take(ins, capacity);
    var dropped := ins[|r|..];
    InsertedSplit(kept, x, capacity);
    assert r[|r| - 1] == ins[|r| - 1];
    forall y | y in (all + multiset{x}) - multiset(r) ensures y <= r[|r| - 1] {
      if y in multiset(dropped) {
        var j :| 0 <= j < |dropped| && dropped[j] == y;
        assert dropped[j] == ins[|r| + j];
      } else {
        LeftOutBefore(all, kept, x, multiset(r), multiset(dropped), y);
        LeftOutBelowInserted(all, kept, capacity, x, p, y);
      }
    }
  }

  /** A value left out after the insert that is not among the values the
      insert pushed off the end was already left out before. */
  lemma LeftOutBefore(all: multiset<int>, kept: seq<int>, x: int, r: multiset<int>, dropped: multiset<int>, y: int)
    requires r + dropped == multiset(kept) + multiset{x}
    requires y in (all + multiset{x}) - r && y !in dropped
    ensures y in all - multiset(kept)
  {
    assert (r + dropped)[y] == r[y] + dropped[y];
    assert (multiset(kept) + multiset{x})[y] == multiset(kept)[y] + multiset{x}[y];
    assert (all + multiset{x})[y] == all[y] + multiset{x}[y];
  }

  /** A value left out before the insert stays below the new last value. */
  lemma LeftOutBelowInserted(all: multiset<int>, kept: seq<int>, capacity: int, x: int, p: nat, y: int)
    requires GreatestOf(all, kept, capacity)
    requires p <= |kept| && InsertSorted(x, kept) == kept[..p] + [x] + kept[p..]
    requires p < |kept| ==> kept[p] <= x
    requires y in all - multiset(kept)
    requires |Take(InsertSorted(x, kept), capacity)| > 0
    ensures y <= Take(InsertSorted(x, kept), capacity)[|Take(InsertSorted(x, kept), capacity)| - 1]
  {
    LeftOutMeansFull(all, kept, capacity, y);
    LastKeptAfterInsert(kept, x, p, capacity);
  }

  /** A value can only be left out of a full list, and it is at most the
      list's last value. */
  lemma LeftOutMeansFull(all: multiset<int>, kept: seq<int>, capacity: int, y: int)
    requires capacity > 0 && GreatestOf(all, kept, capacity) && y in all - multiset(kept)
    ensures 0 < |kept| == capacity && y <= kept[|kept| - 1]
  {
    if |kept| < capacity {
      MultisetSubsetSameSize(multiset(kept), all);
      assert false;
    }
  }

  /** Inserting into a full descending list never lowers its last value. */
  lemma LastKeptAfterInsert(kept: seq<int>, x: int, p: nat, capacity: int)
    requires Descending(kept) && 0 < |kept| == capacity
    requires p <= |kept| && InsertSorted(x, kept) == kept[..p] + [x] + kept[p..]
    requires p < |kept| ==> kept[p] <= x
    ensures |Take(InsertSorted(x, kept), capacity)| == capacity
    ensures kept[|kept| - 1] <= Take(InsertSorted(x, kept), capacity)[capacity - 1]
  {
    var ins := InsertSorted(x, kept);
    var r := Take(ins, capacity);
    var n := capacity;
    assert r[n - 1] == ins[n - 1];
    if n - 1 < p {
      assert ins[n - 1] == kept[n - 1];
    } else if n - 1 == p {
      assert ins[n - 1] == x;
    } else {
      assert ins[n - 1] == kept[n - 2];
    }
  }

  lemma MultisetSubsetSameSize(a: multiset<int>, b: multiset<int>)
    requires a <= b && |a| == |b|
    ensures a == b
  {
    var d := b - a;
    assert b == a + d;
    assert |d| == 0;
  }

  /** The list never grows beyond its capacity. */
  lemma InsertBounded(x: int, c: Chain, capacity: int)
    ensures Length(InsertNode(Some(x), c, 0, capacity)) <= if capacity < 0 then 0 else capacity
    ensures Length(InsertNode(Some(x), c, 0, capacity)) <= Length(c) + 1
  {
    InsertNodeElements(Some(x), c, 0, capacity);
  }

  /** A trailing group that no blank line closes is never counted. */
  lemma UnclosedGroupIgnored(inputs: seq<Option<int>>, n: int)
    ensures ScanAll(inputs + [Some(n)]).closed == ScanAll(inputs).closed
  {
    assert (inputs + [Some(n)])[..|inputs|] == inputs;
  }

  /** A blank line after a counted group closes exactly that group. */
  lemma BlankClosesGroup(inputs: seq<Option<int>>)
    requires ScanAll(inputs).counting
    ensures ScanAll(inputs + [None]).closed == ScanAll(inputs).closed + [ScanAll(inputs).sum]
    ensures !ScanAll(inputs + [None]).counting
  {
    assert (inputs + [None])[..|inputs|] == inputs;
  }

  /** Blank lines outside a group change nothing. */
  lemma ExtraBlankIgnored(inputs: seq<Option<int>>)
    requires !ScanAll(inputs).counting
    ensures ScanAll(inputs + [None]) == ScanAll(inputs)
  {
    assert (inputs + [None])[..|inputs|] == inputs;
  }
}

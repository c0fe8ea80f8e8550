/** No space left on device (07/FileSystem.cpp): a terminal session of
    `$ cd` and `$ ls` commands and their output is replayed into a
    directory tree; then the sizes of the directories are aggregated.

    The directories live in an arena: directory i has the index of its
    parent (-1 for the root, which stands for `nullptr`) and the indices of
    its children, which always come after it. Index 0 is the root. */
module FileSystem {

  import opened Wrappers
  import opened Decimal

  /** `FSDir`: name, parent, children in insertion order, and the sum of the
      sizes of the files listed in it. */
  datatype Dir = Dir(name: string, parent: int, children: seq<nat>, fileSize: nat)

  const ROOT_DIR := Dir("/", -1, [], 0)

  // ---------------------------------------------------------------------
  // The shape of the arena

  /** Children come after their parent in the arena. */
  ghost predicate Ordered(dirs: seq<Dir>) {
    forall i, k :: 0 <= i < |dirs| && 0 <= k < |dirs[i].children| ==> i < dirs[i].children[k] < |dirs|
  }

  /** Every directory but the root has a parent before it. */
  ghost predicate ParentsBefore(dirs: seq<Dir>) {
    forall i :: 0 < i < |dirs| ==> 0 <= dirs[i].parent < i
  }

  /** Every directory but the root is listed by its parent. */
  ghost predicate ParentsListed(dirs: seq<Dir>)
    requires ParentsBefore(dirs)
  {
    forall i :: 0 < i < |dirs| ==> i in dirs[dirs[i].parent].children
  }

  /** Every child names its lister as parent. */
  ghost predicate ChildrenLinked(dirs: seq<Dir>)
    requires Ordered(dirs)
  {
    forall i, k :: 0 <= i < |dirs| && 0 <= k < |dirs[i].children| ==> dirs[dirs[i].children[k]].parent == i
  }

  /** No directory lists a child twice. */
  ghost predicate ChildrenDistinct(dirs: seq<Dir>) {
    forall i, k, l :: 0 <= i < |dirs| && 0 <= k < l < |dirs[i].children| ==>
      dirs[i].children[k] != dirs[i].children[l]
  }

  /** The arena is a tree rooted at 0: parent and children links agree,
      every directory is listed once by its parent. */
  ghost predicate Tree(dirs: seq<Dir>) {
    && |dirs| >= 1 && dirs[0].parent == -1
    && Ordered(dirs) && ParentsBefore(dirs)
    && ParentsListed(dirs) && ChildrenLinked(dirs) && ChildrenDistinct(dirs)
  }

  /** `a` is `i` or one of its ancestors. */
  ghost predicate AncestorOrSelf(dirs: seq<Dir>, a: int, i: int)
    requires ParentsBefore(dirs) && 0 <= i < |dirs|
    decreases i
  {
    if i == a then true
    else if i == 0 then false
    else AncestorOrSelf(dirs, a, dirs[i].parent)
  }

  // ---------------------------------------------------------------------
  // Reads

  /** `get_size`: the files of the directory plus the sizes of its children. */
  function Size(dirs: seq<Dir>, i: nat): nat
    requires Ordered(dirs) && i < |dirs|
    decreases |dirs| - i, 1
  {
    dirs[i].fileSize + SumSizes(dirs, i, |dirs[i].children|)
  }

  /** The sizes of the first `k` children of directory `i`, added up. */
  function SumSizes(dirs: seq<Dir>, i: nat, k: nat): nat
    requires Ordered(dirs) && i < |dirs| && k <= |dirs[i].children|
    decreases |dirs| - i, 0, k
  {
    if k == 0 then 0 else SumSizes(dirs, i, k - 1) + Size(dirs, dirs[i].children[k - 1])
  }

  /** `traverse`: a directory, then the traversals of its children in order. */
  function PreOrder(dirs: seq<Dir>, i: nat): (r: seq<nat>)
    requires Ordered(dirs) && i < |dirs|
    ensures |r| >= 1 && r[0] == i
    ensures forall k :: 0 <= k < |r| ==> i <= r[k] < |dirs|
    decreases |dirs| - i, 1
  {
    [i] + PreOrderOf(dirs, i, |dirs[i].children|)
  }

  /** The traversals of the first `k` children of directory `i`, in order. */
  function PreOrderOf(dirs: seq<Dir>, i: nat, k: nat): (r: seq<nat>)
    requires Ordered(dirs) && i < |dirs| && k <= |dirs[i].children|
    ensures forall k :: 0 <= k < |r| ==> i < r[k] < |dirs|
    decreases |dirs| - i, 0, k
  {
    if k == 0 then [] else PreOrderOf(dirs, i, k - 1) + PreOrder(dirs, dirs[i].children[k - 1])
  }

  /** The first of `cs` whose name is `name`, or -1 (`nullptr`). */
  function FirstNamed(dirs: seq<Dir>, cs: seq<nat>, name: string): (r: int)
    requires forall k :: 0 <= k < |cs| ==> cs[k] < |dirs|
    ensures r == -1 <==> forall k :: 0 <= k < |cs| ==> dirs[cs[k]].name != name
    ensures r != -1 ==>
      exists k :: 0 <= k < |cs| && r == cs[k] && dirs[cs[k]].name == name && (forall m :: 0 <= m < k ==> dirs[cs[m]].name != name)
  {
    if cs == [] then -1
    else if dirs[cs[0]].name == name then cs[0]
    else
      var r := FirstNamed(dirs, cs[1..], name);
      assert forall k :: 0 <= k < |cs| - 1 ==> cs[1..][k] == cs[k + 1];
      r
  }

  /** A name that first appears at position `k` of `cs` is found there. */
  lemma FirstNamedAt(dirs: seq<Dir>, cs: seq<nat>, k: nat, name: string)
    requires forall j :: 0 <= j < |cs| ==> cs[j] < |dirs|
    requires k < |cs| && dirs[cs[k]].name == name
    requires forall j :: 0 <= j < k ==> dirs[cs[j]].name != name
    ensures FirstNamed(dirs, cs, name) == cs[k]
  {
    var r := FirstNamed(dirs, cs, name);
    var k' :| 0 <= k' < |cs| && r == cs[k'] && dirs[cs[k']].name == name && (forall m :: 0 <= m < k' ==> dirs[cs[m]].name != name);
  }

  // ---------------------------------------------------------------------
  // Updates

  /** `add_file(s)` on directory `i`. */
  function WithFile(dirs: seq<Dir>, i: nat, s: nat): seq<Dir>
    requires i < |dirs|
  {
    dirs[i := dirs[i].(fileSize := dirs[i].fileSize + s)]
  }

  /** `add_sub_dir(n)` on directory `i`: a new empty directory at the end of
      the arena, appended to the children of `i`. */
  function WithSubDir(dirs: seq<Dir>, i: nat, n: string): seq<Dir>
    requires i < |dirs|
  {
    dirs[i := dirs[i].(children := dirs[i].children + [|dirs|])] + [Dir(n, i, [], 0)]
  }

  /** The directories, as the objects the root owns. */
  class FileTree {
    var dirs: seq<Dir>

    ghost predicate Valid()
      reads this
    {
      Tree(dirs)
    }

    constructor ()
      ensures dirs == [ROOT_DIR] && Valid()
    {
      dirs := [ROOT_DIR];
    }

    /** `get_child`: the first child with the name, or -1. */
    method GetChild(i: nat, name: string) returns (child: int)
      requires Valid() && i < |dirs|
      ensures child == FirstNamed(dirs, dirs[i].children, name)
    {
      var cs := dirs[i].children;
      assert forall j :: 0 <= j < |cs| ==> cs[j] < |dirs|;
      var k := 0;
      while k < |cs|
        invariant k <= |cs|
        invariant forall j :: 0 <= j < k ==> dirs[cs[j]].name != name
      {
        if dirs[cs[k]].name == name {
          FirstNamedAt(dirs, cs, k, name);
          return cs[k];
        }
        k := k + 1;
      }
      return -1;
    }

    /** `get_size`: the loop over the children, calling itself on each. */
    method GetSize(i: nat) returns (size: nat)
      requires Valid() && i < |dirs|
      ensures size == Size(dirs, i)
      decreases |dirs| - i
    {
      size := dirs[i].fileSize;
      var k := 0;
      while k < |dirs[i].children|
        invariant k <= |dirs[i].children|
        invariant size == dirs[i].fileSize + SumSizes(dirs, i, k)
      {
        var s := GetSize(dirs[i].children[k]);
        size := size + s;
        k := k + 1;
      }
    }

    method AddFile(i: nat, s: nat)
      requires Valid() && i < |dirs|
      modifies this
      ensures dirs == WithFile(old(dirs), i, s) && Valid()
    {
      dirs := dirs[i := dirs[i].(fileSize := dirs[i].fileSize + s)];
      assert Tree(dirs) by {
        assert forall j :: 0 <= j < |dirs| ==> dirs[j].children == old(dirs)[j].children && dirs[j].parent == old(dirs)[j].parent;
      }
    }

    method AddSubDir(i: nat, n: string)
      requires Valid() && i < |dirs|
      modifies this
      ensures dirs == WithSubDir(old(dirs), i, n) && Valid()
    {
      SubDirKeepsTree(dirs, i, n);
      dirs := dirs[i := dirs[i].(children := dirs[i].children + [|dirs|])] + [Dir(n, i, [], 0)];
    }
  }

  // ---------------------------------------------------------------------
  // Lines of the session

  /** `\w`, `.` and `-`. */
  predicate IsNameChar(c: char) {
    ('a' <= c <= 'z') || ('A' <= c <= 'Z') || ('0' <= c <= '9') || c == '_' || c == '.' || c == '-'
  }

  /** `[\w.-]+`. */
  predicate IsName(s: string) {
    |s| >= 1 && forall k :: 0 <= k < |s| ==> IsNameChar(s[k])
  }

  /** What the regex `.` does not match. */
  predicate IsLineTerminator(c: char) {
    c == '\n' || c == '\r' || c as int == 0x2028 || c as int == 0x2029
  }

  /** `(..|/|[\w.-]+)`: any two characters, a slash, or a name. */
  predicate IsDest(s: string) {
    || (|s| == 2 && !IsLineTerminator(s[0]) && !IsLineTerminator(s[1]))
    || s == "/"
    || IsName(s)
  }

  datatype Command = Command(cmd: string, dest: string)

  /** `\$ (ls|cd)( (..|/|[\w.-]+))?` matched against the whole line; a
      missing destination reads as the empty string. */
  function CommandLine(line: string): (r: Option<Command>)
    ensures r.Some? ==> r.value.cmd in {"ls", "cd"}
  {
    if |line| < 4 || line[..2] != "$ " || line[2..4] !in {"ls", "cd"} then None
    else
      var rest := line[4..];
      if rest == [] then Some(Command(line[2..4], []))
      else if rest[0] == ' ' && IsDest(rest[1..]) then Some(Command(line[2..4], rest[1..]))
      else None
  }

  /** `dir ([\w.-]+)`. */
  function DirLine(line: string): (r: Option<string>)
    ensures r.Some? ==> IsName(r.value)
  {
    if |line| >= 4 && line[..4] == "dir " && IsName(line[4..]) then Some(line[4..]) else None
  }

  /** `(\d+) [\w.-]+`, read by `sscanf("%zu")` into the size. */
  function FileLine(line: string): (r: Option<nat>)
  {
    var k := DigitPrefix(line);
    if k >= 1 && k < |line| && line[k] == ' ' && IsName(line[k + 1..]) then Some(Value(line[..k])) else None
  }

  /** The line is `k` digits, a space and a name. */
  predicate SizeField(line: string, k: int) {
    1 <= k < |line| && AllDigits(line[..k]) && line[k] == ' ' && IsName(line[k + 1..])
  }

  /** A file line is accepted exactly when it is a number, a space and a
      name, and its size is that number. */
  lemma FileLineMeaning(line: string)
    ensures FileLine(line).Some? <==> exists k :: SizeField(line, k)
    ensures forall k :: SizeField(line, k) ==> FileLine(line) == Some(Value(line[..k]))
  {
    if FileLine(line).Some? {
      assert SizeField(line, DigitPrefix(line));
    }
  }

  datatype Mode = INIT | LS

  /** The `invalid_argument` exceptions of the scanner. */
  datatype ScanError = InvalidLine(line: string) | BadContent(line: string) | NoMatchingSubdir(dest: string)

  /** `cd dest` from `wd` ends in `wd'` with outcome `r`. */
  ghost predicate CdStep(dirs: seq<Dir>, wd: nat, dest: string, r: Result<(), ScanError>, wd': nat)
    requires Tree(dirs) && wd < |dirs|
  {
    if dest == "/" then r.Ok? && wd' == 0
    else if dest == ".." then r.Ok? && wd' == dirs[wd].parent
    else
      var c := FirstNamed(dirs, dirs[wd].children, dest);
      if c >= 0 then r.Ok? && wd' == c else r == Err(NoMatchingSubdir(dest)) && wd' == wd
  }

  /** `init_state(line)` in mode `st`: `ls` switches to LS, `cd` moves,
      anything else throws; the tree is not touched. */
  ghost predicate CommandStep(dirs: seq<Dir>, wd: nat, st: Mode, line: string,
                              r: Result<(), ScanError>, wd': nat, st': Mode)
    requires Tree(dirs) && wd < |dirs|
  {
    match CommandLine(line)
    case None => r == Err(InvalidLine(line)) && wd' == wd && st' == st
    case Some(Command(cmd, dest)) =>
      if cmd == "ls" then r.Ok? && wd' == wd && st' == LS
      else st' == st && CdStep(dirs, wd, dest, r, wd')
  }

  /** `cd ..` at the root sets the working directory to `nullptr` (the
      root has no parent). Only a later `cd <name>` or listing line
      dereferences it, and a later `cd /` recovers; the model has no null
      working directory, so it excludes the `cd ..` itself. */
  predicate CdUpAtRoot(wd: nat, line: string) {
    wd == 0 && CommandLine(line) == Some(Command("cd", ".."))
  }

  class Scanner {
    const fs: FileTree
    var workDir: nat
    var state: Mode

    ghost predicate Valid()
      reads this, fs
    {
      fs.Valid() && workDir < |fs.dirs|
    }

    constructor ()
      ensures fresh(fs) && fs.dirs == [ROOT_DIR] && workDir == 0 && state == INIT && Valid()
    {
      fs := new FileTree();
      workDir := 0;
      state := INIT;
    }

    /** `process`: one line in the current mode. */
    method Process(line: string) returns (r: Result<(), ScanError>)
      requires Valid() && !CdUpAtRoot(workDir, line)
      modifies this, fs
      ensures Valid()
      ensures old(state) == INIT ==>
        fs.dirs == old(fs.dirs) && CommandStep(old(fs.dirs), old(workDir), INIT, line, r, workDir, state)
      ensures old(state) == LS ==> LsStep(old(fs.dirs), old(workDir), line, r, fs.dirs, workDir, state)
    {
      match state {
        case INIT => r := InitState(line);
        case LS => r := LsState(line);
      }
    }

    method InitState(line: string) returns (r: Result<(), ScanError>)
      requires Valid() && !CdUpAtRoot(workDir, line)
      modifies this
      ensures Valid() && fs.dirs == old(fs.dirs)
      ensures CommandStep(old(fs.dirs), old(workDir), old(state), line, r, workDir, state)
    {
      var command := CommandLine(line);
      if command.None? {
        return Err(InvalidLine(line));
      }
      if command.value.cmd == "ls" {
        state := LS;
        return Ok(());
      }
      r := Cd(command.value.dest);
    }

    method LsState(line: string) returns (r: Result<(), ScanError>)
      requires Valid() && state == LS && !CdUpAtRoot(workDir, line)
      modifies this, fs
      ensures Valid()
      ensures LsStep(old(fs.dirs), old(workDir), line, r, fs.dirs, workDir, state)
    {
      if |line| > 0 && line[0] == '$' {
        state := INIT;
        r := InitState(line);
        return;
      }
      var dir := DirLine(line);
      if dir.Some? {
        fs.AddSubDir(workDir, dir.value);
        return Ok(());
      }
      var file := FileLine(line);
      if file.Some? {
        fs.AddFile(workDir, file.value);
        return Ok(());
      }
      return Err(BadContent(line));
    }

    method Cd(dest: string) returns (r: Result<(), ScanError>)
      requires Valid() && (dest == ".." ==> workDir != 0)
      modifies this
      ensures Valid() && state == old(state)
      ensures CdStep(fs.dirs, old(workDir), dest, r, workDir)
    {
      if dest == "/" {
        workDir := 0;
      } else if dest == ".." {
        workDir := fs.dirs[workDir].parent;
      } else {
        var child := fs.GetChild(workDir, dest);
        if child >= 0 {
          workDir := child;
        } else {
          return Err(NoMatchingSubdir(dest));
        }
      }
      return Ok(());
    }
  }

  /** `ls_state(line)`: a command line goes back to INIT and is handled
      there; `dir x` adds a subdirectory, `<n> name` adds n bytes, anything
      else throws. */
  ghost predicate LsStep(dirs: seq<Dir>, wd: nat, line: string,
                         r: Result<(), ScanError>, dirs': seq<Dir>, wd': nat, st': Mode)
    requires Tree(dirs) && wd < |dirs|
  {
    if |line| > 0 && line[0] == '$' then dirs' == dirs && CommandStep(dirs, wd, INIT, line, r, wd', st')
    else
      && wd' == wd && st' == LS
      && match DirLine(line)
         case Some(n) => r.Ok? && dirs' == WithSubDir(dirs, wd, n)
         case None =>
           match FileLine(line)
           case Some(s) => r.Ok? && dirs' == WithFile(dirs, wd, s)
           case None => r == Err(BadContent(line)) && dirs' == dirs
  }

  // ---------------------------------------------------------------------
  // The two results

  const SMALL := 100000
  const DISK := 70000000
  const NEEDED := 30000000
  const SIZE_T_MAX := 0x1_0000_0000_0000_0000 - 1

  /** `size_t` subtraction. */
  function SubSizeT(a: nat, b: nat): (r: nat)
    requires a <= SIZE_T_MAX && b <= SIZE_T_MAX
    ensures r <= SIZE_T_MAX && (b <= a ==> r == a - b)
  {
    (a - b) % (SIZE_T_MAX + 1)
  }

  /** Every listed index is below `n`. */
  predicate Bounded(xs: seq<nat>, n: int) {
    forall k :: 0 <= k < |xs| ==> xs[k] < n
  }

  /** What directory `x` adds to result 1: its size if that is at most
      100000, otherwise nothing. */
  function SmallSize(dirs: seq<Dir>, x: nat): nat
    requires Ordered(dirs) && x < |dirs|
  {
    if Size(dirs, x) <= SMALL then Size(dirs, x) else 0
  }

  /** The sizes of the listed directories that are at most 100000, added up. */
  function SumSmall(dirs: seq<Dir>, xs: seq<nat>): nat
    requires Ordered(dirs) && Bounded(xs, |dirs|)
  {
    if xs == [] then 0 else SmallSize(dirs, xs[0]) + SumSmall(dirs, xs[1..])
  }

  /** The reference for result 1: directories 0 to n - 1, each counted once. */
  function SmallUpTo(dirs: seq<Dir>, n: nat): nat
    requires Ordered(dirs) && n <= |dirs|
  {
    if n == 0 then 0 else SmallUpTo(dirs, n - 1) + SmallSize(dirs, n - 1)
  }

  /** Result 1: the first lambda run over the traversal of the root. */
  function Result1(dirs: seq<Dir>): nat
    requires Ordered(dirs) && |dirs| >= 1
  {
    SumSmall(dirs, PreOrder(dirs, 0))
  }

  /** The second lambda run over `xs` from `acc`: the smallest size at
      least `diff` and below `acc`, or `acc`. */
  function MinAtLeast(dirs: seq<Dir>, xs: seq<nat>, diff: nat, acc: nat): (r: nat)
    requires Ordered(dirs) && Bounded(xs, |dirs|)
    ensures r <= acc
    ensures r == acc || (r >= diff && exists k :: 0 <= k < |xs| && Size(dirs, xs[k]) == r)
    ensures forall k :: 0 <= k < |xs| && Size(dirs, xs[k]) >= diff ==> r <= Size(dirs, xs[k])
  {
    if xs == [] then acc
    else
      var s := Size(dirs, xs[0]);
      var r := MinAtLeast(dirs, xs[1..], diff, if s >= diff && s < acc then s else acc);
      assert forall k :: 0 <= k < |xs| - 1 ==> xs[1..][k] == xs[k + 1];
      r
  }

  /** What must be freed: 30000000 - (70000000 - root size), in `size_t`
      arithmetic, so it wraps to a huge value when the disk already has
      enough room. */
  function Needed(dirs: seq<Dir>): nat
    requires Ordered(dirs) && |dirs| >= 1 && Size(dirs, 0) <= SIZE_T_MAX
  {
    SubSizeT(NEEDED, SubSizeT(DISK, Size(dirs, 0)))
  }

  /** Result 2: the second lambda run over the traversal of the root,
      starting from SIZE_T_MAX. */
  function Result2(dirs: seq<Dir>): nat
    requires Ordered(dirs) && |dirs| >= 1 && Size(dirs, 0) <= SIZE_T_MAX
  {
    MinAtLeast(dirs, PreOrder(dirs, 0), Needed(dirs), SIZE_T_MAX)
  }

  // ---------------------------------------------------------------------
  // Properties of the tree

  /** Adding a subdirectory keeps the arena a tree. */
  lemma SubDirKeepsTree(dirs: seq<Dir>, i: nat, n: string)
    requires Tree(dirs) && i < |dirs|
    ensures Tree(WithSubDir(dirs, i, n))
  {
    SubDirOrdered(dirs, i, n);
    SubDirParents(dirs, i, n);
    SubDirLinked(dirs, i, n);
    SubDirDistinct(dirs, i, n);
  }

  lemma SubDirOrdered(dirs: seq<Dir>, i: nat, n: string)
    requires Ordered(dirs) && i < |dirs|
    ensures Ordered(WithSubDir(dirs, i, n))
  {
    var d := WithSubDir(dirs, i, n);
    forall j, k | 0 <= j < |d| && 0 <= k < |d[j].children| ensures j < d[j].children[k] < |d| {
      if j != i || k < |dirs[i].children| {
        assert d[j].children[k] == dirs[j].children[k];
      }
    }
  }

  lemma SubDirParents(dirs: seq<Dir>, i: nat, n: string)
    requires ParentsBefore(dirs) && ParentsListed(dirs) && i < |dirs|
    ensures ParentsBefore(WithSubDir(dirs, i, n)) && ParentsListed(WithSubDir(dirs, i, n))
  {
    var d := WithSubDir(dirs, i, n);
    assert forall j :: 0 <= j < |dirs| ==> d[j].parent == dirs[j].parent;
    forall j | 0 < j < |d| ensures j in d[d[j].parent].children {
      if j < |dirs| {
        var p := dirs[j].parent;
        assert j in dirs[p].children;
        assert dirs[p].children <= d[p].children;
      }
    }
  }

  lemma SubDirLinked(dirs: seq<Dir>, i: nat, n: string)
    requires Ordered(dirs) && ChildrenLinked(dirs) && i < |dirs|
    ensures Ordered(WithSubDir(dirs, i, n)) && ChildrenLinked(WithSubDir(dirs, i, n))
  {
    SubDirOrdered(dirs, i, n);
    var d := WithSubDir(dirs, i, n);
    forall j, k | 0 <= j < |d| && 0 <= k < |d[j].children| ensures d[d[j].children[k]].parent == j {
      if j != i || k < |dirs[i].children| {
        assert d[j].children[k] == dirs[j].children[k];
      }
    }
  }

  lemma SubDirDistinct(dirs: seq<Dir>, i: nat, n: string)
    requires Ordered(dirs) && ChildrenDistinct(dirs) && i < |dirs|
    ensures ChildrenDistinct(WithSubDir(dirs, i, n))
  {
    var d := WithSubDir(dirs, i, n);
    forall j, k, l | 0 <= j < |d| && 0 <= k < l < |d[j].children| ensures d[j].children[k] != d[j].children[l] {
      if j != i || l < |dirs[i].children| {
        assert d[j].children[k] == dirs[j].children[k];
        assert d[j].children[l] == dirs[j].children[l];
      } else {
        assert d[j].children[k] == dirs[j].children[k];
      }
    }
  }

  /** An ancestor is never after its descendant in the arena. */
  lemma {:induction false} AncestorBefore(dirs: seq<Dir>, a: int, i: nat)
    requires ParentsBefore(dirs) && i < |dirs| && AncestorOrSelf(dirs, a, i)
    ensures a <= i
    decreases i
  {
    if i != a && i != 0 {
      AncestorBefore(dirs, a, dirs[i].parent);
    }
  }

  /** The root is an ancestor of every directory. */
  lemma {:induction false} RootAncestor(dirs: seq<Dir>, i: nat)
    requires ParentsBefore(dirs) && i < |dirs|
    ensures AncestorOrSelf(dirs, 0, i)
    decreases i
  {
    if i != 0 {
      RootAncestor(dirs, dirs[i].parent);
    }
  }

  /** If a child of `j` is an ancestor of `i`, so is `j`, strictly. */
  lemma {:induction false} ChildOnChain(dirs: seq<Dir>, j: nat, c: nat, i: nat)
    requires Tree(dirs) && j < c < |dirs| && dirs[c].parent == j && i < |dirs|
    requires AncestorOrSelf(dirs, c, i)
    ensures AncestorOrSelf(dirs, j, i) && j != i
    decreases i
  {
    AncestorBefore(dirs, c, i);
    if i != c {
      ChildOnChain(dirs, j, c, dirs[i].parent);
    }
  }

  /** At most one child of `j` is an ancestor of `i`. */
  lemma {:induction false} UniqueChildOnChain(dirs: seq<Dir>, j: nat, c1: nat, c2: nat, i: nat)
    requires Tree(dirs) && j < c1 < |dirs| && j < c2 < |dirs| && i < |dirs|
    requires dirs[c1].parent == j && dirs[c2].parent == j
    requires AncestorOrSelf(dirs, c1, i) && AncestorOrSelf(dirs, c2, i)
    ensures c1 == c2
    decreases i
  {
    if i == c1 {
      if c2 != c1 {
        assert AncestorOrSelf(dirs, c2, j);
        AncestorBefore(dirs, c2, j);
      }
    } else if i == c2 {
      assert AncestorOrSelf(dirs, c1, j);
      AncestorBefore(dirs, c1, j);
    } else {
      UniqueChildOnChain(dirs, j, c1, c2, dirs[i].parent);
    }
  }

  /** A strict ancestor `j` of `i` has a child that is an ancestor of `i`. */
  lemma {:induction false} ChildTowards(dirs: seq<Dir>, j: nat, i: nat) returns (k: nat)
    requires Tree(dirs) && j < |dirs| && i < |dirs| && AncestorOrSelf(dirs, j, i) && j != i
    ensures k < |dirs[j].children| && AncestorOrSelf(dirs, dirs[j].children[k], i)
    decreases i
  {
    var p := dirs[i].parent;
    if p == j {
      assert i in dirs[j].children;
      k :| 0 <= k < |dirs[j].children| && dirs[j].children[k] == i;
    } else {
      k := ChildTowards(dirs, j, p);
      AncestorBefore(dirs, dirs[j].children[k], p);
    }
  }

  /** 1 for true, 0 for false. */
  function Indicator(b: bool): nat {
    if b then 1 else 0
  }

  /** One of the first `n` children of `j` is `x` or an ancestor of it. */
  ghost predicate LeadsTo(dirs: seq<Dir>, j: nat, n: nat, x: nat)
    requires ParentsBefore(dirs) && j < |dirs| && n <= |dirs[j].children| && x < |dirs|
    requires forall k :: 0 <= k < n ==> dirs[j].children[k] < |dirs|
  {
    exists k :: 0 <= k < n && AncestorOrSelf(dirs, dirs[j].children[k], x)
  }

  /** `j` is an ancestor of `x` exactly when it is `x` or one of its
      children leads to `x`, and never both. */
  lemma AncestorByChild(dirs: seq<Dir>, j: nat, x: nat)
    requires Tree(dirs) && j < |dirs| && x < |dirs|
    ensures AncestorOrSelf(dirs, j, x) <==> x == j || LeadsTo(dirs, j, |dirs[j].children|, x)
    ensures !(x == j && LeadsTo(dirs, j, |dirs[j].children|, x))
  {
    var cs := dirs[j].children;
    if LeadsTo(dirs, j, |cs|, x) {
      var k :| 0 <= k < |cs| && AncestorOrSelf(dirs, cs[k], x);
      AncestorBefore(dirs, cs[k], x);
      ChildOnChain(dirs, j, cs[k], x);
    } else if x != j && AncestorOrSelf(dirs, j, x) {
      var k := ChildTowards(dirs, j, x);
    }
  }

  /** Directory `x` occurs in the traversal from `j` once if `j` is `x` or
      one of its ancestors, and not at all otherwise. */
  lemma {:induction false} Occurrences(dirs: seq<Dir>, j: nat, x: nat)
    requires Tree(dirs) && j < |dirs| && x < |dirs|
    ensures multiset(PreOrder(dirs, j))[x] == Indicator(AncestorOrSelf(dirs, j, x))
    decreases |dirs| - j, 1
  {
    var n := |dirs[j].children|;
    OccurrencesOf(dirs, j, n, x);
    AncestorByChild(dirs, j, x);
    assert multiset(PreOrder(dirs, j)) == multiset{j} + multiset(PreOrderOf(dirs, j, n));
  }

  lemma {:induction false} OccurrencesOf(dirs: seq<Dir>, j: nat, n: nat, x: nat)
    requires Tree(dirs) && j < |dirs| && x < |dirs| && n <= |dirs[j].children|
    ensures multiset(PreOrderOf(dirs, j, n))[x] == Indicator(LeadsTo(dirs, j, n, x))
    decreases |dirs| - j, 0, n
  {
    if n == 0 {
      NoChildrenYet(dirs, j, x);
    } else {
      var cs := dirs[j].children;
      OccurrencesOf(dirs, j, n - 1, x);
      assert multiset(PreOrderOf(dirs, j, n - 1))[x] == Indicator(LeadsTo(dirs, j, n - 1, x));
      Occurrences(dirs, cs[n - 1], x);
      OccurrencesStep(dirs, j, n, x);
    }
  }

  lemma NoChildrenYet(dirs: seq<Dir>, j: nat, x: nat)
    requires Ordered(dirs) && ParentsBefore(dirs) && j < |dirs| && x < |dirs|
    ensures multiset(PreOrderOf(dirs, j, 0))[x] == 0 && !LeadsTo(dirs, j, 0, x)
  {
  }

  lemma OccurrencesStep(dirs: seq<Dir>, j: nat, n: nat, x: nat)
    requires Tree(dirs) && j < |dirs| && x < |dirs| && 0 < n <= |dirs[j].children|
    requires multiset(PreOrderOf(dirs, j, n - 1))[x] == Indicator(LeadsTo(dirs, j, n - 1, x))
    requires multiset(PreOrder(dirs, dirs[j].children[n - 1]))[x] ==
      Indicator(AncestorOrSelf(dirs, dirs[j].children[n - 1], x))
    ensures multiset(PreOrderOf(dirs, j, n))[x] == Indicator(LeadsTo(dirs, j, n, x))
  {
    CountSplit(dirs, j, n, x);
    LeadsToStep(dirs, j, n, x);
  }

  lemma CountSplit(dirs: seq<Dir>, j: nat, n: nat, x: nat)
    requires Ordered(dirs) && j < |dirs| && 0 < n <= |dirs[j].children|
    ensures multiset(PreOrderOf(dirs, j, n))[x] ==
      multiset(PreOrderOf(dirs, j, n - 1))[x] + multiset(PreOrder(dirs, dirs[j].children[n - 1]))[x]
  {
  }

  /** Extending the children considered by one: if the new child leads to
      `x`, none before it did. */
  lemma LeadsToStep(dirs: seq<Dir>, j: nat, n: nat, x: nat)
    requires Tree(dirs) && j < |dirs| && x < |dirs| && 0 < n <= |dirs[j].children|
    ensures LeadsTo(dirs, j, n, x) <==> LeadsTo(dirs, j, n - 1, x) || AncestorOrSelf(dirs, dirs[j].children[n - 1], x)
    ensures AncestorOrSelf(dirs, dirs[j].children[n - 1], x) ==> !LeadsTo(dirs, j, n - 1, x)
  {
    var cs := dirs[j].children;
    if AncestorOrSelf(dirs, cs[n - 1], x) {
      forall k | 0 <= k < n - 1 ensures !AncestorOrSelf(dirs, cs[k], x) {
        if AncestorOrSelf(dirs, cs[k], x) {
          UniqueChildOnChain(dirs, j, cs[k], cs[n - 1], x);
        }
      }
    }
  }

  /** The traversal from the root visits every directory exactly once. */
  lemma TraverseVisitsAllOnce(dirs: seq<Dir>, x: nat)
    requires Tree(dirs) && x < |dirs|
    ensures multiset(PreOrder(dirs, 0))[x] == 1
  {
    Occurrences(dirs, 0, x);
    RootAncestor(dirs, x);
  }

  /** The files of the listed directories, added up. */
  function FileSum(dirs: seq<Dir>, xs: seq<nat>): nat
    requires Bounded(xs, |dirs|)
  {
    if xs == [] then 0 else dirs[xs[0]].fileSize + FileSum(dirs, xs[1..])
  }

  lemma {:induction false} FileSumAppend(dirs: seq<Dir>, xs: seq<nat>, ys: seq<nat>)
    requires Bounded(xs, |dirs|) && Bounded(ys, |dirs|)
    ensures FileSum(dirs, xs + ys) == FileSum(dirs, xs) + FileSum(dirs, ys)
  {
    if xs == [] {
      assert xs + ys == ys;
    } else {
      assert (xs + ys)[1..] == xs[1..] + ys;
      FileSumAppend(dirs, xs[1..], ys);
    }
  }

  /** The size of a directory is the sum of the files of the directories
      its traversal visits. */
  lemma {:induction false} SizeIsFileSum(dirs: seq<Dir>, i: nat)
    requires Ordered(dirs) && i < |dirs|
    ensures Size(dirs, i) == FileSum(dirs, PreOrder(dirs, i))
    decreases |dirs| - i, 1
  {
    var n := |dirs[i].children|;
    SizeIsFileSumOf(dirs, i, n);
    assert PreOrder(dirs, i) == [i] + PreOrderOf(dirs, i, n);
    FileSumAppend(dirs, [i], PreOrderOf(dirs, i, n));
  }

  lemma {:induction false} SizeIsFileSumOf(dirs: seq<Dir>, i: nat, k: nat)
    requires Ordered(dirs) && i < |dirs| && k <= |dirs[i].children|
    ensures SumSizes(dirs, i, k) == FileSum(dirs, PreOrderOf(dirs, i, k))
    decreases |dirs| - i, 0, k
  {
    if k > 0 {
      var c := dirs[i].children[k - 1];
      SizeIsFileSumOf(dirs, i, k - 1);
      SizeIsFileSum(dirs, c);
      FileSumAppend(dirs, PreOrderOf(dirs, i, k - 1), PreOrder(dirs, c));
    }
  }

  /** Raising the files of `i` by `s` raises a sum by `s` for each time `i`
      is listed. */
  lemma {:induction false} FileSumWithFile(dirs: seq<Dir>, xs: seq<nat>, i: nat, s: nat)
    requires i < |dirs| && Bounded(xs, |dirs|)
    ensures FileSum(WithFile(dirs, i, s), xs) == FileSum(dirs, xs) + s * multiset(xs)[i]
  {
    if xs != [] {
      FileSumWithFile(dirs, xs[1..], i, s);
      assert xs == [xs[0]] + xs[1..];
      var m, e := multiset(xs[1..])[i], if xs[0] == i then 1 else 0;
      assert multiset(xs)[i] == m + e;
      assert WithFile(dirs, i, s)[xs[0]].fileSize == dirs[xs[0]].fileSize + s * e;
      Distribute(s, m, e);
    }
  }

  lemma Distribute(s: nat, m: nat, e: nat)
    ensures s * (m + e) == s * m + s * e
  {
  }

  /** A traversal only looks at the children lists. */
  lemma {:induction false} PreOrderSameShape(dirs: seq<Dir>, dirs': seq<Dir>, i: nat)
    requires Ordered(dirs) && |dirs'| == |dirs| && i < |dirs|
    requires forall j :: 0 <= j < |dirs| ==> dirs'[j].children == dirs[j].children
    ensures Ordered(dirs') && PreOrder(dirs', i) == PreOrder(dirs, i)
    decreases |dirs| - i, 1
  {
    PreOrderOfSameShape(dirs, dirs', i, |dirs[i].children|);
  }

  lemma {:induction false} PreOrderOfSameShape(dirs: seq<Dir>, dirs': seq<Dir>, i: nat, k: nat)
    requires Ordered(dirs) && |dirs'| == |dirs| && i < |dirs| && k <= |dirs[i].children|
    requires forall j :: 0 <= j < |dirs| ==> dirs'[j].children == dirs[j].children
    ensures Ordered(dirs') && PreOrderOf(dirs', i, k) == PreOrderOf(dirs, i, k)
    decreases |dirs| - i, 0, k
  {
    if k > 0 {
      PreOrderOfSameShape(dirs, dirs', i, k - 1);
      PreOrderSameShape(dirs, dirs', dirs[i].children[k - 1]);
    }
  }

  /** `add_file(s)` raises the size of the directory and of each of its
      ancestors by exactly `s`, and no other size. */
  lemma AddFileSizes(dirs: seq<Dir>, i: nat, s: nat, j: nat)
    requires Tree(dirs) && i < |dirs| && j < |dirs|
    ensures Ordered(WithFile(dirs, i, s))
    ensures Size(WithFile(dirs, i, s), j) == Size(dirs, j) + (if AncestorOrSelf(dirs, j, i) then s else 0)
  {
    var d := WithFile(dirs, i, s);
    PreOrderSameShape(dirs, d, j);
    SizeIsFileSum(dirs, j);
    SizeIsFileSum(d, j);
    FileSumWithFile(dirs, PreOrder(dirs, j), i, s);
    ScaledOccurrences(dirs, j, i, s);
  }

  lemma ScaledOccurrences(dirs: seq<Dir>, j: nat, i: nat, s: nat)
    requires Tree(dirs) && i < |dirs| && j < |dirs|
    ensures s * multiset(PreOrder(dirs, j))[i] == if AncestorOrSelf(dirs, j, i) then s else 0
  {
    Occurrences(dirs, j, i);
    var m := multiset(PreOrder(dirs, j))[i];
    assert m == Indicator(AncestorOrSelf(dirs, j, i));
    if AncestorOrSelf(dirs, j, i) {
      assert m == 1;
    } else {
      assert m == 0;
    }
  }

  /** `add_sub_dir` changes no existing size, and the new directory is
      empty. */
  lemma AddSubDirSizes(dirs: seq<Dir>, i: nat, n: string, j: nat)
    requires Tree(dirs) && i < |dirs| && j < |dirs|
    ensures Ordered(WithSubDir(dirs, i, n))
    ensures Size(WithSubDir(dirs, i, n), j) == Size(dirs, j)
    ensures Size(WithSubDir(dirs, i, n), |dirs|) == 0
  {
    SubDirKeepsTree(dirs, i, n);
    var d := WithSubDir(dirs, i, n);
    SizeIsFileSum(dirs, j);
    SizeIsFileSum(d, j);
    SubDirFileSum(dirs, i, n, j);
    assert Size(d, |dirs|) == 0 + SumSizes(d, |dirs|, 0);
  }

  /** The files below `j` are the same once an empty directory is added. */
  lemma SubDirFileSum(dirs: seq<Dir>, i: nat, n: string, j: nat)
    requires Tree(dirs) && i < |dirs| && j < |dirs|
    ensures Ordered(WithSubDir(dirs, i, n))
    ensures FileSum(WithSubDir(dirs, i, n), PreOrder(WithSubDir(dirs, i, n), j)) == FileSum(dirs, PreOrder(dirs, j))
  {
    SubDirKeepsTree(dirs, i, n);
    var d := WithSubDir(dirs, i, n);
    var N := |dirs|;
    var xs := PreOrder(dirs, j);
    var ys := PreOrder(d, j);
    SubDirPreOrder(dirs, i, n, j);
    FileSumFiltered(d, ys, N);
    SubDirSameFiles(dirs, i, n);
    assert forall k :: 0 <= k < |xs| ==> d[xs[k]].fileSize == dirs[xs[k]].fileSize;
    FileSumSameFiles(dirs, d, xs);
  }

  /** Adding a directory changes no file size of an existing one. */
  lemma SubDirSameFiles(dirs: seq<Dir>, i: nat, n: string)
    requires i < |dirs|
    ensures forall x :: 0 <= x < |dirs| ==> WithSubDir(dirs, i, n)[x].fileSize == dirs[x].fileSize
  {
    var d := WithSubDir(dirs, i, n);
    forall x | 0 <= x < |dirs| ensures d[x].fileSize == dirs[x].fileSize {
      if x == i {
        assert d[x] == dirs[i].(children := dirs[i].children + [|dirs|]);
      } else {
        assert d[x] == dirs[x];
      }
    }
  }

  /** Dropping the new directory from the traversal of the larger arena
      gives the traversal of the old one. */
  lemma {:induction false} SubDirPreOrder(dirs: seq<Dir>, i: nat, n: string, j: nat)
    requires Ordered(dirs) && i < |dirs| && j < |dirs|
    ensures Ordered(WithSubDir(dirs, i, n))
    ensures Without(PreOrder(WithSubDir(dirs, i, n), j), |dirs|) == PreOrder(dirs, j)
    decreases |dirs| - j, 1
  {
    SubDirOrdered(dirs, i, n);
    var d := WithSubDir(dirs, i, n);
    var m := |dirs[j].children|;
    SubDirPreOrderOf(dirs, i, n, j, m);
    var N := |dirs|;
    if j == i {
      NewLeafPreOrder(dirs, i, n);
      WithoutAppend(PreOrderOf(d, j, m), [N], N);
      WithoutOnly(N);
      WithoutAppend([j], PreOrderOf(d, j, m + 1), N);
    } else {
      assert d[j].children == dirs[j].children;
      WithoutAppend([j], PreOrderOf(d, j, m), N);
    }
  }

  /** The new directory is the last child of `i` and a leaf. */
  lemma NewLeafPreOrder(dirs: seq<Dir>, i: nat, n: string)
    requires Ordered(dirs) && i < |dirs|
    ensures Ordered(WithSubDir(dirs, i, n))
    ensures |WithSubDir(dirs, i, n)[i].children| == |dirs[i].children| + 1
    ensures PreOrderOf(WithSubDir(dirs, i, n), i, |dirs[i].children| + 1)
         == PreOrderOf(WithSubDir(dirs, i, n), i, |dirs[i].children|) + [|dirs|]
  {
    SubDirOrdered(dirs, i, n);
    var d := WithSubDir(dirs, i, n);
    var N := |dirs|;
    assert d[N].children == [];
    assert PreOrderOf(d, N, 0) == [];
    assert PreOrder(d, N) == [N];
    assert d[i].children[|dirs[i].children|] == N;
  }

  lemma WithoutOnly(y: nat)
    ensures Without([y], y) == []
  {
    assert [y][1..] == [];
  }

  lemma {:induction false} SubDirPreOrderOf(dirs: seq<Dir>, i: nat, n: string, j: nat, k: nat)
    requires Ordered(dirs) && i < |dirs| && j < |dirs| && k <= |dirs[j].children|
    ensures Ordered(WithSubDir(dirs, i, n))
    ensures k <= |WithSubDir(dirs, i, n)[j].children|
    ensures Without(PreOrderOf(WithSubDir(dirs, i, n), j, k), |dirs|) == PreOrderOf(dirs, j, k)
    decreases |dirs| - j, 0, k
  {
    SubDirOrdered(dirs, i, n);
    var d := WithSubDir(dirs, i, n);
    assert d[j].children[..|dirs[j].children|] == dirs[j].children;
    if k > 0 {
      var c := dirs[j].children[k - 1];
      assert d[j].children[k - 1] == c;
      assert PreOrderOf(d, j, k) == PreOrderOf(d, j, k - 1) + PreOrder(d, c);
      assert PreOrderOf(dirs, j, k) == PreOrderOf(dirs, j, k - 1) + PreOrder(dirs, c);
      SubDirPreOrderOf(dirs, i, n, j, k - 1);
      SubDirPreOrder(dirs, i, n, c);
      WithoutAppend(PreOrderOf(d, j, k - 1), PreOrder(d, c), |dirs|);
      assert Without(PreOrderOf(d, j, k), |dirs|)
          == Without(PreOrderOf(d, j, k - 1), |dirs|) + Without(PreOrder(d, c), |dirs|);
    } else {
      assert PreOrderOf(d, j, k) == [] == PreOrderOf(dirs, j, k);
    }
  }

  /** `xs` without the occurrences of `y`. */
  function Without(xs: seq<nat>, y: nat): (r: seq<nat>)
    ensures |r| <= |xs|
  {
    if xs == [] then [] else (if xs[0] == y then [] else [xs[0]]) + Without(xs[1..], y)
  }

  lemma {:induction false} WithoutBounded(xs: seq<nat>, y: nat, n: int)
    requires Bounded(xs, n)
    ensures Bounded(Without(xs, y), n)
  {
    if xs != [] {
      WithoutBounded(xs[1..], y, n);
    }
  }

  lemma {:induction false} WithoutAppend(xs: seq<nat>, ys: seq<nat>, y: nat)
    ensures Without(xs + ys, y) == Without(xs, y) + Without(ys, y)
  {
    if xs == [] {
      assert xs + ys == ys;
    } else {
      assert (xs + ys)[1..] == xs[1..] + ys;
      WithoutAppend(xs[1..], ys, y);
    }
  }

  /** An empty directory adds nothing to a file sum. */
  lemma {:induction false} FileSumFiltered(dirs: seq<Dir>, xs: seq<nat>, y: nat)
    requires y < |dirs| && dirs[y].fileSize == 0 && Bounded(xs, |dirs|)
    ensures Bounded(Without(xs, y), |dirs|)
    ensures FileSum(dirs, Without(xs, y)) == FileSum(dirs, xs)
  {
    WithoutBounded(xs, y, |dirs|);
    if xs != [] {
      FileSumFiltered(dirs, xs[1..], y);
      FileSumAppend(dirs, if xs[0] == y then [] else [xs[0]], Without(xs[1..], y));
    }
  }

  /** Directories with the same files give the same sums. */
  lemma {:induction false} FileSumSameFiles(dirs: seq<Dir>, dirs': seq<Dir>, xs: seq<nat>)
    requires |dirs| <= |dirs'| && Bounded(xs, |dirs|)
    requires forall k :: 0 <= k < |xs| ==> dirs'[xs[k]].fileSize == dirs[xs[k]].fileSize
    ensures FileSum(dirs', xs) == FileSum(dirs, xs)
  {
    if xs != [] {
      FileSumSameFiles(dirs, dirs', xs[1..]);
    }
  }

  // ---------------------------------------------------------------------
  // Properties of the results

  /** Directories 0 to n - 1, each counted as often as `m` holds it. */
  function Weighted(dirs: seq<Dir>, m: multiset<nat>, n: nat): int
    requires Ordered(dirs) && n <= |dirs|
  {
    if n == 0 then 0 else Weighted(dirs, m, n - 1) + m[n - 1] * SmallSize(dirs, n - 1)
  }

  lemma {:induction false} WeightedAdd(dirs: seq<Dir>, m: multiset<nat>, a: nat, n: nat)
    requires Ordered(dirs) && a < |dirs| && n <= |dirs|
    ensures Weighted(dirs, m + multiset{a}, n) == Weighted(dirs, m, n) + (if a < n then SmallSize(dirs, a) else 0)
  {
    if n > 0 {
      WeightedAdd(dirs, m, a, n - 1);
      var m' := m + multiset{a};
      var v := SmallSize(dirs, n - 1);
      if a == n - 1 {
        assert m'[n - 1] == m[n - 1] + 1;
        OneMore(m[n - 1], v);
      } else {
        assert m'[n - 1] == m[n - 1];
      }
    }
  }

  lemma OneMore(c: int, v: int)
    ensures (c + 1) * v == c * v + v
  {
  }

  /** A sum over a list of directories depends only on how often each
      directory occurs in it. */
  lemma {:induction false} SumSmallWeighted(dirs: seq<Dir>, xs: seq<nat>)
    requires Ordered(dirs) && Bounded(xs, |dirs|)
    ensures SumSmall(dirs, xs) == Weighted(dirs, multiset(xs), |dirs|)
  {
    if xs == [] {
      WeightedEmpty(dirs, |dirs|);
    } else {
      assert xs == [xs[0]] + xs[1..];
      assert multiset(xs) == multiset(xs[1..]) + multiset{xs[0]};
      SumSmallWeighted(dirs, xs[1..]);
      WeightedAdd(dirs, multiset(xs[1..]), xs[0], |dirs|);
    }
  }

  lemma {:induction false} WeightedEmpty(dirs: seq<Dir>, n: nat)
    requires Ordered(dirs) && n <= |dirs|
    ensures Weighted(dirs, multiset{}, n) == 0
  {
    if n > 0 {
      WeightedEmpty(dirs, n - 1);
    }
  }

  lemma {:induction false} WeightedOnce(dirs: seq<Dir>, m: multiset<nat>, n: nat)
    requires Ordered(dirs) && n <= |dirs|
    requires forall x: nat :: x < n ==> m[x] == 1
    ensures Weighted(dirs, m, n) == SmallUpTo(dirs, n)
  {
    if n > 0 {
      WeightedOnce(dirs, m, n - 1);
    }
  }

  /** Result 1 adds up the size of every directory of at most 100000, each
      exactly once, whatever order the traversal visits them in. */
  lemma Result1CountsEachOnce(dirs: seq<Dir>)
    requires Tree(dirs)
    ensures Result1(dirs) == SmallUpTo(dirs, |dirs|)
  {
    var xs: seq<nat> := PreOrder(dirs, 0);
    var m: multiset<nat> := multiset(xs);
    forall x: nat | x < |dirs| ensures m[x] == 1 {
      TraverseVisitsAllOnce(dirs, x);
    }
    SumSmallWeighted(dirs, xs);
    WeightedOnce(dirs, m, |dirs|);
  }

  /** Result 2 is SIZE_T_MAX, or the size of a directory that is at least
      `Needed`. */
  lemma Result2Attained(dirs: seq<Dir>)
    requires Ordered(dirs) && |dirs| >= 1 && Size(dirs, 0) <= SIZE_T_MAX
    ensures Result2(dirs) <= SIZE_T_MAX
    ensures Result2(dirs) == SIZE_T_MAX || exists y :: 0 <= y < |dirs| && Size(dirs, y) == Result2(dirs) >= Needed(dirs)
  {
    var xs := PreOrder(dirs, 0);
    var diff := Needed(dirs);
    var r := MinAtLeast(dirs, xs, diff, SIZE_T_MAX);
    assert r == Result2(dirs);
    if r != SIZE_T_MAX {
      assert r >= diff;
      var k :| 0 <= k < |xs| && Size(dirs, xs[k]) == r;
      var y := xs[k];
      assert 0 <= y < |dirs| && Size(dirs, y) == r >= diff;
      assert exists y :: 0 <= y < |dirs| && Size(dirs, y) == r >= diff;
    }
  }

  /** No directory of at least `Needed` is smaller than result 2. */
  lemma Result2Minimal(dirs: seq<Dir>, x: nat)
    requires Tree(dirs) && Size(dirs, 0) <= SIZE_T_MAX && x < |dirs|
    ensures Size(dirs, x) >= Needed(dirs) ==> Result2(dirs) <= Size(dirs, x)
  {
    TraverseVisitsAllOnce(dirs, x);
    var xs := PreOrder(dirs, 0);
    assert x in multiset(xs);
    var k :| 0 <= k < |xs| && xs[k] == x;
    var r := MinAtLeast(dirs, xs, Needed(dirs), SIZE_T_MAX);
    assert Size(dirs, xs[k]) >= Needed(dirs) ==> r <= Size(dirs, xs[k]);
  }

  /** When the root already fits with 30000000 to spare, the subtraction
      wraps and no directory qualifies: result 2 is SIZE_T_MAX. */
  lemma Result2WhenRoomSuffices(dirs: seq<Dir>)
    requires Tree(dirs) && Size(dirs, 0) < DISK - NEEDED
    ensures Needed(dirs) > SIZE_T_MAX - DISK
    ensures Result2(dirs) == SIZE_T_MAX
  {
    var xs := PreOrder(dirs, 0);
    forall k | 0 <= k < |xs| ensures Size(dirs, xs[k]) < Needed(dirs) {
      SizeBelowRoot(dirs, xs[k]);
    }
  }

  /** No directory is larger than the root. */
  lemma {:induction false} SizeBelowRoot(dirs: seq<Dir>, x: nat)
    requires Tree(dirs) && x < |dirs|
    ensures Size(dirs, x) <= Size(dirs, 0)
    decreases x
  {
    if x != 0 {
      var p := dirs[x].parent;
      assert x in dirs[p].children;
      var k :| 0 <= k < |dirs[p].children| && dirs[p].children[k] == x;
      ChildSizeBelow(dirs, p, |dirs[p].children|, k);
      SizeBelowRoot(dirs, p);
    }
  }

  /** A child is no larger than its parent. */
  lemma {:induction false} ChildSizeBelow(dirs: seq<Dir>, p: nat, n: nat, k: nat)
    requires Ordered(dirs) && p < |dirs| && k < n <= |dirs[p].children|
    ensures Size(dirs, dirs[p].children[k]) <= SumSizes(dirs, p, n) <= Size(dirs, p)
  {
    if k < n - 1 {
      ChildSizeBelow(dirs, p, n - 1, k);
    }
    SumSizesBelow(dirs, p, n);
  }

  lemma {:induction false} SumSizesBelow(dirs: seq<Dir>, p: nat, n: nat)
    requires Ordered(dirs) && p < |dirs| && n <= |dirs[p].children|
    ensures SumSizes(dirs, p, n) <= Size(dirs, p)
    decreases |dirs[p].children| - n
  {
    if n < |dirs[p].children| {
      SumSizesBelow(dirs, p, n + 1);
    }
  }

  /** A command line as typed is read back. */
  lemma CommandLineOf(cmd: string, dest: string)
    requires cmd in {"ls", "cd"} && IsDest(dest)
    ensures CommandLine("$ " + cmd + " " + dest) == Some(Command(cmd, dest))
  {
    var line := "$ " + cmd + " " + dest;
    assert |cmd| == 2;
    assert line[..2] == "$ " && line[2..4] == cmd;
    assert line[4..] == " " + dest;
  }

  /** The lines the scanner reads. */
  lemma LinesRecognized(name: string, size: nat)
    requires IsName(name)
    ensures CommandLine("$ ls") == Some(Command("ls", ""))
    ensures CommandLine("$ cd " + name) == Some(Command("cd", name))
    ensures CommandLine("$ cd /") == Some(Command("cd", "/"))
    ensures CommandLine("$ cd ..") == Some(Command("cd", ".."))
    ensures DirLine("dir " + name) == Some(name)
    ensures FileLine(Render(size) + " " + name) == Some(size)
  {
    assert "$ ls"[..2] == "$ " && "$ ls"[2..4] == "ls" && "$ ls"[4..] == [];
    CommandLineOf("cd", name);
    assert "$ cd " + name == "$ " + "cd" + " " + name;
    CommandLineOf("cd", "/");
    assert "$ cd /" == "$ " + "cd" + " " + "/";
    CommandLineOf("cd", "..");
    assert "$ cd .." == "$ " + "cd" + " " + "..";
    assert ("dir " + name)[..4] == "dir " && ("dir " + name)[4..] == name;
    var line := Render(size) + " " + name;
    DigitPrefixOfDigits(Render(size), " " + name);
    assert line == Render(size) + (" " + name);
    assert line[..|Render(size)|] == Render(size);
    assert line[|Render(size)| + 1..] == name;
    ValueOfRender(size);
  }

  /** Lines the scanner throws on in INIT mode, or reads in an unexpected
      way: `$ cd` alone asks for the subdirectory with the empty name. */
  lemma LinesRejected()
    ensures CommandLine("$ cd") == Some(Command("cd", ""))
    ensures CommandLine("$ rm x") == None
    ensures CommandLine("$ ls ") == None
  {
    assert "$ cd"[..2] == "$ " && "$ cd"[2..4] == "cd" && "$ cd"[4..] == [];
    assert "$ rm x"[2..4] == "rm";
    assert "$ ls "[..2] == "$ " && "$ ls "[2..4] == "ls" && "$ ls "[4..] == " ";
  }
}

/** Cathode-ray tube (10/Day10.java): a CPU with one register runs `noop`
    (one cycle) and `addx n` (two cycles, then the register changes). Before
    every cycle it reports its cycle number and register to its observers:
    a meter that samples the signal strength, and a CRT that draws one pixel
    per cycle. The observers are fed the list of reports the CPU makes. */
module Day10 {

  import opened Wrappers
  import opened Decimal
  import opened Text
  import opened JavaLang

  /** `CPU.State`: what an observer is told before a cycle (0-based). */
  datatype Snapshot = Snapshot(cycle: int, register: int)

  /** The instructions `handle` accepts. */
  datatype Instr = Noop | AddX(n: int)

  /** Why `handle` throws: no first word or no argument
      (ArrayIndexOutOfBoundsException), an argument `parseInt` rejects
      (NumberFormatException), or an unknown first word
      (IllegalArgumentException). */
  datatype HandleError = MissingComponent | BadNumber | UnknownInstruction

  /** How `handle` reads an instruction line. */
  function Parse(instruction: string): (r: Result<Instr, HandleError>)
    ensures r == Ok(Noop) <==> |JavaSplit(instruction, ' ')| > 0 && JavaSplit(instruction, ' ')[0] == "noop"
    ensures r.Ok? && r.value.AddX? <==>
      var c := JavaSplit(instruction, ' ');
      |c| >= 2 && c[0] == "addx" && ParseSigned(c[1]).Some?
  {
    var c := JavaSplit(instruction, ' ');
    if |c| == 0 then Err(MissingComponent)
    else if c[0] == "noop" then Ok(Noop)
    else if c[0] == "addx" then
      if |c| < 2 then Err(MissingComponent)
      else match ParseSigned(c[1])
        case None => Err(BadNumber)
        case Some(n) => Ok(AddX(n))
    else Err(UnknownInstruction)
  }

  /** What one instruction reports, starting after cycle `cycle`: a report
      per cycle, all with the register as it was before the instruction. */
  function Ticks(instr: Instr, cycle: int, register: int): (r: seq<Snapshot>)
    ensures |r| == if instr.Noop? then 1 else 2
    ensures forall k :: 0 <= k < |r| ==> r[k] == Snapshot(cycle + 1 + k, register)
  {
    match instr
    case Noop => [Snapshot(cycle + 1, register)]
    case AddX(_) => [Snapshot(cycle + 1, register), Snapshot(cycle + 2, register)]
  }

  /** The register once an instruction has finished. */
  function After(instr: Instr, register: int): int {
    match instr
    case Noop => register
    case AddX(n) => register + n
  }

  /** The cycles of a report list are numbered 0, 1, 2, ... */
  ghost predicate Consecutive(trace: seq<Snapshot>) {
    forall i :: 0 <= i < |trace| ==> trace[i].cycle == i
  }

  class Cpu {
    var cycle: int
    var register: int
    /** Every report the CPU has made, in order: what each registered
        pre-cycle hook is called with. */
    var trace: seq<Snapshot>

    ghost predicate Valid()
      reads this
    {
      |trace| == cycle + 1 && Consecutive(trace)
    }

    constructor ()
      ensures cycle == -1 && register == 1 && trace == []
      ensures Valid()
    {
      cycle := -1;
      register := 1;
      trace := [];
    }

    /** `tick`: the next cycle begins and is reported. */
    method Tick()
      requires Valid()
      modifies this
      ensures cycle == old(cycle) + 1 && register == old(register)
      ensures trace == old(trace) + [Snapshot(cycle, register)]
      ensures Valid()
    {
      cycle := cycle + 1;
      trace := trace + [Snapshot(cycle, register)];
    }

    /** `addX`: two cycles with the old register, then the addition. */
    method AddX(x: int)
      requires Valid()
      modifies this
      ensures cycle == old(cycle) + 2 && register == old(register) + x
      ensures trace == old(trace) + Ticks(Instr.AddX(x), old(cycle), old(register))
      ensures Valid()
    {
      Tick();
      Tick();
      register := register + x;
    }

    /** `noop`: one cycle. */
    method Noop()
      requires Valid()
      modifies this
      ensures cycle == old(cycle) + 1 && register == old(register)
      ensures trace == old(trace) + Ticks(Instr.Noop, old(cycle), old(register))
      ensures Valid()
    {
      Tick();
    }

    /** `handle`: an instruction line is parsed and run; a line it rejects
        throws before any cycle passes. */
    method Handle(instruction: string) returns (r: Result<(), HandleError>)
      requires Valid()
      modifies this
      ensures Parse(instruction).Err? ==>
        r == Err(Parse(instruction).error) && unchanged(this)
      ensures Parse(instruction).Ok? ==>
        var i := Parse(instruction).value;
        && r.Ok?
        && cycle == old(cycle) + |Ticks(i, old(cycle), old(register))|
        && register == After(i, old(register))
        && trace == old(trace) + Ticks(i, old(cycle), old(register))
      ensures Valid()
    {
      var parsed := Parse(instruction);
      if parsed.Err? {
        return Err(parsed.error);
      }
      match parsed.value {
        case Noop => Noop();
        case AddX(n) => AddX(n);
      }
      r := Ok(());
    }
  }

  // ---------------------------------------------------------------------
  // Signal strength meter

  /** What `onCycle` adds for one report: the 1-based cycle times the
      register, at 1-based cycles 20, 60, ..., 220 only. */
  function Contribution(s: Snapshot): int {
    var c := s.cycle + 1;
    if JavaRem(c, 40) == 20 && c <= 220 then c * s.register else 0
  }

  /** The meter's reading after a list of reports. */
  function SignalSum(seen: seq<Snapshot>): int {
    if seen == [] then 0 else SignalSum(seen[..|seen| - 1]) + Contribution(seen[|seen| - 1])
  }

  class SignalStrengthMeter {
    var signalStrength: int
    /** The reports received so far. */
    ghost var seen: seq<Snapshot>

    ghost predicate Valid()
      reads this
    {
      signalStrength == SignalSum(seen)
    }

    constructor ()
      ensures signalStrength == 0 && seen == [] && Valid()
    {
      signalStrength := 0;
      seen := [];
    }

    method OnCycle(state: Snapshot)
      requires Valid()
      modifies this
      ensures seen == old(seen) + [state] && Valid()
    {
      var cycle := state.cycle + 1;
      if JavaRem(cycle, 40) == 20 && cycle <= 220 {
        signalStrength := signalStrength + cycle * state.register;
      }
      assert signalStrength == SignalSum(old(seen)) + Contribution(state);
      seen := seen + [state];
      assert seen[..|seen| - 1] == old(seen);
    }

    /** `getSignalStrength`. */
    function GetSignalStrength(): (r: int)
      requires Valid()
      reads this
      ensures r == SignalSum(seen)
    {
      signalStrength
    }
  }

  // ---------------------------------------------------------------------
  // CRT

  const WIDTH := 40
  const HEIGHT := 6

  /** The pixel a report draws: lit when the three-pixel sprite centred on
      the register covers the column being drawn. */
  function Pixel(s: Snapshot): char {
    var d := JavaRem(s.cycle, WIDTH) - s.register;
    if -1 <= d <= 1 then '#' else '.'
  }

  /** What the screen shows at position `k` (row k / 40, column k % 40)
      after a list of reports: the pixel of the last report for cycle `k`,
      or the initial NUL character if there was none. */
  function Expected(seen: seq<Snapshot>, k: int): char {
    if seen == [] then 0 as char
    else if seen[|seen| - 1].cycle == k then Pixel(seen[|seen| - 1])
    else Expected(seen[..|seen| - 1], k)
  }

  class Crt {
    var spritePosition: int
    const screen: array2<char>
    /** The reports received so far. */
    ghost var seen: seq<Snapshot>

    ghost predicate Valid()
      reads this, screen
    {
      && screen.Length0 == HEIGHT && screen.Length1 == WIDTH
      && forall r, c :: 0 <= r < HEIGHT && 0 <= c < WIDTH ==> screen[r, c] == Expected(seen, WIDTH * r + c)
    }

    constructor ()
      ensures spritePosition == 0 && seen == [] && fresh(screen) && Valid()
    {
      spritePosition := 0;
      screen := new char[HEIGHT, WIDTH]((r, c) => 0 as char);
      seen := [];
    }

    /** `onCycle`: the sprite moves to the register, then the pixel of
        this cycle is drawn. The CPU reports no negative cycle. */
    method OnCycle(state: Snapshot)
      requires Valid() && state.cycle >= 0
      modifies this, screen
      ensures spritePosition == state.register
      ensures seen == old(seen) + [state] && Valid()
    {
      spritePosition := state.register;
      var pixel := if IsSpriteVisible(state.cycle) then '#' else '.';
      assert pixel == Pixel(state);
      DrawPixel(pixel, state.cycle);
      seen := seen + [state];
      forall r, c | 0 <= r < HEIGHT && 0 <= c < WIDTH
        ensures screen[r, c] == Expected(seen, WIDTH * r + c)
      {
        assert seen[..|seen| - 1] == old(seen);
        if state.cycle != WIDTH * r + c {
          assert screen[r, c] == old(screen[r, c]);
        }
      }
    }

    /** `isSpriteVisible`: the column of the cycle is at most one away from
        the sprite. */
    function IsSpriteVisible(cycle: int): (r: bool)
      reads this
      ensures r <==> -1 <= JavaRem(cycle, WIDTH) - spritePosition <= 1
    {
      var col := JavaRem(cycle, WIDTH);
      -1 <= col - spritePosition <= 1
    }

    /** `drawPixel`: the pixel goes to row cycle / 40, column cycle % 40;
        a cycle past the last row changes nothing. */
    method DrawPixel(pixel: char, cycle: int)
      requires screen.Length0 == HEIGHT && screen.Length1 == WIDTH && cycle >= 0
      modifies screen
      ensures cycle < WIDTH * HEIGHT ==> screen[cycle / WIDTH, cycle % WIDTH] == pixel
      ensures forall r, c :: 0 <= r < HEIGHT && 0 <= c < WIDTH && WIDTH * r + c != cycle ==>
        screen[r, c] == old(screen[r, c])
    {
      var col := cycle % WIDTH;
      var row := cycle / WIDTH;
      if col < WIDTH && row < HEIGHT {
        screen[row, col] := pixel;
      }
    }

    /** One row of the screen as a string. */
    function Row(r: int): (s: string)
      requires screen.Length0 == HEIGHT && screen.Length1 == WIDTH && 0 <= r < HEIGHT
      reads screen
      ensures |s| == WIDTH && forall c :: 0 <= c < WIDTH ==> s[c] == screen[r, c]
    {
      seq(WIDTH, c requires 0 <= c < WIDTH reads screen => screen[r, c])
    }

    /** The first `n` rows joined by newlines. */
    function Rows(n: int): (s: string)
      requires screen.Length0 == HEIGHT && screen.Length1 == WIDTH && 1 <= n <= HEIGHT
      reads screen
      ensures |s| == (WIDTH + 1) * n - 1
    {
      if n == 1 then Row(0) else Rows(n - 1) + "\n" + Row(n - 1)
    }

    /** `getScreen`: the rows joined by newlines. */
    function GetScreen(): (s: string)
      requires screen.Length0 == HEIGHT && screen.Length1 == WIDTH
      reads screen
      ensures |s| == (WIDTH + 1) * HEIGHT - 1
      ensures forall r, c :: 0 <= r < HEIGHT && 0 <= c < WIDTH ==> s[Offset(r, c)] == screen[r, c]
      ensures forall r :: 0 <= r < HEIGHT - 1 ==> s[Offset(r, WIDTH)] == '\n'
    {
      RowsLayout(this, HEIGHT);
      Rows(HEIGHT)
    }
  }

  // ---------------------------------------------------------------------
  // Properties

  /** The position of row `r`, column `c` in the joined rows. */
  function Offset(r: int, c: int): int {
    (WIDTH + 1) * r + c
  }

  /** Where each character of the joined rows comes from. */
  lemma {:induction false} RowsLayout(crt: Crt, n: int)
    requires crt.screen.Length0 == HEIGHT && crt.screen.Length1 == WIDTH && 1 <= n <= HEIGHT
    ensures var s := crt.Rows(n);
      && (forall r, c :: 0 <= r < n && 0 <= c < WIDTH ==> s[Offset(r, c)] == crt.screen[r, c])
      && (forall r :: 0 <= r < n - 1 ==> s[Offset(r, WIDTH)] == '\n')
  {
    if n > 1 {
      RowsLayout(crt, n - 1);
      var s := crt.Rows(n);
      var p := crt.Rows(n - 1);
      assert s == p + "\n" + crt.Row(n - 1);
      forall r, c | 0 <= r < n && 0 <= c < WIDTH
        ensures s[Offset(r, c)] == crt.screen[r, c]
      {
        if r < n - 1 {
          assert s[Offset(r, c)] == p[Offset(r, c)];
        } else {
          assert s[Offset(r, c)] == crt.Row(n - 1)[c];
        }
      }
    }
  }

  /** The meter samples exactly the 1-based cycles 20, 60, 100, 140, 180
      and 220, and adds cycle times register there. */
  lemma MeterSamples(s: Snapshot)
    ensures var c := s.cycle + 1;
      Contribution(s) == if c in {20, 60, 100, 140, 180, 220} then c * s.register else 0
  {
    var c := s.cycle + 1;
    if c > 0 && c % 40 == 20 && c <= 220 {
      var q := c / 40;
      assert c == 40 * q + 20;
      assert 0 <= q <= 5;
      assert q == 0 || q == 1 || q == 2 || q == 3 || q == 4 || q == 5;
    }
  }

  /** The 1-based cycle `n` is one of the first `j` sampled cycles
      20, 60, ..., 40j - 20. */
  predicate SampledAmong(n: int, j: int) {
    n % 40 == 20 && 20 <= n <= 40 * j - 20
  }

  /** The sum of the samples a complete list of reports has reached among
      the first `j` sampled cycles: cycle times the register reported then. */
  function Samples(trace: seq<Snapshot>, j: nat): int {
    if j == 0 then 0
    else
      var n := 40 * j - 20;
      Samples(trace, j - 1) + (if n <= |trace| then n * trace[n - 1].register else 0)
  }

  /** Before cycle 20 nothing has been sampled. */
  lemma {:induction false} NoSamplesYet(trace: seq<Snapshot>, j: nat)
    requires |trace| < 20
    ensures Samples(trace, j) == 0
  {
    if j > 0 {
      NoSamplesYet(trace, j - 1);
    }
  }

  /** One more report adds the sample of its cycle, if it is sampled. */
  lemma {:induction false} SamplesSnoc(trace: seq<Snapshot>, j: nat)
    requires |trace| >= 1
    ensures Samples(trace, j) == Samples(trace[..|trace| - 1], j) +
      (if SampledAmong(|trace|, j) then |trace| * trace[|trace| - 1].register else 0)
  {
    var n := |trace|;
    if j > 0 {
      SamplesSnoc(trace, j - 1);
      var m := 40 * j - 20;
      if m <= n - 1 {
        assert trace[..n - 1][m - 1] == trace[m - 1];
      }
      assert SampledAmong(n, j) <==> SampledAmong(n, j - 1) || n == m by {
        if SampledAmong(n, j) && n != m {
          assert n == 40 * (n / 40) + 20;
        }
      }
    }
  }

  /** Over the reports of a run numbered from cycle 0, the meter reads the
      sum of cycle times register at 1-based cycles 20, 60, ..., 220. */
  lemma {:induction false} SignalOfRun(trace: seq<Snapshot>)
    requires Consecutive(trace)
    ensures SignalSum(trace) == Samples(trace, 6)
  {
    if trace == [] {
      NoSamplesYet(trace, 6);
    } else {
      var n := |trace|;
      var u := trace[..n - 1];
      assert Consecutive(u) by {
        forall i | 0 <= i < |u| ensures u[i].cycle == i {
          assert u[i] == trace[i];
        }
      }
      SignalOfRun(u);
      SamplesSnoc(trace, 6);
      var c := trace[n - 1].cycle + 1;
      assert c == n;
      MeterSamples(trace[n - 1]);
      SampledCycles(n);
      assert SignalSum(trace) == SignalSum(u) + Contribution(trace[n - 1]);
    }
  }

  /** The six cycles the meter samples. */
  lemma SampledCycles(n: int)
    ensures SampledAmong(n, 6) <==> n in {20, 60, 100, 140, 180, 220}
  {
    if SampledAmong(n, 6) {
      var q := n / 40;
      assert n == 40 * q + 20;
      assert 0 <= q <= 5;
    }
  }

  /** `noop` reports one cycle and `addx` two, both with the register as it
      was before the instruction, which changes only after `addx`. */
  lemma TicksReportOldRegister(instr: Instr, cycle: int, register: int)
    ensures forall s :: s in Ticks(instr, cycle, register) ==> s.register == register
    ensures instr.Noop? ==> After(instr, register) == register
  {
  }

  /** Handling a line the CPU accepts keeps the reports numbered 0, 1, 2, ...
      and extends them by one report per cycle. */
  lemma TicksExtendConsecutive(trace: seq<Snapshot>, instr: Instr, register: int)
    requires Consecutive(trace)
    ensures Consecutive(trace + Ticks(instr, |trace| - 1, register))
  {
  }

  /** The CPU reads "noop" and "addx n" for every integer n. */
  lemma ParseRendered(n: int)
    ensures Parse("noop") == Ok(Noop)
    ensures Parse("addx " + RenderSigned(n)) == Ok(AddX(n))
  {
    ParseNoop();
    ParseAddX(n);
  }

  lemma ParseNoop()
    ensures Parse("noop") == Ok(Noop)
  {
    assert ' ' !in "noop";
    SplitNoSep("noop", ' ');
  }

  lemma ParseAddX(n: int)
    ensures Parse("addx " + RenderSigned(n)) == Ok(AddX(n))
  {
    var a := RenderSigned(n);
    assert ' ' !in a;
    SplitCons("addx", a, ' ');
    SplitNoSep(a, ' ');
    assert "addx " + a == "addx" + [' '] + a;
    ParseRenderSigned(n);
  }

  /** Lines `handle` throws on. */
  lemma ParseRejects()
    ensures Parse("") == Err(UnknownInstruction)
    ensures Parse("addx") == Err(MissingComponent)
    ensures Parse("jmp 3") == Err(UnknownInstruction)
  {
    SplitNoSep("addx", ' ');
    SplitCons("jmp", "3", ' ');
    assert "jmp 3" == "jmp" + [' '] + "3";
  }

  /** An `addx` whose argument is not a number throws from `parseInt`. */
  lemma ParseRejectsNumber()
    ensures Parse("addx foo") == Err(BadNumber)
  {
    var a := "foo";
    assert ParseSigned(a) == None by {
      assert !IsDigit(a[0]);
      assert !AllDigits(a);
      assert !SignedNumeral(a);
    }
    assert JavaSplit("addx foo", ' ') == ["addx", a] by {
      assert ' ' !in a;
      SplitCons("addx", a, ' ');
      SplitNoSep(a, ' ');
      assert "addx foo" == "addx" + [' '] + a;
    }
  }
}

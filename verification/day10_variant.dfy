/** The second CPU of day 10 (10/Main.java): the same two instructions, but
    cycles are counted from 1, a single optional hook is called with
    (cycle, register), and the CPU records the instruction in progress and
    how many of its cycles remain. */
module Day10Variant {

  import opened Wrappers
  import Day10

  datatype Op = ADDX | NOOP

  class Cpu {
    var cycle: int
    var register: int
    var op: Op
    var argument: int
    var remainingCycles: int
    /** Whether a pre-cycle hook is set (it is `null` otherwise). */
    var hooked: bool
    /** The (cycle, register) pairs the hook has been called with. */
    var calls: seq<(int, int)>

    constructor ()
      ensures cycle == 0 && register == 1 && op == NOOP && argument == 0 && remainingCycles == 0
      ensures !hooked && calls == []
    {
      cycle := 0;
      register := 1;
      op := NOOP;
      argument := 0;
      remainingCycles := 0;
      hooked := false;
      calls := [];
    }

    /** `setPreCycleHook`: `present` is false when `null` is passed. */
    method SetPreCycleHook(present: bool)
      modifies this
      ensures hooked == present
      ensures cycle == old(cycle) && register == old(register) && op == old(op)
      ensures argument == old(argument) && remainingCycles == old(remainingCycles) && calls == old(calls)
    {
      hooked := present;
    }

    /** `tick`: the cycle count goes up first, so the hook sees 1-based
        cycles; without a hook nothing is called. */
    method Tick()
      modifies this
      ensures cycle == old(cycle) + 1 && remainingCycles == old(remainingCycles) - 1
      ensures calls == old(calls) + (if hooked then [(cycle, register)] else [])
      ensures register == old(register) && op == old(op) && argument == old(argument) && hooked == old(hooked)
    {
      cycle := cycle + 1;
      if hooked {
        calls := calls + [(cycle, register)];
      }
      remainingCycles := remainingCycles - 1;
    }

    /** `addX`: two ticks that report the old register, then the addition. */
    method AddX(x: int)
      modifies this
      ensures op == ADDX && argument == x && remainingCycles == 0
      ensures cycle == old(cycle) + 2 && register == old(register) + x
      ensures calls == old(calls) + (if hooked then [(old(cycle) + 1, old(register)), (old(cycle) + 2, old(register))] else [])
      ensures hooked == old(hooked)
    {
      op := ADDX;
      argument := x;
      remainingCycles := 2;
      Tick();
      Tick();
      register := register + x;
    }

    /** `noop`: one tick. */
    method Noop()
      modifies this
      ensures op == NOOP && remainingCycles == 0 && argument == old(argument)
      ensures cycle == old(cycle) + 1 && register == old(register)
      ensures calls == old(calls) + (if hooked then [(old(cycle) + 1, old(register))] else [])
      ensures hooked == old(hooked)
    {
      op := NOOP;
      remainingCycles := 1;
      Tick();
    }

    /** `handle`: read like the first CPU's; a rejected line throws before
        anything changes. */
    method Handle(instruction: string) returns (r: Result<(), Day10.HandleError>)
      modifies this
      ensures Day10.Parse(instruction).Err? ==>
        r == Err(Day10.Parse(instruction).error) && unchanged(this)
      ensures Day10.Parse(instruction).Ok? ==>
        var i := Day10.Parse(instruction).value;
        && r.Ok? && remainingCycles == 0
        && register == Day10.After(i, old(register))
        && cycle == old(cycle) + |Day10.Ticks(i, old(cycle) - 1, old(register))|
        && calls == old(calls) + (if hooked then Reported(Day10.Ticks(i, old(cycle) - 1, old(register))) else [])
      ensures hooked == old(hooked)
    {
      var parsed := Day10.Parse(instruction);
      if parsed.Err? {
        return Err(parsed.error);
      }
      match parsed.value {
        case Noop =>
          ReportedNoop(cycle, register);
          Noop();
        case AddX(n) =>
          ReportedAddX(n, cycle, register);
          AddX(n);
      }
      r := Ok(());
    }
  }

  /** What the hook sees of a `noop` started after `cycle`. */
  lemma ReportedNoop(cycle: int, register: int)
    ensures Reported(Day10.Ticks(Day10.Noop, cycle - 1, register)) == [(cycle + 1, register)]
  {
    var r := Reported(Day10.Ticks(Day10.Noop, cycle - 1, register));
    assert r[0] == (cycle + 1, register);
  }

  /** What the hook sees of an `addx` started after `cycle`. */
  lemma ReportedAddX(n: int, cycle: int, register: int)
    ensures Reported(Day10.Ticks(Day10.AddX(n), cycle - 1, register)) == [(cycle + 1, register), (cycle + 2, register)]
  {
    var r := Reported(Day10.Ticks(Day10.AddX(n), cycle - 1, register));
    assert r[0] == (cycle + 1, register) && r[1] == (cycle + 2, register);
  }

  /** The first CPU's reports as this CPU's hook sees them: the same
      register, with the cycle counted from 1. */
  function Reported(trace: seq<Day10.Snapshot>): (r: seq<(int, int)>)
    ensures |r| == |trace|
    ensures forall k :: 0 <= k < |trace| ==> r[k] == (trace[k].cycle + 1, trace[k].register)
  {
    if trace == [] then [] else [(trace[0].cycle + 1, trace[0].register)] + Reported(trace[1..])
  }

  /** Reporting a concatenation reports each part. */
  lemma ReportedAppend(a: seq<Day10.Snapshot>, b: seq<Day10.Snapshot>)
    ensures Reported(a + b) == Reported(a) + Reported(b)
  {
    var l := Reported(a + b);
    var r := Reported(a) + Reported(b);
    assert forall k :: 0 <= k < |l| ==> l[k] == r[k];
  }

  /** One instruction on both CPUs: when this one's hook has seen the first
      one's reports so far, it sees the reports of the instruction too. */
  lemma SameRun(trace: seq<Day10.Snapshot>, calls: seq<(int, int)>, instr: Day10.Instr, cycle: int, register: int)
    requires calls == Reported(trace)
    ensures calls + Reported(Day10.Ticks(instr, cycle - 1, register)) == Reported(trace + Day10.Ticks(instr, cycle - 1, register))
  {
    ReportedAppend(trace, Day10.Ticks(instr, cycle - 1, register));
  }

  /** This CPU's hook has seen exactly the first CPU's reports, with the
      cycle counted from 1, and the two agree on the register. */
  ghost predicate Agree(first: Day10.Cpu, second: Cpu)
    reads first, second
  {
    first.Valid() && second.hooked
    && second.calls == Reported(first.trace)
    && second.register == first.register && second.cycle == first.cycle + 1
  }

  /** One instruction line handled by both CPUs keeps them in agreement;
      both reject the same lines. */
  method HandleBoth(first: Day10.Cpu, second: Cpu, line: string) returns (ok: bool)
    requires Agree(first, second)
    modifies first, second
    ensures Agree(first, second)
    ensures ok <==> Day10.Parse(line).Ok?
  {
    var parsed := Day10.Parse(line);
    if parsed.Err? {
      var r1 := first.Handle(line);
      var r2 := second.Handle(line);
      ok := false;
      return;
    }
    ghost var trace0, calls0 := first.trace, second.calls;
    ghost var cycle0, register0 := first.cycle, first.register;
    ghost var ticks := Day10.Ticks(parsed.value, cycle0, register0);
    assert second.cycle - 1 == cycle0 && second.register == register0;
    SameRun(trace0, calls0, parsed.value, cycle0 + 1, register0);
    var r1 := first.Handle(line);
    assert first.trace == trace0 + ticks && first.cycle == cycle0 + |ticks|;
    var r2 := second.Handle(line);
    assert second.calls == calls0 + Reported(ticks) && second.cycle == cycle0 + 1 + |ticks|;
    ok := r1.Ok?;
  }

  /** Both CPUs built by their constructors, this one with a hook, fed the
      same instruction lines until the first line they reject: this one's
      hook has then seen exactly the first one's reports, with the cycle
      counted from 1, and the two registers agree. */
  method RunBoth(lines: seq<string>) returns (first: Day10.Cpu, second: Cpu, handled: nat)
    ensures handled <= |lines|
    ensures handled < |lines| ==> Day10.Parse(lines[handled]).Err?
    ensures Agree(first, second)
  {
    first := new Day10.Cpu();
    second := new Cpu();
    second.SetPreCycleHook(true);
    handled := 0;
    while handled < |lines|
      invariant handled <= |lines|
      invariant Agree(first, second)
    {
      var ok := HandleBoth(first, second, lines[handled]);
      if !ok {
        return;
      }
      handled := handled + 1;
    }
  }
}

/**
 * The clock-circuit CPU: a register `x`, starting at 1, and a list of `noop` / `addx v`
 * instructions run for at most 240 cycles. Each cycle first reports `(cycle, x)` to the
 * start-of-cycle callback; a busy cycle then only clears the busy flag, and any other cycle
 * loads the next instruction, retires the active one (adding its operand to `x` and marking
 * the CPU busy when it is an `addx`) and reports `(cycle, x)` to the end-of-cycle callback.
 * The run stops as soon as no instruction is left to load.
 */
module Cpu {
  import opened Results
  import opened Seqs
  import opened Text

  datatype Instruction = Noop | Addx(v: int)

  /** `parseInstructions` on one line: a line without a space is a `noop`, whatever it says. */
  function ParseInstruction(line: string): Option<Instruction>
  {
    var parts := Split(line, ' ');
    if |parts| == 1 then Some(Noop)
    else
      match ParseInt(parts[1])
      case None => None
      case Some(v) => Some(Addx(v))
  }

  /** The text of an instruction in the puzzle input. */
  function Render(i: Instruction): string
  {
    match i
    case Noop => "noop"
    case Addx(v) => "addx " + IntToString(v)
  }

  /** Parsing the text of an instruction gives the instruction back. */
  lemma ParseRendered(i: Instruction)
    requires i.Addx? ==> IntMin <= i.v <= IntMax
    ensures ParseInstruction(Render(i)) == Some(i)
  {
    match i
    case Noop =>
      SplitNoSeparator("noop", ' ');
    case Addx(v) =>
      var parts := ["addx", IntToString(v)];
      assert Join(parts, ' ') == Render(i);
      SplitJoin(parts, ' ');
      ParseIntToString(v);
  }

  /** Only the second piece of a line with a space is read; a line without one is a `noop`. */
  lemma ParseWithoutSpace(line: string)
    requires ' ' !in line
    ensures ParseInstruction(line) == Some(Noop)
  {
    SplitNoSeparator(line, ' ');
  }

  /** `parseInstructions`: one instruction per line, or `None` when an operand is not an `Int`. */
  function ParseInstructions(lines: seq<string>): (r: Option<seq<Instruction>>)
    ensures r.None? <==> exists k :: 0 <= k < |lines| && ParseInstruction(lines[k]).None?
    ensures r.Some? ==> |r.value| == |lines| && forall k :: 0 <= k < |lines| ==> Some(r.value[k]) == ParseInstruction(lines[k])
    decreases |lines|
  {
    if lines == [] then Some([])
    else
      var front := ParseInstructions(lines[..|lines| - 1]);
      var last := ParseInstruction(lines[|lines| - 1]);
      if front.None? then
        assert exists k :: 0 <= k < |lines| && ParseInstruction(lines[k]).None? by {
          var k :| 0 <= k < |lines| - 1 && ParseInstruction(lines[..|lines| - 1][k]).None?;
          assert lines[..|lines| - 1][k] == lines[k];
        }
        None
      else if last.None? then None
      else
        assert forall k :: 0 <= k < |lines| - 1 ==> lines[..|lines| - 1][k] == lines[k];
        Some(front.value + [last.value])
  }

  /** The fields of `CPU` that `run` updates. */
  datatype CpuState = CpuState(remaining: seq<Instruction>, active: Instruction, busy: bool, x: int)

  /**
   * The constructor: the first instruction becomes the active one, and the CPU starts busy
   * exactly when it is an `addx`; `removeFirst` on an empty list throws.
   */
  function Boot(instructions: seq<Instruction>): (r: Option<CpuState>)
    ensures r.None? <==> instructions == []
    ensures r.Some? ==> [r.value.active] + r.value.remaining == instructions
    ensures r.Some? ==> r.value.busy == instructions[0].Addx? && r.value.x == 1
  {
    if instructions == [] then None
    else Some(CpuState(instructions[1..], instructions[0], instructions[0].Addx?, 1))
  }

  /** What one pass of the loop body does after the start-of-cycle report. */
  datatype Outcome = Skipped(next: CpuState) | Retired(next: CpuState) | Halted

  function Cycle(s: CpuState): Outcome
  {
    if s.busy then Skipped(s.(busy := false))
    else if s.remaining == [] then Halted
    else
      var x := if s.active.Addx? then s.x + s.active.v else s.x;
      Retired(CpuState(s.remaining[1..], s.remaining[0], s.active.Addx?, x))
  }

  /** A busy cycle only clears the flag: `x` and the instructions are untouched. */
  lemma BusyCycle(s: CpuState)
    requires s.busy
    ensures Cycle(s).Skipped? && Cycle(s).next == s.(busy := false)
  {
  }

  /**
   * `x` changes only when an `addx` is retired, by exactly its operand, and the CPU is then
   * busy; retiring loads the next instruction in order.
   */
  lemma XChangesOnRetire(s: CpuState)
    requires Cycle(s) != Halted
    ensures var t := Cycle(s).next;
      && (t.x != s.x ==> Cycle(s).Retired? && s.active.Addx? && t.x == s.x + s.active.v && t.busy)
      && (Cycle(s).Retired? ==> [t.active] + t.remaining == s.remaining)
      && (Cycle(s).Skipped? ==> t.x == s.x && t.active == s.active && t.remaining == s.remaining)
  {
  }

  /** The value the callbacks receive: the cycle number and `x`. */
  datatype Tick = Tick(cycle: int, x: int)

  /** The reports made from cycle `cycle` on, and the state the run ends in. */
  datatype Trace = Trace(starts: seq<Tick>, ends: seq<Tick>, final: CpuState, halted: bool)

  /** The cycles `cycle`, …, 240 of `run`, or fewer when it runs out of instructions. */
  function RunFrom(s: CpuState, cycle: nat): (r: Trace)
    requires 1 <= cycle <= 241
    ensures |r.starts| <= 241 - cycle
    ensures !r.halted ==> |r.starts| == 241 - cycle
    decreases 241 - cycle
  {
    if cycle == 241 then Trace([], [], s, false)
    else
      var start := Tick(cycle, s.x);
      match Cycle(s)
      case Halted => Trace([start], [], s, true)
      case Skipped(t) =>
        var r := RunFrom(t, cycle + 1);
        Trace([start] + r.starts, r.ends, r.final, r.halted)
      case Retired(t) =>
        var r := RunFrom(t, cycle + 1);
        Trace([start] + r.starts, [Tick(cycle, t.x)] + r.ends, r.final, r.halted)
  }

  /** The sum of the operands of the `addx` instructions of a list. */
  function Added(p: seq<Instruction>): int
  {
    if p == [] then 0 else (if p[0].Addx? then p[0].v else 0) + Added(p[1..])
  }

  /** The active instruction followed by the ones still to load. */
  function Program(s: CpuState): seq<Instruction>
  {
    [s.active] + s.remaining
  }

  /**
   * When the instructions run out, the run stops without retiring the last one: `x` has
   * received the operands of every instruction but the last, which is left active.
   */
  lemma {:induction false} LastNeverApplied(s: CpuState, cycle: nat)
    requires 1 <= cycle <= 241 && RunFrom(s, cycle).halted
    ensures var p := Program(s);
      var r := RunFrom(s, cycle);
      && r.final.remaining == []
      && r.final.active == p[|p| - 1]
      && r.final.x == s.x + Added(p[..|p| - 1])
    decreases 241 - cycle
  {
    var p := Program(s);
    match Cycle(s)
    case Halted =>
      assert p[..|p| - 1] == [s.active][..0];
    case Skipped(t) =>
      LastNeverApplied(t, cycle + 1);
    case Retired(t) =>
      LastNeverApplied(t, cycle + 1);
      var q := Program(t);
      assert q == p[1..];
      assert p[..|p| - 1][1..] == q[..|q| - 1];
  }

  /**
   * A run that does not run out of instructions makes one start report per cycle, 1 to 240
   * in order; one that does stops before cycle 241.
   */
  lemma FullRun(s: CpuState)
    ensures var r := RunFrom(s, 1);
      && |r.starts| <= 240
      && (forall k :: 0 <= k < |r.starts| ==> r.starts[k].cycle == k + 1)
      && (!r.halted ==> |r.starts| == 240)
  {
    RunCycles(s, 1);
  }

  lemma {:induction false} RunCycles(s: CpuState, cycle: nat)
    requires 1 <= cycle <= 241
    ensures var r := RunFrom(s, cycle);
      forall k :: 0 <= k < |r.starts| ==> r.starts[k].cycle == cycle + k
    decreases 241 - cycle
  {
    if cycle < 241 && !Cycle(s).Halted? {
      var q := RunFrom(Cycle(s).next, cycle + 1);
      RunCycles(Cycle(s).next, cycle + 1);
      StepTrace(s, cycle);
      var r := RunFrom(s, cycle);
      forall k | 1 <= k < |r.starts|
        ensures r.starts[k].cycle == cycle + k
      {
        assert r.starts[k] == q.starts[k - 1];
      }
    }
  }

  class CPU {
    var remainingInstructions: seq<Instruction>
    var activeInstruction: Instruction
    var busy: bool
    var x: int

    function State(): CpuState
      reads this
    {
      CpuState(remainingInstructions, activeInstruction, busy, x)
    }

    constructor(instructions: seq<Instruction>)
      requires instructions != []
      ensures Boot(instructions) == Some(State())
    {
      remainingInstructions := instructions[1..];
      activeInstruction := instructions[0];
      busy := instructions[0].Addx?;
      x := 1;
    }

    /**
     * `run`, with the reports to `atStartTick` and `atEndTick` returned as the lists of their
     * arguments.
     */
    method Run() returns (starts: seq<Tick>, ends: seq<Tick>)
      modifies this
      ensures var r := RunFrom(old(State()), 1);
        starts == r.starts && ends == r.ends && State() == r.final
    {
      ghost var whole := RunFrom(State(), 1);
      starts, ends := [], [];
      var cycle := 1;
      var halted := false;
      while cycle < 241 && !halted
        invariant 1 <= cycle <= 241
        invariant !halted ==> Resumes(whole, starts, ends, RunFrom(State(), cycle))
        invariant halted ==> starts == whole.starts && ends == whole.ends && State() == whole.final
      {
        starts, ends, halted := RunCycle(whole, starts, ends, cycle);
        cycle := cycle + 1;
      }
      if !halted {
        RunEnds(State());
      }
    }

    /** One pass of `run`'s loop: report the start of the cycle, execute, and report its end when an instruction retires. */
    method RunCycle(ghost whole: Trace, starts0: seq<Tick>, ends0: seq<Tick>, cycle: nat)
      returns (starts: seq<Tick>, ends: seq<Tick>, halted: bool)
      requires 1 <= cycle <= 240 && Resumes(whole, starts0, ends0, RunFrom(State(), cycle))
      modifies this
      ensures halted ==> starts == whole.starts && ends == whole.ends && State() == whole.final
      ensures !halted ==> Resumes(whole, starts, ends, RunFrom(State(), cycle + 1))
    {
      ghost var before := State();
      starts, ends := starts0 + [Tick(cycle, x)], ends0;
      var retired;
      halted, retired := Execute();
      if halted {
        HaltedCycle(before, cycle);
        return;
      }
      StepTrace(before, cycle);
      ResumesShift(whole, starts, ends, RunFrom(before, cycle), RunFrom(State(), cycle + 1), retired, Tick(cycle, x));
      if retired {
        ends := ends + [Tick(cycle, x)];
      }
    }

    /**
     * The loop body after the start-of-cycle report: a busy cycle only clears the flag;
     * otherwise the next instruction is loaded (or the loop ends when there is none) and the
     * active one is retired.
     */
    method Execute() returns (halted: bool, retired: bool)
      modifies this
      ensures Cycle(old(State())) == if halted then Halted else if retired then Retired(State()) else Skipped(State())
      ensures halted ==> State() == old(State())
    {
      if busy {
        busy := false;
        return false, false;
      }
      if remainingInstructions == [] {
        return true, false;
      }
      var nextInstruction := remainingInstructions[0];
      remainingInstructions := remainingInstructions[1..];
      match activeInstruction {
        case Noop =>
        case Addx(v) =>
          x := x + v;
          busy := true;
      }
      activeInstruction := nextInstruction;
      return false, true;
    }
  }

  /** The reports made so far, followed by those still to come, are those of the whole run. */
  predicate Resumes(whole: Trace, starts: seq<Tick>, ends: seq<Tick>, rest: Trace)
  {
    starts + rest.starts == whole.starts && ends + rest.ends == whole.ends && rest.final == whole.final
  }

  /** Past cycle 240 the run reports nothing and stops where it is. */
  lemma RunEnds(s: CpuState)
    ensures RunFrom(s, 241) == Trace([], [], s, false)
  {
  }

  lemma ResumesShift(whole: Trace, starts: seq<Tick>, ends: seq<Tick>, r: Trace, q: Trace, retired: bool, e: Tick)
    requires |starts| >= 1 && Resumes(whole, starts[..|starts| - 1], ends, r)
    requires r.starts == [starts[|starts| - 1]] + q.starts && r.final == q.final
    requires r.ends == (if retired then [e] else []) + q.ends
    ensures Resumes(whole, starts, if retired then ends + [e] else ends, q)
  {
    assert starts == starts[..|starts| - 1] + [starts[|starts| - 1]];
    assert (ends + [e]) + q.ends == ends + ([e] + q.ends);
  }

  /** The last cycle reports its start and stops with the state unchanged. */
  lemma HaltedCycle(s: CpuState, cycle: nat)
    requires 1 <= cycle <= 240 && Cycle(s).Halted?
    ensures RunFrom(s, cycle) == Trace([Tick(cycle, s.x)], [], s, true)
  {
  }

  /**
   * A cycle that does not halt reports its start, and its end when it retires an
   * instruction, and the run goes on from the next state.
   */
  lemma StepTrace(s: CpuState, cycle: nat)
    requires 1 <= cycle <= 240 && !Cycle(s).Halted?
    ensures var r := RunFrom(s, cycle);
      var t := Cycle(s).next;
      var q := RunFrom(t, cycle + 1);
      && r.starts == [Tick(cycle, s.x)] + q.starts
      && r.ends == (if Cycle(s).Retired? then [Tick(cycle, t.x)] else []) + q.ends
      && r.final == q.final
  {
  }

  /** Part one samples the signal strength `cycle * x` at cycles 20, 60, 100, … */
  predicate Sampled(cycle: int)
  {
    (cycle + 20) % 40 == 0
  }

  /** The signal strengths the part one callback collects, in order. */
  function SignalStrengths(ticks: seq<Tick>): seq<int>
  {
    if ticks == [] then []
    else
      var t := ticks[|ticks| - 1];
      SignalStrengths(ticks[..|ticks| - 1]) + if Sampled(t.cycle) then [t.cycle * t.x] else []
  }

  /**
   * Over the consecutive cycles 1 to `n`, part one collects one strength per sampled cycle:
   * `(n + 20) / 40` of them, so at most six in a run of 240 cycles.
   */
  lemma {:induction false} SampleCount(ticks: seq<Tick>)
    requires forall k :: 0 <= k < |ticks| ==> ticks[k].cycle == k + 1
    ensures |SignalStrengths(ticks)| == (|ticks| + 20) / 40
    decreases |ticks|
  {
    if ticks != [] {
      var n := |ticks|;
      var init := ticks[..n - 1];
      assert forall k :: 0 <= k < n - 1 ==> init[k] == ticks[k];
      SampleCount(init);
      StrengthsSnoc(ticks);
      assert ticks[n - 1].cycle == n;
      CountStep(n + 19, 40);
    }
  }

  /** One more report adds a strength exactly when its cycle is sampled. */
  lemma StrengthsSnoc(ticks: seq<Tick>)
    requires ticks != []
    ensures |SignalStrengths(ticks)| == |SignalStrengths(ticks[..|ticks| - 1])| + (if Sampled(ticks[|ticks| - 1].cycle) then 1 else 0)
  {
  }

  /** Counting up by one passes a multiple of `d` exactly when the new value is one. */
  lemma CountStep(a: nat, d: nat)
    requires d > 0
    ensures (a + 1) / d == a / d + (if (a + 1) % d == 0 then 1 else 0)
  {
    var q, r := a / d, a % d;
    assert a == d * q + r;
    if r + 1 < d {
      ModUnique(a + 1, d, q, r + 1);
      assert (a + 1) / d == q;
    } else {
      assert a + 1 == d * (q + 1);
      ModUnique(a + 1, d, q + 1, 0);
    }
  }

  /** `part1`: the sum of the collected strengths, or `None` for an empty program. */
  function Part1(instructions: seq<Instruction>): Option<int>
  {
    match Boot(instructions)
    case None => None
    case Some(s) => Some(Sum(SignalStrengths(RunFrom(s, 1).starts)))
  }

  /** Part one adds six strengths when the program lasts all 240 cycles, and never more. */
  lemma Part1Samples(instructions: seq<Instruction>)
    requires instructions != []
    ensures var r := RunFrom(Boot(instructions).value, 1);
      && |SignalStrengths(r.starts)| <= 6
      && (!r.halted ==> |SignalStrengths(r.starts)| == 6)
  {
    var r := RunFrom(Boot(instructions).value, 1);
    FullRun(Boot(instructions).value);
    SampleCount(r.starts);
  }

  /** Part two lights the pixel when `cycle % 40` is within one of `x`. */
  predicate Lit(cycle: int, x: int)
  {
    x - 1 <= cycle % 40 <= x + 1
  }

  /** What part two prints for a report: `#` or `.`, then a line break after every 40th cycle. */
  function Pixel(t: Tick): string
  {
    [if Lit(t.cycle, t.x) then '#' else '.'] + if t.cycle % 40 == 0 then "\n" else ""
  }

  function Screen(ticks: seq<Tick>): string
  {
    if ticks == [] then [] else Screen(ticks[..|ticks| - 1]) + Pixel(ticks[|ticks| - 1])
  }

  /** Over cycles 1 to `n`, the screen has one pixel per cycle and a line break per 40 cycles. */
  lemma {:induction false} ScreenLength(ticks: seq<Tick>)
    requires forall k :: 0 <= k < |ticks| ==> ticks[k].cycle == k + 1
    ensures |Screen(ticks)| == |ticks| + |ticks| / 40
    decreases |ticks|
  {
    if ticks != [] {
      var n := |ticks|;
      ScreenLength(ticks[..n - 1]);
      CountStep(n - 1, 40);
    }
  }
}

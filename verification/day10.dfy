/** Cathode-Ray Tube (day 10): a two-instruction CPU whose register `X` is sampled for
    signal strengths and drives a 40-column sprite display. */
module Day10 {
  import opened Util
  import opened Text

  /** The operand of `addx` is an `i32`. */
  datatype Instruction = Noop | Addx(v: int)

  /** `cycles`: how long an instruction occupies the CPU. */
  function Cycles(i: Instruction): nat {
    match i
    case Noop => 1
    case Addx(_) => 2
  }

  /** How much an instruction adds to `X` when it completes. */
  function Delta(i: Instruction): int {
    match i
    case Noop => 0
    case Addx(v) => v
  }

  /** `from_str`: exactly `noop`, or `addx ` followed by an `i32`. */
  function ParseInstruction(s: string): (r: Result<Instruction>)
    ensures r == Ok(Noop) <==> s == "noop"
    ensures r.Ok? && r.value.Addx? ==> I32_MIN <= r.value.v <= I32_MAX
    ensures r.Ok? && r.value.Addx? ==> 5 < |s| && s[..5] == "addx "
  {
    if s == "noop" then Ok(Noop)
    else match StripPrefix(s, "addx ")
      case Some(arg) =>
        (match ParseSigned(arg, I32_MIN, I32_MAX)
         case Some(v) => Ok(Addx(v))
         case None => Err)
      case None => Err
  }

  /** The rendered forms parse back; a line that is neither form is rejected. */
  lemma ParseRoundTrip(i: Instruction)
    requires i.Addx? ==> I32_MIN <= i.v <= I32_MAX
    ensures ParseInstruction(Render(i)) == Ok(i)
  {
    if i.Addx? {
      var s := Render(i);
      assert StripPrefix(s, "addx ") == Some(IntToString(i.v)) by {
        assert s[..5] == "addx ";
        assert s != "noop" by { assert s[0] != "noop"[0]; }
      }
      ParseSignedRoundTrip(i.v, I32_MIN, I32_MAX);
    }
  }

  /** Parse failures: an unknown mnemonic, a missing operand, a non-numeric operand. */
  lemma ParseErrors()
    ensures ParseInstruction("nop") == Err
    ensures ParseInstruction("addx") == Err
    ensures ParseInstruction("addx x") == Err
  {
    assert StripPrefix("addx x", "addx ") == Some("x");
  }

  /** An operand beyond `i32::MAX` is rejected. */
  lemma ParseOutOfRange(n: nat)
    requires n > I32_MAX
    ensures ParseInstruction("addx " + NatToString(n)) == Err
  {
    var s := "addx " + NatToString(n);
    assert s[..5] == "addx ";
    assert s != "noop" by { assert s[0] != "noop"[0]; }
    assert StripPrefix(s, "addx ") == Some(NatToString(n));
    assert IsDigit(NatToString(n)[0]);
    NatToStringValue(n);
  }

  function Render(i: Instruction): string {
    match i
    case Noop => "noop"
    case Addx(v) => "addx " + IntToString(v)
  }

  /** `Cpu`: register, cycle counter, program counter, cycles spent in the current
      instruction and the program. */
  datatype Cpu = Cpu(x: int, cycle: nat, pc: nat, counter: nat, program: seq<Instruction>)

  /** `Cpu::new`. */
  function NewCpu(program: seq<Instruction>): (cpu: Cpu)
    ensures cpu.x == 1 && cpu.cycle == 0 && cpu.pc == 0 && cpu.counter == 0 && cpu.program == program
  {
    Cpu(1, 0, 0, 0, program)
  }

  predicate HasInstruction(cpu: Cpu) {
    cpu.pc < |cpu.program|
  }

  /** `pre_cycle`: one more cycle, in total and in the current instruction. */
  function PreCycle(cpu: Cpu): (r: Cpu)
    ensures r.cycle == cpu.cycle + 1 && r.counter == cpu.counter + 1
    ensures r.x == cpu.x && r.pc == cpu.pc && r.program == cpu.program
  {
    cpu.(cycle := cpu.cycle + 1, counter := cpu.counter + 1)
  }

  /** `post_cycle`: once the current instruction has had its cycles it executes, and the
      CPU moves to the next one. */
  function PostCycle(cpu: Cpu): (r: Cpu)
    requires HasInstruction(cpu)
    ensures var done := cpu.counter >= Cycles(cpu.program[cpu.pc]);
      && (done ==> r.pc == cpu.pc + 1 && r.counter == 0 && r.x == cpu.x + Delta(cpu.program[cpu.pc]))
      && (!done ==> r == cpu)
    ensures r.cycle == cpu.cycle && r.program == cpu.program
  {
    if cpu.counter >= Cycles(cpu.program[cpu.pc]) then
      Execute(cpu).(pc := cpu.pc + 1, counter := 0)
    else cpu
  }

  /** `execute_current_instruction`: only `addx` touches `X`. */
  function Execute(cpu: Cpu): (r: Cpu)
    requires HasInstruction(cpu)
    ensures r == cpu.(x := cpu.x + Delta(cpu.program[cpu.pc]))
  {
    match cpu.program[cpu.pc]
    case Noop => cpu
    case Addx(n) => cpu.(x := cpu.x + n)
  }

  /** `signal_strength`. */
  function SignalStrength(cpu: Cpu): int {
    Strength(cpu.cycle, cpu.x)
  }

  function Strength(cycle: nat, x: int): int {
    cycle * x
  }

  // ---------------------------------------------------------------------------------
  // Reference semantics: the value of X during every cycle.
  // ---------------------------------------------------------------------------------

  function TotalCycles(program: seq<Instruction>): nat {
    if |program| == 0 then 0 else TotalCycles(program[..|program| - 1]) + Cycles(program[|program| - 1])
  }

  function TotalDelta(program: seq<Instruction>): int {
    if |program| == 0 then 0 else TotalDelta(program[..|program| - 1]) + Delta(program[|program| - 1])
  }

  function Repeat(x: int, n: nat): (r: seq<int>)
    ensures |r| == n && forall k :: 0 <= k < n ==> r[k] == x
  {
    if n == 0 then [] else Repeat(x, n - 1) + [x]
  }

  /** `X` during each cycle of the program: every instruction holds the value reached
      after the instructions before it for all of its cycles. */
  function Trace(program: seq<Instruction>): (t: seq<int>)
    ensures |t| == TotalCycles(program)
  {
    if |program| == 0 then []
    else
      var init := program[..|program| - 1];
      Trace(init) + Repeat(1 + TotalDelta(init), Cycles(program[|program| - 1]))
  }

  /** Cycles 20, 60, ..., 220. */
  predicate Sampled(cycle: nat) {
    20 <= cycle <= 220 && (cycle - 20) % 40 == 0
  }

  /** Sum of the signal strengths of the sampled cycles of a trace. */
  function SampleSum(t: seq<int>): int {
    if |t| == 0 then 0
    else SampleSum(t[..|t| - 1]) + (if Sampled(|t|) then Strength(|t|, t[|t| - 1]) else 0)
  }

  /** The display of a trace: a leading newline, one pixel per cycle and a newline after
      each 40th. */
  function Display(t: seq<int>): string {
    if |t| == 0 then "\n" else Display(t[..|t| - 1]) + Pixel(|t|, t[|t| - 1])
  }

  /** The pixel drawn during `cycle`: lit when the sprite centred on `x` covers the column. */
  function Pixel(cycle: nat, x: int): (r: string)
    requires 1 <= cycle
    ensures |r| == 1 || |r| == 2
    ensures r[0] == '█' <==> Abs(x - (cycle - 1) % 40) <= 1
    ensures r[0] == '█' || r[0] == ' '
    ensures |r| == 2 <==> cycle % 40 == 0
  {
    var column := (cycle - 1) % 40;
    var lit := if Abs(x - column) <= 1 then '█' else ' ';
    if column == 39 then [lit, '\n'] else [lit]
  }

  /** The CPU state the loop keeps: the program so far has run, the current instruction
      has had `counter` cycles, and the trace is exactly what those cycles saw. */
  ghost predicate Running(cpu: Cpu, program: seq<Instruction>, t: seq<int>) {
    && cpu.program == program
    && cpu.pc <= |program|
    && cpu.x == 1 + TotalDelta(program[..cpu.pc])
    && (cpu.pc < |program| ==> cpu.counter < Cycles(program[cpu.pc]))
    && (cpu.pc == |program| ==> cpu.counter == 0)
    && t == Trace(program[..cpu.pc]) + Repeat(cpu.x, cpu.counter)
    && cpu.cycle == |t|
  }

  /** One `pre_cycle` / `post_cycle` pair extends the trace by the current `X`. */
  lemma CycleStep(cpu: Cpu, program: seq<Instruction>, t: seq<int>)
    requires Running(cpu, program, t) && HasInstruction(cpu)
    ensures Running(PostCycle(PreCycle(cpu)), program, t + [cpu.x])
    ensures |t| < TotalCycles(program)
  {
    var pre := PreCycle(cpu);
    var i := program[cpu.pc];
    assert Repeat(cpu.x, cpu.counter + 1) == Repeat(cpu.x, cpu.counter) + [cpu.x];
    if pre.counter >= Cycles(i) {
      InstructionDone(cpu, program, t);
    }
    CyclesLeft(cpu, program, t);
  }

  /** The cycle that completes an instruction closes its part of the trace and applies its
      change to `X`. */
  lemma InstructionDone(cpu: Cpu, program: seq<Instruction>, t: seq<int>)
    requires Running(cpu, program, t) && HasInstruction(cpu)
    requires cpu.counter + 1 >= Cycles(program[cpu.pc])
    ensures Trace(program[..cpu.pc + 1]) == t + [cpu.x]
    ensures cpu.x + Delta(program[cpu.pc]) == 1 + TotalDelta(program[..cpu.pc + 1])
  {
    var done := program[..cpu.pc + 1];
    assert done[..|done| - 1] == program[..cpu.pc];
    assert done[|done| - 1] == program[cpu.pc];
    assert cpu.counter + 1 == Cycles(program[cpu.pc]);
    assert Repeat(cpu.x, cpu.counter + 1) == Repeat(cpu.x, cpu.counter) + [cpu.x];
  }

  /** While an instruction is still running, the trace is shorter than the program's. */
  lemma CyclesLeft(cpu: Cpu, program: seq<Instruction>, t: seq<int>)
    requires Running(cpu, program, t) && HasInstruction(cpu)
    ensures |t| < TotalCycles(program)
  {
    var next := program[..cpu.pc + 1];
    assert next[..|next| - 1] == program[..cpu.pc];
    TraceLength(program, cpu.pc + 1);
  }

  lemma TraceLength(program: seq<Instruction>, k: nat)
    requires k <= |program|
    ensures TotalCycles(program[..k]) <= TotalCycles(program)
    decreases |program| - k
  {
    if k < |program| {
      TraceLength(program, k + 1);
      assert program[..k + 1][..k] == program[..k];
    } else {
      assert program[..k] == program;
    }
  }

  lemma SampleStep(t: seq<int>, x: int, cycle: nat, added: int)
    requires cycle == |t| + 1
    requires added == if 20 <= cycle <= 220 && (cycle - 20) % 40 == 0 then Strength(cycle, x) else 0
    ensures SampleSum(t + [x]) == SampleSum(t) + added
  {
    var u := t + [x];
    assert u[..|u| - 1] == t && u[|u| - 1] == x;
  }

  lemma DisplayStep(t: seq<int>, x: int, cycle: nat, drawn: string)
    requires cycle == |t| + 1
    requires var column := (cycle - 1) % 40;
      var lit := if Abs(x - column) <= 1 then '█' else ' ';
      drawn == if column == 39 then [lit, '\n'] else [lit]
    ensures Display(t + [x]) == Display(t) + drawn
  {
    var u := t + [x];
    assert u[..|u| - 1] == t && u[|u| - 1] == x;
  }

  lemma RunningStart(program: seq<Instruction>)
    ensures Running(NewCpu(program), program, [])
  {
    assert program[..0] == [];
  }

  lemma TraceEnd(cpu: Cpu, program: seq<Instruction>, t: seq<int>)
    requires Running(cpu, program, t) && !HasInstruction(cpu)
    ensures t == Trace(program) && cpu.x == 1 + TotalDelta(program)
  {
    assert program[..cpu.pc] == program;
    assert Repeat(cpu.x, 0) == [];
  }

  /** `part1` as a loop over the CPU: the signal strengths of the sampled cycles, and the
      run takes exactly the program's cycles and ends with `X` at one plus every `addx`. */
  method Part1(program: seq<Instruction>) returns (sum: int, ghost final: Cpu)
    ensures sum == SampleSum(Trace(program))
    ensures final.cycle == TotalCycles(program) && final.x == 1 + TotalDelta(program)
  {
    var cpu := NewCpu(program);
    sum := 0;
    ghost var t: seq<int> := [];
    RunningStart(program);
    while HasInstruction(cpu)
      invariant Running(cpu, program, t)
      invariant sum == SampleSum(t)
      decreases TotalCycles(program) - |t|
    {
      CycleStep(cpu, program, t);
      cpu := PreCycle(cpu);
      ghost var before := sum;
      if 20 <= cpu.cycle <= 220 && (cpu.cycle - 20) % 40 == 0 {
        sum := sum + SignalStrength(cpu);
      }
      SampleStep(t, cpu.x, cpu.cycle, sum - before);
      t := t + [cpu.x];
      cpu := PostCycle(cpu);
    }
    TraceEnd(cpu, program, t);
    final := cpu;
  }

  /** `part2` as a loop over the CPU: the display of the program's trace. */
  method Part2(program: seq<Instruction>) returns (display: string)
    ensures display == Display(Trace(program))
  {
    var cpu := NewCpu(program);
    display := "\n";
    ghost var t: seq<int> := [];
    RunningStart(program);
    while HasInstruction(cpu)
      invariant Running(cpu, program, t)
      invariant display == Display(t)
      decreases TotalCycles(program) - |t|
    {
      CycleStep(cpu, program, t);
      cpu := PreCycle(cpu);
      var pixel := (cpu.cycle - 1) % 40;
      var lit := if Abs(cpu.x - pixel) <= 1 then '█' else ' ';
      var drawn := if pixel == 39 then [lit, '\n'] else [lit];
      DisplayStep(t, cpu.x, cpu.cycle, drawn);
      display := display + drawn;
      t := t + [cpu.x];
      cpu := PostCycle(cpu);
    }
    TraceEnd(cpu, program, t);
  }

  /** A program of `noop`s alone keeps `X` at 1 for one cycle each. */
  lemma {:induction false} NoopTrace(program: seq<Instruction>)
    requires forall k :: 0 <= k < |program| ==> program[k] == Noop
    ensures Trace(program) == Repeat(1, |program|)
    decreases |program|
  {
    if |program| > 0 {
      var init := program[..|program| - 1];
      NoopTrace(init);
      NoopDelta(init);
    }
  }

  lemma {:induction false} NoopDelta(program: seq<Instruction>)
    requires forall k :: 0 <= k < |program| ==> program[k] == Noop
    ensures TotalDelta(program) == 0
    decreases |program|
  {
    if |program| > 0 {
      NoopDelta(program[..|program| - 1]);
    }
  }

  /** The small example from the puzzle: `noop`, `addx 3`, `addx -5` runs five cycles with
      `X` at 1, 1, 1, 4, 4 and ends at -1. */
  lemma SmallExample()
    ensures Trace([Noop, Addx(3), Addx(-5)]) == [1, 1, 1, 4, 4]
    ensures TotalDelta([Noop, Addx(3), Addx(-5)]) + 1 == -1
  {
    var p := [Noop, Addx(3), Addx(-5)];
    assert p[..2] == [Noop, Addx(3)] && p[..2][..1] == [Noop] && [Noop][..0] == [];
  }
}

/** The handheld device of 2022 day 10: a CPU that runs one instruction at a
    time for a fixed number of cycles, a CRT whose row advances with the clock,
    and the signal-strength measurement taken while the program runs. */
module CathodeRay {
  import opened Text
  import Arith

  /** An instruction with its cycles per instruction. */
  datatype Instr = Add(cycles: nat, value: int) | Nop(cycles: nat) | Unknown(name: string)

  /** `Instr::from`: `addx v` takes two cycles, `noop` one, any other word is
      `Unknown`. An `addx` without a value that parses as `i32` gives `None`
      (a panic). */
  function ParseInstr(input: string): (r: Option<Instr>)
    ensures Split(input, ' ')[0] == "noop" ==> r == Some(Nop(1))
    ensures Split(input, ' ')[0] !in {"noop", "addx"} ==> r == Some(Unknown(Split(input, ' ')[0]))
    ensures Split(input, ' ')[0] == "addx" ==>
      (r.Some? <==> |Split(input, ' ')| >= 2 && ParseI32(Split(input, ' ')[1]).Some?)
    ensures r.Some? && r.value.Add? ==> r.value.cycles == 2 && Split(input, ' ')[0] == "addx"
  {
    var words := Split(input, ' ');
    match words[0]
    case "addx" =>
      if |words| < 2 then None
      else (match ParseI32(words[1])
            case Some(v) => Some(Add(2, v))
            case None => None)
    case "noop" => Some(Nop(1))
    case _ => Some(Unknown(words[0]))
  }

  /** `addx` with a non-negative `i32` value, as the puzzle input writes it. */
  lemma ParseAddText(v: nat)
    requires v <= I32_MAX
    ensures ParseInstr("addx " + ShowNat(v)) == Some(Add(2, v))
  {
    var amount := ShowNat(v);
    SplitJoin(["addx", amount], ' ');
    assert Join(["addx", amount], ' ') == "addx " + amount;
    DecimalValueShowNat(v);
    assert ParseInt(amount) == Some(v);
    assert ParseI32(amount) == Some(v);
  }

  /** `get_cpi`: the cycles an instruction occupies; `Unknown` takes none. */
  function Cpi(instr: Instr): nat
  {
    match instr
    case Add(cycles, _) => cycles
    case Nop(cycles) => cycles
    case Unknown(_) => 0
  }

  /** Every instruction that parses to a known kind occupies the CPU for one or
      two cycles; unknown words take none. */
  lemma ParsedCpi(input: string)
    requires ParseInstr(input).Some?
    ensures Cpi(ParseInstr(input).value) == 0 <==> ParseInstr(input).value.Unknown?
    ensures Cpi(ParseInstr(input).value) <= 2
  {
  }

  /** The CPU as a value. */
  datatype CpuState = CpuState(register: int, running: Option<Instr>, busyFor: nat, clock: nat)

  /** `CPU::new`: register 1, idle, clock 0. */
  const Boot := CpuState(1, None, 0, 0)

  /** `exec`: `None` (the source's `Err("CPU busy")`) while an instruction is
      running; otherwise the instruction starts with its cycle count. */
  function Issue(s: CpuState, instr: Instr): (r: Option<CpuState>)
    ensures r.None? <==> s.running.Some?
    ensures r.Some? ==> r.value == s.(running := Some(instr), busyFor := Cpi(instr))
  {
    if s.running.Some? then None
    else Some(s.(running := Some(instr), busyFor := Cpi(instr)))
  }

  /** The register after `instr` completes. */
  function Retire(register: int, instr: Instr): int
  {
    match instr
    case Add(_, value) => register + value
    case _ => register
  }

  /** `process_pipeline(clock)`: the clock jumps to `clock`; a running
      instruction is charged the elapsed ticks when it has at least that many
      left (otherwise its count stays as it was), and when its count is zero it
      retires: `addx` adds its value and the CPU becomes idle. */
  function Pipeline(s: CpuState, clock: nat): (r: CpuState)
    requires clock >= s.clock
    ensures r.clock == clock
    ensures s.running.None? ==> r == s.(clock := clock)
    ensures r.running.Some? ==> r.register == s.register && r.running == s.running && 0 < r.busyFor <= s.busyFor
  {
    var elapsed := clock - s.clock;
    if s.running.None? then s.(clock := clock)
    else
      var busy := if s.busyFor >= elapsed then s.busyFor - elapsed else s.busyFor;
      if busy == 0 then CpuState(Retire(s.register, s.running.value), None, busy, clock)
      else s.(busyFor := busy, clock := clock)
  }

  /** `addx v` leaves the register alone on its first tick and adds `v` on its
      second, after which the CPU is idle again. */
  lemma AddTakesTwoTicks(v: int)
    ensures Issue(Boot, Add(2, v)).Some?
    ensures Pipeline(Issue(Boot, Add(2, v)).value, 1).register == 1
    ensures Pipeline(Issue(Boot, Add(2, v)).value, 1).running.Some?
    ensures Pipeline(Pipeline(Issue(Boot, Add(2, v)).value, 1), 2).register == 1 + v
    ensures Pipeline(Pipeline(Issue(Boot, Add(2, v)).value, 1), 2).running.None?
  {
  }

  /** A second `exec` before the first instruction retires is refused. */
  lemma BusyRefusesExec(s: CpuState, first: Instr, second: Instr)
    requires s.running.None?
    ensures Issue(s, first).Some? && Issue(Issue(s, first).value, second).None?
  {
  }

  /** Only `addx` ever changes the register. */
  lemma OnlyAddChangesRegister(s: CpuState, clock: nat)
    requires clock >= s.clock
    requires s.running.None? || !s.running.value.Add?
    ensures Pipeline(s, clock).register == s.register
  {
  }

  /** The CPU of the source, updated in place. */
  class Cpu {
    var register: int
    var runningInstruction: Option<Instr>
    var busyFor: nat
    var clock: nat

    ghost function State(): CpuState
      reads this
    {
      CpuState(register, runningInstruction, busyFor, clock)
    }

    /** `CPU::new`. */
    constructor ()
      ensures State() == Boot
    {
      register, runningInstruction, busyFor, clock := 1, None, 0, 0;
    }

    /** `exec`: `ok` is false, and nothing changes, while the CPU is busy. */
    method Exec(instr: Instr) returns (ok: bool)
      modifies this
      ensures ok <==> old(runningInstruction).None?
      ensures ok ==> Some(State()) == Issue(old(State()), instr)
      ensures !ok ==> State() == old(State())
    {
      if runningInstruction.Some? {
        return false;
      }
      busyFor := Cpi(instr);
      runningInstruction := Some(instr);
      return true;
    }

    /** `process_pipeline`; the source subtracts the clocks as `u32`, so the new
        clock may not lie before the current one. */
    method ProcessPipeline(newClock: nat)
      requires newClock >= clock
      modifies this
      ensures State() == Pipeline(old(State()), newClock)
    {
      var elapsed := newClock - clock;
      clock := newClock;
      if runningInstruction.None? {
        return;
      }
      var instr := runningInstruction.value;
      if busyFor >= elapsed {
        busyFor := busyFor - elapsed;
      }
      if busyFor == 0 {
        register := Retire(register, instr);
        runningInstruction := None;
      }
    }

    /** `is_busy`. */
    function IsBusy(): (busy: bool)
      reads this
      ensures busy <==> State().running.Some?
    {
      runningInstruction.Some?
    }
  }

  /** How `update_pixel` moves the row: up by one at every non-zero multiple of
      the width. */
  function RowAdvance(row: nat, clock: nat, width: nat): nat
    requires width > 0
  {
    if clock != 0 && clock % width == 0 then row + 1 else row
  }

  /** The row after `update_pixel` has seen clocks 0, 1, ..., `count - 1`. */
  function RowAfter(count: nat, width: nat): nat
    requires width > 0
  {
    if count == 0 then 0 else RowAdvance(RowAfter(count - 1, width), count - 1, width)
  }

  /** Fed the clocks in order, the CRT is on row `clock / width` when drawing
      `clock`. */
  lemma {:induction false} RowFollowsClock(clock: nat, width: nat)
    requires width > 0
    ensures RowAfter(clock + 1, width) == clock / width
  {
    if clock > 0 {
      RowFollowsClock(clock - 1, width);
      Arith.DivPrevious(clock, width);
      assert RowAfter(clock + 1, width) == RowAdvance(RowAfter(clock, width), clock, width);
    }
  }

  /** The CRT as a value: its current row and its pixels, lit or dark. */
  datatype Screen = Screen(row: nat, pixels: seq<bool>)

  /** The size of the device's CRT, `CRT::new(40, 6)`. */
  const Width := 40
  const Height := 6

  /** `CRT::new(40, 6)`: every pixel dark, on the first row. */
  const Dark := Screen(0, seq(Width * Height, _ => false))

  /** The position `m = row * width + |sprite|` that `update_pixel` compares
      the clock with. */
  function SpriteAt(row: nat, width: nat, sprite: int): nat
  {
    row * width + (if sprite < 0 then -sprite else sprite)
  }

  /** `update_pixel(clock, sprite)` on a screen. The row advances first;
      nothing else happens when the sprite is outside -1..=41. Otherwise pixel
      `clock` is lit when `clock` lies in `m - 1..=m + 1`. `None` where the
      source panics: `m - 1` below zero, or a pixel index past the panel. */
  function Draw(s: Screen, width: nat, clock: nat, sprite: int): (r: Option<Screen>)
    requires width > 0
    ensures r.Some? ==> r.value.row == RowAdvance(s.row, clock, width) && |r.value.pixels| == |s.pixels|
    ensures r.Some? ==> forall i :: 0 <= i < |s.pixels| && i != clock ==> r.value.pixels[i] == s.pixels[i]
  {
    var row := RowAdvance(s.row, clock, width);
    if !(-1 <= sprite <= 41) then Some(Screen(row, s.pixels))
    else
      var m := SpriteAt(row, width, sprite);
      if m == 0 then None
      else if m - 1 <= clock <= m + 1 then
        if clock < |s.pixels| then Some(Screen(row, s.pixels[clock := true])) else None
      else Some(Screen(row, s.pixels))
  }

  /** On the panel, drawing fails exactly when the sprite is 0 on the first
      row, where `m - 1` underflows. */
  lemma DrawOnPanel(s: Screen, width: nat, clock: nat, sprite: int)
    requires width > 0 && clock < |s.pixels|
    ensures Draw(s, width, clock, sprite).None? <==> RowAdvance(s.row, clock, width) == 0 && sprite == 0
  {
  }

  /** With the row in step with the clock, the pixel being drawn is lit
      exactly when the sprite's distance from 0 lies within one of the column,
      and it stays lit once lit. */
  lemma DrawColumn(s: Screen, width: nat, clock: nat, sprite: int)
    requires width > 0 && clock < |s.pixels| && RowAdvance(s.row, clock, width) == clock / width
    requires Draw(s, width, clock, sprite).Some?
    ensures var magnitude := if sprite < 0 then -sprite else sprite;
      Draw(s, width, clock, sprite).value.pixels[clock] <==>
        s.pixels[clock] || (-1 <= sprite <= 41 && magnitude - 1 <= clock % width <= magnitude + 1)
  {
    var row := clock / width;
    assert clock == row * width + clock % width;
  }

  /** Past the panel, with the row in step with the clock, drawing fails
      exactly when the sprite covers the column: `get_mut(clock).unwrap()`
      finds no pixel. */
  lemma DrawPastPanel(s: Screen, width: nat, clock: nat, sprite: int)
    requires width > 0 && width <= clock && |s.pixels| <= clock
    requires RowAdvance(s.row, clock, width) == clock / width
    ensures var magnitude := if sprite < 0 then -sprite else sprite;
      Draw(s, width, clock, sprite).None? <==>
        -1 <= sprite <= 41 && magnitude - 1 <= clock % width <= magnitude + 1
  {
    var row := clock / width;
    assert row >= 1;
    assert clock == row * width + clock % width;
  }

  /** `(v as i32) as u64`: a negative `i32` wraps to `2^64 + v`. */
  function AsU64(v: int): nat
    requires I32_MIN <= v <= I32_MAX
  {
    if v < 0 then v + U64_MAX + 1 else v
  }

  /** `signal_strength += (clock as i32 * register) as u64` with Rust's
      overflow checks: `None` where the `i32` product or the `u64` sum
      overflows, a panic. */
  function Measure(signal: nat, clock: nat, register: int): (r: Option<nat>)
    ensures r.Some? ==> r.value <= U64_MAX
  {
    var p := clock * register;
    if !(I32_MIN <= p <= I32_MAX) then None
    else if signal + AsU64(p) > U64_MAX then None
    else Some(signal + AsU64(p))
  }

  /** A non-negative product is added as it is, unless the sum leaves `u64`. */
  lemma MeasureNonNegative(signal: nat, clock: nat, register: int)
    requires 0 <= clock * register <= I32_MAX
    ensures Measure(signal, clock, register).Some? <==> signal + clock * register <= U64_MAX
    ensures Measure(signal, clock, register).Some? ==>
      Measure(signal, clock, register).value == signal + clock * register
  {
  }

  /** A negative product wraps to `2^64` plus the product: the sum overflows,
      and the source panics, exactly when the signal so far is at least the
      product's magnitude; otherwise the sum is `2^64` more than the signed
      one. */
  lemma MeasureNegative(signal: nat, clock: nat, register: int)
    requires I32_MIN <= clock * register < 0
    ensures Measure(signal, clock, register).None? <==> signal >= -(clock * register)
    ensures Measure(signal, clock, register).Some? ==>
      Measure(signal, clock, register).value == signal + clock * register + U64_MAX + 1
  {
  }

  /** The state of the `main` loop: the CPU, the CRT, the loop's own clock,
      the cycles until the next measurement and the signal strength so far. */
  datatype Machine = Machine(cpu: CpuState, screen: Screen, clock: nat, countdown: nat, signal: nat)

  const Start := Machine(Boot, Dark, 0, 20, 0)

  /** Last clock at which a measurement is taken. */
  const LastMeasure := 220

  /** One pass of the inner `while`: the CRT draws the current clock with the
      register as the sprite, the clock advances, the countdown drops (a panic
      when the `u32` countdown would go below zero), a measurement is taken
      when it reaches zero no later than clock 220, and the pipeline catches
      up with the clock. `None` where any of these panics. */
  function Tick(m: Machine): (r: Option<Machine>)
    requires m.cpu.clock <= m.clock
    ensures r.None? <==>
      Draw(m.screen, Width, m.clock, m.cpu.register).None? || m.countdown == 0 ||
      (m.countdown == 1 && m.clock + 1 <= LastMeasure && Measure(m.signal, m.clock + 1, m.cpu.register).None?)
    ensures r.Some? ==> r.value.clock == m.clock + 1 && r.value.cpu.clock == r.value.clock
    ensures r.Some? ==> r.value.screen == Draw(m.screen, Width, m.clock, m.cpu.register).value
  {
    match Draw(m.screen, Width, m.clock, m.cpu.register)
    case None => None
    case Some(screen) =>
      if m.countdown == 0 then None
      else
        var clock := m.clock + 1;
        if m.countdown == 1 && clock <= LastMeasure then
          match Measure(m.signal, clock, m.cpu.register)
          case None => None
          case Some(signal) => Some(Machine(Pipeline(m.cpu, clock), screen, clock, 40, signal))
        else Some(Machine(Pipeline(m.cpu, clock), screen, clock, m.countdown - 1, m.signal))
  }

  /** How long the inner loop still runs: busy ticks plus one for retiring. */
  function Remaining(s: CpuState): nat
  {
    s.busyFor + (if s.running.Some? then 1 else 0)
  }

  lemma TickShortensRun(m: Machine)
    requires m.cpu.clock == m.clock && m.cpu.running.Some? && Tick(m).Some?
    ensures Remaining(Tick(m).value.cpu) < Remaining(m.cpu)
  {
  }

  /** `while cpu.is_busy()`: ticks until the running instruction retires. */
  function Drain(m: Machine): (r: Option<Machine>)
    requires m.cpu.clock == m.clock
    ensures r.Some? ==> r.value.cpu.running.None? && r.value.cpu.clock == r.value.clock
    decreases Remaining(m.cpu)
  {
    if m.cpu.running.None? then Some(m)
    else
      match Tick(m)
      case None => None
      case Some(next) =>
        TickShortensRun(m);
        Drain(next)
  }

  /** The loop over the program: each instruction is started on the idle CPU
      and run to completion. */
  function RunFrom(program: seq<Instr>, m: Machine): (r: Option<Machine>)
    requires m.cpu.clock == m.clock && m.cpu.running.None?
    ensures r.Some? ==> r.value.cpu.running.None?
  {
    if program == [] then Some(m)
    else
      var started := m.(cpu := Issue(m.cpu, program[0]).value);
      match Drain(started)
      case None => None
      case Some(next) => RunFrom(program[1..], next)
  }

  /** `addx -1` then `noop`: the register is 0 when the CRT draws clock 2 on
      the first row, and `m - 1` underflows. */
  lemma RegisterZeroPanics()
    ensures RunFrom([Add(2, -1), Nop(1)], Start).None?
  {
    var m0 := Start.(cpu := Issue(Boot, Add(2, -1)).value);
    assert Draw(m0.screen, Width, 0, 1).Some?;
    var m1 := Tick(m0).value;
    assert m1.cpu.running.Some? && m1.cpu.register == 1 && m1.clock == 1;
    assert Draw(m1.screen, Width, 1, 1).Some?;
    var m2 := Tick(m1).value;
    assert m2.cpu.register == 0 && m2.cpu.running.None? && m2.clock == 2;
    assert Drain(m1) == Some(m2);
    assert Drain(m0) == Some(m2);
    var n0 := m2.(cpu := Issue(m2.cpu, Nop(1)).value);
    assert Draw(n0.screen, Width, 2, 0).None?;
    assert [Add(2, -1), Nop(1)][1..] == [Nop(1)];
  }

  /** The measurement schedule: until clock 220 the next measurement falls on
      a clock congruent to 20 modulo 40, at most 40 cycles ahead. */
  ghost predicate OnSchedule(m: Machine)
  {
    m.clock < LastMeasure ==> (m.clock + m.countdown) % 40 == 20 && 1 <= m.countdown <= 40
  }

  /** Up to clock 220 the countdown never underflows: a tick fails only where
      the CRT panics or a measurement overflows. It keeps the schedule and
      measures exactly at clocks 20, 60, 100, 140, 180 and 220. */
  lemma TickKeepsSchedule(m: Machine)
    requires m.cpu.clock <= m.clock && OnSchedule(m) && m.clock < LastMeasure
    ensures var clock := m.clock + 1;
      var measured := clock % 40 == 20;
      Tick(m).None? <==>
        Draw(m.screen, Width, m.clock, m.cpu.register).None? ||
        (measured && Measure(m.signal, clock, m.cpu.register).None?)
    ensures Tick(m).Some? ==> OnSchedule(Tick(m).value)
    ensures var clock := m.clock + 1;
      var measured := clock % 40 == 20;
      Tick(m).Some? ==>
        Tick(m).value.signal == if measured then Measure(m.signal, clock, m.cpu.register).value else m.signal
  {
    ScheduleStep(m.clock, m.countdown);
    TickFailsOnSchedule(m);
    TickStaysOnSchedule(m);
    TickMeasuresOnSchedule(m);
  }

  /** On the schedule a tick fails only where the CRT or the measurement does. */
  lemma TickFailsOnSchedule(m: Machine)
    requires m.cpu.clock <= m.clock && 1 <= m.countdown && m.clock < LastMeasure
    ensures Tick(m).None? <==>
      Draw(m.screen, Width, m.clock, m.cpu.register).None? ||
      (m.countdown == 1 && Measure(m.signal, m.clock + 1, m.cpu.register).None?)
  {
  }

  /** A tick keeps the schedule. */
  lemma TickStaysOnSchedule(m: Machine)
    requires m.cpu.clock <= m.clock && OnSchedule(m) && m.clock < LastMeasure
    ensures Tick(m).Some? ==> OnSchedule(Tick(m).value)
  {
    TickCountdown(m);
    if Tick(m).Some? {
      ScheduleNext(m.clock, m.countdown);
    }
  }

  /** The countdown after a tick: back to 40 after a measurement, one less
      otherwise. */
  lemma TickCountdown(m: Machine)
    requires m.cpu.clock <= m.clock && m.clock < LastMeasure
    ensures Tick(m).Some? ==> Tick(m).value.countdown == if m.countdown == 1 then 40 else m.countdown - 1
  {
  }

  /** The schedule arithmetic of one cycle. */
  lemma ScheduleNext(clock: nat, countdown: nat)
    requires (clock + countdown) % 40 == 20 && 1 <= countdown <= 40
    ensures var next := if countdown == 1 then 40 else countdown - 1;
      (clock + 1 + next) % 40 == 20 && 1 <= next <= 40
  {
    ScheduleStep(clock, countdown);
    if countdown == 1 {
      assert clock + 1 + 40 == (clock + 1) + 40;
    }
  }

  /** A tick adds the measurement when the countdown reaches zero, and only then. */
  lemma TickMeasuresOnSchedule(m: Machine)
    requires m.cpu.clock <= m.clock && 1 <= m.countdown && m.clock < LastMeasure
    ensures Tick(m).Some? ==>
      Tick(m).value.signal == if m.countdown == 1 then Measure(m.signal, m.clock + 1, m.cpu.register).value else m.signal
  {
  }

  /** One cycle on the schedule: the countdown is at 1 exactly when the next
      clock is a measuring one, and otherwise it still points at the same
      measuring clock. */
  lemma ScheduleStep(clock: nat, countdown: nat)
    requires (clock + countdown) % 40 == 20 && 1 <= countdown <= 40
    ensures countdown == 1 <==> (clock + 1) % 40 == 20
    ensures countdown > 1 ==> (clock + 1 + (countdown - 1)) % 40 == 20 && 1 <= countdown - 1 <= 40
  {
    var q := (clock + countdown) / 40;
    assert clock + 1 == 40 * q + 20 - (countdown - 1);
  }

  /** After the last measurement the countdown is no longer reset: the tick
      that finds it at zero, at clock 260 at the latest, panics. */
  lemma CountdownRunsOut(m: Machine)
    requires m.cpu.clock <= m.clock && LastMeasure <= m.clock && m.countdown == 0
    ensures Tick(m).None?
  {
  }

  /** The CRT of the source: a `width * height` panel of pixels. */
  class Crt {
    const width: nat
    const height: nat
    const pixels: array<bool>
    var currentRow: nat

    /** The CRT as a value. */
    ghost function View(): Screen
      reads this, pixels
    {
      Screen(currentRow, pixels[..])
    }

    /** `CRT::new`: every pixel unlit, on the first row. */
    constructor (width: nat, height: nat)
      ensures this.width == width && this.height == height && currentRow == 0
      ensures pixels.Length == width * height && fresh(pixels)
      ensures forall i :: 0 <= i < pixels.Length ==> !pixels[i]
    {
      this.width := width;
      this.height := height;
      pixels := new bool[width * height](_ => false);
      currentRow := 0;
    }

    /** `update_pixel(clock, sprite)`: `ok` is false where the source panics,
        and otherwise the screen is the one `Draw` gives. */
    method UpdatePixel(clock: nat, sprite: int) returns (ok: bool)
      requires width > 0
      modifies this, pixels
      ensures currentRow == RowAdvance(old(currentRow), clock, width)
      ensures ok <==> Draw(old(View()), width, clock, sprite).Some?
      ensures ok ==> View() == Draw(old(View()), width, clock, sprite).value
    {
      if clock != 0 && clock % width == 0 {
        currentRow := currentRow + 1;
      }
      if !(-1 <= sprite <= 41) {
        return true;
      }
      var m := currentRow * width + (if sprite < 0 then -sprite else sprite);
      if m == 0 {
        return false;
      }
      if m - 1 <= clock <= m + 1 {
        if clock >= pixels.Length {
          return false;
        }
        pixels[clock] := true;
      }
      return true;
    }
  }

  /** One pass of the inner `while` of `get_signal_strength`: the CRT
      draws, the countdown drops, a measurement is added every 40 cycles up
      to cycle 220 (the `i32` product and the `u64` sum both checked), and
      the CPU's pipeline runs to the new clock. `ok` is false exactly where
      the source panics, and the new state is the one `Tick` gives. */
  method TickOnce(cpu: Cpu, crt: Crt, clock: nat, countdown: nat, strength: nat)
    returns (ok: bool, clock': nat, countdown': nat, strength': nat)
    requires crt.width == Width && cpu.clock == clock
    modifies cpu, crt, crt.pixels
    ensures ok <==> Tick(Machine(old(cpu.State()), old(crt.View()), clock, countdown, strength)).Some?
    ensures ok ==> cpu.clock == clock'
    ensures ok ==> (Tick(Machine(old(cpu.State()), old(crt.View()), clock, countdown, strength)).value ==
      Machine(cpu.State(), crt.View(), clock', countdown', strength'))
  {
    ghost var before := Machine(cpu.State(), crt.View(), clock, countdown, strength);
    clock', countdown', strength' := clock, countdown, strength;
    var drawn := crt.UpdatePixel(clock, cpu.register);
    if !drawn || countdown == 0 {
      return false, clock', countdown', strength';
    }
    clock' := clock + 1;
    countdown' := countdown - 1;
    if countdown' == 0 && clock' <= LastMeasure {
      countdown' := 40;
      var product := clock' * cpu.register;
      if !(I32_MIN <= product <= I32_MAX) || strength + AsU64(product) > U64_MAX {
        return false, clock', countdown', strength';
      }
      strength' := strength + AsU64(product);
    }
    cpu.ProcessPipeline(clock');
    ok := true;
  }

  /** `main`'s loop: runs the program on a fresh CPU and CRT and returns the
      signal strength, or `None` where the source panics before printing it. */
  method SignalStrength(program: seq<Instr>) returns (signal: Option<nat>)
    ensures signal.None? <==> RunFrom(program, Start).None?
    ensures signal.Some? ==> signal.value == RunFrom(program, Start).value.signal
  {
    var cpu := new Cpu();
    var crt := new Crt(Width, Height);
    assert crt.View() == Dark;
    var clock: nat := 0;
    var countdown: nat := 20;
    var strength: nat := 0;
    for k := 0 to |program|
      invariant fresh(crt.pixels) && crt.width == Width
      invariant cpu.clock == clock && cpu.runningInstruction.None?
      invariant RunFrom(program[k..], Machine(cpu.State(), crt.View(), clock, countdown, strength)) ==
        RunFrom(program, Start)
    {
      var _ := cpu.Exec(program[k]);
      ghost var started := Machine(cpu.State(), crt.View(), clock, countdown, strength);
      assert program[k..][1..] == program[k + 1..];
      while cpu.IsBusy()
        invariant fresh(crt.pixels)
        invariant cpu.clock == clock
        invariant Drain(Machine(cpu.State(), crt.View(), clock, countdown, strength)) == Drain(started)
        decreases Remaining(cpu.State())
      {
        ghost var before := Machine(cpu.State(), crt.View(), clock, countdown, strength);
        var ok;
        ok, clock, countdown, strength := TickOnce(cpu, crt, clock, countdown, strength);
        if !ok {
          return None;
        }
        TickShortensRun(before);
      }
    }
    return Some(strength);
  }
}

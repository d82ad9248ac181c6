/** The dive of 2021 day 2 (C++), part two: the same commands, but down
    and up turn the submarine's aim, and forward moves it along and as
    much deeper as the aim times the value. */
module DiveCpp {
  import opened Text
  import Dive

  /** `instruction_type`. */
  datatype InstructionType = ForwardType | DownType | UpType | Invalid

  /** `instruction`. */
  datatype Instruction = Instruction(kind: InstructionType, value: nat)

  /** The largest `unsigned long`, 64 bits wide. */
  const ULONG_MAX: nat := 0xFFFF_FFFF_FFFF_FFFF

  /** 2^32, the modulus of `uint32_t`. */
  const U32_MODULUS: nat := 0x1_0000_0000

  /** `std::stoul`: leading whitespace skipped, then the longest run of
      digits read and whatever follows ignored; no digit, or a value
      beyond `unsigned long`, throws. */
  function Stoul(s: string): (r: Option<nat>)
    ensures r.Some? ==> r.value <= ULONG_MAX
  {
    var t := TrimStart(s);
    var n := RunEnd(t, 0);
    if n == 0 then None
    else
      assert AllDigits(t[..n]);
      var v := DecimalValue(t[..n]);
      if v > ULONG_MAX then None else Some(v)
  }

  /** The conversion of an `unsigned long` to `uint32_t`: the low 32
      bits, so values that fit are kept. */
  function Truncate32(v: nat): (r: nat)
    ensures r < U32_MODULUS
    ensures v < U32_MODULUS ==> r == v
  {
    v % U32_MODULUS
  }

  /** The instruction type a word names: `invalid` for any other word. */
  function Kind(word: string): InstructionType
  {
    if word == "forward" then ForwardType
    else if word == "down" then DownType
    else if word == "up" then UpType
    else Invalid
  }

  /** The instruction of a word and a value; `invalid` carries 0. */
  function MakeInstruction(word: string, value: nat): (r: Instruction)
    ensures r.kind == Kind(word)
    ensures r.value == if r.kind == Invalid then 0 else value
  {
    if Kind(word) == Invalid then Instruction(Invalid, 0) else Instruction(Kind(word), value)
  }

  /** `get_instruction`: the word before the first space and the number
      after it, cut to 32 bits; without a space `substr` throws, and the
      number is read before the word is looked at, so an unreadable number
      throws whatever the word. */
  function GetInstruction(line: string): (r: Option<Instruction>)
    ensures ' ' !in line ==> r.None?
    ensures r.Some? ==> r.value.value < U32_MODULUS
  {
    if ' ' !in line then None
    else
      var i := IndexOf(line, ' ');
      match Stoul(line[i..])
      case None => None
      case Some(v) => Some(MakeInstruction(line[..i], Truncate32(v)))
  }

  /** The fields of the processor. */
  datatype AimState = AimState(horizontal: nat, depth: nat, aim: nat)

  /** `up v` subtracts from the aim, which the model keeps at or above 0. */
  predicate CanStep(state: AimState, instruction: Instruction)
  {
    instruction.kind != Invalid && (instruction.kind == UpType ==> state.aim >= instruction.value)
  }

  /** The switch of `process_line`: forward moves along by the value and
      deeper by the aim times the value; down and up change only the
      aim. */
  function Step(state: AimState, instruction: Instruction): (r: AimState)
    requires CanStep(state, instruction)
    ensures instruction.kind == ForwardType ==>
      r.horizontal == state.horizontal + instruction.value && r.depth == state.depth + state.aim * instruction.value && r.aim == state.aim
    ensures instruction.kind != ForwardType ==> r.horizontal == state.horizontal && r.depth == state.depth
    ensures instruction.kind == DownType ==> r.aim == state.aim + instruction.value
    ensures instruction.kind == UpType ==> r.aim + instruction.value == state.aim
  {
    match instruction.kind
    case ForwardType => state.(horizontal := state.horizontal + instruction.value, depth := state.depth + state.aim * instruction.value)
    case DownType => state.(aim := state.aim + instruction.value)
    case UpType => state.(aim := state.aim - instruction.value)
  }

  /** A line that `process_line` can take: an exception is no trouble,
      but an `up` must not take the aim below 0. */
  predicate CanProcess(state: AimState, line: string)
  {
    GetInstruction(line).Some? && GetInstruction(line).value.kind == UpType ==> state.aim >= GetInstruction(line).value.value
  }

  /** `processor`: the position, the depth and the aim, updated line by
      line. */
  class Processor {
    var horizontalPosition: nat
    var depth: nat
    var aim: nat

    /** All three start at 0. */
    constructor ()
      ensures horizontalPosition == 0 && depth == 0 && aim == 0
    {
      horizontalPosition, depth, aim := 0, 0, 0;
    }

    function State(): AimState
      reads this
    {
      AimState(horizontalPosition, depth, aim)
    }

    /** `process_line`: the instruction of the line applied to the fields;
        `ok` is false when it throws, which it does when the line cannot
        be read or names no instruction, and then nothing changes. */
    method ProcessLine(line: string) returns (ok: bool)
      requires CanProcess(State(), line)
      modifies this
      ensures ok <==> GetInstruction(line).Some? && GetInstruction(line).value.kind != Invalid
      ensures ok ==> State() == Step(old(State()), GetInstruction(line).value)
      ensures !ok ==> State() == old(State())
    {
      var inst := GetInstruction(line);
      if inst.None? || inst.value.kind == Invalid {
        return false;
      }
      ok := true;
      var value := inst.value.value;
      match inst.value.kind
      case ForwardType =>
        var deeper: nat := aim * value;
        horizontalPosition := horizontalPosition + value;
        depth := depth + deeper;
      case DownType =>
        aim := aim + value;
      case UpType =>
        aim := aim - value;
    }

    /** The product `get_summary` reports, a product of two `uint32_t`
        values and so itself wrapped below 2^32. */
    function Product(): (r: nat)
      reads this
      ensures r < U32_MODULUS
      ensures horizontalPosition * depth < U32_MODULUS ==> r == horizontalPosition * depth
    {
      Truncate32(horizontalPosition * depth)
    }
  }

  /** The instruction a command of the Rust model reads as. */
  function FromCommand(command: Dive.Command): Instruction
  {
    match command
    case Forward(v) => Instruction(ForwardType, v)
    case Down(v) => Instruction(DownType, v)
    case Up(v) => Instruction(UpType, v)
  }

  /** Trimming the whitespace off a space and a word leaves the word. */
  lemma TrimSpaceWord(w: string)
    requires w != [] && !IsSpace(w[0])
    ensures TrimStart(" " + w) == w
  {
    assert (" " + w)[1..] == w;
  }

  /** The digits of a written number all make up its run of digits. */
  lemma StoulShown(n: nat)
    requires n <= ULONG_MAX
    ensures Stoul(" " + ShowNat(n)) == Some(n)
  {
    var s := ShowNat(n);
    TrimSpaceWord(s);
    assert forall k :: 0 <= k < |s| ==> IsDigit(s[k]);
    assert RunEnd(s, 0) == |s|;
    assert s[..|s|] == s;
    DecimalValueShowNat(n);
  }

  /** A line made of a word without spaces, a space and a number reads
      as the instruction that word names. */
  lemma GetInstructionOfParts(line: string, word: string, number: string, value: nat)
    requires line == word + " " + number && ' ' !in word
    requires Stoul(" " + number) == Some(value) && value < U32_MODULUS
    ensures GetInstruction(line) == Some(MakeInstruction(word, value))
  {
    SpaceAfterWord(line, word, number);
    assert Truncate32(value) == value;
  }

  /** The first space of such a line is the one after the word. */
  lemma SpaceAfterWord(line: string, word: string, number: string)
    requires line == word + " " + number && ' ' !in word
    ensures ' ' in line && IndexOf(line, ' ') == |word|
    ensures line[..|word|] == word && line[|word|..] == " " + number
  {
    assert line[|word|] == ' ' && line[..|word|] == word;
    assert line[|word|..] == " " + number;
  }

  /** A command line of the Rust model, with a value that fits in 32
      bits, reads as the same instruction here. */
  lemma GetInstructionOfCommand(command: Dive.Command)
    requires command.value < U32_MODULUS
    ensures GetInstruction(Dive.CommandText(command)) == Some(FromCommand(command))
  {
    StoulShown(command.value);
    GetInstructionOfParts(Dive.CommandText(command), Dive.Word(command), ShowNat(command.value), command.value);
    assert Kind(Dive.Word(command)) == FromCommand(command).kind;
  }

  /** Every instruction of the commands can be applied in turn. */
  predicate CanRun(state: AimState, commands: seq<Dive.Command>)
    decreases |commands|
  {
    commands == [] || (CanStep(state, FromCommand(commands[0])) && CanRun(Step(state, FromCommand(commands[0])), commands[1..]))
  }

  /** The fields after the commands, one line at a time. */
  function Run(state: AimState, commands: seq<Dive.Command>): AimState
    requires CanRun(state, commands)
    decreases |commands|
  {
    if commands == [] then state else Run(Step(state, FromCommand(commands[0])), commands[1..])
  }

  /** The aim follows the commands exactly as the depth of the Rust model
      does, and the horizontal position is the same in both. */
  lemma {:induction false} AimIsDepth(horizontal: nat, depth: nat, aim: nat, commands: seq<Dive.Command>)
    requires Dive.CanDrive(Dive.Position(horizontal, aim), commands)
    ensures CanRun(AimState(horizontal, depth, aim), commands)
    ensures Run(AimState(horizontal, depth, aim), commands).horizontal == Dive.DriveFrom(Dive.Position(horizontal, aim), commands).horizontal
    ensures Run(AimState(horizontal, depth, aim), commands).aim == Dive.DriveFrom(Dive.Position(horizontal, aim), commands).depth
    decreases |commands|
  {
    if commands != [] {
      var next := Step(AimState(horizontal, depth, aim), FromCommand(commands[0]));
      var p := Dive.Apply(Dive.Position(horizontal, aim), commands[0]);
      assert p == Dive.Position(next.horizontal, next.aim);
      AimIsDepth(next.horizontal, next.depth, next.aim, commands[1..]);
    }
  }
}

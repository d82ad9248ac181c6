/** The dive of 2021 day 2 (Rust), part one: a submarine reads commands
    "forward v", "down v" and "up v"; forward moves it along, down and up
    change its depth, and its overall position is horizontal times depth. */
module Dive {
  import opened Text

  /** `Command`. */
  datatype Command = Forward(value: nat) | Down(value: nat) | Up(value: nat)

  /** The word that names a command. */
  function Word(command: Command): string
  {
    match command
    case Forward(_) => "forward"
    case Down(_) => "down"
    case Up(_) => "up"
  }

  /** One line of `parse_string_commands`: the first two words, the second
      read as a `u32`, which panics (`None`) when a word is missing or the
      number cannot be read; a known first word gives its command and any
      other word is dropped (no command). */
  function ParseStringCommand(line: string): (r: Option<seq<Command>>)
    ensures r.Some? ==> |r.value| <= 1
    ensures |Words(line)| < 2 ==> r.None?
  {
    var c := Words(line);
    if |c| < 2 then None
    else
      match ParseU32(c[1])
      case None => None
      case Some(val) =>
        if c[0] == "forward" then Some([Forward(val)])
        else if c[0] == "down" then Some([Down(val)])
        else if c[0] == "up" then Some([Up(val)])
        else Some([])
  }

  /** `parse_string_commands`: the commands of the lines, in order; a line
      that panics fails them all. */
  function ParseCommands(lines: seq<string>): (r: Option<seq<Command>>)
    ensures r.Some? ==> |r.value| <= |lines|
  {
    if lines == [] then Some([])
    else
      var last := |lines| - 1;
      match (ParseCommands(lines[..last]), ParseStringCommand(lines[last]))
      case (Some(commands), Some(command)) => Some(commands + command)
      case _ => None
  }

  /** The loop of `parse_string_commands`, pushing each command found. */
  method ParseStringCommands(lines: seq<string>) returns (commands: Option<seq<Command>>)
    ensures commands == ParseCommands(lines)
  {
    var parsed: seq<Command> := [];
    for i := 0 to |lines|
      invariant ParseCommands(lines[..i]) == Some(parsed)
    {
      assert lines[..i + 1][..i] == lines[..i];
      var command := ParseStringCommand(lines[i]);
      if command.None? {
        ParseCommandsFail(lines, i + 1);
        return None;
      }
      parsed := parsed + command.value;
    }
    assert lines[..|lines|] == lines;
    return Some(parsed);
  }

  /** A line that panics among the first `n` fails them all. */
  lemma {:induction false} ParseCommandsFail(lines: seq<string>, n: nat)
    requires n <= |lines| && ParseCommands(lines[..n]).None?
    ensures ParseCommands(lines).None?
  {
    if n < |lines| {
      var last := |lines| - 1;
      assert lines[..last][..n] == lines[..n];
      ParseCommandsFail(lines[..last], n);
    } else {
      assert lines[..n] == lines;
    }
  }

  /** A command written as its word, a space and its value. */
  function CommandText(command: Command): string
  {
    Word(command) + " " + ShowNat(command.value)
  }

  /** The words of a command's line are its word and its value. */
  lemma CommandWords(command: Command)
    ensures Words(CommandText(command)) == [Word(command), ShowNat(command.value)]
  {
    var w, n := Word(command), ShowNat(command.value);
    assert IsWord(w);
    assert IsWord(n) by {
      assert forall k :: 0 <= k < |n| ==> IsDigit(n[k]);
    }
    assert Join([w, n], ' ') == CommandText(command);
    WordsJoin([w, n]);
  }

  /** A written command with a value that fits in 32 bits reads back as
      itself. */
  lemma ParseCommandText(command: Command)
    requires command.value <= U32_MAX
    ensures ParseStringCommand(CommandText(command)) == Some([command])
  {
    CommandWords(command);
    ParseShowNat(command.value);
  }

  /** A line with an unknown word and a readable value is dropped. */
  lemma UnknownWordDropped(word: string, value: nat)
    requires IsWord(word) && word != "forward" && word != "down" && word != "up" && value <= U32_MAX
    ensures ParseStringCommand(word + " " + ShowNat(value)) == Some([])
  {
    var n := ShowNat(value);
    assert IsWord(n) by {
      assert forall k :: 0 <= k < |n| ==> IsDigit(n[k]);
    }
    assert Join([word, n], ' ') == word + " " + n;
    WordsJoin([word, n]);
    ParseShowNat(value);
  }

  /** Written commands read back as the commands, in order. */
  lemma {:induction false} ParseCommandTexts(commands: seq<Command>)
    requires forall k :: 0 <= k < |commands| ==> commands[k].value <= U32_MAX
    ensures ParseCommands(Map(CommandText, commands)) == Some(commands)
  {
    if commands != [] {
      var last := |commands| - 1;
      var front, command := commands[..last], commands[last];
      assert ParseCommands(Map(CommandText, front)) == Some(front) by {
        assert forall k :: 0 <= k < last ==> front[k] == commands[k];
        ParseCommandTexts(front);
      }
      assert ParseStringCommand(CommandText(command)) == Some([command]) by {
        ParseCommandText(command);
      }
      assert Map(CommandText, commands) == Map(CommandText, front) + [CommandText(command)] by {
        MapConcat(CommandText, front, [command]);
        assert front + [command] == commands;
      }
      ParseCommandsAppend(Map(CommandText, front), front, CommandText(command), command);
      assert front + [command] == commands;
    }
  }

  /** One more line read as one command. */
  lemma ParseCommandsAppend(lines: seq<string>, commands: seq<Command>, line: string, command: Command)
    requires ParseCommands(lines) == Some(commands) && ParseStringCommand(line) == Some([command])
    ensures ParseCommands(lines + [line]) == Some(commands + [command])
  {
    assert (lines + [line])[..|lines|] == lines;
  }

  /** `Position`. */
  datatype Position = Position(horizontal: nat, depth: nat)

  /** `Up(v)` subtracts from a `u32` depth, which panics below 0. */
  predicate CanApply(position: Position, command: Command)
  {
    command.Up? ==> position.depth >= command.value
  }

  /** `parse_command` on a position. */
  function Apply(position: Position, command: Command): Position
    requires CanApply(position, command)
  {
    match command
    case Forward(val) => position.(horizontal := position.horizontal + val)
    case Down(val) => position.(depth := position.depth + val)
    case Up(val) => position.(depth := position.depth - val)
  }

  /** Every command of the sequence can be applied in turn. */
  predicate CanDrive(position: Position, commands: seq<Command>)
    decreases |commands|
  {
    commands == [] || (CanApply(position, commands[0]) && CanDrive(Apply(position, commands[0]), commands[1..]))
  }

  /** The position after the commands, applied in order. */
  function DriveFrom(position: Position, commands: seq<Command>): Position
    requires CanDrive(position, commands)
    decreases |commands|
  {
    if commands == [] then position else DriveFrom(Apply(position, commands[0]), commands[1..])
  }

  /** The values of the commands of one kind, added up. */
  function Total(commands: seq<Command>, kind: Command -> bool): nat
  {
    if commands == [] then 0 else (if kind(commands[0]) then commands[0].value else 0) + Total(commands[1..], kind)
  }

  predicate IsForward(command: Command) { command.Forward? }
  predicate IsDown(command: Command) { command.Down? }
  predicate IsUp(command: Command) { command.Up? }

  /** Each command changes one field only: driving ends as far along as
      the forwards add up to, as deep as the downs less the ups. */
  lemma {:induction false} DriveTotals(position: Position, commands: seq<Command>)
    requires CanDrive(position, commands)
    ensures DriveFrom(position, commands).horizontal == position.horizontal + Total(commands, IsForward)
    ensures DriveFrom(position, commands).depth + Total(commands, IsUp) == position.depth + Total(commands, IsDown)
    decreases |commands|
  {
    if commands != [] {
      DriveTotals(Apply(position, commands[0]), commands[1..]);
    }
  }

  /** The submarine can follow the commands exactly when no run of them
      from the start takes it above the surface. */
  lemma {:induction false} CanDriveIff(position: Position, commands: seq<Command>)
    ensures CanDrive(position, commands) <==>
      forall n :: 0 <= n <= |commands| ==> Total(commands[..n], IsUp) <= position.depth + Total(commands[..n], IsDown)
    decreases |commands|
  {
    if commands != [] {
      var first, rest := commands[0], commands[1..];
      var p := position;
      assert commands[..0] == [];
      forall n | 1 <= n <= |commands|
        ensures commands[..n] == [first] + rest[..n - 1]
      {
      }
      if CanApply(p, first) {
        CanDriveIff(Apply(p, first), rest);
        if forall n :: 0 <= n <= |rest| ==> Total(rest[..n], IsUp) <= Apply(p, first).depth + Total(rest[..n], IsDown) {
          forall n | 0 <= n <= |commands|
            ensures Total(commands[..n], IsUp) <= p.depth + Total(commands[..n], IsDown)
          {
            if n > 0 {
              assert Total(rest[..n - 1], IsUp) <= Apply(p, first).depth + Total(rest[..n - 1], IsDown);
            }
          }
        }
        if forall n :: 0 <= n <= |commands| ==> Total(commands[..n], IsUp) <= p.depth + Total(commands[..n], IsDown) {
          forall n | 0 <= n <= |rest|
            ensures Total(rest[..n], IsUp) <= Apply(p, first).depth + Total(rest[..n], IsDown)
          {
            assert Total(commands[..n + 1], IsUp) <= p.depth + Total(commands[..n + 1], IsDown);
          }
        }
      } else {
        assert Total(commands[..1], IsUp) > p.depth + Total(commands[..1], IsDown) by {
          assert commands[..1] == [first];
        }
      }
    }
  }

  /** `Submarine`: a position changed in place by the commands. */
  class Submarine {
    var position: Position

    /** `Submarine { ..Default::default() }`: at the surface, at the
        start. */
    constructor ()
      ensures position == Position(0, 0)
    {
      position := Position(0, 0);
    }

    /** `parse_command`: forward adds to the horizontal position, down
        adds to the depth and up takes from it, which must not go below
        the surface. */
    method ParseCommand(command: Command)
      requires CanApply(position, command)
      modifies this
      ensures position == Apply(old(position), command)
    {
      match command
      case Forward(val) =>
        position := position.(horizontal := position.horizontal + val);
      case Down(val) =>
        position := position.(depth := position.depth + val);
      case Up(val) =>
        position := position.(depth := position.depth - val);
    }

    /** `drive`: the commands applied in order. */
    method Drive(commands: seq<Command>)
      requires CanDrive(position, commands)
      modifies this
      ensures position == DriveFrom(old(position), commands)
    {
      for i := 0 to |commands|
        invariant CanDrive(position, commands[i..])
        invariant DriveFrom(old(position), commands) == DriveFrom(position, commands[i..])
      {
        assert commands[i..][1..] == commands[i + 1..];
        ParseCommand(commands[i]);
      }
    }

    /** `get_overall_position`. */
    function GetOverallPosition(): nat
      reads this
    {
      position.horizontal * position.depth
    }
  }

  /** The commands of the tests. */
  const ExampleCommands: seq<Command> := [Forward(5), Down(5), Forward(8), Up(3), Down(8), Forward(2)]

  /** The test drive ends 15 along and 10 deep, an overall position of
      150. */
  lemma DriveExample()
    ensures CanDrive(Position(0, 0), ExampleCommands)
    ensures DriveFrom(Position(0, 0), ExampleCommands) == Position(15, 10)
  {
    var p := Position(0, 0);
    var c := ExampleCommands;
    assert c[1..] == [Down(5), Forward(8), Up(3), Down(8), Forward(2)];
    assert c[1..][1..] == [Forward(8), Up(3), Down(8), Forward(2)];
    assert c[1..][1..][1..] == [Up(3), Down(8), Forward(2)];
    assert c[1..][1..][1..][1..] == [Down(8), Forward(2)];
    assert c[1..][1..][1..][1..][1..] == [Forward(2)];
    assert CanDrive(Position(13, 5), [Up(3), Down(8), Forward(2)]);
  }

  /** The test drive, driven by a submarine from the surface. */
  method DriveExampleSubmarine() returns (overall: nat)
    ensures overall == 150
  {
    var submarine := new Submarine();
    DriveExample();
    submarine.Drive(ExampleCommands);
    overall := submarine.GetOverallPosition();
  }
}

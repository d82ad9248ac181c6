/** The datastream of 2022 day 6: a window slides over the signal until its
    characters are all different, first four wide (start of packet), then
    fourteen wide (start of message). */
module Tuning {
  import opened Text

  /** The characters of `s`, as a set. */
  function CharSet(s: string): set<char>
  {
    set i | 0 <= i < |s| :: s[i]
  }

  /** `all_chars_are_different`: the set of characters is as large as the string. */
  predicate AllCharsAreDifferent(s: string)
  {
    |CharSet(s)| == |s|
  }

  /** No character occurs twice. */
  predicate NoRepeats(s: string)
  {
    forall i, j :: 0 <= i < j < |s| ==> s[i] != s[j]
  }

  lemma CharSetCons(s: string)
    requires s != []
    ensures CharSet(s) == {s[0]} + CharSet(s[1..])
  {
    forall c | c in CharSet(s) ensures c in {s[0]} + CharSet(s[1..]) {
      var i :| 0 <= i < |s| && s[i] == c;
      if i > 0 {
        assert s[1..][i - 1] == c;
      }
    }
    forall c | c in CharSet(s[1..]) ensures c in CharSet(s) {
      var i :| 0 <= i < |s| - 1 && s[1..][i] == c;
      assert s[i + 1] == c;
    }
  }

  /** A string never has more distinct characters than characters. */
  lemma {:induction false} CharSetAtMostLength(s: string)
    ensures |CharSet(s)| <= |s|
  {
    if s != [] {
      CharSetCons(s);
      CharSetAtMostLength(s[1..]);
    }
  }

  /** The set-size test of the source means exactly that no character repeats. */
  lemma {:induction false} AllDifferentIffNoRepeats(s: string)
    ensures AllCharsAreDifferent(s) <==> NoRepeats(s)
  {
    if s != [] {
      var rest := s[1..];
      CharSetCons(s);
      AllDifferentIffNoRepeats(rest);
      CharSetAtMostLength(rest);
      if s[0] in CharSet(rest) {
        var k :| 0 <= k < |rest| && rest[k] == s[0];
        assert s[k + 1] == s[0];
        assert CharSet(s) == CharSet(rest);
      } else {
        assert |CharSet(s)| == 1 + |CharSet(rest)|;
        if NoRepeats(rest) {
          forall i, j | 0 <= i < j < |s| ensures s[i] != s[j] {
            if i == 0 {
              assert s[j] == rest[j - 1];
            } else {
              assert s[i] == rest[i - 1] && s[j] == rest[j - 1];
            }
          }
        }
        if NoRepeats(s) {
          forall i, j | 0 <= i < j < |rest| ensures rest[i] != rest[j] {
            assert rest[i] == s[i + 1] && rest[j] == s[j + 1];
          }
        }
      }
    }
  }

  /** The window of `size` characters at `pos`, or `None` where slicing past the
      end of the data panics. */
  function Window(data: string, pos: nat, size: nat): (r: Option<string>)
    ensures r.Some? <==> pos + size <= |data|
    ensures r.Some? ==> |r.value| == size && forall k :: 0 <= k < size ==> r.value[k] == data[pos + k]
  {
    if pos + size <= |data| then Some(data[pos..pos + size]) else None
  }

  /** A window within the data in which no character repeats. */
  predicate IsMarker(data: string, pos: nat, size: nat)
  {
    pos + size <= |data| && NoRepeats(data[pos..pos + size])
  }

  /** A window within the data in which some character repeats. */
  predicate IsNotMarker(data: string, pos: nat, size: nat)
  {
    pos + size <= |data| && !NoRepeats(data[pos..pos + size])
  }

  /** The search loop of `main` from `pos`, with `remaining` iterations of the
      `for` left: the position where it breaks, the position it stops at when
      the iterations run out, or `None` if a window runs past the end. */
  function Search(data: string, pos: nat, size: nat, remaining: nat): Option<nat>
    decreases remaining
  {
    if remaining == 0 then Some(pos)
    else if pos + size > |data| then None
    else if AllCharsAreDifferent(data[pos..pos + size]) then Some(pos)
    else Search(data, pos + 1, size, remaining - 1)
  }

  /** When the search stops before its iterations run out, it stops at the
      first marker: every earlier window repeats a character. */
  lemma {:induction false} SearchFindsFirstMarker(data: string, pos: nat, size: nat, remaining: nat)
    requires Search(data, pos, size, remaining).Some?
    ensures var p := Search(data, pos, size, remaining).value;
      pos <= p <= pos + remaining &&
      (p < pos + remaining ==> IsMarker(data, p, size)) &&
      forall q :: pos <= q < p ==> IsNotMarker(data, q, size)
    decreases remaining
  {
    if remaining > 0 && pos + size <= |data| {
      AllDifferentIffNoRepeats(data[pos..pos + size]);
      if !AllCharsAreDifferent(data[pos..pos + size]) {
        SearchFindsFirstMarker(data, pos + 1, size, remaining - 1);
        var p := Search(data, pos + 1, size, remaining - 1).value;
        assert Search(data, pos, size, remaining).value == p;
        assert IsNotMarker(data, pos, size);
      } else {
        assert Search(data, pos, size, remaining).value == pos;
        assert IsMarker(data, pos, size);
      }
    }
  }

  /** The search fails only by running a window past the end of the data. */
  lemma {:induction false} SearchFailsPastEnd(data: string, pos: nat, size: nat, remaining: nat)
    requires Search(data, pos, size, remaining).None?
    ensures remaining > 0 && |data| < pos + remaining + size
    decreases remaining
  {
    if pos + size <= |data| {
      SearchFailsPastEnd(data, pos + 1, size, remaining - 1);
    }
  }

  /** `Datastream`: the signal and the two sliding windows. */
  class Datastream {
    const data: string
    var packetPos: nat
    const packetSize: nat
    var messagePos: nat
    const messageSize: nat

    /** `Datastream::new`: both windows at 0, four and fourteen wide. */
    constructor (data: string)
      ensures this.data == data && packetPos == 0 && messagePos == 0
      ensures packetSize == 4 && messageSize == 14
    {
      this.data := data;
      packetPos, packetSize := 0, 4;
      messagePos, messageSize := 0, 14;
    }

    /** `get_start_of_packet_window`. */
    function PacketWindow(): Option<string>
      reads this
    {
      Window(data, packetPos, packetSize)
    }

    /** `get_start_of_message_window`. */
    function MessageWindow(): Option<string>
      reads this
    {
      Window(data, messagePos, messageSize)
    }

    /** Part one of `main`: advance the packet window for at most `|data|` steps
        until it is all different. The marker reported is the position after the
        window; `None` stands for the panic of a window past the end. */
    method FindStartOfPacket() returns (marker: Option<nat>)
      requires packetPos == 0
      modifies this
      ensures messagePos == old(messagePos)
      ensures marker.Some? <==> Search(data, 0, packetSize, |data|).Some?
      ensures marker.Some? ==>
        (packetPos == Search(data, 0, packetSize, |data|).value && marker.value == packetPos + packetSize)
    {
      var k := 0;
      while k < |data|
        invariant 0 <= k <= |data| && packetPos == k && messagePos == old(messagePos)
        invariant Search(data, packetPos, packetSize, |data| - k) == Search(data, 0, packetSize, |data|)
      {
        var window := PacketWindow();
        if window.None? {
          return None;
        }
        if AllCharsAreDifferent(window.value) {
          break;
        }
        packetPos := packetPos + 1;
        k := k + 1;
      }
      marker := Some(packetPos + packetSize);
    }

    /** Part two of `main`: the message window starts where the packet window
        stopped and advances for at most `|data| - packetPos` steps. */
    method FindStartOfMessage() returns (marker: Option<nat>)
      modifies this
      ensures packetPos == old(packetPos)
      ensures var steps := if packetPos <= |data| then |data| - packetPos else 0;
        var found := Search(data, packetPos, messageSize, steps);
        (marker.Some? <==> found.Some?) &&
        (marker.Some? ==> (messagePos == found.value && marker.value == messagePos + messageSize))
    {
      messagePos := packetPos;
      ghost var steps := if packetPos <= |data| then |data| - packetPos else 0;
      var k := packetPos;
      while k < |data|
        invariant packetPos <= k && messagePos == k && packetPos == old(packetPos)
        invariant k <= |data| || k == packetPos
        invariant Search(data, messagePos, messageSize, if k <= |data| then |data| - k else 0) ==
          Search(data, packetPos, messageSize, steps)
      {
        var window := MessageWindow();
        if window.None? {
          return None;
        }
        if AllCharsAreDifferent(window.value) {
          break;
        }
        messagePos := messagePos + 1;
        k := k + 1;
      }
      marker := Some(messagePos + messageSize);
    }
  }

  /** Both parts on one signal, as `main` runs them: the message search starts
      where the packet search stopped. */
  method Markers(input: string) returns (packet: Option<nat>, message: Option<nat>)
    ensures packet.Some? <==> Search(input, 0, 4, |input|).Some?
    ensures packet.Some? ==> packet.value == Search(input, 0, 4, |input|).value + 4
    ensures packet.None? ==> message.None?
    ensures packet.Some? ==>
      var p := Search(input, 0, 4, |input|).value;
      var found := Search(input, p, 14, if p <= |input| then |input| - p else 0);
      (message.Some? <==> found.Some?) && (message.Some? ==> message.value == found.value + 14)
  {
    var device := new Datastream(input);
    packet := device.FindStartOfPacket();
    if packet.None? {
      return None, None;
    }
    message := device.FindStartOfMessage();
  }

  /** The windows the source expects of its sample signal: "nznr" at 0,
      "nfrf" four characters on, and the fourteen-wide "nznrnfrfntjfmv". */
  method WindowsExample() returns (first: Option<string>, moved: Option<string>, message: Option<string>)
    ensures first == Some("nznr") && moved == Some("nfrf") && message == Some("nznrnfrfntjfmv")
  {
    var sample := "nznrnfrfntjfmvfwmzdfjlvtqnbhcprsg";
    assert sample[4] == 'n' && sample[5] == 'f' && sample[6] == 'r' && sample[7] == 'f';
    assert sample[4..8] == [sample[4], sample[5], sample[6], sample[7]];
    assert sample[0..4] == "nznr" && sample[4..8] == "nfrf" && sample[0..14] == "nznrnfrfntjfmv";
    var device := new Datastream(sample);
    first := device.PacketWindow();
    message := device.MessageWindow();
    device.packetPos := device.packetPos + 4;
    moved := device.PacketWindow();
  }

  /** "nznr" repeats a character, "abcd" does not. */
  lemma AllDifferentExample()
    ensures !AllCharsAreDifferent("nznr") && AllCharsAreDifferent("abcd")
  {
    AllDifferentIffNoRepeats("nznr");
    AllDifferentIffNoRepeats("abcd");
    assert "nznr"[0] == "nznr"[2];
  }
}

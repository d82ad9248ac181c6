/** The crate stacks of 2022 day 5: a drawing of stacks is read into one
    bottom-to-top list of crate labels per stack, and two cranes carry out
    `move a from f to t` instructions on them. */
module CrateStacks {
  import opened Text

  /** `move amount from from to to`, with 1-based stack numbers. */
  datatype Instr = Instr(amount: nat, from: nat, to: nat)

  /** `Instr::from`: the six words of `move <a> from <f> to <t>`; `None` is a
      line of another shape or a number that does not parse. */
  function ParseInstr(line: string): (r: Option<Instr>)
    ensures r.Some? ==> var words := Split(line, ' ');
      |words| == 6 && words[0] == "move" && words[2] == "from" && words[4] == "to" &&
      ParseU64(words[1]) == Some(r.value.amount) && ParseU64(words[3]) == Some(r.value.from) &&
      ParseU64(words[5]) == Some(r.value.to)
  {
    var words := Split(line, ' ');
    if |words| == 6 && words[0] == "move" && words[2] == "from" && words[4] == "to" then
      match (ParseU64(words[1]), ParseU64(words[3]), ParseU64(words[5]))
      case (Some(a), Some(f), Some(t)) => Some(Instr(a, f, t))
      case (_, _, _) => None
    else None
  }

  /** The instruction as the puzzle input writes it. */
  function InstrText(i: Instr): string
  {
    Join(["move", ShowNat(i.amount), "from", ShowNat(i.from), "to", ShowNat(i.to)], ' ')
  }

  /** Writing an instruction whose numbers fit a 64-bit `usize` and parsing it
      back gives the instruction. */
  lemma ParseInstrText(i: Instr)
    requires i.amount <= U64_MAX && i.from <= U64_MAX && i.to <= U64_MAX
    ensures ParseInstr(InstrText(i)) == Some(i)
  {
    var words := ["move", ShowNat(i.amount), "from", ShowNat(i.from), "to", ShowNat(i.to)];
    ShowNatHasNoBreak(i.amount);
    ShowNatHasNoBreak(i.from);
    ShowNatHasNoBreak(i.to);
    assert forall k :: 0 <= k < |words| ==> ' ' !in words[k];
    SplitJoin(words, ' ');
    ParseShowU64(i.amount);
    ParseShowU64(i.from);
    ParseShowU64(i.to);
    ParseInstrWords(InstrText(i), ShowNat(i.amount), ShowNat(i.from), ShowNat(i.to), i);
  }

  /** A line of the six words of an instruction parses to it. */
  lemma ParseInstrWords(line: string, amount: string, from: string, to: string, i: Instr)
    requires Split(line, ' ') == ["move", amount, "from", from, "to", to]
    requires ParseU64(amount) == Some(i.amount) && ParseU64(from) == Some(i.from) && ParseU64(to) == Some(i.to)
    ensures ParseInstr(line) == Some(i)
  {
  }

  /** The instruction names two existing stacks and the source holds enough
      crates: `pop().unwrap()` and `drain` panic otherwise. */
  predicate Applicable(stacks: seq<seq<string>>, instr: Instr)
  {
    1 <= instr.from <= |stacks| && 1 <= instr.to <= |stacks| &&
    instr.amount <= |stacks[instr.from - 1]|
  }

  /** The CrateMover 9000 pops and pushes one crate at a time: no move touches
      the stacks when the amount is zero, and when source and destination are
      the same stack every pop is followed by a push, so only the first pop
      needs a crate. */
  predicate Applicable9000(stacks: seq<seq<string>>, instr: Instr)
  {
    instr.amount == 0 ||
    (1 <= instr.from <= |stacks| && 1 <= instr.to <= |stacks| &&
     if instr.from == instr.to then stacks[instr.from - 1] != []
     else instr.amount <= |stacks[instr.from - 1]|)
  }

  /** The stacks after the CrateMover 9000, which carries one crate at a time,
      so the moved crates land in reverse order. */
  function Mover9000(stacks: seq<seq<string>>, instr: Instr): seq<seq<string>>
    requires Applicable9000(stacks, instr)
  {
    if instr.amount == 0 || instr.from == instr.to then stacks
    else
    var f, t := instr.from - 1, instr.to - 1;
    var keep := |stacks[f]| - instr.amount;
    stacks[f := stacks[f][..keep]][t := stacks[t] + Reverse(stacks[f][keep..])]
  }

  /** The stacks after the CrateMover 9001, which carries the crates as one block
      in their original order. */
  function Mover9001(stacks: seq<seq<string>>, instr: Instr): seq<seq<string>>
    requires Applicable(stacks, instr)
  {
    var f, t := instr.from - 1, instr.to - 1;
    var keep := |stacks[f]| - instr.amount;
    if f == t then stacks
    else stacks[f := stacks[f][..keep]][t := stacks[t] + stacks[f][keep..]]
  }

  /** `move_crates_crate_mover_9000`: pops from the source and pushes onto the
      destination, `amount` times. */
  method MoveCratesCrateMover9000(stacks: array<seq<string>>, instr: Instr)
    requires Applicable9000(stacks[..], instr)
    modifies stacks
    ensures stacks[..] == Mover9000(old(stacks[..]), instr)
  {
    if instr.amount == 0 {
      return;
    }
    var f, t := instr.from - 1, instr.to - 1;
    ghost var source := stacks[f];
    ghost var n := |source|;
    for k := 0 to instr.amount
      invariant f != t ==> stacks[f] == source[..n - k]
      invariant f != t ==> stacks[t] == old(stacks[t]) + Reverse(source[n - k..])
      invariant f == t ==> stacks[f] == source
      invariant forall j :: 0 <= j < stacks.Length && j != f && j != t ==> stacks[j] == old(stacks[j])
    {
      var crate := stacks[f][|stacks[f]| - 1];
      stacks[f] := stacks[f][..|stacks[f]| - 1];
      stacks[t] := stacks[t] + [crate];
      assert f != t ==> Reverse(source[n - (k + 1)..]) == Reverse(source[n - k..]) + [crate] by {
        if f != t {
          assert source[n - (k + 1)..] == [crate] + source[n - k..];
        }
      }
      assert f == t ==> stacks[f] == source by {
        if f == t {
          assert source[..|source| - 1] + [crate] == source;
        }
      }
    }
  }

  /** `move_crates_crate_mover_9001`: drains the top `amount` crates of the source
      and extends the destination with them. */
  method MoveCratesCrateMover9001(stacks: array<seq<string>>, instr: Instr)
    requires Applicable(stacks[..], instr)
    modifies stacks
    ensures stacks[..] == Mover9001(old(stacks[..]), instr)
  {
    var f, t := instr.from - 1, instr.to - 1;
    var keep := |stacks[f]| - instr.amount;
    var moved := stacks[f][keep..];
    stacks[f] := stacks[f][..keep];
    stacks[t] := stacks[t] + moved;
    assert f == t ==> stacks[t] == old(stacks[t]) by {
      if f == t {
        assert old(stacks[f])[..keep] + old(stacks[f])[keep..] == old(stacks[f]);
      }
    }
  }

  function CrateCount(stacks: seq<seq<string>>): nat
  {
    if stacks == [] then 0 else CrateCount(stacks[..|stacks| - 1]) + |stacks[|stacks| - 1]|
  }

  lemma {:induction false} CrateCountUpdate(stacks: seq<seq<string>>, i: nat, s: seq<string>)
    requires i < |stacks|
    ensures CrateCount(stacks[i := s]) + |stacks[i]| == CrateCount(stacks) + |s|
    decreases |stacks|
  {
    var n := |stacks| - 1;
    if i < n {
      assert stacks[i := s][..n] == stacks[..n][i := s];
      CrateCountUpdate(stacks[..n], i, s);
    } else {
      assert stacks[i := s][..n] == stacks[..n];
    }
  }

  /** The CrateMover 9000 neither loses nor creates crates. */
  lemma Mover9000KeepsCrates(stacks: seq<seq<string>>, instr: Instr)
    requires Applicable9000(stacks, instr)
    ensures CrateCount(Mover9000(stacks, instr)) == CrateCount(stacks)
  {
    if instr.amount != 0 && instr.from != instr.to {
      var f, t := instr.from - 1, instr.to - 1;
      var keep := |stacks[f]| - instr.amount;
      CrateCountUpdate(stacks, f, stacks[f][..keep]);
      CrateCountUpdate(stacks[f := stacks[f][..keep]], t, stacks[t] + Reverse(stacks[f][keep..]));
    }
  }

  /** The CrateMover 9001 neither loses nor creates crates. */
  lemma Mover9001KeepsCrates(stacks: seq<seq<string>>, instr: Instr)
    requires Applicable(stacks, instr)
    ensures CrateCount(Mover9001(stacks, instr)) == CrateCount(stacks)
  {
    var f, t := instr.from - 1, instr.to - 1;
    var keep := |stacks[f]| - instr.amount;
    if f != t {
      CrateCountUpdate(stacks, f, stacks[f][..keep]);
      CrateCountUpdate(stacks[f := stacks[f][..keep]], t, stacks[t] + stacks[f][keep..]);
    }
  }

  /** The two cranes differ only in the order of the moved block: the 9000 leaves
      the destination topped by the reverse of what the 9001 puts there, and
      every other stack the same. */
  lemma MoversDifferByReversal(stacks: seq<seq<string>>, instr: Instr)
    requires Applicable(stacks, instr) && instr.from != instr.to
    ensures var t, oldTop := instr.to - 1, |stacks[instr.to - 1]|;
      var a, b := Mover9000(stacks, instr), Mover9001(stacks, instr);
      |a| == |b| && a[t][..oldTop] == b[t][..oldTop] && a[t][oldTop..] == Reverse(b[t][oldTop..]) &&
      forall j :: 0 <= j < |a| && j != t ==> a[j] == b[j]
  {
    var t, oldTop := instr.to - 1, |stacks[instr.to - 1]|;
    var keep := |stacks[instr.from - 1]| - instr.amount;
    var moved := stacks[instr.from - 1][keep..];
    assert Mover9000(stacks, instr)[t][oldTop..] == Reverse(moved);
    assert Mover9001(stacks, instr)[t][oldTop..] == moved;
  }

  /** The two cranes agree when at most one crate is moved. */
  lemma MoversAgreeOnOneCrate(stacks: seq<seq<string>>, instr: Instr)
    requires Applicable(stacks, instr) && instr.amount <= 1
    ensures Mover9000(stacks, instr) == Mover9001(stacks, instr)
  {
    var keep := |stacks[instr.from - 1]| - instr.amount;
    var moved := stacks[instr.from - 1][keep..];
    assert Reverse(moved) == moved;
    if instr.amount == 0 && instr.from != instr.to {
      var f, t := instr.from - 1, instr.to - 1;
      assert stacks[f][..keep] == stacks[f] && stacks[t] + moved == stacks[t];
      assert stacks[f := stacks[f]][t := stacks[t]] == stacks;
    }
  }

  /** The unit test's first move, `move 1 from 2 to 1`. */
  lemma Mover9000Example()
    ensures Mover9000([["Z", "N"], ["M", "C", "D"], ["P"]], Instr(1, 2, 1)) ==
      [["Z", "N", "D"], ["M", "C"], ["P"]]
  {
    var s: seq<seq<string>> := [["Z", "N"], ["M", "C", "D"], ["P"]];
    assert s[1][2..] == ["D"];
    assert s[1][..2] == ["M", "C"];
    assert Reverse(["D"]) == ["D"];
    var r := s[1 := ["M", "C"]][0 := ["Z", "N"] + ["D"]];
    assert r[0] == ["Z", "N", "D"] && r[1] == ["M", "C"] && r[2] == ["P"];
  }

  /** `get_stack_tops`: the top crate of every stack in stack order; `None` when a
      stack is empty (`last().unwrap()` panics). */
  function GetStackTops(stacks: seq<seq<string>>): (tops: Option<seq<string>>)
    ensures tops.Some? <==> forall i :: 0 <= i < |stacks| ==> stacks[i] != []
    ensures tops.Some? ==> |tops.value| == |stacks|
    ensures tops.Some? ==> forall i :: 0 <= i < |stacks| ==> tops.value[i] == stacks[i][|stacks[i]| - 1]
  {
    if stacks == [] then Some([])
    else if stacks[0] == [] then None
    else
      match GetStackTops(stacks[1..])
      case None => None
      case Some(rest) => Some([stacks[0][|stacks[0]| - 1]] + rest)
  }

  /** The characters that the drawing uses around labels. */
  predicate IsFrame(c: char) { c == ' ' || c == '\n' || c == '[' || c == ']' }

  /** A chunk of the drawing with the frame characters removed. */
  function Strip(chunk: string): (stripped: string)
    ensures forall k :: 0 <= k < |stripped| ==> !IsFrame(stripped[k])
    ensures |stripped| <= |chunk|
  {
    if chunk == [] then []
    else (if IsFrame(chunk[0]) then [] else [chunk[0]]) + Strip(chunk[1..])
  }

  /** The drawing cut into chunks of four characters (the last may be shorter),
      each stripped of its frame: one label, or nothing, per stack and row. */
  function Labels(draw: string): (labels: seq<string>)
    ensures |labels| == (|draw| + 3) / 4
    decreases |draw|
  {
    if draw == [] then []
    else if |draw| <= 4 then [Strip(draw)]
    else [Strip(draw[..4])] + Labels(draw[4..])
  }

  /** The non-empty labels at positions `i` with `i % n == j`, top row first. */
  function Column(labels: seq<string>, n: nat, j: nat): seq<string>
    requires n > 0
  {
    if labels == [] then []
    else
      var last := |labels| - 1;
      Column(labels[..last], n, j) + (if labels[last] != [] && last % n == j then [labels[last]] else [])
  }

  /** The stacks built from the label rows: stack `j` is column `j` read bottom
      to top. */
  function StacksOf(rows: seq<string>, n: nat): (stacks: seq<seq<string>>)
    requires n > 0
    ensures |stacks| == n
  {
    seq(n, j requires 0 <= j < n => Reverse(Column(rows, n, j)))
  }

  /** The columns of the label rows, top row first. */
  function Columns(rows: seq<string>, n: nat): (columns: seq<seq<string>>)
    requires n > 0
    ensures |columns| == n
  {
    seq(n, j requires 0 <= j < n => Column(rows, n, j))
  }

  /** What `obtain_crate_stacks` returns; `None` stands for a panic: a last label
      that is not a number, a count of 0, or fewer labels than stacks. */
  function CrateStacksOf(draw: string): (r: Option<seq<seq<string>>>)
    ensures r.Some? ==> var labels := Labels(draw);
      labels != [] && ParseNat(labels[|labels| - 1]) == Some(|r.value|) && 0 < |r.value| <= |labels|
  {
    var labels := Labels(draw);
    if labels == [] then None
    else
      match ParseNat(labels[|labels| - 1])
      case None => None
      case Some(n) =>
        if n == 0 || n > |labels| then None
        else Some(StacksOf(labels[..|labels| - n], n))
  }

  /** Stack `j` read top to bottom is column `j` of the drawing without its label
      row: each stack is stored bottom to top. */
  lemma StackIsColumn(draw: string, j: nat)
    requires CrateStacksOf(draw).Some? && j < |CrateStacksOf(draw).value|
    ensures var labels, n := Labels(draw), |CrateStacksOf(draw).value|;
      Reverse(CrateStacksOf(draw).value[j]) == Column(labels[..|labels| - n], n, j)
  {
    var labels, n := Labels(draw), |CrateStacksOf(draw).value|;
    ReverseReverse(Column(labels[..|labels| - n], n, j));
  }

  /** `obtain_crate_stacks`: drops the label row, pushes every non-empty label onto
      stack `i % n`, then reverses every stack. */
  method ObtainCrateStacks(draw: string) returns (r: Option<seq<seq<string>>>)
    ensures r == CrateStacksOf(draw)
  {
    var labels := Labels(draw);
    if labels == [] {
      return None;
    }
    var count := ParseNat(labels[|labels| - 1]);
    if count.None? || count.value == 0 || count.value > |labels| {
      return None;
    }
    var n := count.value;
    var rows := labels[..|labels| - n];
    var stacks := new seq<string>[n](_ => []);
    for i := 0 to |rows|
      invariant forall k :: 0 <= k < n ==> stacks[k] == Column(rows[..i], n, k)
    {
      ColumnsStep(rows, n, i);
      if rows[i] != [] {
        stacks[i % n] := stacks[i % n] + [rows[i]];
      }
    }
    assert rows[..|rows|] == rows;
    ReverseEach(stacks);
    assert stacks[..] == StacksOf(rows, n);
    r := Some(stacks[..]);
  }

  /** The closing loop of `obtain_crate_stacks`: every stack reversed in place,
      so that its bottom crate comes first. */
  method ReverseEach(stacks: array<seq<string>>)
    modifies stacks
    ensures forall k :: 0 <= k < stacks.Length ==> stacks[k] == Reverse(old(stacks[k]))
  {
    for j := 0 to stacks.Length
      invariant forall k :: 0 <= k < j ==> stacks[k] == Reverse(old(stacks[k]))
      invariant forall k :: j <= k < stacks.Length ==> stacks[k] == old(stacks[k])
    {
      stacks[j] := Reverse(stacks[j]);
    }
  }

  /** Taking one more row label adds it to its column, if it is not empty. */
  lemma ColumnsStep(rows: seq<string>, n: nat, i: nat)
    requires n > 0 && i < |rows|
    ensures forall k :: 0 <= k < n ==>
      (Column(rows[..i + 1], n, k) == Column(rows[..i], n, k) + (if rows[i] != [] && i % n == k then [rows[i]] else []))
  {
    assert rows[..i + 1][..i] == rows[..i];
  }

  /** The same step for all the columns at once. */
  lemma PushLabel(rows: seq<string>, n: nat, i: nat)
    requires n > 0 && i < |rows|
    ensures Columns(rows[..i + 1], n) ==
      if rows[i] != [] then Columns(rows[..i], n)[i % n := Columns(rows[..i], n)[i % n] + [rows[i]]]
      else Columns(rows[..i], n)
  {
    var prefix := rows[..i + 1];
    assert prefix[..i] == rows[..i] && prefix[i] == rows[i];
    var before, after := Columns(rows[..i], n), Columns(prefix, n);
    var expected := if rows[i] != [] then before[i % n := before[i % n] + [rows[i]]] else before;
    forall j | 0 <= j < n
      ensures after[j] == expected[j]
    {
      assert after[j] == Column(rows[..i], n, j) + (if rows[i] != [] && i % n == j then [rows[i]] else []);
    }
    assert after == expected;
  }

  /** Every crate of the drawing ends up on exactly one stack: the columns hold as
      many crates as the rows hold non-empty labels. */
  lemma {:induction false} ColumnsPartitionLabels(rows: seq<string>, n: nat)
    requires n > 0
    ensures CrateCount(Columns(rows, n)) == LabelCount(rows)
    decreases |rows|
  {
    if rows == [] {
      CrateCountEmpty(Columns(rows, n));
    } else {
      var last := |rows| - 1;
      assert rows[..last + 1] == rows;
      PushLabel(rows, n, last);
      ColumnsPartitionLabels(rows[..last], n);
      if rows[last] != [] {
        var before := Columns(rows[..last], n);
        CrateCountUpdate(before, last % n, before[last % n] + [rows[last]]);
      }
    }
  }

  lemma {:induction false} CrateCountEmpty(stacks: seq<seq<string>>)
    requires forall i :: 0 <= i < |stacks| ==> stacks[i] == []
    ensures CrateCount(stacks) == 0
  {
    if stacks != [] {
      CrateCountEmpty(stacks[..|stacks| - 1]);
    }
  }

  /** Number of non-empty labels. */
  function LabelCount(labels: seq<string>): nat
  {
    if labels == [] then 0 else LabelCount(labels[..|labels| - 1]) + (if labels[|labels| - 1] != [] then 1 else 0)
  }
}

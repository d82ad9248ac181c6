/** The rucksacks of 2022 day 3: each line holds the items of one rucksack, the
    first half in one compartment and the second half in the other; the items
    found in both compartments are summed by priority. */
module Rucksacks {
  import opened Text

  /** `Rucksack`: its two compartments. */
  datatype Rucksack = Rucksack(first: string, second: string)

  /** `Rucksack::new`: the items split at half their length. An odd item gives
      the extra item to the second compartment. */
  function NewRucksack(items: string): (r: Rucksack)
    ensures r.first + r.second == items
    ensures |r.first| == |items| / 2 && |r.second| - |r.first| <= 1
  {
    var half := |items| / 2;
    Rucksack(items[..half], items[half..])
  }

  /** No item occurs twice. */
  predicate NoDuplicates(s: seq<char>)
  {
    forall i, j :: 0 <= i < j < |s| ==> s[i] != s[j]
  }

  /** The items of `first` that `second` also contains, each once: the filter
      collected into a set and back. The set's iteration order is not fixed;
      here the items come in the order of their last occurrence in `first`. */
  function Shared(first: string, second: string): (r: seq<char>)
    ensures forall c :: c in r <==> c in first && c in second
    ensures NoDuplicates(r)
  {
    if first == [] then []
    else
      var rest := Shared(first[1..], second);
      assert forall c :: c in first <==> c == first[0] || c in first[1..];
      if first[0] in second && first[0] !in rest then [first[0]] + rest else rest
  }

  /** `get_shared_items`. */
  function SharedItems(r: Rucksack): (items: seq<char>)
    ensures forall c :: c in items <==> c in r.first && c in r.second
    ensures NoDuplicates(items)
  {
    Shared(r.first, r.second)
  }

  /** `get_item_priority`: `a`..`z` from 1, anything else counted from `A` at
      27; a character below `A` underflows the unsigned subtraction, which
      panics (`None`). */
  function Priority(item: char): (p: Option<nat>)
    ensures 'a' <= item <= 'z' ==> p.Some? && 1 <= p.value <= 26
    ensures 'A' <= item <= 'Z' ==> p.Some? && 27 <= p.value <= 52
    ensures p.None? <==> item < 'A'
  {
    if 'a' <= item <= 'z' then Some(item as nat - 'a' as nat + 1)
    else if item >= 'A' then Some(item as nat - 'A' as nat + 27)
    else None
  }

  /** The letter of a priority between 1 and 52. */
  function ItemOfPriority(p: nat): (item: char)
    requires 1 <= p <= 52
    ensures p <= 26 ==> 'a' <= item <= 'z'
    ensures p > 26 ==> 'A' <= item <= 'Z'
  {
    if p <= 26 then ('a' as int + p - 1) as char else ('A' as int + p - 27) as char
  }

  /** Priorities name the letters one to one. */
  lemma PriorityOfItemOfPriority(p: nat)
    requires 1 <= p <= 52
    ensures Priority(ItemOfPriority(p)) == Some(p)
  {
  }

  lemma ItemOfPriorityOfItem(item: char)
    requires 'a' <= item <= 'z' || 'A' <= item <= 'Z'
    ensures ItemOfPriority(Priority(item).value) == item
  {
  }

  /** Two priorities added, where either one failing fails the sum. */
  function Plus(a: Option<nat>, b: Option<nat>): (r: Option<nat>)
    ensures r.Some? <==> a.Some? && b.Some?
    ensures r.Some? ==> r.value == a.value + b.value
  {
    if a.Some? && b.Some? then Some(a.value + b.value) else None
  }

  /** The fold `acc + get_item_priority(item)` over some items, from 0. */
  function PrioritySum(items: seq<char>): (r: Option<nat>)
    ensures r.None? <==> exists k :: 0 <= k < |items| && items[k] < 'A'
  {
    if items == [] then Some(0) else Plus(Priority(items[0]), PrioritySum(items[1..]))
  }

  lemma {:induction false} PrioritySumConcat(a: seq<char>, b: seq<char>)
    ensures PrioritySum(a + b) == Plus(PrioritySum(a), PrioritySum(b))
  {
    if a == [] {
      assert a + b == b;
    } else {
      assert (a + b)[0] == a[0] && (a + b)[1..] == a[1..] + b;
      PrioritySumConcat(a[1..], b);
    }
  }

  /** Taking one item out of the middle of a listing takes its priority out of
      the sum. */
  lemma PrioritySumRemove(b: seq<char>, i: nat)
    requires i < |b|
    ensures PrioritySum(b) == Plus(Priority(b[i]), PrioritySum(b[..i] + b[i + 1..]))
  {
    var left, right := b[..i], b[i + 1..];
    assert b == left + ([b[i]] + right);
    PrioritySumConcat(left, [b[i]] + right);
    assert ([b[i]] + right)[0] == b[i] && ([b[i]] + right)[1..] == right;
    assert PrioritySum([b[i]] + right) == Plus(Priority(b[i]), PrioritySum(right));
    PrioritySumConcat(left, right);
    PlusSwap(PrioritySum(left), Priority(b[i]), PrioritySum(right));
  }

  lemma PlusSwap(x: Option<nat>, y: Option<nat>, z: Option<nat>)
    ensures Plus(x, Plus(y, z)) == Plus(y, Plus(x, z))
  {
  }

  lemma MultisetWithout<T>(b: seq<T>, i: nat)
    requires i < |b|
    ensures multiset(b[..i] + b[i + 1..]) == multiset(b) - multiset{b[i]}
  {
    assert b == b[..i] + [b[i]] + b[i + 1..];
  }

  /** The sum does not depend on the order of the items. */
  lemma {:induction false} PrioritySumPermutation(a: seq<char>, b: seq<char>)
    requires multiset(a) == multiset(b)
    ensures PrioritySum(a) == PrioritySum(b)
    decreases |a|
  {
    if a != [] {
      assert a[0] in multiset(b);
      var i :| 0 <= i < |b| && b[i] == a[0];
      var rest := b[..i] + b[i + 1..];
      MultisetWithout(b, i);
      assert a == [a[0]] + a[1..];
      assert multiset(a[1..]) == multiset(a) - multiset{a[0]};
      PrioritySumPermutation(a[1..], rest);
      PrioritySumRemove(b, i);
    }
  }

  /** Without duplicates, each item is counted once in the multiset. */
  lemma {:induction false} NoDuplicatesMultiset(s: seq<char>, c: char)
    requires NoDuplicates(s)
    ensures multiset(s)[c] == if c in s then 1 else 0
  {
    if s != [] {
      assert s == [s[0]] + s[1..];
      NoDuplicatesMultiset(s[1..], c);
      if c == s[0] {
        assert c !in s[1..];
      }
    }
  }

  /** Any listing of the shared items without duplicates has the same priority
      sum: the order the set yields its items in does not matter. */
  lemma SharedSumOrderFree(r: Rucksack, items: seq<char>)
    requires NoDuplicates(items)
    requires forall c :: c in items <==> c in r.first && c in r.second
    ensures PrioritySum(items) == PrioritySum(SharedItems(r))
  {
    var shared := SharedItems(r);
    forall c ensures multiset(items)[c] == multiset(shared)[c] {
      NoDuplicatesMultiset(items, c);
      NoDuplicatesMultiset(shared, c);
    }
    assert multiset(items) == multiset(shared);
    PrioritySumPermutation(items, shared);
  }

  /** The priority of one line of the input. */
  function RucksackPriority(line: string): (r: Option<nat>)
    ensures r.None? ==> exists c :: c in line[..|line| / 2] && c in line[|line| / 2..] && c < 'A'
    ensures (exists c :: c in line[..|line| / 2] && c in line[|line| / 2..] && c < 'A') ==> r.None?
  {
    var r := NewRucksack(line);
    var items := SharedItems(r);
    assert (exists k :: 0 <= k < |items| && items[k] < 'A') ==>
      (exists c :: c in r.first && c in r.second && c < 'A') by {
      if k :| 0 <= k < |items| && items[k] < 'A' {
        assert items[k] in items;
      }
    }
    assert (exists c :: c in r.first && c in r.second && c < 'A') ==>
      (exists k :: 0 <= k < |items| && items[k] < 'A') by {
      if c :| c in r.first && c in r.second && c < 'A' {
        assert c in items;
        var k :| 0 <= k < |items| && items[k] == c;
      }
    }
    PrioritySum(items)
  }

  /** The sum over the rucksacks of their priorities. */
  function TotalPriority(lines: seq<string>): (r: Option<nat>)
    ensures r.None? <==> exists k :: 0 <= k < |lines| && RucksackPriority(lines[k]).None?
  {
    if lines == [] then Some(0) else Plus(RucksackPriority(lines[0]), TotalPriority(lines[1..]))
  }

  /** The total splits over consecutive groups of lines. */
  lemma {:induction false} TotalPriorityConcat(a: seq<string>, b: seq<string>)
    ensures TotalPriority(a + b) == Plus(TotalPriority(a), TotalPriority(b))
  {
    if a == [] {
      assert a + b == b;
    } else {
      assert (a + b)[0] == a[0] && (a + b)[1..] == a[1..] + b;
      TotalPriorityConcat(a[1..], b);
    }
  }

  /** A rucksack of letters has a priority of at most 52 per shared item. */
  lemma {:induction false} PrioritySumOfLetters(items: seq<char>)
    requires forall k :: 0 <= k < |items| ==> 'a' <= items[k] <= 'z' || 'A' <= items[k] <= 'Z'
    ensures PrioritySum(items).Some? && PrioritySum(items).value <= 52 * |items|
  {
    if items != [] {
      PrioritySumOfLetters(items[1..]);
    }
  }

  /** Part one of `main`: the input trimmed and split into lines. */
  function PartOne(input: string): (r: Option<nat>)
    ensures r.None? ==>
      exists k :: 0 <= k < |Split(Trim(input), '\n')| && RucksackPriority(Split(Trim(input), '\n')[k]).None?
    ensures (exists k :: 0 <= k < |Split(Trim(input), '\n')| && RucksackPriority(Split(Trim(input), '\n')[k]).None?) ==>
      r.None?
  {
    TotalPriority(Split(Trim(input), '\n'))
  }

  /** A sequence of one repeated item holds it as often as it is long. */
  lemma {:induction false} MultisetOfRepeats(s: seq<char>, item: char)
    requires forall k :: 0 <= k < |s| ==> s[k] == item
    ensures multiset(s)[item] == |s|
  {
    if s != [] {
      assert s == [s[0]] + s[1..];
      MultisetOfRepeats(s[1..], item);
    }
  }

  /** Compartments with exactly one item in common share just that item. */
  lemma SharedSingle(r: Rucksack, item: char)
    requires forall c :: c in r.first && c in r.second <==> c == item
    ensures SharedItems(r) == [item]
  {
    var shared := SharedItems(r);
    assert item in shared;
    forall k | 0 <= k < |shared| ensures shared[k] == item {
      assert shared[k] in shared;
    }
    NoDuplicatesMultiset(shared, item);
    MultisetOfRepeats(shared, item);
  }

  /** The source's sample rucksacks: the compartments of the first one. */
  lemma SampleRucksack()
    ensures NewRucksack("vJrwpWtwJgWrhcsFMMfFFhFp") == Rucksack("vJrwpWtwJgWr", "hcsFMMfFFhFp")
  {
    var items := "vJrwpWtwJgWrhcsFMMfFFhFp";
    assert items[..12] == "vJrwpWtwJgWr" && items[12..] == "hcsFMMfFFhFp";
  }

  /** The only item the two compartments of the first sample rucksack
      share. */
  lemma SampleShared()
    ensures SharedItems(Rucksack("vJrwpWtwJgWr", "hcsFMMfFFhFp")) == ['p']
  {
    forall c | c in "vJrwpWtwJgWr" && c in "hcsFMMfFFhFp"
      ensures c == 'p'
    {
      assert c in "hcsFMMfFFhFp" ==> c in {'h', 'c', 's', 'F', 'M', 'f', 'p'};
    }
    assert "vJrwpWtwJgWr"[4] == 'p' && "hcsFMMfFFhFp"[11] == 'p';
    SharedSingle(Rucksack("vJrwpWtwJgWr", "hcsFMMfFFhFp"), 'p');
  }
}

/** The bridge repair of 2024 day 7: an equation "r: a b c" holds when
    some choice of operators, applied left to right to the operands, gives
    r. Every choice is laid out in a trie whose root holds the first
    operand and whose leaves hold the values of the full expressions. */
module BridgeRepair {
  import opened Text

  /** `OperationTrieNode`: the value so far, the operand that produced it,
      and its `next`: `Leaf` for `None`, or the children by operator. A
      dictionary keeps its keys in insertion order, so the children are a
      sequence with at most one branch per operator. */
  datatype Node = Node(value: int, operand: int, next: Next)
  datatype Next = Leaf | Children(branches: seq<Branch>)
  datatype Branch = Branch(operator: string, node: Node)

  /** `_calculate_next_node_value`: "+" adds, "*" multiplies, and any
      other operator gives 0. */
  function NextNodeValue(acc: int, operand: int, operator: string): (r: int)
    ensures operator == "+" ==> r == acc + operand
    ensures operator == "*" ==> r == acc * operand
    ensures operator != "+" && operator != "*" ==> r == 0
  {
    if operator == "+" then acc + operand
    else if operator == "*" then acc * operand
    else 0
  }

  /** `self.next[operator] = node`: the branch of that operator replaced in
      place, or a new branch at the end. */
  function Assign(branches: seq<Branch>, operator: string, node: Node): (r: seq<Branch>)
    ensures Branch(operator, node) in r
    ensures forall b :: b in r ==> b == Branch(operator, node) || (b in branches && b.operator != operator)
    ensures forall b :: b in branches ==> b.operator == operator || b in r
  {
    if branches == [] then [Branch(operator, node)]
    else if branches[0].operator == operator then [Branch(operator, node)] + Assign(branches[1..], operator, node)
    else [branches[0]] + Assign(branches[1..], operator, node)
  }

  /** The node made with `value` and `operand` at `depth` and then given
      its children by `populate_children(depth)`; `next` is what the node
      starts with. */
  function Grow(value: int, operand: int, depth: nat, operands: seq<int>, operators: seq<string>, next: Next): Node
    decreases |operands| - depth, 1, 0
  {
    if depth >= |operands| then Node(value, operand, next)
    else Node(value, operand, Populate(value, depth, operands, operators, 0, next))
  }

  /** The loop of `populate_children` from the operator at `i` on: for each
      operator, a child with the value that operator gives, grown from the
      next depth, then stored under the operator. */
  function Populate(value: int, depth: nat, operands: seq<int>, operators: seq<string>, i: nat, next: Next): Next
    requires depth < |operands| && i <= |operators|
    decreases |operands| - depth, 0, |operators| - i
  {
    if i == |operators| then next
    else
      var child := Child(value, depth, operands, operators, operators[i]);
      var branches := if next.Leaf? then [] else next.branches;
      Populate(value, depth, operands, operators, i + 1, Children(Assign(branches, operators[i], child)))
  }

  /** The child a node at `depth` gets for `operator`. */
  function Child(value: int, depth: nat, operands: seq<int>, operators: seq<string>, operator: string): Node
    requires depth < |operands|
    decreases |operands| - depth, 0, 0
  {
    var operand := operands[depth];
    Grow(NextNodeValue(value, operand, operator), operand, depth + 1, operands, operators, Leaf)
  }

  /** `OperationTrieNode.build`: a root holding the first operand with an
      empty dictionary of children, populated from depth 1; without
      operands `operands[0]` raises. */
  function Build(operands: seq<int>, operators: seq<string>): Option<Node>
  {
    if operands == [] then None
    else Some(Grow(operands[0], operands[0], 1, operands, operators, Children([])))
  }

  /** `has`: a leaf has `value` when it holds it; any other node when one
      of its children has it. */
  function Has(node: Node, value: int): bool
    decreases node, 1
  {
    match node.next
    case Leaf => node.value == value
    case Children(branches) => AnyHas(branches, value)
  }

  /** The loop of `has` over the children, or-ing their answers in
      order. */
  function AnyHas(branches: seq<Branch>, value: int): bool
    decreases branches, 0
  {
    if branches == [] then false
    else
      var last := |branches| - 1;
      AnyHas(branches[..last], value) || Has(branches[last].node, value)
  }

  /** Some operators, applied left to right from `acc` to the operands
      `rest`, give `value`. */
  predicate Reachable(value: int, acc: int, rest: seq<int>, operators: seq<string>)
    decreases |rest|
  {
    if rest == [] then value == acc
    else exists op :: op in operators && Reachable(value, NextNodeValue(acc, rest[0], op), rest[1..], operators)
  }

  /** Has the value exactly when one of the children has it. */
  lemma {:induction false} AnyHasIff(branches: seq<Branch>, value: int)
    ensures AnyHas(branches, value) <==> exists b :: b in branches && Has(b.node, value)
  {
    if branches != [] {
      var last := |branches| - 1;
      AnyHasIff(branches[..last], value);
      assert branches == branches[..last] + [branches[last]];
    }
  }

  /** The operators the children are stored under. */
  function Operators(branches: seq<Branch>): set<string>
  {
    set b | b in branches :: b.operator
  }

  /** Every child is stored under one of the operators and is the child
      that operator gives. */
  predicate Canonical(branches: seq<Branch>, value: int, depth: nat, operands: seq<int>, operators: seq<string>)
    requires depth < |operands|
  {
    forall b :: b in branches ==> b.operator in operators && b.node == Child(value, depth, operands, operators, b.operator)
  }

  /** Storing the child of an operator keeps the children canonical and
      adds the operator to those stored. */
  lemma AssignSpec(branches: seq<Branch>, value: int, depth: nat, operands: seq<int>, operators: seq<string>, operator: string)
    requires depth < |operands| && operator in operators
    requires Canonical(branches, value, depth, operands, operators)
    ensures var r := Assign(branches, operator, Child(value, depth, operands, operators, operator));
      Canonical(r, value, depth, operands, operators) && Operators(r) == Operators(branches) + {operator}
  {
    var child := Child(value, depth, operands, operators, operator);
    var r := Assign(branches, operator, child);
    assert Branch(operator, child) in r;
    forall op | op in Operators(branches) + {operator}
      ensures op in Operators(r)
    {
      if op != operator {
        var b :| b in branches && b.operator == op;
        assert b in r;
      }
    }
  }

  /** The loop of `populate_children` stores one canonical child for every
      operator it goes through; it leaves `next` alone only when there is
      no operator left. */
  lemma {:induction false} PopulateSpec(value: int, depth: nat, operands: seq<int>, operators: seq<string>, i: nat, next: Next)
    requires depth < |operands| && i <= |operators|
    requires next.Children? ==> Canonical(next.branches, value, depth, operands, operators)
    ensures Populate(value, depth, operands, operators, i, next).Leaf? <==> next.Leaf? && i == |operators|
    ensures var r := Populate(value, depth, operands, operators, i, next);
      r.Children? ==> Canonical(r.branches, value, depth, operands, operators)
    ensures var r := Populate(value, depth, operands, operators, i, next);
      r.Children? ==>
        Operators(r.branches) == (if next.Leaf? then {} else Operators(next.branches)) + set op | op in operators[i..]
    decreases |operators| - i
  {
    if i < |operators| {
      var branches := if next.Leaf? then [] else next.branches;
      var after := Children(Assign(branches, operators[i], Child(value, depth, operands, operators, operators[i])));
      AssignSpec(branches, value, depth, operands, operators, operators[i]);
      PopulateSpec(value, depth, operands, operators, i + 1, after);
      assert Populate(value, depth, operands, operators, i, next) == Populate(value, depth, operands, operators, i + 1, after);
      assert Operators(branches) == if next.Leaf? then {} else Operators(next.branches);
      SuffixOperators(operators[i..], operators[i + 1..]);
    }
  }

  /** The operators of a list are its first one and those of the rest. */
  lemma SuffixOperators(operators: seq<string>, rest: seq<string>)
    requires operators != [] && rest == operators[1..]
    ensures (set op | op in operators) == {operators[0]} + (set op | op in rest)
  {
    assert operators == [operators[0]] + rest;
  }

  /** A node grown as a leaf-to-be has `value` exactly when some operators
      applied to the remaining operands give it. */
  lemma {:induction false} HasGrow(value: int, operand: int, depth: nat, operands: seq<int>, operators: seq<string>, target: int)
    requires depth <= |operands| && operators != []
    ensures Has(Grow(value, operand, depth, operands, operators, Leaf), target) <==>
      Reachable(target, value, operands[depth..], operators)
    decreases |operands| - depth
  {
    if depth < |operands| {
      PopulatedHas(value, depth, operands, operators, Leaf, target);
      assert operands[depth..][1..] == operands[depth + 1..];
    }
  }

  /** The children made by `populate_children` have `target` exactly when
      one operator gives a child that has it. */
  lemma PopulatedHas(value: int, depth: nat, operands: seq<int>, operators: seq<string>, next: Next, target: int)
    requires depth < |operands| && operators != []
    requires next == Leaf || next == Children([])
    ensures Populate(value, depth, operands, operators, 0, next).Children?
    ensures AnyHas(Populate(value, depth, operands, operators, 0, next).branches, target) <==>
      exists op :: op in operators && Reachable(target, NextNodeValue(value, operands[depth], op), operands[depth + 1..], operators)
    decreases |operands| - depth, 0
  {
    PopulateSpec(value, depth, operands, operators, 0, next);
    var r := Populate(value, depth, operands, operators, 0, next).branches;
    AnyHasIff(r, target);
    assert operators[0..] == operators;
    forall op | op in operators
      ensures Has(Child(value, depth, operands, operators, op), target) <==>
        Reachable(target, NextNodeValue(value, operands[depth], op), operands[depth + 1..], operators)
    {
      HasGrow(NextNodeValue(value, operands[depth], op), operands[depth], depth + 1, operands, operators, target);
    }
    if exists op :: op in operators && Reachable(target, NextNodeValue(value, operands[depth], op), operands[depth + 1..], operators) {
      var op :| op in operators && Reachable(target, NextNodeValue(value, operands[depth], op), operands[depth + 1..], operators);
      assert op in Operators(r);
      var b :| b in r && b.operator == op;
      assert Has(b.node, target);
    }
  }

  /** `OperationTrie`: the operands, the operators and the root built from
      them. */
  datatype OperationTrie = OperationTrie(operands: seq<int>, operators: seq<string>, root: Option<Node>)

  /** `OperationTrie(operands, operators)`: building the root raises
      without operands. */
  function NewOperationTrie(operands: seq<int>, operators: seq<string>): Option<OperationTrie>
  {
    match Build(operands, operators)
    case None => None
    case Some(root) => Some(OperationTrie(operands, operators, Some(root)))
  }

  /** `contains_result`: false without a root, otherwise whether the root
      has the result. */
  predicate ContainsResult(trie: OperationTrie, result: int)
  {
    trie.root.Some? && Has(trie.root.value, result)
  }

  /** A trie holds a result exactly when there are at least two operands
      and some operators applied left to right to them give the result; with
      a single operand the root keeps its empty dictionary and holds
      nothing. */
  lemma ContainsResultIff(operands: seq<int>, operators: seq<string>, result: int)
    requires NewOperationTrie(operands, operators).Some?
    ensures ContainsResult(NewOperationTrie(operands, operators).value, result) <==>
      |operands| >= 2 && Reachable(result, operands[0], operands[1..], operators)
  {
    if |operands| >= 2 {
      if operators == [] {
        var root := Grow(operands[0], operands[0], 1, operands, operators, Children([]));
        assert root.next == Populate(operands[0], 1, operands, operators, 0, Children([]));
        assert root.next == Children([]);
        assert !Has(root, result);
        assert operands[1..] != [];
      } else {
        PopulatedHas(operands[0], 1, operands, operators, Children([]), result);
        assert operands[1..][1..] == operands[2..];
      }
    } else {
      var root := Grow(operands[0], operands[0], 1, operands, operators, Children([]));
      assert root == Node(operands[0], operands[0], Children([]));
      assert !Has(root, result);
    }
  }

  /** The first `n` children of a node at `depth`, one per operator in the
      order of the operators. */
  function OnePerOperator(value: int, depth: nat, operands: seq<int>, operators: seq<string>, n: nat): (r: seq<Branch>)
    requires depth < |operands| && n <= |operators|
    ensures |r| == n && forall k :: 0 <= k < n ==> r[k] == Branch(operators[k], Child(value, depth, operands, operators, operators[k]))
  {
    seq(n, k requires 0 <= k < n => Branch(operators[k], Child(value, depth, operands, operators, operators[k])))
  }

  /** No operator given twice. */
  predicate Distinct(operators: seq<string>)
  {
    forall j, k :: 0 <= j < k < |operators| ==> operators[j] != operators[k]
  }

  /** Storing under an operator not yet stored adds a child at the end. */
  lemma {:induction false} AssignNew(branches: seq<Branch>, operator: string, node: Node)
    requires forall b :: b in branches ==> b.operator != operator
    ensures Assign(branches, operator, node) == branches + [Branch(operator, node)]
  {
    if branches != [] {
      AssignNew(branches[1..], operator, node);
    }
  }

  /** With distinct operators, a node above the last depth gets exactly
      one child per operator, in the order of the operators. */
  lemma {:induction false} PopulateDistinct(value: int, depth: nat, operands: seq<int>, operators: seq<string>, i: nat)
    requires depth < |operands| && i <= |operators| && Distinct(operators)
    ensures Populate(value, depth, operands, operators, i, Children(OnePerOperator(value, depth, operands, operators, i))) ==
      Children(OnePerOperator(value, depth, operands, operators, |operators|))
    decreases |operators| - i
  {
    if i < |operators| {
      var before := OnePerOperator(value, depth, operands, operators, i);
      AssignNew(before, operators[i], Child(value, depth, operands, operators, operators[i]));
      assert before + [Branch(operators[i], Child(value, depth, operands, operators, operators[i]))] ==
        OnePerOperator(value, depth, operands, operators, i + 1);
      PopulateDistinct(value, depth, operands, operators, i + 1);
    } else {
      assert OnePerOperator(value, depth, operands, operators, i) == OnePerOperator(value, depth, operands, operators, |operators|);
    }
  }

  /** A child grown at the last depth or beyond is a leaf; above it, with
      distinct operators, it has one child per operator. */
  lemma ChildShape(value: int, depth: nat, operands: seq<int>, operators: seq<string>, operator: string)
    requires depth < |operands| && Distinct(operators)
    ensures depth + 1 == |operands| ==> Child(value, depth, operands, operators, operator).next == Leaf
    ensures depth + 1 < |operands| && operators != [] ==>
      var child := Child(value, depth, operands, operators, operator);
      child.next == Children(OnePerOperator(child.value, depth + 1, operands, operators, |operators|))
  {
    if depth + 1 < |operands| && operators != [] {
      var child := Child(value, depth, operands, operators, operator);
      var first := Branch(operators[0], Child(child.value, depth + 1, operands, operators, operators[0]));
      assert child == Grow(NextNodeValue(value, operands[depth], operator), operands[depth], depth + 1, operands, operators, Leaf);
      assert child.next == Populate(child.value, depth + 1, operands, operators, 0, Leaf);
      assert Populate(child.value, depth + 1, operands, operators, 0, Leaf) ==
        Populate(child.value, depth + 1, operands, operators, 1, Children([first]));
      assert [first] == OnePerOperator(child.value, depth + 1, operands, operators, 1);
      PopulateDistinct(child.value, depth + 1, operands, operators, 1);
    }
  }

  /** With at least two operands and distinct operators, the root gets
      exactly one child per operator, in the order of the operators. */
  lemma RootShape(operands: seq<int>, operators: seq<string>)
    requires |operands| >= 2 && Distinct(operators)
    ensures Build(operands, operators) ==
      Some(Node(operands[0], operands[0], Children(OnePerOperator(operands[0], 1, operands, operators, |operators|))))
  {
    assert OnePerOperator(operands[0], 1, operands, operators, 0) == [];
    PopulateDistinct(operands[0], 1, operands, operators, 0);
  }

  /** 1 * 2 + 3 is 5. */
  lemma ReachesFive()
    ensures Reachable(5, 1, [2, 3], ["+", "*"])
  {
    var operators := ["+", "*"];
    assert [2, 3][1..] == [3] && [3][1..] == [];
    assert NextNodeValue(1, 2, "*") == 2 && NextNodeValue(2, 3, "+") == 5;
    assert "+" in operators && "*" in operators;
    assert Reachable(5, 5, [], operators);
    assert Reachable(5, NextNodeValue(2, [3][0], "+"), [3][1..], operators);
    assert Reachable(5, 2, [3], operators);
    assert Reachable(5, NextNodeValue(1, [2, 3][0], "*"), [2, 3][1..], operators);
  }

  /** The trie of 1, 2, 3 with "+" and "*" holds 5, as 1 * 2 + 3. */
  lemma ContainsFive()
    ensures NewOperationTrie([1, 2, 3], ["+", "*"]).Some?
    ensures ContainsResult(NewOperationTrie([1, 2, 3], ["+", "*"]).value, 5)
  {
    var operands: seq<int>, operators: seq<string> := [1, 2, 3], ["+", "*"];
    ContainsResultIff(operands, operators, 5);
    assert operands[1..] == [2, 3];
    ReachesFive();
  }

  /** `Equation`: the result and the operands of one line. */
  datatype Equation = Equation(result: int, operands: seq<int>)

  /** `Equation.from_str`: the line split at ':' into exactly two pieces,
      the result read from the first and the operands from the words of
      the second; anything else raises. */
  function EquationFromStr(line: string): (r: Option<Equation>)
    ensures ':' !in line ==> r.None?
    ensures r.Some? ==> PyInt(Split(line, ':')[0]) == Some(r.value.result)
    ensures r.Some? ==> ParseAll(PyInt, Words(Split(line, ':')[1])) == Some(r.value.operands)
  {
    var pieces := Split(line, ':');
    if |pieces| != 2 then None
    else
      match (PyInt(pieces[0]), ParseAll(PyInt, Words(pieces[1])))
      case (Some(result), Some(operands)) => Some(Equation(result, operands))
      case _ => None
  }

  /** An equation of natural numbers written as "r: a b c". */
  function EquationText(result: nat, operands: seq<nat>): string
    requires operands != []
  {
    ShowNat(result) + ":" + " " + Join(Map(ShowNat, operands), ' ')
  }

  /** A line that splits at ':' into a readable result and readable
      operands is read as that equation. */
  lemma EquationFromParts(line: string, head: string, tail: string, result: int, operands: seq<int>)
    requires Split(line, ':') == [head, tail]
    requires PyInt(head) == Some(result) && ParseAll(PyInt, Words(tail)) == Some(operands)
    ensures EquationFromStr(line) == Some(Equation(result, operands))
  {
  }

  /** Written numbers are words without ':' that read back as the
      numbers. */
  lemma Numerals(operands: seq<nat>)
    ensures forall i :: 0 <= i < |operands| ==> IsWord(Map(ShowNat, operands)[i])
    ensures forall i :: 0 <= i < |operands| ==> ':' !in Map(ShowNat, operands)[i]
    ensures forall i :: 0 <= i < |operands| ==> PyInt(Map(ShowNat, operands)[i]) == Some(operands[i] as int)
  {
    forall i | 0 <= i < |operands|
      ensures IsWord(Map(ShowNat, operands)[i]) && ':' !in Map(ShowNat, operands)[i]
      ensures PyInt(Map(ShowNat, operands)[i]) == Some(operands[i] as int)
    {
      var w := ShowNat(operands[i]);
      MapAt(ShowNat, operands, i);
      assert forall k :: 0 <= k < |w| ==> IsDigit(w[k]);
      DecimalValueShowNat(operands[i]);
    }
  }

  /** Written numbers are read back. */
  lemma ParseNumerals(operands: seq<nat>)
    ensures ParseAll(PyInt, Map(ShowNat, operands)) == Some(operands)
  {
    Numerals(operands);
    ParseAllSpec(PyInt, Map(ShowNat, operands));
    var values := ParseAll(PyInt, Map(ShowNat, operands)).value;
    assert |values| == |operands|;
    assert forall i :: 0 <= i < |operands| ==> values[i] == operands[i];
    assert values == operands;
  }

  /** Numbers written with single spaces between them are read back. */
  lemma OperandsFromText(operands: seq<nat>)
    requires operands != []
    ensures ':' !in " " + Join(Map(ShowNat, operands), ' ')
    ensures ParseAll(PyInt, Words(" " + Join(Map(ShowNat, operands), ' '))) == Some(operands)
  {
    var words := Map(ShowNat, operands);
    Numerals(operands);
    WordsJoin(words);
    JoinWithout(words, ' ', ':');
    var tail := " " + Join(words, ' ');
    assert tail[1..] == Join(words, ' ');
    assert Words(tail) == words;
    ParseNumerals(operands);
  }

  /** Written operands hold no ':'. */
  lemma OperandsWithoutColon(operands: seq<nat>)
    requires operands != []
    ensures ':' !in " " + Join(Map(ShowNat, operands), ' ')
  {
    var words := Map(ShowNat, operands);
    forall i | 0 <= i < |words|
      ensures ':' !in words[i]
    {
      MapAt(ShowNat, operands, i);
      ShowNatOnlyDigits(operands[i], ':');
    }
    JoinWithout(words, ' ', ':');
  }

  /** A written equation splits at ':' into its written result and its
      written operands. */
  lemma EquationTextSplits(result: nat, operands: seq<nat>)
    requires operands != []
    ensures Split(EquationText(result, operands), ':') == [ShowNat(result), " " + Join(Map(ShowNat, operands), ' ')]
  {
    var head, tail := ShowNat(result), " " + Join(Map(ShowNat, operands), ' ');
    OperandsWithoutColon(operands);
    ShowNatOnlyDigits(result, ':');
    assert EquationText(result, operands) == Join([head, tail], ':');
    SplitJoin([head, tail], ':');
  }

  /** Reading a written equation gives it back. */
  lemma EquationFromText(result: nat, operands: seq<nat>)
    requires operands != []
    ensures EquationFromStr(EquationText(result, operands)) == Some(Equation(result, operands))
  {
    EquationTextSplits(result, operands);
    OperandsFromText(operands);
    PyIntShowNat(result);
    EquationFromParts(EquationText(result, operands), ShowNat(result), " " + Join(Map(ShowNat, operands), ' '), result, operands);
  }

  /** What one equation adds to the calibration: its result when its trie
      holds it, otherwise 0; `None` when the trie cannot be built. */
  function CalibrationValue(equation: Equation, operators: seq<string>): Option<int>
  {
    match NewOperationTrie(equation.operands, operators)
    case None => None
    case Some(trie) => Some(if ContainsResult(trie, equation.result) then equation.result else 0)
  }

  /** Some operators, applied left to right to the operands of the
      equation, give its result; a single operand is never enough. */
  predicate Solvable(equation: Equation, operators: seq<string>)
  {
    |equation.operands| >= 2 && Reachable(equation.result, equation.operands[0], equation.operands[1..], operators)
  }

  /** An equation counts exactly when it has at least two operands that
      some operators turn into its result; it fails the sum only without
      operands. */
  lemma CalibrationValueSpec(equation: Equation, operators: seq<string>)
    ensures CalibrationValue(equation, operators).None? <==> equation.operands == []
    ensures equation.operands != [] ==>
      CalibrationValue(equation, operators) == Some(if Solvable(equation, operators) then equation.result else 0)
  {
    if equation.operands != [] {
      ContainsResultIff(equation.operands, operators, equation.result);
    }
  }

  /** The loop of `part_one` over the equations: the sum of what each
      adds, or `None` once one cannot be built. */
  function Calibration(equations: seq<Equation>, operators: seq<string>): Option<int>
  {
    if equations == [] then Some(0)
    else
      var last := |equations| - 1;
      match (Calibration(equations[..last], operators), CalibrationValue(equations[last], operators))
      case (Some(total), Some(value)) => Some(total + value)
      case _ => None
  }

  /** The calibration fails exactly when some equation has no operands. */
  lemma {:induction false} CalibrationFails(equations: seq<Equation>, operators: seq<string>)
    ensures Calibration(equations, operators).None? <==> exists k :: 0 <= k < |equations| && equations[k].operands == []
  {
    if equations != [] {
      var last := |equations| - 1;
      CalibrationFails(equations[..last], operators);
      CalibrationValueSpec(equations[last], operators);
      if exists k :: 0 <= k < last && equations[..last][k].operands == [] {
        var k :| 0 <= k < last && equations[..last][k].operands == [];
        assert equations[k].operands == [];
      }
      if exists k :: 0 <= k < |equations| && equations[k].operands == [] {
        var k :| 0 <= k < |equations| && equations[k].operands == [];
        if k < last {
          assert equations[..last][k].operands == [];
        }
      }
    }
  }

  /** One more equation added to the sum. */
  lemma CalibrationStep(equations: seq<Equation>, operators: seq<string>, i: nat)
    requires i < |equations|
    ensures Calibration(equations[..i + 1], operators) ==
      match (Calibration(equations[..i], operators), CalibrationValue(equations[i], operators))
      case (Some(total), Some(value)) => Some(total + value)
      case _ => None
  {
    assert equations[..i + 1][..i] == equations[..i];
  }

  /** The calibration over the equations appended is the sum of their
      calibrations. */
  lemma {:induction false} CalibrationConcat(a: seq<Equation>, b: seq<Equation>, operators: seq<string>)
    ensures Calibration(a + b, operators) ==
      if Calibration(a, operators).Some? && Calibration(b, operators).Some?
      then Some(Calibration(a, operators).value + Calibration(b, operators).value) else None
    decreases |b|
  {
    if b == [] {
      assert a + b == a;
    } else {
      var last := |b| - 1;
      assert (a + b)[..|a + b| - 1] == a + b[..last];
      assert (a + b)[|a + b| - 1] == b[last];
      CalibrationConcat(a, b[..last], operators);
    }
  }

  /** The operators of part one. */
  const PartOneOperators: seq<string> := ["+", "*"]

  /** `part_one`: every line read as an equation, then the results that
      "+" and "*" can reach added up. */
  function PartOneValue(input: seq<string>): Option<int>
  {
    match ParseAll(EquationFromStr, input)
    case None => None
    case Some(equations) => Calibration(equations, PartOneOperators)
  }

  /** The parsing loop of `part_one`. */
  method GetEquations(input: seq<string>) returns (equations: Option<seq<Equation>>)
    ensures equations == ParseAll(EquationFromStr, input)
  {
    var parsed: seq<Equation> := [];
    for i := 0 to |input|
      invariant ParseAll(EquationFromStr, input[..i]) == Some(parsed)
    {
      ParseAllStep(EquationFromStr, input, i);
      var equation := EquationFromStr(input[i]);
      if equation.None? {
        ParseAllFails(EquationFromStr, input, i + 1);
        return None;
      }
      parsed := parsed + [equation.value];
    }
    assert input[..|input|] == input;
    return Some(parsed);
  }

  /** `part_one`: the sum of the results of the equations whose tries,
      built with "+" and "*", hold them. */
  method PartOne(input: seq<string>) returns (r: Option<int>)
    ensures r == PartOneValue(input)
  {
    var equations := GetEquations(input);
    if equations.None? {
      return None;
    }
    r := TotalCalibration(equations.value, PartOneOperators);
  }

  /** The summing loop of `part_one`: each equation's trie is built and its
      result added when the trie holds it. */
  method TotalCalibration(all: seq<Equation>, operators: seq<string>) returns (r: Option<int>)
    ensures r == Calibration(all, operators)
  {
    var sum := 0;
    for i := 0 to |all|
      invariant Calibration(all[..i], operators) == Some(sum)
    {
      CalibrationStep(all, operators, i);
      var trie := NewOperationTrie(all[i].operands, operators);
      if trie.None? {
        CalibrationFails(all, operators);
        assert all[i].operands == [];
        return None;
      }
      if ContainsResult(trie.value, all[i].result) {
        sum := sum + all[i].result;
      }
    }
    assert all[..|all|] == all;
    return Some(sum);
  }
}

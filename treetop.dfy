/** The forest of 2022 day 8: a grid of tree heights,
    which trees can be seen from outside it, and how far one sees from each. */
module Treetop {
  import opened Text
  import Arith

  /** Heights by row, then column. */
  type Forest = seq<seq<nat>>

  /** A rectangle with at least one tree: the source reads `trees[0].len()` as
      the width of every row. */
  predicate IsGrid(t: Forest)
  {
    |t| > 0 && |t[0]| > 0 && forall r :: 0 <= r < |t| ==> |t[r]| == |t[0]|
  }

  /** A position inside the grid. */
  predicate InGrid(t: Forest, i: int, j: int)
    requires IsGrid(t)
  {
    0 <= i < |t| && 0 <= j < |t[0]|
  }

  /** Every line is made of decimal digits only. */
  predicate DigitLines(lines: seq<string>)
  {
    forall i :: 0 <= i < |lines| ==> AllDigits(lines[i])
  }

  /** `Forest::from`: one row per line, one digit per tree; `None` where a
      character is not a decimal digit (the source's `unwrap` panics). */
  function ParseForest(input: string): (r: Option<Forest>)
    ensures r.Some? <==> DigitLines(Split(input, '\n'))
    ensures r.Some? ==> |r.value| == |Split(input, '\n')|
    ensures r.Some? ==> forall i :: 0 <= i < |r.value| ==> |r.value[i]| == |Split(input, '\n')[i]|
    ensures r.Some? ==> forall i, k :: 0 <= i < |r.value| && 0 <= k < |r.value[i]| ==>
      r.value[i][k] == DigitValue(Split(input, '\n')[i][k])
  {
    var lines := Split(input, '\n');
    if DigitLines(lines) then
      Some(seq(|lines|, i requires 0 <= i < |lines| =>
        seq(|lines[i]|, k requires 0 <= k < |lines[i]| => DigitValue(lines[i][k]))))
    else None
  }

  /** `get_trees_from_left`: the row to the left of the tree, nearest last. */
  function FromLeft(t: Forest, i: nat, j: nat): (r: seq<nat>)
    requires IsGrid(t) && InGrid(t, i, j)
    ensures |r| == j && forall c :: 0 <= c < j ==> r[c] == t[i][c]
  {
    t[i][..j]
  }

  /** `get_trees_from_right`: the row to the right of the tree, nearest first. */
  function FromRight(t: Forest, i: nat, j: nat): (r: seq<nat>)
    requires IsGrid(t) && InGrid(t, i, j)
    ensures |r| == |t[0]| - j - 1 && forall c :: j < c < |t[0]| ==> r[c - j - 1] == t[i][c]
  {
    t[i][j + 1..]
  }

  /** `get_trees_from_above`: the column above the tree, nearest last. */
  function FromAbove(t: Forest, i: nat, j: nat): (r: seq<nat>)
    requires IsGrid(t) && InGrid(t, i, j)
    ensures |r| == i && forall k :: 0 <= k < i ==> r[k] == t[k][j]
  {
    seq(i, k requires 0 <= k < i => t[k][j])
  }

  /** `get_trees_from_below`: the column below the tree, nearest first. */
  function FromBelow(t: Forest, i: nat, j: nat): (r: seq<nat>)
    requires IsGrid(t) && InGrid(t, i, j)
    ensures |r| == |t| - i - 1 && forall k :: i < k < |t| ==> r[k - i - 1] == t[k][j]
  {
    seq(|t| - i - 1, k requires 0 <= k < |t| - i - 1 => t[i + 1 + k][j])
  }

  predicate AllShorter(trees: seq<nat>, h: nat)
  {
    forall k :: 0 <= k < |trees| ==> trees[k] < h
  }

  /** `tree_is_visible`: a border tree is visible; an inner tree is visible when
      every tree in one of the four directions is strictly shorter. */
  predicate TreeIsVisible(t: Forest, i: nat, j: nat)
    requires IsGrid(t) && InGrid(t, i, j)
  {
    if i == 0 || i == |t| - 1 || j == 0 || j == |t[0]| - 1 then true
    else
      var h := t[i][j];
      AllShorter(FromLeft(t, i, j), h) || AllShorter(FromRight(t, i, j), h) ||
      AllShorter(FromAbove(t, i, j), h) || AllShorter(FromBelow(t, i, j), h)
  }

  /** A line of sight from the tree to the edge in some direction, stated on
      grid coordinates. */
  ghost predicate SeesEdge(t: Forest, i: nat, j: nat)
    requires IsGrid(t) && InGrid(t, i, j)
  {
    (forall c :: 0 <= c < j ==> t[i][c] < t[i][j]) ||
    (forall c :: j < c < |t[0]| ==> t[i][c] < t[i][j]) ||
    (forall k :: 0 <= k < i ==> t[k][j] < t[i][j]) ||
    (forall k :: i < k < |t| ==> t[k][j] < t[i][j])
  }

  /** A tree is visible exactly when it has a line of sight to the edge; for
      border trees that line is empty, so the border test agrees with it. */
  lemma VisibleIffSeesEdge(t: Forest, i: nat, j: nat)
    requires IsGrid(t) && InGrid(t, i, j)
    ensures TreeIsVisible(t, i, j) <==> SeesEdge(t, i, j)
  {
    var h := t[i][j];
    var left, right, above, below := FromLeft(t, i, j), FromRight(t, i, j), FromAbove(t, i, j), FromBelow(t, i, j);
    assert AllShorter(left, h) <==> forall c :: 0 <= c < j ==> t[i][c] < h;
    assert AllShorter(right, h) <==> forall c :: j < c < |t[0]| ==> t[i][c] < h by {
      if AllShorter(right, h) {
        forall c | j < c < |t[0]| ensures t[i][c] < h {
          assert right[c - j - 1] == t[i][c];
        }
      }
      if forall c :: j < c < |t[0]| ==> t[i][c] < h {
        forall k | 0 <= k < |right| ensures right[k] < h {
          assert right[(k + j + 1) - j - 1] == t[i][k + j + 1];
        }
      }
    }
    assert AllShorter(above, h) <==> forall k :: 0 <= k < i ==> t[k][j] < h;
    assert AllShorter(below, h) <==> forall k :: i < k < |t| ==> t[k][j] < h by {
      if AllShorter(below, h) {
        forall k | i < k < |t| ensures t[k][j] < h {
          assert below[k - i - 1] == t[k][j];
        }
      }
      if forall k :: i < k < |t| ==> t[k][j] < h {
        forall k | 0 <= k < |below| ensures below[k] < h {
          assert below[(k + i + 1) - i - 1] == t[k + i + 1][j];
        }
      }
    }
  }

  /** The number of visible trees among the first `c` cells of row `i`. */
  function VisibleInRow(t: Forest, i: nat, c: nat): (r: nat)
    requires IsGrid(t) && i < |t| && c <= |t[0]|
    ensures r <= c
  {
    if c == 0 then 0 else VisibleInRow(t, i, c - 1) + (if TreeIsVisible(t, i, c - 1) then 1 else 0)
  }

  /** The number of visible trees in the first `n` rows. */
  function VisibleInRows(t: Forest, n: nat): (r: nat)
    requires IsGrid(t) && n <= |t|
  {
    if n == 0 then 0 else VisibleInRows(t, n - 1) + VisibleInRow(t, n - 1, |t[0]|)
  }

  /** The number of visible trees in the whole forest. */
  function VisibleTrees(t: Forest): nat
    requires IsGrid(t)
  {
    VisibleInRows(t, |t|)
  }

  /** No more trees are visible than there are trees. */
  lemma {:induction false} VisibleAtMostTrees(t: Forest, n: nat)
    requires IsGrid(t) && n <= |t|
    ensures VisibleInRows(t, n) <= n * |t[0]|
  {
    if n > 0 {
      VisibleAtMostTrees(t, n - 1);
      assert n * |t[0]| == (n - 1) * |t[0]| + |t[0]|;
    }
  }

  /** `get_number_of_visible_trees`: the nested loops count every visible cell. */
  method GetNumberOfVisibleTrees(t: Forest) returns (visible: nat)
    requires IsGrid(t)
    ensures visible == VisibleTrees(t)
  {
    visible := 0;
    for i := 0 to |t|
      invariant visible == VisibleInRows(t, i)
    {
      ghost var before := visible;
      for j := 0 to |t[0]|
        invariant visible == before + VisibleInRow(t, i, j)
      {
        if TreeIsVisible(t, i, j) {
          visible := visible + 1;
        }
      }
    }
  }

  /** Every tree of a forest with at most two rows or two columns is on the
      border, so all of them are visible. */
  lemma {:induction false} ThinRowAllVisible(t: Forest, i: nat, c: nat)
    requires IsGrid(t) && (|t| <= 2 || |t[0]| <= 2) && i < |t| && c <= |t[0]|
    ensures VisibleInRow(t, i, c) == c
  {
    if c > 0 {
      ThinRowAllVisible(t, i, c - 1);
    }
  }

  /** How far one sees along `trees`, nearest first: every tree up to and
      including the first that is at least as tall as `h`. */
  function ViewingDistance(trees: seq<nat>, h: nat): (r: nat)
    ensures r <= |trees|
  {
    if trees == [] then 0
    else if trees[0] >= h then 1
    else 1 + ViewingDistance(trees[1..], h)
  }

  /** The viewing distance reaches the edge when every tree is shorter, and
      otherwise stops exactly at the first tree that is at least as tall. */
  lemma {:induction false} ViewingDistanceStops(trees: seq<nat>, h: nat)
    ensures AllShorter(trees, h) ==> ViewingDistance(trees, h) == |trees|
    ensures !AllShorter(trees, h) ==> var r := ViewingDistance(trees, h);
      0 < r && trees[r - 1] >= h && AllShorter(trees[..r - 1], h)
  {
    if trees != [] && trees[0] < h {
      var rest := ViewingDistance(trees[1..], h);
      ViewingDistanceStops(trees[1..], h);
      assert AllShorter(trees, h) <==> AllShorter(trees[1..], h);
      if !AllShorter(trees[1..], h) {
        assert trees[..rest + 1][1..] == trees[1..][..rest];
      }
    }
  }

  /** One of the counting loops of `get_visibility_from_tree`. */
  method CountVisible(trees: seq<nat>, h: nat) returns (count: nat)
    ensures count == ViewingDistance(trees, h)
  {
    count := 0;
    var k := 0;
    while k < |trees|
      invariant k <= |trees| && count == k
      invariant AllShorter(trees[..k], h)
      invariant ViewingDistance(trees, h) == k + ViewingDistance(trees[k..], h)
    {
      assert trees[k..][1..] == trees[k + 1..];
      count := count + 1;
      if trees[k] >= h {
        return;
      }
      assert trees[..k + 1] == trees[..k] + [trees[k]];
      k := k + 1;
    }
  }

  /** The four viewing distances from a tree: left and above read from the
      tree outwards, then right and below. */
  function Distances(t: Forest, i: nat, j: nat): (r: seq<nat>)
    requires IsGrid(t) && InGrid(t, i, j)
    ensures |r| == 4
  {
    var h := t[i][j];
    [ViewingDistance(Reverse(FromLeft(t, i, j)), h), ViewingDistance(FromRight(t, i, j), h),
     ViewingDistance(Reverse(FromAbove(t, i, j)), h), ViewingDistance(FromBelow(t, i, j), h)]
  }

  /** The scenic score: the product of the four viewing distances. */
  function ScenicScore(t: Forest, i: nat, j: nat): nat
    requires IsGrid(t) && InGrid(t, i, j)
  {
    Arith.Product(Distances(t, i, j))
  }

  /** A tree on the border sees nothing in one direction, so it scores 0; an
      inner tree sees at least its neighbour in every direction. */
  lemma ScoreZeroOnBorder(t: Forest, i: nat, j: nat)
    requires IsGrid(t) && InGrid(t, i, j)
    ensures ScenicScore(t, i, j) == 0 <==> (i == 0 || i == |t| - 1 || j == 0 || j == |t[0]| - 1)
  {
    var d := Distances(t, i, j);
    Arith.ProductZero(d);
    var h := t[i][j];
    ViewingDistanceStops(Reverse(FromLeft(t, i, j)), h);
    ViewingDistanceStops(FromRight(t, i, j), h);
    ViewingDistanceStops(Reverse(FromAbove(t, i, j)), h);
    ViewingDistanceStops(FromBelow(t, i, j), h);
    if !(i == 0 || i == |t| - 1 || j == 0 || j == |t[0]| - 1) {
      assert forall k :: 0 <= k < 4 ==> d[k] != 0;
    } else {
      assert d[0] == 0 || d[1] == 0 || d[2] == 0 || d[3] == 0;
    }
  }

  /** `get_visibility_from_tree`: starting from 1, each of the four counting
      loops multiplies the score by its count. */
  method GetVisibilityFromTree(t: Forest, i: nat, j: nat) returns (visibility: nat)
    requires IsGrid(t) && InGrid(t, i, j)
    ensures visibility == ScenicScore(t, i, j)
  {
    var h := t[i][j];
    var score: int := 1;
    var left := CountVisible(Reverse(FromLeft(t, i, j)), h);
    score := score * left;
    var right := CountVisible(FromRight(t, i, j), h);
    score := score * right;
    var up := CountVisible(Reverse(FromAbove(t, i, j)), h);
    score := score * up;
    var down := CountVisible(FromBelow(t, i, j), h);
    score := score * down;
    ProductOfFour(left, right, up, down);
    visibility := score;
  }

  lemma ProductOfFour(a: nat, b: nat, c: nat, d: nat)
    ensures Arith.Product([a, b, c, d]) == 1 * a * b * c * d
  {
    var s := [a, b, c, d];
    assert s[..3] == [a, b, c] && [a, b, c][..2] == [a, b] && [a, b][..1] == [a] && [a][..0] == [];
    assert Arith.Product([a]) == 1 * a;
    assert Arith.Product([a, b]) == 1 * a * b;
    assert Arith.Product([a, b, c]) == 1 * a * b * c;
  }

  /** The largest entry among the first `c` of row `i` of `g`, or 0. */
  function MaxInRow(g: seq<seq<nat>>, i: nat, c: nat): nat
    requires i < |g| && c <= |g[i]|
  {
    if c == 0 then 0
    else
      var x := g[i][c - 1];
      var best := MaxInRow(g, i, c - 1);
      if x > best then x else best
  }

  /** The largest entry in the first `n` rows of `g`, each `width` long, or 0. */
  function MaxInRows(g: seq<seq<nat>>, n: nat, width: nat): nat
    requires n <= |g| && forall r :: 0 <= r < |g| ==> |g[r]| == width
  {
    if n == 0 then 0
    else
      var row := MaxInRow(g, n - 1, width);
      var best := MaxInRows(g, n - 1, width);
      if row > best then row else best
  }

  lemma {:induction false} MaxInRowIsMaximum(g: seq<seq<nat>>, i: nat, c: nat)
    requires i < |g| && c <= |g[i]|
    ensures forall k :: 0 <= k < c ==> g[i][k] <= MaxInRow(g, i, c)
    ensures MaxInRow(g, i, c) == 0 || exists k :: 0 <= k < c && g[i][k] == MaxInRow(g, i, c)
  {
    if c > 0 {
      MaxInRowIsMaximum(g, i, c - 1);
    }
  }

  lemma {:induction false} MaxInRowsIsMaximum(g: seq<seq<nat>>, n: nat, width: nat)
    requires n <= |g| && forall r :: 0 <= r < |g| ==> |g[r]| == width
    ensures forall r, k :: 0 <= r < n && 0 <= k < width ==> g[r][k] <= MaxInRows(g, n, width)
    ensures MaxInRows(g, n, width) == 0 ||
      exists r, k :: 0 <= r < n && 0 <= k < width && g[r][k] == MaxInRows(g, n, width)
  {
    if n > 0 {
      MaxInRowsIsMaximum(g, n - 1, width);
      MaxInRowIsMaximum(g, n - 1, width);
    }
  }

  /** The scenic score of every tree, laid out like the forest. */
  function ScoreGrid(t: Forest): (g: seq<seq<nat>>)
    requires IsGrid(t)
    ensures |g| == |t| && forall r :: 0 <= r < |g| ==> |g[r]| == |t[0]|
  {
    seq(|t|, i requires 0 <= i < |t| => seq(|t[0]|, j requires 0 <= j < |t[0]| => ScenicScore(t, i, j)))
  }

  lemma ScoreGridCell(t: Forest, i: nat, j: nat)
    requires IsGrid(t) && i < |t| && j < |t[0]|
    ensures ScoreGrid(t)[i][j] == ScenicScore(t, i, j)
  {
  }

  /** The best scenic score of the forest. */
  function BestScore(t: Forest): nat
    requires IsGrid(t)
  {
    MaxInRows(ScoreGrid(t), |t|, |t[0]|)
  }

  /** The best scenic score is the largest score of any tree: no tree scores
      more, and some tree (a border one if need be) scores it. */
  lemma BestScoreIsMaximum(t: Forest)
    requires IsGrid(t)
    ensures forall i, j :: 0 <= i < |t| && 0 <= j < |t[0]| ==> ScenicScore(t, i, j) <= BestScore(t)
    ensures exists i, j :: 0 <= i < |t| && 0 <= j < |t[0]| && ScenicScore(t, i, j) == BestScore(t)
  {
    var g := ScoreGrid(t);
    MaxInRowsIsMaximum(g, |t|, |t[0]|);
    ScoreZeroOnBorder(t, 0, 0);
    assert g[0][0] == ScenicScore(t, 0, 0);
    forall i, j | 0 <= i < |t| && 0 <= j < |t[0]| ensures ScenicScore(t, i, j) <= BestScore(t) {
      assert g[i][j] == ScenicScore(t, i, j);
    }
    if BestScore(t) != 0 {
      var i, j :| 0 <= i < |t| && 0 <= j < |t[0]| && g[i][j] == BestScore(t);
      assert ScenicScore(t, i, j) == BestScore(t);
    }
  }

  /** `get_best_position_to_place_the_camp`: the nested loops keep the highest
      scenic score seen so far, starting from 0. */
  method GetBestPosition(t: Forest) returns (best: nat)
    requires IsGrid(t)
    ensures best == BestScore(t)
  {
    ghost var g := ScoreGrid(t);
    best := 0;
    for i := 0 to |t|
      invariant best == MaxInRows(g, i, |t[0]|)
    {
      best := ScanRow(t, i, best);
      assert MaxInRows(g, i + 1, |t[0]|) == if MaxInRow(g, i, |t[0]|) > MaxInRows(g, i, |t[0]|) then MaxInRow(g, i, |t[0]|) else MaxInRows(g, i, |t[0]|);
    }
  }

  /** The inner loop of `get_best_position_to_place_the_camp`: row `i` scanned
      from left to right, raising `best` to any higher score. */
  method ScanRow(t: Forest, i: nat, before: nat) returns (best: nat)
    requires IsGrid(t) && i < |t|
    ensures var row := MaxInRow(ScoreGrid(t), i, |t[0]|); best == if row > before then row else before
  {
    ghost var g := ScoreGrid(t);
    best := before;
    for j := 0 to |t[0]|
      invariant best == if MaxInRow(g, i, j) > before then MaxInRow(g, i, j) else before
    {
      var visibility := GetVisibilityFromTree(t, i, j);
      ScoreGridCell(t, i, j);
      if visibility > best {
        best := visibility;
      }
    }
  }
}

/** Folds over integer sequences shared by the puzzle models: sums, products,
    maxima and counts, with the facts about them the models rely on. */
module Arith {

  function Sum(s: seq<int>): int
  {
    if s == [] then 0 else Sum(s[..|s| - 1]) + s[|s| - 1]
  }

  /** A sum of naturals is a natural. */
  lemma {:induction false} SumNonNegative(s: seq<int>)
    requires forall i :: 0 <= i < |s| ==> s[i] >= 0
    ensures Sum(s) >= 0
  {
    if s != [] {
      SumNonNegative(s[..|s| - 1]);
    }
  }

  /** The sum of a concatenation is the sum of the sums. */
  lemma {:induction false} SumConcat(a: seq<int>, b: seq<int>)
    ensures Sum(a + b) == Sum(a) + Sum(b)
    decreases |b|
  {
    if b == [] {
      assert a + b == a;
    } else {
      assert (a + b)[..|a + b| - 1] == a + b[..|b| - 1];
      SumConcat(a, b[..|b| - 1]);
    }
  }

  /** The sum is the first element plus the sum of the rest. */
  lemma SumFront(s: seq<int>)
    requires s != []
    ensures Sum(s) == s[0] + Sum(s[1..])
  {
    SumConcat([s[0]], s[1..]);
    assert [s[0]] + s[1..] == s;
  }

  function Product(s: seq<nat>): nat
  {
    if s == [] then 1 else Product(s[..|s| - 1]) * s[|s| - 1]
  }

  /** The product is zero exactly when some factor is. */
  lemma {:induction false} ProductZero(s: seq<nat>)
    ensures Product(s) == 0 <==> exists k :: 0 <= k < |s| && s[k] == 0
  {
    if s != [] {
      var init := s[..|s| - 1];
      ProductZero(init);
      assert forall k :: 0 <= k < |init| ==> init[k] == s[k];
      MulZero(Product(init), s[|s| - 1]);
    }
  }

  lemma MulZero(a: nat, b: nat)
    ensures a * b == 0 <==> a == 0 || b == 0
  {
    if a > 0 && b > 0 {
      MulAtLeast(a, b);
    }
  }

  /** Every element divides the product: it is `k * s[i]` for the returned `k`. */
  lemma {:induction false} ProductFactor(s: seq<nat>, i: nat) returns (k: nat)
    requires i < |s|
    ensures Product(s) == k * s[i]
  {
    var init := s[..|s| - 1];
    if i == |s| - 1 {
      k := Product(init);
    } else {
      var j := ProductFactor(init, i);
      k := j * s[|s| - 1];
      calc {
        Product(s);
        Product(init) * s[|s| - 1];
        (j * s[i]) * s[|s| - 1];
        { MulRotate(j, s[i], s[|s| - 1]); }
        k * s[i];
      }
    }
  }

  lemma MulRotate(a: nat, b: nat, c: nat)
    ensures (a * b) * c == (a * c) * b
  {
  }

  /** A product of positive numbers is positive. */
  lemma {:induction false} ProductPositive(s: seq<nat>)
    requires forall i :: 0 <= i < |s| ==> s[i] > 0
    ensures Product(s) > 0
  {
    if s != [] {
      ProductPositive(s[..|s| - 1]);
    }
  }

  /** Reducing modulo a multiple of `d` does not change the remainder by `d`. */
  lemma ModOfMultiple(w: nat, d: nat, k: nat)
    requires d > 0 && k > 0
    ensures (w % (k * d)) % d == w % d
  {
    var m := k * d;
    var q, r := w / m, w % m;
    var a, b := r / d, r % d;
    assert w == q * m + r;
    assert r == a * d + b;
    assert q * m == (q * k) * d;
    assert w == (q * k + a) * d + b;
    ModUnique(w, q * k + a, b, d);
  }

  /** How the quotient and remainder of `n - 1` follow from those of `n`. */
  lemma DivPrevious(n: int, d: int)
    requires d > 0 && n > 0
    ensures n % d == 0 ==> (n - 1) / d == n / d - 1
    ensures n % d != 0 ==> (n - 1) / d == n / d
  {
    var q, r := n / d, n % d;
    assert n == q * d + r;
    if r == 0 {
      MulPredecessor(q, d);
      ModUnique(n - 1, q - 1, d - 1, d);
    } else {
      ModUnique(n - 1, q, r - 1, d);
    }
  }

  lemma MulPredecessor(q: int, d: int)
    ensures (q - 1) * d == q * d - d
  {
  }

  /** Euclidean division is unique. */
  lemma ModUnique(n: int, q: int, r: int, d: int)
    requires d > 0 && 0 <= r < d && n == q * d + r
    ensures n % d == r && n / d == q
  {
    var q', r' := n / d, n % d;
    assert n == q' * d + r';
    assert (q - q') * d == r' - r;
    if q > q' {
      MulAtLeast(q - q', d);
    } else if q < q' {
      MulAtLeast(q' - q, d);
    }
  }

  lemma MulAtLeast(a: int, d: int)
    requires a >= 1 && d > 0
    ensures a * d >= d
  {
  }

  function Max(s: seq<int>): (m: int)
    requires s != []
    ensures forall i :: 0 <= i < |s| ==> s[i] <= m
    ensures m in s
  {
    if |s| == 1 then s[0]
    else
      var rest := Max(s[1..]);
      assert forall i :: 1 <= i < |s| ==> s[i] == s[1..][i - 1];
      if s[0] >= rest then s[0] else rest
  }

  /** Number of positions of `s` that hold `x`. */
  function Count(s: seq<int>, x: int): nat
  {
    if s == [] then 0 else Count(s[..|s| - 1], x) + (if s[|s| - 1] == x then 1 else 0)
  }

  function Abs(x: int): nat { if x < 0 then -x else x }
}

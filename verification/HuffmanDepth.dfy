// How deep Huffman's procedure puts a symbol, from the weights alone: which totals can make
// a code too long for jpeg_gen_optimal_table (jchuff.c).

module HuffmanDepth {
  import opened HuffmanBound

  // The number of merges that take part of the tree of s.
  function Depth(w: Weights, s: nat): nat
    requires s < |w|
    decreases Used(w)
  {
    var a := Least(w, -1, |w|);
    var b := Least(w, a, |w|);
    if a < 0 || b < 0 then 0
    else
      MergeUses(w, a, b);
      (if s == a || s == b then 1 else 0) + Depth(Merge(w, a, b), if s == b then a else s)
  }

  function Fib(n: nat): nat {
    if n < 2 then n else Fib(n - 1) + Fib(n - 2)
  }

  lemma {:induction false} FibGrows(n: nat)
    ensures Fib(n) <= Fib(n + 1) && (n > 0 ==> Fib(n) > 0)
  {
    if n > 0 {
      FibGrows(n - 1);
    }
  }

  lemma {:induction false} FibMonotone(m: nat, n: nat)
    requires m <= n
    ensures Fib(m) <= Fib(n)
    decreases n
  {
    if m < n {
      FibMonotone(m, n - 1);
      FibGrows(n - 1);
    }
  }

  // ---- deep codes need large totals ----

  // A tree in which the symbol is at depth d, and the trees beside it, weigh at least
  // as much as Fibonacci numbers.
  predicate Heavy(w: Weights, s: nat, d: nat) {
    && s < |w| && w[s] >= Fib(d + 2)
    && forall r :: 0 <= r < |w| && r != s && w[r] > 0 ==> w[r] >= Fib(d + 1)
  }

  lemma MergeHeavy(w: Weights, s: nat, d: nat, a: nat, b: nat)
    requires Heavy(w, s, d) && a == Least(w, -1, |w|) && b == Least(w, a, |w|)
    ensures Heavy(Merge(w, a, b), if s == b then a else s, if s == a || s == b then d + 1 else d)
  {
    FibGrows(d + 1);
    FibGrows(d + 2);
  }

  lemma DepthStep(w: Weights, s: nat, a: nat, b: nat)
    requires s < |w| && a == Least(w, -1, |w|) && b == Least(w, a, |w|)
    ensures Used(Merge(w, a, b)) < Used(w) && Total(Merge(w, a, b)) == Total(w)
    ensures Depth(w, s) == Depth(Merge(w, a, b), if s == b then a else s) + if s == a || s == b then 1 else 0
  {
    MergeUses(w, a, b);
    MergeKeepsTotal(w, a, b);
  }

  lemma {:induction false} HeavyTotal(w: Weights, s: nat, d: nat, n: nat)
    requires Heavy(w, s, d) && n == d + Depth(w, s)
    ensures Total(w) >= Fib(n + 2)
    decreases Used(w)
  {
    var a := Least(w, -1, |w|);
    var b := Least(w, a, |w|);
    if a < 0 || b < 0 {
      TotalAtLeast(w, s);
    } else {
      DepthStep(w, s, a, b);
      MergeHeavy(w, s, d, a, b);
      HeavyTotal(Merge(w, a, b), if s == b then a else s, if s == a || s == b then d + 1 else d, n);
    }
  }

  // A symbol at depth d: the total is at least the Fibonacci number d + 2.
  lemma DeepTotal(w: Weights, s: nat)
    requires s < |w| && w[s] > 0
    ensures Total(w) >= Fib(Depth(w, s) + 2)
  {
    assert Heavy(w, s, 0);
    HeavyTotal(w, s, 0, Depth(w, s));
  }

  // The first total that can make a code longer than 32 bits.
  const LONG_TOTAL := 9_227_465

  lemma LongTotal()
    ensures Fib(35) == LONG_TOTAL
  {
    assert Fib(10) == 55 && Fib(11) == 89;
    assert Fib(20) == 6765 && Fib(21) == 10946;
    assert Fib(30) == 832040 && Fib(31) == 1346269;
  }

  lemma DeepFib(d: nat)
    requires d > 32
    ensures Fib(d + 2) >= LONG_TOTAL
  {
    FibMonotone(35, d + 2);
    LongTotal();
  }

  lemma ShortBelow(w: Weights, s: nat)
    requires s < |w| && w[s] > 0 && Total(w) < LONG_TOTAL
    ensures Depth(w, s) <= 32
  {
    DeepTotal(w, s);
    if Depth(w, s) > 32 {
      DeepFib(Depth(w, s));
    }
  }

  // ---- and this total does ----

  // Symbol i < top has the Fibonacci number top - i as its weight, symbol s has 1.
  predicate FibRow(w: Weights, top: nat, s: nat) {
    && top < s < |w| == s + 1 && w[s] == 1
    && (forall i :: 0 <= i < top ==> w[i] == Fib(top - i)) && forall i :: top <= i < s ==> w[i] == 0
  }

  function FibWeights(top: nat, s: nat): (w: Weights)
    requires top < s
    ensures FibRow(w, top, s)
  {
    seq(s + 1, (i: nat) => if i < top then Fib(top - i) else if i == s then 1 else 0)
  }

  // After k - 1 merges the last symbol's tree weighs as much as the Fibonacci number
  // k + 1; of the others the first 34 - k are left.
  predicate FibStage(w: Weights, k: nat, s: nat) {
    && |w| == 257 && 1 <= k <= 34 && 34 - k <= s < 257 && (k > 2 ==> s < 35) && w[s] == Fib(k + 1)
    && (forall i :: 0 <= i < 34 - k ==> w[i] == Fib(33 - i))
    && forall i :: 34 - k <= i < 257 && i != s ==> w[i] == 0
  }

  // The next two to merge: the lightest of the others, and the tree of the last symbol.
  lemma FibLeast(w: Weights, k: nat, s: nat) returns (a: nat, b: nat)
    requires FibStage(w, k, s) && k <= 33 && (k == 1 ==> s == 256)
    ensures a == Least(w, -1, |w|) && b == Least(w, a, |w|)
    ensures if k == 1 then a == s && b == 33 - k else a == 33 - k && b == s
  {
    var p := 33 - k;
    FibGrows(k);
    FibGrows(k - 1);
    forall i | 0 <= i < p
      ensures w[i] >= Fib(k + 1)
    {
      FibMonotone(k + 1, 33 - i);
    }
    assert w[p] == Fib(k) > 0 && w[s] > 0;
    a, b := if k == 1 then s else p, if k == 1 then p else s;
    assert Least(w, -1, |w|) == a;
    assert Least(w, a, |w|) == b;
  }

  lemma FibNext(w: Weights, k: nat, s: nat) returns (a: nat, b: nat)
    requires FibStage(w, k, s) && k <= 33 && (k == 1 ==> s == 256)
    ensures a == Least(w, -1, |w|) && b == Least(w, a, |w|) && (s == a || s == b)
    ensures FibStage(Merge(w, a, b), k + 1, if s == b then a else s)
  {
    a, b := FibLeast(w, k, s);
    assert Fib(k + 2) == Fib(k + 1) + Fib(k);
  }

  lemma {:induction false} FibDepth(w: Weights, k: nat, s: nat)
    requires FibStage(w, k, s) && (k == 1 ==> s == 256)
    ensures Depth(w, s) == 34 - k
    decreases 34 - k
  {
    if k <= 33 {
      var a, b := FibNext(w, k, s);
      DepthStep(w, s, a, b);
      FibDepth(Merge(w, a, b), k + 1, if s == b then a else s);
    }
  }

  lemma {:induction false} FibSum(w: Weights, top: nat, n: nat)
    requires n <= top <= |w| && forall i :: 0 <= i < top ==> w[i] == Fib(top - i)
    ensures TotalTo(w, n) + Fib(top + 2 - n) == Fib(top + 2)
  {
    if n > 0 {
      FibSum(w, top, n - 1);
      var m: nat := top - n;
      assert Fib(m + 3) == Fib(m + 2) + Fib(m + 1);
    }
  }

  lemma {:induction false} ZerosSum(w: Weights, m: nat, n: nat)
    requires m <= n <= |w| && forall i :: m <= i < n ==> w[i] == 0
    ensures TotalTo(w, n) == TotalTo(w, m)
  {
    if m < n {
      ZerosSum(w, m, n - 1);
    }
  }

  lemma FibTotal(w: Weights, top: nat, s: nat)
    requires FibRow(w, top, s)
    ensures Total(w) == Fib(top + 2)
  {
    FibSum(w, top, top);
    ZerosSum(w, top, s);
    assert Total(w) == TotalTo(w, s) + w[s];
  }

  // The bound cannot be raised: a total of just LONG_TOTAL puts the last symbol too deep.
  lemma FibTooDeep(w: Weights, top: nat, s: nat)
    requires FibRow(w, top, s) && top == 33 && s == 256
    ensures Total(w) == LONG_TOTAL && Depth(w, s) == 33
  {
    FibTotal(w, top, s);
    LongTotal();
    assert FibStage(w, 1, s);
    FibDepth(w, 1, s);
  }

  lemma MergeKeepsTotal(w: Weights, a: nat, b: nat)
    requires a < |w| && b < |w| && a != b
    ensures Total(Merge(w, a, b)) == Total(w)
  {
    TotalUpdate(w, a, w[a] + w[b]);
    TotalUpdate(w[a := w[a] + w[b]], b, 0);
  }
}

// Why Huffman's merging is optimal: no lengths that satisfy Kraft's inequality cost
// less than the sum of the merged weights.

module HuffmanBound {
  import opened Prelude

  // The sum of the first n numbers, and of all.
  function TotalTo(s: seq<int>, n: nat): int
    requires n <= |s|
  {
    if n == 0 then 0 else TotalTo(s, n - 1) + s[n - 1]
  }

  function Total(s: seq<int>): int {
    TotalTo(s, |s|)
  }

  lemma {:induction false} TotalUpTo(s: seq<int>, i: nat, x: int, n: nat)
    requires i < |s| && n <= |s|
    ensures TotalTo(s[i := x], n) == TotalTo(s, n) + if i < n then x - s[i] else 0
  {
    if n > 0 {
      TotalUpTo(s, i, x, n - 1);
    }
  }

  lemma TotalUpdate(s: seq<int>, i: nat, x: int)
    requires i < |s|
    ensures Total(s[i := x]) == Total(s) - s[i] + x
  {
    TotalUpTo(s, i, x, |s|);
  }

  lemma {:induction false} TotalToAtLeast(s: seq<int>, i: nat, n: nat)
    requires n <= |s| && forall j :: 0 <= j < |s| ==> s[j] >= 0
    ensures TotalTo(s, n) >= 0 && (i < n ==> TotalTo(s, n) >= s[i])
  {
    if n > 0 {
      TotalToAtLeast(s, i, n - 1);
    }
  }

  lemma TotalAtLeast(s: seq<int>, i: nat)
    requires i < |s| && forall j :: 0 <= j < |s| ==> s[j] >= 0
    ensures Total(s) >= s[i]
  {
    TotalToAtLeast(s, i, |s|);
  }

  // ---- lengths, their cost and Kraft's inequality ----

  // Symbols with weight 0 do not take part.
  type Weights = seq<nat>

  // 2^-l in units of 2^-n.
  function Share(l: nat, n: nat): nat {
    if l > n then 0 else ShlNonNegative(1, n - l); Shl(1, n - l)
  }

  function Shares(w: Weights, lens: seq<nat>, n: nat): seq<int>
    requires |w| == |lens|
  {
    seq(|w|, (i: nat) requires i < |w| => if w[i] == 0 then 0 else Share(lens[i], n))
  }

  ghost predicate Kraft(w: Weights, lens: seq<nat>, n: nat)
    requires |w| == |lens|
  {
    && (forall i :: 0 <= i < |w| && w[i] > 0 ==> lens[i] <= n)
    && Total(Shares(w, lens, n)) <= Shl(1, n)
  }

  function Costs(w: Weights, lens: seq<nat>): seq<int>
    requires |w| == |lens|
  {
    seq(|w|, (i: nat) requires i < |w| => w[i] * lens[i])
  }

  // The size of the coded data.
  function Cost(w: Weights, lens: seq<nat>): int
    requires |w| == |lens|
  {
    Total(Costs(w, lens))
  }

  lemma SharesUpdate(w: Weights, lens: seq<nat>, n: nat, i: nat, l: nat)
    requires |w| == |lens| && i < |w| && w[i] > 0
    ensures Total(Shares(w, lens[i := l], n)) == Total(Shares(w, lens, n)) - Share(lens[i], n) + Share(l, n)
  {
    TotalUpdate(Shares(w, lens, n), i, Share(l, n));
    assert Shares(w, lens[i := l], n) == Shares(w, lens, n)[i := Share(l, n)];
  }

  lemma CostUpdate(w: Weights, lens: seq<nat>, i: nat, l: nat)
    requires |w| == |lens| && i < |w|
    ensures Cost(w, lens[i := l]) == Cost(w, lens) - w[i] * lens[i] + w[i] * l
  {
    TotalUpdate(Costs(w, lens), i, w[i] * l);
    assert Costs(w, lens[i := l]) == Costs(w, lens)[i := w[i] * l];
  }

  // ---- the exchange argument ----

  // A lighter symbol may take over a longer code.
  lemma Swap(w: Weights, lens: seq<nat>, n: nat, a: nat, x: nat) returns (lens': seq<nat>)
    requires |w| == |lens| && a < |w| && x < |w| && 0 < w[a] <= w[x] && lens[a] <= lens[x] && Kraft(w, lens, n)
    ensures lens' == lens[a := lens[x]][x := lens[a]] && Kraft(w, lens', n) && Cost(w, lens') <= Cost(w, lens)
  {
    var mid := lens[a := lens[x]];
    lens' := mid[x := lens[a]];
    SharesUpdate(w, lens, n, a, lens[x]);
    SharesUpdate(w, mid, n, x, lens[a]);
    CostUpdate(w, lens, a, lens[x]);
    CostUpdate(w, mid, x, lens[a]);
    if a != x {
      SwapProducts(w[a], w[x], lens[a], lens[x]);
    }
  }

  lemma SwapProducts(p: nat, q: nat, l: nat, m: nat)
    requires p <= q && l <= m
    ensures p * m + q * l <= p * l + q * m
  {
    assert (q - p) * (m - l) >= 0;
  }

  // A used symbol with the longest code, apart from symbol a.
  lemma Deepest(w: Weights, lens: seq<nat>, a: int, b: nat) returns (x: nat)
    requires |w| == |lens| && b < |w| && b != a && w[b] > 0
    ensures x < |w| && w[x] > 0 && x != a
    ensures forall i :: 0 <= i < |w| && w[i] > 0 && i != a ==> lens[i] <= lens[x]
  {
    x := b;
    var i := 0;
    while i < |w|
      invariant i <= |w| && x < |w| && w[x] > 0 && x != a
      invariant forall j :: 0 <= j < i && w[j] > 0 && j != a ==> lens[j] <= lens[x]
    {
      if w[i] > 0 && i != a && lens[i] > lens[x] {
        x := i;
      }
      i := i + 1;
    }
  }

  // Coarser units for codes that are not longer than d.
  lemma {:induction false} Coarser(s: seq<int>, t: seq<int>, m: nat, n: nat)
    requires |s| == |t| && n <= |s| && forall i :: 0 <= i < |s| ==> s[i] == Shl(t[i], m)
    ensures TotalTo(s, n) == Shl(TotalTo(t, n), m)
  {
    if n == 0 {
      ShlAdd(0, 0, m);
    } else {
      Coarser(s, t, m, n - 1);
      ShlAdd(TotalTo(t, n - 1), t[n - 1], m);
    }
  }

  lemma {:induction false} ShareCoarser(l: nat, d: nat, n: nat)
    requires l <= d <= n
    ensures Share(l, n) == Shl(Share(l, d), n - d)
  {
    ShlShl(1, d - l, n - d);
  }

  // When a alone has the longest code, it may as well be as long as the next one.
  lemma Shorten(w: Weights, lens: seq<nat>, n: nat, a: nat, b: nat) returns (lens': seq<nat>)
    requires |w| == |lens| && a < |w| && b < |w| && a != b && w[a] > 0 && w[b] > 0 && Kraft(w, lens, n)
    requires lens[b] <= lens[a] && forall i :: 0 <= i < |w| && w[i] > 0 && i != a ==> lens[i] <= lens[b]
    ensures lens' == lens[a := lens[b]] && Kraft(w, lens', lens[b]) && Cost(w, lens') <= Cost(w, lens)
  {
    var d := lens[b];
    lens' := lens[a := d];
    CostUpdate(w, lens, a, d);
    assert w[a] * d <= w[a] * lens[a];
    // The shares of the others, in both units.
    var fine, coarse := Shares(w, lens, n)[a := 0], Shares(w, lens', d)[a := 0];
    forall i | 0 <= i < |w|
      ensures fine[i] == Shl(coarse[i], n - d)
    {
      ShlAdd(0, 0, n - d);
      if i != a && w[i] > 0 {
        ShareCoarser(lens[i], d, n);
      }
    }
    Coarser(fine, coarse, n - d, |w|);
    TotalUpdate(Shares(w, lens, n), a, 0);
    TotalUpdate(Shares(w, lens', d), a, 0);
    ShlNonNegative(1, n - lens[a]);
    ShlShl(1, d, n - d);
    ShlMonotone(Shl(1, d), Total(coarse), n - d);
  }

  // Two codes of the same longest length make room for one that is shorter.
  lemma Join(w: Weights, lens: seq<nat>, a: nat, b: nat, d: nat) returns (lens': seq<nat>)
    requires |w| == |lens| && a < |w| && b < |w| && a != b && w[a] > 0 && w[b] > 0 && lens[a] == lens[b] == d
    requires Kraft(w, lens, d)
    ensures |lens'| == |w|
    ensures Kraft(Merge(w, a, b), lens', d) && Cost(Merge(w, a, b), lens') + w[a] + w[b] == Cost(w, lens)
  {
    var shares := Shares(w, lens, d);
    TotalUpdate(shares, a, 0);
    TotalAtLeast(shares[a := 0], b);
    assert d > 0;
    lens' := lens[a := d - 1];
    var w' := Merge(w, a, b);
    TotalUpdate(shares, a, 2);
    TotalUpdate(shares[a := 2], b, 0);
    assert Share(d - 1, d) == 2;
    assert Shares(w', lens', d) == shares[a := 2][b := 0];
    var costs := Costs(w, lens);
    TotalUpdate(costs, a, (w[a] + w[b]) * (d - 1));
    TotalUpdate(costs[a := (w[a] + w[b]) * (d - 1)], b, 0);
    assert Costs(w', lens') == costs[a := (w[a] + w[b]) * (d - 1)][b := 0];
    assert (w[a] + w[b]) * (d - 1) + w[a] + w[b] == w[a] * d + w[b] * d;
  }

  function Merge(w: Weights, a: nat, b: nat): Weights
    requires a < |w| && b < |w|
  {
    w[a := w[a] + w[b]][b := 0]
  }

  // a and b are the two lightest symbols.
  predicate Lightest(w: Weights, a: nat, b: nat) {
    && a < |w| && b < |w| && a != b && w[a] > 0 && w[b] > 0
    && (forall i :: 0 <= i < |w| && w[i] > 0 ==> w[a] <= w[i])
    && (forall i :: 0 <= i < |w| && w[i] > 0 && i != a ==> w[b] <= w[i])
  }

  // Any code for w yields one for the merged weights that saves w[a] + w[b].
  lemma MergeStep(w: Weights, lens: seq<nat>, n: nat, a: nat, b: nat) returns (lens': seq<nat>, n': nat)
    requires |w| == |lens| && Lightest(w, a, b) && Kraft(w, lens, n)
    ensures |lens'| == |w| && Kraft(Merge(w, a, b), lens', n')
    ensures Cost(Merge(w, a, b), lens') + w[a] + w[b] <= Cost(w, lens)
  {
    var x := Deepest(w, lens, -1, a);
    var l1 := Swap(w, lens, n, a, x);
    var y := Deepest(w, l1, a, b);
    var l2 := Swap(w, l1, n, b, y);
    var l3 := Shorten(w, l2, n, a, b);
    n' := l3[b];
    lens' := Join(w, l3, a, b, n');
  }

  // ---- Huffman's procedure on the weights alone ----

  // The lightest symbol other than excl among the first k, the last of several; -1 if
  // there is none.
  function Least(w: Weights, excl: int, k: nat): (c: int)
    requires k <= |w|
    ensures -1 <= c < k && (c >= 0 ==> w[c] > 0 && c != excl)
    ensures forall i :: 0 <= i < k && w[i] > 0 && i != excl ==> c >= 0 && w[c] <= w[i] && (w[i] == w[c] ==> i <= c)
  {
    if k == 0 then -1
    else
      var c := Least(w, excl, k - 1);
      if w[k - 1] > 0 && k - 1 != excl && (c < 0 || w[k - 1] <= w[c]) then k - 1 else c
  }

  // How many of the first n symbols take part, and how many of all.
  function UsedTo(w: Weights, n: nat): nat
    requires n <= |w|
  {
    if n == 0 then 0 else UsedTo(w, n - 1) + if w[n - 1] > 0 then 1 else 0
  }

  function Used(w: Weights): nat {
    UsedTo(w, |w|)
  }

  lemma {:induction false} UsedUpTo(w: Weights, i: nat, x: nat, n: nat)
    requires i < |w| && n <= |w|
    ensures UsedTo(w[i := x], n) ==
              UsedTo(w, n) + if i < n then (if x > 0 then 1 else 0) - (if w[i] > 0 then 1 else 0) else 0
  {
    if n > 0 {
      UsedUpTo(w, i, x, n - 1);
    }
  }

  lemma UsedUpdate(w: Weights, i: nat, x: nat)
    requires i < |w|
    ensures Used(w[i := x]) == Used(w) - (if w[i] > 0 then 1 else 0) + (if x > 0 then 1 else 0)
  {
    UsedUpTo(w, i, x, |w|);
  }

  lemma MergeUses(w: Weights, a: nat, b: nat)
    requires a < |w| && b < |w| && a != b && w[a] > 0 && w[b] > 0
    ensures Used(Merge(w, a, b)) == Used(w) - 1
  {
    UsedUpdate(w, a, w[a] + w[b]);
    UsedUpdate(w[a := w[a] + w[b]], b, 0);
  }

  // The sum of the weights of all merged pairs.
  function MergedCost(w: Weights): nat
    decreases Used(w)
  {
    var a := Least(w, -1, |w|);
    var b := Least(w, a, |w|);
    if a < 0 || b < 0 then 0
    else
      MergeUses(w, a, b);
      w[a] + w[b] + MergedCost(Merge(w, a, b))
  }

  // The bound: whatever the lengths, if they satisfy Kraft's inequality.
  lemma {:induction false} NoneCheaper(w: Weights, lens: seq<nat>, n: nat)
    requires |w| == |lens| && Kraft(w, lens, n)
    ensures MergedCost(w) <= Cost(w, lens)
    decreases Used(w)
  {
    var a := Least(w, -1, |w|);
    var b := Least(w, a, |w|);
    if a >= 0 && b >= 0 {
      MergeUses(w, a, b);
      var lens', n' := MergeStep(w, lens, n, a, b);
      NoneCheaper(Merge(w, a, b), lens', n');
    } else if w != [] {
      TotalAtLeast(Costs(w, lens), 0);
    }
  }
}

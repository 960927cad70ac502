// The first half of jpeg_gen_optimal_table: Huffman's procedure on linked chains of
// symbols (jchuff.c).

module HuffmanTree {
  import opened Prelude
  import opened HuffmanBound
  import opened HuffmanDepth

  // ---- chains ----

  type Chain = seq<nat>

  predicate ChainOk(chain: Chain, n: nat) {
    && (forall k :: 0 <= k < |chain| ==> chain[k] < n)
    && (forall i, j :: 0 <= i < j < |chain| ==> chain[i] != chain[j])
  }

  // The links lead along the chain and end there.
  predicate Linked(others: seq<int>, chain: Chain)
    requires ChainOk(chain, |others|)
  {
    forall k :: 0 <= k < |chain| ==> LinkAt(others, chain, k)
  }

  predicate LinkAt(others: seq<int>, chain: Chain, k: nat)
    requires ChainOk(chain, |others|) && k < |chain|
  {
    others[chain[k]] == if k + 1 < |chain| then chain[k + 1] else -1
  }

  function Bump(cs: seq<nat>, chain: Chain): seq<nat> {
    seq(|cs|, (i: nat) requires i < |cs| => if i in chain then cs[i] + 1 else cs[i])
  }

  // Increment the codesize of everything in the tree branch of c; its last symbol.
  method IncrementBranch(codesize: array<nat>, others: array<int>, c: nat, ghost chain: Chain) returns (last: nat)
    requires codesize.Length == others.Length && ChainOk(chain, codesize.Length) && Linked(others[..], chain)
    requires chain != [] && chain[0] == c
    modifies codesize
    ensures codesize[..] == Bump(old(codesize[..]), chain) && last == chain[|chain| - 1]
  {
    ghost var cs, links, k := codesize[..], others[..], 0;
    assert LinkAt(links, chain, 0);
    codesize[c] := codesize[c] + 1;
    last := c;
    while others[last] >= 0
      invariant k < |chain| && last == chain[k] && others[..] == links
      invariant LinkAt(links, chain, k)
      invariant codesize[..] == Bump(cs, chain[..k + 1])
      decreases |chain| - k
    {
      k := k + 1;
      last := others[last];
      assert LinkAt(links, chain, k);
      assert chain[..k + 1] == chain[..k] + [chain[k]];
      codesize[last] := codesize[last] + 1;
    }
    assert chain[..k + 1] == chain;
  }

  // ---- sums over chains ----

  function Sum(f: seq<int>, chain: Chain): int
    requires forall k :: 0 <= k < |chain| ==> chain[k] < |f|
  {
    if chain == [] then 0 else Sum(f, chain[..|chain| - 1]) + f[chain[|chain| - 1]]
  }

  lemma {:induction false} SumConcat(f: seq<int>, c: Chain, d: Chain)
    requires forall k :: 0 <= k < |c + d| ==> (c + d)[k] < |f|
    ensures (forall k :: 0 <= k < |c| ==> c[k] < |f|) && (forall k :: 0 <= k < |d| ==> d[k] < |f|)
    ensures Sum(f, c + d) == Sum(f, c) + Sum(f, d)
    decreases d
  {
    forall k | 0 <= k < |c|
      ensures c[k] < |f|
    {
      assert (c + d)[k] == c[k];
    }
    forall k | 0 <= k < |d|
      ensures d[k] < |f|
    {
      assert (c + d)[|c| + k] == d[k];
    }
    if d == [] {
      assert c + d == c;
    } else {
      assert (c + d)[..|c + d| - 1] == c + d[..|d| - 1];
      SumConcat(f, c, d[..|d| - 1]);
    }
  }

  // A total splits into a chain and the rest.
  lemma {:induction false} TotalByChain(f: seq<int>, chain: Chain)
    requires ChainOk(chain, |f|) && forall i :: 0 <= i < |f| && i !in chain ==> f[i] == 0
    ensures Total(f) == Sum(f, chain)
    decreases chain
  {
    if chain == [] {
      TotalZero(f);
    } else {
      var c, x := chain[..|chain| - 1], chain[|chain| - 1];
      var g := f[x := 0];
      TotalByChain(g, c);
      SumSame(f, g, c);
      TotalUpdate(f, x, 0);
    }
  }

  lemma TotalZero(f: seq<int>)
    requires forall i :: 0 <= i < |f| ==> f[i] == 0
    ensures Total(f) == 0
  {
    TotalZeroTo(f, |f|);
  }

  lemma {:induction false} TotalZeroTo(f: seq<int>, n: nat)
    requires n <= |f| && forall i :: 0 <= i < |f| ==> f[i] == 0
    ensures TotalTo(f, n) == 0
  {
    if n > 0 {
      TotalZeroTo(f, n - 1);
    }
  }

  lemma {:induction false} SumSame(f: seq<int>, g: seq<int>, chain: Chain)
    requires |f| == |g| && forall k :: 0 <= k < |chain| ==> chain[k] < |f| && f[chain[k]] == g[chain[k]]
    ensures Sum(f, chain) == Sum(g, chain)
  {
    if chain != [] {
      SumSame(f, g, chain[..|chain| - 1]);
    }
  }

  // What incrementing a chain costs is the weight of the chain.
  lemma {:induction false} BumpCost(w: Weights, cs: seq<nat>, chain: Chain)
    requires |w| == |cs| && ChainOk(chain, |cs|)
    ensures Cost(w, Bump(cs, chain)) == Cost(w, cs) + Sum(w, chain)
    decreases chain
  {
    if chain == [] {
      assert Bump(cs, chain) == cs;
    } else {
      var c, x := chain[..|chain| - 1], chain[|chain| - 1];
      assert chain == c + [x];
      BumpCost(w, cs, c);
      CostUpdate(w, Bump(cs, c), x, cs[x] + 1);
      assert Bump(cs, chain) == Bump(cs, c)[x := cs[x] + 1];
      assert w[x] * (cs[x] + 1) == w[x] * cs[x] + w[x];
    }
  }

  // ---- the forest ----

  // freq (the weights of the roots), codesize, and the chain of every root.
  datatype Forest = Forest(w: Weights, cs: seq<nat>, chains: seq<Chain>)

  predicate Sized(w0: Weights, f: Forest) {
    |w0| == |f.w| == |f.cs| == |f.chains|
  }

  // The chain of r: empty unless r is a root, which carries the weight of its chain.
  predicate RootOk(w0: Weights, f: Forest, home: seq<nat>, r: nat)
    requires Sized(w0, f) && |home| == |w0| && r < |w0|
  {
    && ChainOk(f.chains[r], |w0|) && f.w[r] == Sum(w0, f.chains[r])
    && (if f.w[r] > 0 then f.chains[r] != [] && f.chains[r][0] == r else f.chains[r] == [])
    && (forall x :: x in f.chains[r] ==> w0[x] > 0 && home[x] == r)
  }

  predicate SymbolOk(w0: Weights, f: Forest, home: seq<nat>, x: nat)
    requires Sized(w0, f) && |home| == |w0| && x < |w0|
  {
    w0[x] > 0 ==> home[x] < |w0| && x in f.chains[home[x]]
  }

  // The chains partition the symbols in use.
  predicate Shape(w0: Weights, f: Forest, home: seq<nat>)
    requires Sized(w0, f)
  {
    && |home| == |w0|
    && (forall r :: 0 <= r < |w0| ==> RootOk(w0, f, home, r))
    && (forall x :: 0 <= x < |w0| ==> SymbolOk(w0, f, home, x))
  }

  // Within each chain the code lengths meet Kraft's inequality with equality.
  function ShareAt(cs: seq<nat>, m: nat): seq<int> {
    seq(|cs|, (i: nat) requires i < |cs| => Share(cs[i], m))
  }

  predicate Within(cs: seq<nat>, chain: Chain, m: nat)
    requires ChainOk(chain, |cs|)
  {
    forall k :: 0 <= k < |chain| ==> cs[chain[k]] <= m
  }

  predicate Whole(cs: seq<nat>, chain: Chain, m: nat)
    requires ChainOk(chain, |cs|)
  {
    Within(cs, chain, m) ==> Sum(ShareAt(cs, m), chain) == Shl(1, m)
  }

  ghost predicate Complete(w0: Weights, f: Forest, home: seq<nat>)
    requires Sized(w0, f) && Shape(w0, f, home)
  {
    forall r, m: nat :: 0 <= r < |w0| && RootOk(w0, f, home, r) && f.w[r] > 0 ==> Whole(f.cs, f.chains[r], m)
  }

  // Merging the trees of a and b.
  function Joined(f: Forest, a: nat, b: nat): Forest
    requires |f.w| == |f.cs| == |f.chains| && a < |f.w| && b < |f.w|
  {
    Forest(Merge(f.w, a, b), Bump(Bump(f.cs, f.chains[a]), f.chains[b]),
           f.chains[a := f.chains[a] + f.chains[b]][b := []])
  }

  function Rehome(home: seq<nat>, chain: Chain, a: nat): seq<nat> {
    seq(|home|, (x: nat) requires x < |home| => if x in chain then a else home[x])
  }

  lemma JointChain(w0: Weights, f: Forest, home: seq<nat>, a: nat, b: nat)
    requires Sized(w0, f) && |home| == |w0| && a < |w0| && b < |w0| && a != b
    requires RootOk(w0, f, home, a) && RootOk(w0, f, home, b)
    ensures ChainOk(f.chains[a] + f.chains[b], |w0|)
    ensures Sum(w0, f.chains[a] + f.chains[b]) == f.w[a] + f.w[b]
  {
    var c, d := f.chains[a], f.chains[b];
    forall i, j | 0 <= i < |c| && 0 <= j < |d|
      ensures c[i] != d[j]
    {
      assert c[i] in c && d[j] in d;
    }
    SumConcat(w0, c, d);
  }

  lemma JoinedShape(w0: Weights, f: Forest, home: seq<nat>, a: nat, b: nat)
    requires Sized(w0, f) && Shape(w0, f, home) && a < |w0| && b < |w0| && a != b && f.w[a] > 0 && f.w[b] > 0
    ensures Sized(w0, Joined(f, a, b)) && Shape(w0, Joined(f, a, b), Rehome(home, f.chains[b], a))
  {
    var g, home' := Joined(f, a, b), Rehome(home, f.chains[b], a);
    assert RootOk(w0, f, home, a) && RootOk(w0, f, home, b);
    JointChain(w0, f, home, a, b);
    forall r | 0 <= r < |w0|
      ensures RootOk(w0, g, home', r)
    {
      assert RootOk(w0, f, home, r);
    }
    forall x | 0 <= x < |w0|
      ensures SymbolOk(w0, g, home', x)
    {
      assert SymbolOk(w0, f, home, x);
      if w0[x] > 0 {
        assert RootOk(w0, f, home, home[x]);
      }
    }
  }

  // Merging makes the codes of both trees one longer and leaves the others alone.
  lemma JoinedLengths(w0: Weights, f: Forest, home: seq<nat>, a: nat, b: nat, r: nat)
    requires Sized(w0, f) && |home| == |w0| && a < |w0| && b < |w0| && a != b && r < |w0|
    requires RootOk(w0, f, home, a) && RootOk(w0, f, home, b) && RootOk(w0, f, home, r)
    ensures forall x :: x in f.chains[r] ==> Joined(f, a, b).cs[x] == f.cs[x] + if r == a || r == b then 1 else 0
  {
  }

  lemma SharesHalve(cs: seq<nat>, cs': seq<nat>, chain: Chain, m: nat)
    requires |cs| == |cs'| && ChainOk(chain, |cs|) && m > 0
    requires forall x :: x in chain ==> cs'[x] == cs[x] + 1
    ensures Sum(ShareAt(cs', m), chain) == Sum(ShareAt(cs, m - 1), chain)
  {
    forall k | 0 <= k < |chain|
      ensures ShareAt(cs', m)[chain[k]] == ShareAt(cs, m - 1)[chain[k]]
    {
      assert chain[k] in chain;
    }
    SumSame(ShareAt(cs', m), ShareAt(cs, m - 1), chain);
  }

  // Two complete trees under a new root are a complete tree.
  lemma JointWhole(cs: seq<nat>, cs': seq<nat>, c: Chain, d: Chain, m: nat)
    requires |cs| == |cs'| && ChainOk(c, |cs|) && ChainOk(d, |cs|) && ChainOk(c + d, |cs|) && c != []
    requires forall x :: x in c || x in d ==> cs'[x] == cs[x] + 1
    requires m > 0 ==> Whole(cs, c, m - 1) && Whole(cs, d, m - 1)
    ensures Whole(cs', c + d, m)
  {
    if Within(cs', c + d, m) {
      forall k | 0 <= k < |c|
        ensures m > 0 && cs[c[k]] <= m - 1
      {
        assert (c + d)[k] == c[k] && c[k] in c;
      }
      assert c[0] in c;
      forall k | 0 <= k < |d|
        ensures cs[d[k]] <= m - 1
      {
        assert (c + d)[|c| + k] == d[k] && d[k] in d;
      }
      SumConcat(ShareAt(cs', m), c, d);
      SharesHalve(cs, cs', c, m);
      SharesHalve(cs, cs', d, m);
      ShlDouble(1, m - 1);
    }
  }

  lemma StillWhole(cs: seq<nat>, cs': seq<nat>, chain: Chain, m: nat)
    requires |cs| == |cs'| && ChainOk(chain, |cs|) && Whole(cs, chain, m)
    requires forall x :: x in chain ==> cs'[x] == cs[x]
    ensures Whole(cs', chain, m)
  {
    forall k | 0 <= k < |chain|
      ensures cs'[chain[k]] == cs[chain[k]]
    {
      assert chain[k] in chain;
    }
    SumSame(ShareAt(cs', m), ShareAt(cs, m), chain);
  }

  lemma JoinedComplete(w0: Weights, f: Forest, home: seq<nat>, a: nat, b: nat, home': seq<nat>)
    requires Sized(w0, f) && Shape(w0, f, home) && Complete(w0, f, home)
    requires a < |w0| && b < |w0| && a != b && f.w[a] > 0 && f.w[b] > 0
    requires Shape(w0, Joined(f, a, b), home')
    ensures Complete(w0, Joined(f, a, b), home')
  {
    var g := Joined(f, a, b);
    assert RootOk(w0, f, home, a) && RootOk(w0, f, home, b);
    JoinedLengths(w0, f, home, a, b, a);
    JoinedLengths(w0, f, home, a, b, b);
    JointChain(w0, f, home, a, b);
    forall r, m: nat | 0 <= r < |w0| && RootOk(w0, g, home', r) && g.w[r] > 0
      ensures Whole(g.cs, g.chains[r], m)
    {
      if r == a {
        if m > 0 {
          assert Whole(f.cs, f.chains[a], m - 1) && Whole(f.cs, f.chains[b], m - 1);
        }
        JointWhole(f.cs, g.cs, f.chains[a], f.chains[b], m);
      } else {
        assert RootOk(w0, f, home, r);
        JoinedLengths(w0, f, home, a, b, r);
        StillWhole(f.cs, g.cs, f.chains[r], m);
      }
    }
  }

  lemma JoinedCost(w0: Weights, f: Forest, home: seq<nat>, a: nat, b: nat)
    requires Sized(w0, f) && |home| == |w0| && a < |w0| && b < |w0| && a != b
    requires RootOk(w0, f, home, a) && RootOk(w0, f, home, b)
    ensures Cost(w0, Joined(f, a, b).cs) == Cost(w0, f.cs) + f.w[a] + f.w[b]
  {
    BumpCost(w0, f.cs, f.chains[a]);
    BumpCost(w0, Bump(f.cs, f.chains[a]), f.chains[b]);
  }

  // ---- the pseudo-symbol goes deepest ----

  // The tree s is taken before the tree r: it is lighter, or has the larger number.
  predicate Before(w: Weights, s: nat, r: nat)
    requires s < |w| && r < |w|
  {
    w[s] < w[r] || (w[s] == w[r] && r < s)
  }

  // How the tree of r compares with the tree of s in which the last symbol lies at
  // depth d: no deeper; as deep only if taken later; at least half as heavy.
  predicate DepthOk(f: Forest, s: nat, d: nat, r: nat)
    requires |f.w| == |f.cs| == |f.chains| && s < |f.w| && r < |f.w|
  {
    && (forall x :: x in f.chains[r] ==> x < |f.cs| && f.cs[x] <= d)
    && (r != s ==>
          && 2 * f.w[r] >= f.w[s] && (2 * f.w[r] == f.w[s] ==> r < s)
          && ((forall x :: x in f.chains[r] ==> f.cs[x] < d) || Before(f.w, s, r)))
  }

  predicate DeepestLast(w0: Weights, f: Forest, home: seq<nat>)
    requires Sized(w0, f) && Shape(w0, f, home) && w0 != [] && w0[|w0| - 1] > 0
  {
    var z := |w0| - 1;
    forall r :: 0 <= r < |w0| && f.w[r] > 0 && SymbolOk(w0, f, home, z) ==> DepthOk(f, home[z], f.cs[z], r)
  }

  // The next two trees to merge.
  predicate NextTwo(w: Weights, a: int, b: int) {
    a == Least(w, -1, |w|) && b == Least(w, a, |w|) && a >= 0 && b >= 0
  }

  lemma JoinedDepth(f: Forest, s: nat, d: nat, a: nat, b: nat, r: nat)
    requires |f.w| == |f.cs| == |f.chains| && s < |f.w| && r < |f.w| && NextTwo(f.w, a, b) && f.w[s] > 0
    requires DepthOk(f, s, d, a) && DepthOk(f, s, d, b) && DepthOk(f, s, d, r)
    requires r != b && (r == a || f.w[r] > 0)
    requires forall x :: x in f.chains[r] || (r == a && x in f.chains[b]) ==>
                           x < |f.cs| && Joined(f, a, b).cs[x] == f.cs[x] + if r == a then 1 else 0
    ensures DepthOk(Joined(f, a, b), if s == b then a else s, if s == a || s == b then d + 1 else d, r)
  {
  }

  lemma JoinedDeepest(w0: Weights, f: Forest, home: seq<nat>, a: nat, b: nat)
    requires w0 != [] && w0[|w0| - 1] > 0 && Sized(w0, f) && Shape(w0, f, home) && DeepestLast(w0, f, home)
    requires NextTwo(f.w, a, b) && Shape(w0, Joined(f, a, b), Rehome(home, f.chains[b], a))
    ensures DeepestLast(w0, Joined(f, a, b), Rehome(home, f.chains[b], a))
  {
    var z, g, home' := |w0| - 1, Joined(f, a, b), Rehome(home, f.chains[b], a);
    var s, d := home[z], f.cs[z];
    assert SymbolOk(w0, f, home, z);
    assert RootOk(w0, f, home, s) && RootOk(w0, f, home, a) && RootOk(w0, f, home, b);
    JoinedLengths(w0, f, home, a, b, s);
    assert z in f.chains[b] <==> s == b;
    forall r | 0 <= r < |w0| && g.w[r] > 0
      ensures DepthOk(g, home'[z], g.cs[z], r)
    {
      assert RootOk(w0, f, home, r);
      JoinedLengths(w0, f, home, a, b, r);
      JoinedLengths(w0, f, home, a, b, b);
      JoinedDepth(f, s, d, a, b, r);
    }
  }

  // ---- the invariant of the merging loop ----

  predicate Grown(w0: Weights, f: Forest)
    requires Sized(w0, f)
  {
    && (forall x :: 0 <= x < |w0| && w0[x] == 0 ==> f.cs[x] == 0)
    && (forall r, x :: 0 <= r < |w0| && |f.chains[r]| >= 2 && x in f.chains[r] && x < |w0| ==> f.cs[x] >= 1)
  }

  ghost predicate ForestOk(w0: Weights, f: Forest, home: seq<nat>) {
    && w0 != [] && w0[|w0| - 1] > 0 && Sized(w0, f) && Shape(w0, f, home)
    && Complete(w0, f, home) && DeepestLast(w0, f, home) && Grown(w0, f)
    && Cost(w0, f.cs) + MergedCost(f.w) == MergedCost(w0) && LastDepth(w0, f, home)
  }

  // The depth of the last symbol is what its merges make it.
  predicate LastDepth(w0: Weights, f: Forest, home: seq<nat>)
    requires w0 != [] && w0[|w0| - 1] > 0 && Sized(w0, f) && Shape(w0, f, home)
  {
    var z := |w0| - 1;
    SymbolOk(w0, f, home, z) ==> f.cs[z] + Depth(f.w, home[z]) == Depth(w0, z)
  }

  lemma JoinedLast(w0: Weights, f: Forest, home: seq<nat>, a: nat, b: nat)
    requires w0 != [] && w0[|w0| - 1] > 0 && Sized(w0, f) && Shape(w0, f, home) && LastDepth(w0, f, home)
    requires NextTwo(f.w, a, b) && Shape(w0, Joined(f, a, b), Rehome(home, f.chains[b], a))
    ensures LastDepth(w0, Joined(f, a, b), Rehome(home, f.chains[b], a))
  {
    var z := |w0| - 1;
    var s := home[z];
    assert SymbolOk(w0, f, home, z);
    assert RootOk(w0, f, home, s) && RootOk(w0, f, home, a) && RootOk(w0, f, home, b);
    JoinedLengths(w0, f, home, a, b, s);
    assert z in f.chains[b] <==> s == b;
    DepthStep(f.w, s, a, b);
  }

  lemma ForestStep(w0: Weights, f: Forest, home: seq<nat>, a: nat, b: nat)
    requires ForestOk(w0, f, home) && NextTwo(f.w, a, b)
    ensures ForestOk(w0, Joined(f, a, b), Rehome(home, f.chains[b], a))
  {
    var g, home' := Joined(f, a, b), Rehome(home, f.chains[b], a);
    assert RootOk(w0, f, home, a) && RootOk(w0, f, home, b);
    JoinedShape(w0, f, home, a, b);
    JoinedComplete(w0, f, home, a, b, home');
    JoinedDeepest(w0, f, home, a, b);
    JoinedCost(w0, f, home, a, b);
    JoinedGrown(w0, f, home, a, b);
    JoinedLast(w0, f, home, a, b);
  }

  lemma JoinedGrown(w0: Weights, f: Forest, home: seq<nat>, a: nat, b: nat)
    requires Sized(w0, f) && Shape(w0, f, home) && Grown(w0, f) && a < |w0| && b < |w0| && a != b
    ensures Grown(w0, Joined(f, a, b))
  {
    assert RootOk(w0, f, home, a) && RootOk(w0, f, home, b);
  }

  function Singles(w: Weights): Forest {
    Forest(w, seq(|w|, _ => 0), seq(|w|, (i: nat) requires i < |w| => if w[i] > 0 then [i] else []))
  }

  lemma ForestStart(w: Weights)
    requires w != [] && w[|w| - 1] == 1
    ensures ForestOk(w, Singles(w), seq(|w|, (x: nat) => x))
  {
    var f, home := Singles(w), seq(|w|, (x: nat) => x);
    forall r | 0 <= r < |w|
      ensures RootOk(w, f, home, r)
    {
      if w[r] > 0 {
        assert [r][..0] == [];
      }
    }
    forall x | 0 <= x < |w|
      ensures SymbolOk(w, f, home, x)
    {
    }
    forall r, m: nat | 0 <= r < |w| && RootOk(w, f, home, r) && f.w[r] > 0
      ensures Whole(f.cs, f.chains[r], m)
    {
      assert [r][..0] == [];
    }
    TotalZero(Costs(w, f.cs));
  }

  predicate OneLeft(w: Weights) {
    Least(w, Least(w, -1, |w|), |w|) < 0
  }

  // One tree is left: it holds every symbol in use.
  lemma OneTree(w0: Weights, f: Forest, home: seq<nat>) returns (chain: Chain)
    requires ForestOk(w0, f, home) && OneLeft(f.w)
    ensures ChainOk(chain, |w0|) && chain != [] && forall x :: 0 <= x < |w0| ==> (w0[x] > 0 <==> x in chain)
    ensures forall x :: x in chain ==> x < |w0| && f.cs[x] <= f.cs[|w0| - 1] && (|chain| >= 2 ==> f.cs[x] >= 1)
    ensures forall m: nat :: Whole(f.cs, chain, m)
    ensures Cost(w0, f.cs) == MergedCost(w0)
  {
    var z := |w0| - 1;
    assert SymbolOk(w0, f, home, z);
    var s := home[z];
    chain := f.chains[s];
    assert RootOk(w0, f, home, s) && f.w[s] > 0;
    assert DepthOk(f, s, f.cs[z], s);
    forall x | 0 <= x < |w0| && w0[x] > 0
      ensures x in chain
    {
      assert SymbolOk(w0, f, home, x);
      assert RootOk(w0, f, home, home[x]);
    }
  }

  // Lengths of a complete code for the symbols in use, longest for the last symbol.
  ghost predicate LengthsOk(w: Weights, cs: seq<nat>) {
    && w != [] && |cs| == |w| && w[|w| - 1] > 0
    && (forall x :: 0 <= x < |w| && w[x] > 0 ==> cs[x] <= cs[|w| - 1])
    && (forall m: nat :: cs[|w| - 1] <= m ==> Total(Shares(w, cs, m)) == Shl(1, m))
    && (forall x :: 0 <= x < |w| ==> if w[x] == 0 then cs[x] == 0 else Used(w) >= 2 ==> cs[x] >= 1)
  }

  lemma ForestDone(w0: Weights, f: Forest, home: seq<nat>)
    requires ForestOk(w0, f, home) && OneLeft(f.w)
    ensures Cost(w0, f.cs) == MergedCost(w0)
    ensures LengthsOk(w0, f.cs) && f.cs[|w0| - 1] == Depth(w0, |w0| - 1)
  {
    assert SymbolOk(w0, f, home, |w0| - 1);
    var chain := OneTree(w0, f, home);
    forall m: nat | f.cs[|w0| - 1] <= m
      ensures Total(Shares(w0, f.cs, m)) == Shl(1, m)
    {
      var shares := Shares(w0, f.cs, m);
      TotalByChain(shares, chain);
      assert Whole(f.cs, chain, m);
      forall k | 0 <= k < |chain|
        ensures shares[chain[k]] == ShareAt(f.cs, m)[chain[k]] && f.cs[chain[k]] <= m
      {
        assert chain[k] in chain;
      }
      SumSame(shares, ShareAt(f.cs, m), chain);
    }
    if |chain| < 2 {
      OneUsed(w0, chain[0], |w0|);
    }
  }

  lemma {:induction false} OneUsed(w: Weights, x: nat, n: nat)
    requires n <= |w| && forall i :: 0 <= i < |w| && i != x ==> w[i] == 0
    ensures UsedTo(w, n) <= if x < n then 1 else 0
  {
    if n > 0 {
      OneUsed(w, x, n - 1);
    }
  }

  // ---- the procedure ----

  // The smallest nonzero frequency; in case of ties, the larger symbol number.
  method FindSmallest(freq: array<nat>, excl: int) returns (c: int)
    requires forall i :: 0 <= i < freq.Length ==> freq[i] <= 1_000_000_000
    ensures c == Least(freq[..], excl, freq.Length)
  {
    c := -1;
    var v := 1_000_000_000;
    var i := 0;
    while i < freq.Length
      invariant i <= freq.Length && c == Least(freq[..], excl, i)
      invariant if c < 0 then v == 1_000_000_000 else v == freq[c]
    {
      if freq[i] != 0 && freq[i] <= v && i != excl {
        v := freq[i];
        c := i;
      }
      i := i + 1;
    }
  }

  ghost predicate Links(others: seq<int>, chains: seq<Chain>)
  {
    |others| == |chains| && forall r :: 0 <= r < |chains| ==> ChainOk(chains[r], |others|) && Linked(others, chains[r])
  }

  lemma LinkJoint(others: seq<int>, c: Chain, d: Chain)
    requires ChainOk(c, |others|) && ChainOk(d, |others|) && ChainOk(c + d, |others|) && c != [] && d != []
    requires Linked(others, c) && Linked(others, d)
    ensures Linked(others[c[|c| - 1] := d[0]], c + d)
  {
    var links, z := others[c[|c| - 1] := d[0]], |c| - 1;
    forall k | 0 <= k < |c + d|
      ensures LinkAt(links, c + d, k)
    {
      assert (c + d)[z] == c[z];
      assert (c + d)[z + 1] == d[0];
      if k == z {
        assert links[(c + d)[k]] == d[0];
      } else if k < z {
        assert (c + d)[k] == c[k] && (c + d)[k + 1] == c[k + 1];
        assert LinkAt(others, c, k);
      } else {
        assert (c + d)[k] == d[k - |c|];
        assert LinkAt(others, d, k - |c|);
      }
    }
  }

  // Chaining b onto the end of a's chain.
  lemma Relink(w0: Weights, f: Forest, home: seq<nat>, a: nat, b: nat, others: seq<int>)
    requires Sized(w0, f) && Shape(w0, f, home) && a < |w0| && b < |w0| && a != b && f.w[a] > 0 && f.w[b] > 0
    requires Links(others, f.chains)
    ensures f.chains[a] != [] && f.chains[a][|f.chains[a]| - 1] < |others|
    ensures var links := others[f.chains[a][|f.chains[a]| - 1] := b];
            Links(links, Joined(f, a, b).chains) && Linked(links, f.chains[b])
  {
    assert RootOk(w0, f, home, a) && RootOk(w0, f, home, b);
    var last := f.chains[a][|f.chains[a]| - 1];
    assert last in f.chains[a];
    var links := others[last := b];
    JointChain(w0, f, home, a, b);
    LinkJoint(others, f.chains[a], f.chains[b]);
    forall r | 0 <= r < |w0| && r != a
      ensures ChainOk(f.chains[r], |others|) && Linked(links, f.chains[r])
    {
      assert RootOk(w0, f, home, r);
      forall k | 0 <= k < |f.chains[r]|
        ensures LinkAt(links, f.chains[r], k)
      {
        assert f.chains[r][k] in f.chains[r];
        assert LinkAt(others, f.chains[r], k);
      }
    }
  }

  // Merge the two counts and trees.
  method MergeTrees(freq: array<nat>, codesize: array<nat>, others: array<int>, c1: nat, c2: nat,
                    ghost w0: Weights, ghost f: Forest, ghost home: seq<nat>)
    requires freq != codesize && freq.Length == codesize.Length == others.Length
    requires ForestOk(w0, f, home) && NextTwo(f.w, c1, c2)
    requires freq[..] == f.w && codesize[..] == f.cs && Links(others[..], f.chains)
    modifies freq, codesize, others
    ensures freq[..] == Joined(f, c1, c2).w && codesize[..] == Joined(f, c1, c2).cs
    ensures Links(others[..], Joined(f, c1, c2).chains)
  {
    assert RootOk(w0, f, home, c1) && RootOk(w0, f, home, c2);
    ghost var links := others[..];
    Relink(w0, f, home, c1, c2, links);
    freq[c1] := freq[c1] + freq[c2];
    freq[c2] := 0;
    var last := IncrementBranch(codesize, others, c1, f.chains[c1]);
    others[last] := c2;
    assert others[..] == links[last := c2];
    var _ := IncrementBranch(codesize, others, c2, f.chains[c2]);
  }

  lemma AllBelowTotal(w: Weights, limit: nat)
    requires Total(w) <= limit
    ensures forall i :: 0 <= i < |w| ==> w[i] <= limit
  {
    forall i | 0 <= i < |w|
      ensures w[i] <= limit
    {
      TotalAtLeast(w, i);
    }
  }

  // The arrays hold the forest. Closed.
  ghost predicate Holds(freq: seq<nat>, codesize: seq<nat>, others: seq<int>, w0: Weights, f: Forest, home: seq<nat>) {
    forall k :: Focus(2, k) ==>
      ForestOk(w0, f, home) && freq == f.w && codesize == f.cs && Links(others, f.chains)
      && Total(freq) <= 1_000_000_000
  }

  // Find the two smallest frequencies and merge them, unless there is only one left.
  method MergeNext(freq: array<nat>, codesize: array<nat>, others: array<int>, ghost w0: Weights, ghost f: Forest,
                   ghost home: seq<nat>)
    returns (done: bool, ghost g: Forest, ghost home': seq<nat>)
    requires freq != codesize && freq.Length == codesize.Length == others.Length
    requires Holds(freq[..], codesize[..], others[..], w0, f, home)
    modifies freq, codesize, others
    ensures Holds(freq[..], codesize[..], others[..], w0, g, home')
    ensures if done then g == f && OneLeft(g.w) else Used(g.w) < Used(f.w)
  {
    assert Focus(2, 0);
    AllBelowTotal(f.w, 1_000_000_000);
    var c1 := FindSmallest(freq, -1);
    var c2 := FindSmallest(freq, c1);
    if c2 < 0 {
      done, g, home' := true, f, home;
    } else {
      ForestStep(w0, f, home, c1, c2);
      MergeKeepsTotal(f.w, c1, c2);
      MergeUses(f.w, c1, c2);
      MergeTrees(freq, codesize, others, c1, c2, w0, f, home);
      done, g, home' := false, Joined(f, c1, c2), Rehome(home, f.chains[c2], c1);
    }
  }

  // Code lengths for the weights w that no others beat.
  ghost predicate Optimal(w: Weights, cs: seq<nat>)
    requires |cs| == |w|
  {
    forall lens: seq<nat>, n: nat :: |lens| == |w| && Kraft(w, lens, n) ==> Cost(w, cs) <= Cost(w, lens)
  }

  lemma StartHolds(w: Weights)
    requires w != [] && w[|w| - 1] == 1 && Total(w) <= 1_000_000_000
    ensures Holds(w, seq(|w|, _ => 0), seq(|w|, _ => -1), w, Singles(w), seq(|w|, (x: nat) => x))
  {
    ForestStart(w);
  }

  lemma EndsOptimal(freq: seq<nat>, codesize: seq<nat>, others: seq<int>, w0: Weights, f: Forest, home: seq<nat>)
    requires Holds(freq, codesize, others, w0, f, home) && OneLeft(f.w)
    ensures LengthsOk(w0, codesize) && Optimal(w0, codesize) && codesize[|w0| - 1] == Depth(w0, |w0| - 1)
  {
    assert Focus(2, 0);
    ForestDone(w0, f, home);
    forall lens: seq<nat>, n: nat | |lens| == |w0| && Kraft(w0, lens, n)
      ensures Cost(w0, f.cs) <= Cost(w0, lens)
    {
      NoneCheaper(w0, lens, n);
    }
  }

  // Huffman's procedure.
  method HuffmanLengths(freq: array<nat>) returns (codesize: array<nat>)
    requires freq.Length > 0 && freq[freq.Length - 1] == 1 && Total(freq[..]) <= 1_000_000_000
    modifies freq
    ensures fresh(codesize) && codesize.Length == freq.Length
    ensures LengthsOk(old(freq[..]), codesize[..]) && Optimal(old(freq[..]), codesize[..])
    ensures codesize[freq.Length - 1] == Depth(old(freq[..]), freq.Length - 1)
  {
    ghost var w0 := freq[..];
    codesize := new nat[freq.Length](_ => 0);
    var others := new int[freq.Length](_ => -1);
    ghost var f: Forest, home: seq<nat> := Singles(w0), seq(|w0|, (x: nat) => x);
    StartHolds(w0);
    assert codesize[..] == seq(|w0|, _ => 0);
    assert others[..] == seq(|w0|, _ => -1);
    var done := false;
    while !done
      invariant codesize.Length == others.Length == freq.Length
      invariant Holds(freq[..], codesize[..], others[..], w0, f, home)
      invariant done ==> OneLeft(f.w)
      decreases Used(f.w), !done
    {
      done, f, home := MergeNext(freq, codesize, others, w0, f, home);
    }
    EndsOptimal(freq[..], codesize[..], others[..], w0, f, home);
  }
}

// The second half of jpeg_gen_optimal_table: counting the lengths, limiting them to
// 16 bits, dropping the pseudo-symbol and listing the symbols (jchuff.c).

module HuffmanLimit {
  import opened Prelude
  import opened HuffmanBound
  import opened HuffmanTree

  const MAX_CLEN := 32

  // The code space that codes of up to i bits take, in units of 2^-i; bits[l] is the
  // number of codes of length l.
  function Units(bits: seq<nat>, i: nat): int
    requires i < |bits|
  {
    if i == 0 then bits[0] else 2 * Units(bits, i - 1) + bits[i]
  }

  lemma {:induction false} UnitsUpdate(bits: seq<nat>, i: nat, l: nat, x: nat)
    requires l <= i < |bits|
    ensures Units(bits[l := x], i) == Units(bits, i) + Shl(x - bits[l], i - l)
    decreases i
  {
    if l < i {
      UnitsUpdate(bits, i - 1, l, x);
      ShlDouble(x - bits[l], i - 1 - l);
    } else {
      UnitsAbove(bits, bits[l := x], i);
    }
  }

  lemma {:induction false} UnitsAbove(bits: seq<nat>, bits': seq<nat>, i: nat)
    requires i < |bits| == |bits'| && forall k :: 0 <= k < i ==> bits[k] == bits'[k]
    ensures Units(bits', i) == Units(bits, i) - bits[i] + bits'[i]
  {
    if i > 0 {
      UnitsAbove(bits, bits', i - 1);
    }
  }

  lemma {:induction false} UnitsZero(bits: seq<nat>, i: nat)
    requires i < |bits| && forall k :: 0 <= k <= i ==> bits[k] == 0
    ensures Units(bits, i) == 0
  {
    if i > 0 {
      UnitsZero(bits, i - 1);
    }
  }

  // A complete code with codes of i > 16 bits has some of at most i - 2 bits.
  lemma ShorterExists(bits: seq<nat>, i: nat) returns (k: nat)
    requires 17 <= i < |bits| && bits[0] == 0 && Units(bits, i) == Shl(1, i) && Total(bits) <= 255
    ensures 1 <= k <= i - 2 && bits[k] > 0
  {
    if k :| 1 <= k <= i - 2 && bits[k] > 0 {
      return k;
    }
    UnitsZero(bits, i - 2);
    TotalAtLeast(bits, i);
    TotalAtLeast(bits, i - 1);
    ShlGrows(1, 17, i);
    ShlFour(1, 13); ShlFour(16, 9); ShlFour(256, 5); ShlFour(4096, 1);
    assert false;
  }

  // The longest length has an even number of codes.
  lemma EvenAtEnd(bits: seq<nat>, i: nat)
    requires 1 <= i < |bits| && Units(bits, i) == Shl(1, i)
    ensures bits[i] % 2 == 0 && (bits[i] == 0 ==> Units(bits, i - 1) == Shl(1, i - 1))
  {
    ShlDouble(1, i - 1);
  }

  // What moving two codes of i bits does: one takes their common prefix, the other
  // joins a shorter code of j bits below a new branch.
  function Lifted(bits: seq<nat>, i: nat): seq<nat>
    requires 0 < i < |bits| && bits[i] >= 2
  {
    var b := bits[i := bits[i] - 2];
    b[i - 1 := b[i - 1] + 1]
  }

  function Branched(bits: seq<nat>, j: nat): seq<nat>
    requires j + 1 < |bits| && bits[j] >= 1
  {
    var b := bits[j + 1 := bits[j + 1] + 2];
    b[j := b[j] - 1]
  }

  lemma LiftedKeeps(bits: seq<nat>, i: nat)
    requires 0 < i < |bits| && bits[i] >= 2
    ensures Units(Lifted(bits, i), i) == Units(bits, i)
  {
    var b := bits[i := bits[i] - 2];
    UnitsUpdate(bits, i, i, bits[i] - 2);
    assert Units(b, i) == Units(bits, i) - 2;
    UnitsUpdate(b, i, i - 1, b[i - 1] + 1);
    assert Units(Lifted(bits, i), i) == Units(b, i) + Shl(1, 1);
  }

  lemma LiftedTotal(bits: seq<nat>, i: nat)
    requires 0 < i < |bits| && bits[i] >= 2
    ensures Total(Lifted(bits, i)) == Total(bits) - 1
  {
    var b := bits[i := bits[i] - 2];
    TotalUpdate(bits, i, bits[i] - 2);
    TotalUpdate(b, i - 1, b[i - 1] + 1);
  }

  lemma BranchedKeeps(bits: seq<nat>, i: nat, j: nat)
    requires j + 1 <= i < |bits| && bits[j] >= 1
    ensures Units(Branched(bits, j), i) == Units(bits, i) && Total(Branched(bits, j)) == Total(bits) + 1
  {
    var b := bits[j + 1 := bits[j + 1] + 2];
    UnitsUpdate(bits, i, j + 1, bits[j + 1] + 2);
    UnitsUpdate(b, i, j, b[j] - 1);
    ShlAdd(1, -1, i - j);
    ShlAdd(0, 0, i - j);
    TotalUpdate(bits, j + 1, bits[j + 1] + 2);
    TotalUpdate(b, j, b[j] - 1);
  }

  // The longest length up to n that some code has, or 0.
  function Longest(bits: seq<nat>, n: nat): (l: nat)
    requires n < |bits|
    ensures l <= n && (l > 0 ==> bits[l] > 0) && forall k :: l < k <= n ==> bits[k] == 0
  {
    if n == 0 || bits[n] > 0 then n else Longest(bits, n - 1)
  }

  // One step of Figure K.3: of two codes of the longest length i one takes their common
  // prefix, the other joins the longest code of at most i - 2 bits below a new branch.
  predicate Step(bits: seq<nat>, bits': seq<nat>, i: nat, j: nat) {
    && |bits'| == |bits| && 1 <= j && j + 2 <= i < |bits|
    && bits[j] > 0 && (forall k :: j < k < i - 1 ==> bits[k] == 0)
    && bits'[i] + 2 == bits[i]
    && forall l :: 0 <= l < |bits| && l != i ==>
         bits'[l] == bits[l] + (if l == i - 1 then 1 else 0) + (if l == j + 1 then 2 else 0) - (if l == j then 1 else 0)
  }

  lemma StepIs(bits: seq<nat>, i: nat, j: nat)
    requires 1 <= j && j + 2 <= i < |bits| && bits[i] >= 2 && bits[j] > 0 && forall k :: j < k < i - 1 ==> bits[k] == 0
    ensures Step(bits, Branched(Lifted(bits, i), j), i, j)
  {
  }

  // As many steps as it takes until no code has more than 16 bits.
  function Limit(bits: seq<nat>): (r: seq<nat>)
    requires bits != []
    ensures |r| == |bits|
    decreases Longest(bits, |bits| - 1), bits[Longest(bits, |bits| - 1)]
  {
    var i := Longest(bits, |bits| - 1);
    if i <= 16 || bits[i] < 2 || Longest(bits, i - 2) == 0 then bits
    else
      var next := Branched(Lifted(bits, i), Longest(bits, i - 2));
      Limit(next)
  }

  // Codes that fill the code space, by length.
  predicate Complete(bits: seq<nat>) {
    |bits| == 33 && bits[0] == 0 && Units(bits, |bits| - 1) == Shl(1, |bits| - 1) && Total(bits) <= 255
  }

  lemma {:induction false} UnitsTail(bits: seq<nat>, i: nat, n: nat)
    requires i <= n < |bits| && forall k :: i < k <= n ==> bits[k] == 0
    ensures Units(bits, n) == Shl(Units(bits, i), n - i)
    decreases n
  {
    if i < n {
      UnitsTail(bits, i, n - 1);
      ShlDouble(Units(bits, i), n - 1 - i);
    }
  }

  // The codes up to the longest length fill the code space of that length.
  lemma CompleteAt(bits: seq<nat>, i: nat)
    requires |bits| == 33 && 1 <= i < |bits| && forall k :: i < k < |bits| ==> bits[k] == 0
    ensures Units(bits, |bits| - 1) == Shl(1, |bits| - 1) <==> Units(bits, i) == Shl(1, i)
  {
    UnitsTail(bits, i, |bits| - 1);
    ShlShl(1, i, |bits| - 1 - i);
    if Units(bits, |bits| - 1) == Shl(1, |bits| - 1) {
      ShrOfShl(Units(bits, i), |bits| - 1 - i);
      ShrOfShl(Shl(1, i), |bits| - 1 - i);
    }
  }

  // The step that can be made on complete codes with more than 16 bits.
  lemma StepMade(bits: seq<nat>, i: nat) returns (j: nat)
    requires 17 <= i < |bits| == 33 && bits[0] == 0 && Units(bits, i) == Shl(1, i) && Total(bits) <= 255 && bits[i] > 0
    requires forall k :: i < k < |bits| ==> bits[k] == 0
    ensures j == Longest(bits, i - 2) && bits[i] >= 2 && j >= 1
    ensures var b := Branched(Lifted(bits, i), j);
            && Step(bits, b, i, j) && b[0] == 0 && Units(b, i) == Shl(1, i) && Total(b) == Total(bits)
            && Limit(bits) == Limit(b)
  {
    EvenAtEnd(bits, i);
    var k := ShorterExists(bits, i);
    j := Longest(bits, i - 2);
    LiftedKeeps(bits, i);
    LiftedTotal(bits, i);
    BranchedKeeps(Lifted(bits, i), i, j);
    StepIs(bits, i, j);
    assert Longest(bits, |bits| - 1) == i;
  }

  // What limiting is: nothing if all codes are short enough, and otherwise one step and
  // limiting what it leaves. This determines it.
  lemma LimitUnfolds(bits: seq<nat>) returns (next: seq<nat>, j: nat)
    requires Complete(bits)
    ensures Longest(bits, |bits| - 1) <= 16 ==> Limit(bits) == bits
    ensures Longest(bits, |bits| - 1) > 16 ==>
              Step(bits, next, Longest(bits, |bits| - 1), j) && Complete(next) && Limit(bits) == Limit(next)
  {
    var i := Longest(bits, |bits| - 1);
    next, j := bits, 0;
    if i > 16 {
      CompleteAt(bits, i);
      j := StepMade(bits, i);
      next := Branched(Lifted(bits, i), j);
      CompleteAt(next, i);
    }
  }

  // The shortest length from which a step takes a code, or 16.
  function LowestTaken(bits: seq<nat>): nat
    requires bits != []
    decreases Longest(bits, |bits| - 1), bits[Longest(bits, |bits| - 1)]
  {
    var i := Longest(bits, |bits| - 1);
    if i <= 16 || bits[i] < 2 || Longest(bits, i - 2) == 0 then 16
    else
      var j, rest := Longest(bits, i - 2), LowestTaken(Branched(Lifted(bits, i), Longest(bits, i - 2)));
      if j < rest then j else rest
  }

  // Shorter codes stay as they are.
  lemma {:induction false} ShorterKept(bits: seq<nat>, l: nat)
    requires bits != [] && l < |bits| && l < LowestTaken(bits)
    ensures Limit(bits)[l] == bits[l]
    decreases Longest(bits, |bits| - 1), bits[Longest(bits, |bits| - 1)]
  {
    var i := Longest(bits, |bits| - 1);
    if i > 16 && bits[i] >= 2 && Longest(bits, i - 2) > 0 {
      ShorterKept(Branched(Lifted(bits, i), Longest(bits, i - 2)), l);
    }
  }

  // The length of the prefix to use.
  method FindShorter(bits: array<nat>, n: nat) returns (k: nat)
    requires n < bits.Length && Longest(bits[..], n) > 0
    ensures k == Longest(bits[..], n)
  {
    k := n;
    while bits[k] == 0
      invariant Longest(bits[..], n) == Longest(bits[..], k) <= k <= n
      decreases k
    {
      k := k - 1;
    }
  }

  method MoveTwo(bits: array<nat>, i: nat) returns (ghost j: nat)
    requires bits.Length == 33 && 17 <= i <= 32 && bits[i] > 0 && forall l :: i < l < 33 ==> bits[l] == 0
    requires bits[0] == 0 && Units(bits[..], i) == Shl(1, i) && Total(bits[..]) <= 255
    modifies bits
    ensures Step(old(bits[..]), bits[..], i, j) && Limit(bits[..]) == Limit(old(bits[..]))
    ensures bits[0] == 0 && Units(bits[..], i) == Shl(1, i) && Total(bits[..]) == Total(old(bits[..]))
    ensures bits[i] + 2 == old(bits[i]) && forall l :: i < l < 33 ==> bits[l] == 0
  {
    ghost var was := bits[..];
    j := StepMade(was, i);
    var k := FindShorter(bits, i - 2);
    MovePair(bits, i, k);
  }

  method MovePair(bits: array<nat>, i: nat, j: nat)
    requires j + 2 <= i < bits.Length && bits[i] >= 2 && bits[j] >= 1
    modifies bits
    ensures bits[..] == Branched(Lifted(old(bits[..]), i), j)
  {
    bits[i] := bits[i] - 2;
    bits[i - 1] := bits[i - 1] + 1;
    bits[j + 1] := bits[j + 1] + 2;
    bits[j] := bits[j] - 1;
  }

  // No code of more than 16 bits is left; the code stays complete.
  method LimitLengths(bits: array<nat>)
    requires bits.Length == 33 && bits[0] == 0 && Units(bits[..], 32) == Shl(1, 32) && Total(bits[..]) <= 255
    modifies bits
    ensures bits[..] == Limit(old(bits[..]))
    ensures bits[0] == 0 && Units(bits[..], 16) == Shl(1, 16) && Total(bits[..]) == Total(old(bits[..]))
    ensures forall l :: 17 <= l < 33 ==> bits[l] == 0
    ensures (forall l :: 17 <= l < 33 ==> old(bits[..])[l] == 0) ==> bits[..] == old(bits[..])
  {
    var i := 32;
    while i > 16
      invariant 16 <= i <= 32 && bits[0] == 0 && Units(bits[..], i) == Shl(1, i)
      invariant Total(bits[..]) == Total(old(bits[..])) && forall l :: i < l < 33 ==> bits[l] == 0
      invariant Limit(bits[..]) == Limit(old(bits[..]))
    {
      while bits[i] > 0
        invariant bits[0] == 0 && Units(bits[..], i) == Shl(1, i)
        invariant Total(bits[..]) == Total(old(bits[..])) && forall l :: i < l < 33 ==> bits[l] == 0
        invariant Limit(bits[..]) == Limit(old(bits[..]))
        decreases bits[i]
      {
        ghost var j := MoveTwo(bits, i);
      }
      EvenAtEnd(bits[..], i);
      i := i - 1;
    }
    ShortStays(bits[..]);
    if forall l :: 17 <= l < 33 ==> old(bits[..])[l] == 0 {
      ShortStays(old(bits[..]));
    }
  }

  lemma ShortStays(bits: seq<nat>)
    requires |bits| == 33 && forall l :: 17 <= l < 33 ==> bits[l] == 0
    ensures Limit(bits) == bits
  {
    assert Longest(bits, |bits| - 1) <= 16;
  }

  // Remove the count for the pseudo-symbol from the largest length; returns that length.
  method DropPseudo(bits: array<nat>) returns (i: nat)
    requires bits.Length == 33 && bits[0] == 0 && Units(bits[..], 16) == Shl(1, 16)
    modifies bits
    ensures 1 <= i <= 16 && old(bits[i]) >= 2 && bits[..] == old(bits[..])[i := old(bits[i]) - 1]
    ensures forall l :: i < l <= 16 ==> bits[l] == 0
    ensures Units(bits[..], 16) == Shl(1, 16) - Shl(1, 16 - i)
  {
    ghost var was := bits[..];
    i := 16;
    while bits[i] == 0
      invariant bits[..] == was
      invariant 1 <= i <= 16 && Units(was, i) == Shl(1, i) && forall l :: i < l <= 16 ==> bits[l] == 0
      decreases i
    {
      EvenAtEnd(was, i);
      assert i != 1;
      i := i - 1;
    }
    EvenAtEnd(was, i);
    UnitsUpdate(was, 16, i, was[i] - 1);
    ShlAdd(1, -1, 16 - i);
    ShlAdd(0, 0, 16 - i);
    bits[i] := bits[i] - 1;
  }

  // ---- counting ----

  // How many of the first k symbols have length l.
  function Count(cs: seq<nat>, l: nat, k: nat): nat
    requires k <= |cs|
  {
    if k == 0 then 0 else Count(cs, l, k - 1) + if cs[k - 1] == l then 1 else 0
  }

  // What the counts add up to.
  predicate Counted(w: Weights, cs: seq<nat>, bits: seq<nat>, k: nat)
    requires |w| == |cs| && k <= |w| && |bits| == 33
  {
    && bits[0] == 0 && (forall l :: 1 <= l <= 32 ==> bits[l] == Count(cs, l, k))
    && Total(bits) == UsedTo(w, k) && Units(bits, 32) == TotalTo(Shares(w, cs, 32), k)
  }

  lemma CountStep(w: Weights, cs: seq<nat>, bits: seq<nat>, k: nat)
    requires |w| == |cs| && k < |w| && |bits| == 33 && Counted(w, cs, bits, k)
    requires cs[k] <= 32 && (w[k] == 0 <==> cs[k] == 0)
    ensures Counted(w, cs, if cs[k] == 0 then bits else bits[cs[k] := bits[cs[k]] + 1], k + 1)
  {
    if cs[k] != 0 {
      UnitsUpdate(bits, 32, cs[k], bits[cs[k]] + 1);
      TotalUpdate(bits, cs[k], bits[cs[k]] + 1);
    }
  }

  // Count the number of symbols of each code length; fails on a length over MAX_CLEN.
  method CountLengths(codesize: array<nat>, ghost w: Weights) returns (ok: bool, bits: array<nat>)
    requires |w| == codesize.Length && forall x :: 0 <= x < |w| ==> (w[x] == 0 <==> codesize[x] == 0)
    ensures ok == (forall x :: 0 <= x < |w| ==> codesize[x] <= 32)
    ensures fresh(bits) && bits.Length == 33 && (ok ==> Counted(w, codesize[..], bits[..], |w|))
  {
    ghost var cs := codesize[..];
    bits := new nat[33](_ => 0);
    UnitsZero(bits[..], 32);
    TotalZero(bits[..]);
    var i := 0;
    while i < codesize.Length
      invariant i <= codesize.Length && bits.Length == 33 && fresh(bits) && Counted(w, cs, bits[..], i)
      invariant forall x :: 0 <= x < i ==> codesize[x] <= 32
    {
      ghost var was := bits[..];
      if codesize[i] != 0 {
        if codesize[i] > MAX_CLEN {
          return false, bits;
        }
        CountStep(w, cs, was, i);
        bits[codesize[i]] := bits[codesize[i]] + 1;
        assert bits[..] == was[cs[i] := was[cs[i]] + 1];
      } else {
        CountStep(w, cs, was, i);
      }
      i := i + 1;
    }
    ok := true;
  }

  // ---- the list of symbols ----

  // The symbols below k of length l, and the symbols of lengths up to l by length.
  function SymbolsOf(cs: seq<nat>, l: nat, k: nat): seq<nat>
    requires k <= |cs|
  {
    if k == 0 then [] else SymbolsOf(cs, l, k - 1) + if cs[k - 1] == l then [k - 1] else []
  }

  function BySize(cs: seq<nat>, l: nat, k: nat): seq<nat>
    requires k <= |cs|
  {
    if l == 0 then [] else BySize(cs, l - 1, k) + SymbolsOf(cs, l, k)
  }

  predicate Distinct(s: seq<nat>) {
    forall i, j :: 0 <= i < j < |s| ==> s[i] != s[j]
  }

  lemma {:induction false} SymbolsOfAre(cs: seq<nat>, l: nat, k: nat)
    requires k <= |cs|
    ensures |SymbolsOf(cs, l, k)| == Count(cs, l, k)
    ensures forall x: nat :: x in SymbolsOf(cs, l, k) <==> x < k && cs[x] == l
    ensures Distinct(SymbolsOf(cs, l, k))
  {
    if k > 0 {
      SymbolsOfAre(cs, l, k - 1);
      var s := SymbolsOf(cs, l, k - 1);
      forall i | 0 <= i < |s|
        ensures s[i] < k - 1
      {
        assert s[i] in s;
      }
    }
  }

  lemma {:induction false} BySizeIs(cs: seq<nat>, l: nat, k: nat)
    requires k <= |cs|
    ensures forall x: nat :: x in BySize(cs, l, k) <==> x < k && 1 <= cs[x] <= l
    ensures Distinct(BySize(cs, l, k))
  {
    if l > 0 {
      BySizeIs(cs, l - 1, k);
      SymbolsOfAre(cs, l, k);
      var a, b := BySize(cs, l - 1, k), SymbolsOf(cs, l, k);
      forall i, j | 0 <= i < |a| && 0 <= j < |b|
        ensures a[i] != b[j]
      {
        assert a[i] in a && b[j] in b;
      }
    }
  }

  // By length, and within a length by value.
  predicate Sorted(cs: seq<nat>, list: seq<nat>) {
    && (forall p :: 0 <= p < |list| ==> list[p] < |cs|)
    && forall p, q :: 0 <= p < q < |list| ==>
         cs[list[p]] < cs[list[q]] || (cs[list[p]] == cs[list[q]] && list[p] < list[q])
  }

  lemma {:induction false} SymbolsSorted(cs: seq<nat>, l: nat, k: nat)
    requires k <= |cs|
    ensures Sorted(cs, SymbolsOf(cs, l, k))
  {
    if k > 0 {
      SymbolsSorted(cs, l, k - 1);
      SymbolsOfAre(cs, l, k - 1);
      var s := SymbolsOf(cs, l, k - 1);
      forall p | 0 <= p < |s|
        ensures s[p] < k - 1 && cs[s[p]] == l
      {
        assert s[p] in s;
      }
    }
  }

  lemma {:induction false} BySizeSorted(cs: seq<nat>, l: nat, k: nat)
    requires k <= |cs|
    ensures Sorted(cs, BySize(cs, l, k))
  {
    if l > 0 {
      BySizeSorted(cs, l - 1, k);
      SymbolsSorted(cs, l, k);
      BySizeIs(cs, l - 1, k);
      SymbolsOfAre(cs, l, k);
      SortedJoin(cs, BySize(cs, l - 1, k), SymbolsOf(cs, l, k), l);
    }
  }

  lemma SortedJoin(cs: seq<nat>, a: seq<nat>, b: seq<nat>, l: nat)
    requires Sorted(cs, a) && Sorted(cs, b) && (forall x: nat :: x in a ==> x < |cs| && cs[x] < l)
    requires forall x: nat :: x in b ==> x < |cs| && cs[x] == l
    ensures Sorted(cs, a + b)
  {
    forall p | 0 <= p < |a|
      ensures cs[a[p]] < l
    {
      assert a[p] in a;
    }
    forall q | 0 <= q < |b|
      ensures cs[b[q]] == l
    {
      assert b[q] in b;
    }
  }
}

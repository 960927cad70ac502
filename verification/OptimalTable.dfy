// jpeg_gen_optimal_table as a whole (jchuff.c): the table it returns is one that
// jpeg_make_c_derived_tbl accepts, with a code for exactly the symbols counted.

module OptimalTable {
  import opened Prelude
  import opened HuffmanBound
  import opened HuffmanDepth
  import opened HuffmanTree
  import opened HuffmanLimit
  import opened HuffCode

  // ---- accepted tables ----

  // Kraft's sum over the codes of up to l bits.
  lemma {:induction false} KraftOfLevels(t: HuffTable, l: nat)
    requires TableOk(t) && l <= 16 && t.bits[0] == 0
    ensures LevelStart(t, l + 1) <= |Lens(t)|
    ensures HuffCode.Kraft(Lens(t), LevelStart(t, l + 1)) == Shl(Units(t.bits, l), 16 - l)
  {
    SizesGrow(t.bits, l, 16);
    if l > 0 {
      KraftOfLevels(t, l - 1);
      KraftOfLevel(t, l, t.bits[l]);
      ShlAdd(2 * Units(t.bits, l - 1), t.bits[l], 16 - l);
    } else {
      ShlAdd(0, 0, 16);
    }
  }

  lemma {:induction false} KraftOfLevel(t: HuffTable, l: nat, n: nat)
    requires TableOk(t) && 1 <= l <= 16 && n <= t.bits[l]
    ensures LevelStart(t, l) + n <= |Lens(t)|
    ensures HuffCode.Kraft(Lens(t), LevelStart(t, l) + n) == HuffCode.Kraft(Lens(t), LevelStart(t, l)) + Shl(n, 16 - l)
    decreases n
  {
    SizesGrow(t.bits, l, 16);
    if n > 0 {
      KraftOfLevel(t, l, n - 1);
      LevelIn(t, l, LevelStart(t, l) + n - 1);
      ShlAdd(n - 1, 1, 16 - l);
    } else {
      ShlAdd(0, 0, 16 - l);
    }
  }

  // Counts of a complete code of up to i bits, less one code of i bits.
  predicate OneLess(bits: seq<byte>, i: nat) {
    && |bits| == 17 && 1 <= i <= 16 && bits[0] == 0 && bits[i] >= 1
    && (forall l :: i < l <= 16 ==> bits[l] == 0)
    && Units(bits, 16) == Shl(1, 16) - Shl(1, 16 - i)
  }

  lemma OneLessFits(t: HuffTable, i: nat)
    requires TableOk(t) && OneLess(t.bits, i)
    ensures Fits(Lens(t))
  {
    var lens := Lens(t);
    KraftOfLevels(t, 16);
    SizesGrow(t.bits, i, 16);
    LevelIn(t, i, LevelStart(t, i));
    var z := |lens| - 1;
    LevelIn(t, i, z);
    if lens[z] > i {
      LevelIn(t, lens[z], z);
      SizesGrow(t.bits, lens[z] - 1, lens[z]);
    }
    FitsIffKraft(lens);
    ShlFour(1, 12); ShlFour(16, 8); ShlByte(256);
  }

  // ---- the sorted list ----

  // The symbols but the last, which is the pseudo-symbol; counts is the number of
  // symbols of each length, the pseudo-symbol included.
  lemma {:induction false} ListLength(cs: seq<nat>, counts: seq<nat>, l: nat)
    requires cs != [] && l < |counts| && counts[0] == 0
    requires forall k :: 1 <= k <= l ==> counts[k] == Count(cs, k, |cs|)
    ensures |BySize(cs, l, |cs| - 1)| == TotalTo(counts, l + 1) - if 1 <= cs[|cs| - 1] <= l then 1 else 0
  {
    if l > 0 {
      ListLength(cs, counts, l - 1);
      SymbolsOfAre(cs, l, |cs| - 1);
    }
  }

  lemma {:induction false} ListGrows(cs: seq<nat>, l: nat, m: nat, k: nat)
    requires l <= m && k <= |cs|
    ensures |BySize(cs, l, k)| <= |BySize(cs, m, k)|
    decreases m
  {
    if l < m {
      ListGrows(cs, l, m - 1, k);
    }
  }

  lemma {:induction false} SymbolsGrow(cs: seq<nat>, l: nat, j: nat, k: nat)
    requires j <= k <= |cs|
    ensures |SymbolsOf(cs, l, j)| <= |SymbolsOf(cs, l, k)|
    decreases k
  {
    if j < k {
      SymbolsGrow(cs, l, j, k - 1);
    }
  }

  predicate Begins(huffval: seq<byte>, list: seq<nat>) {
    |list| <= |huffval| && forall i :: 0 <= i < |list| ==> huffval[i] == list[i]
  }

  // The symbols of length l.
  method ListLevel(codesize: array<nat>, l: nat, huffval: array<byte>, p0: nat, ghost before: seq<nat>) returns (p: nat)
    requires codesize.Length == 257 && huffval.Length == 256 && p0 == |before|
    requires p0 + |SymbolsOf(codesize[..], l, 256)| <= 256 && Begins(huffval[..], before)
    modifies huffval
    ensures p == p0 + |SymbolsOf(codesize[..], l, 256)| && Begins(huffval[..], before + SymbolsOf(codesize[..], l, 256))
  {
    ghost var cs := codesize[..];
    p := p0;
    var j := 0;
    assert before + SymbolsOf(cs, l, 0) == before;
    while j <= 255
      invariant j <= 256 && p == p0 + |SymbolsOf(cs, l, j)| && codesize[..] == cs
      invariant Begins(huffval[..], before + SymbolsOf(cs, l, j))
    {
      SymbolsGrow(cs, l, j + 1, 256);
      if codesize[j] == l {
        huffval[p] := j;
        p := p + 1;
      }
      j := j + 1;
    }
  }

  // A list of the symbols sorted by code length, up to length n.
  method ListSymbols(codesize: array<nat>, n: nat) returns (huffval: array<byte>)
    requires codesize.Length == 257 && |BySize(codesize[..], n, 256)| <= 256
    ensures fresh(huffval) && huffval.Length == 256 && Begins(huffval[..], BySize(codesize[..], n, 256))
  {
    ghost var cs := codesize[..];
    huffval := new byte[256](_ => 0);
    var p, i := 0, 1;
    while i <= n
      invariant 1 <= i <= n + 1 && p == |BySize(cs, i - 1, 256)|
      invariant huffval.Length == 256 && Begins(huffval[..], BySize(cs, i - 1, 256))
    {
      ListGrows(cs, i, n, 256);
      p := ListLevel(codesize, i, huffval, p, BySize(cs, i - 1, 256));
      i := i + 1;
    }
  }

  // ---- the table ----

  // The symbols the application may count: at most 254, so that the 8-bit counts of
  // lengths cannot wrap, and at least one; the total is that of a real picture.
  predicate Countable(freq: seq<nat>) {
    && |freq| == 257 && Total(freq[256 := 1]) <= 1_000_000_000
    && 2 <= Used(freq[256 := 1]) <= 255
  }

  // A code for the symbols of w, apart from the last, by their lengths cs.
  ghost predicate TableFor(w: Weights, cs: seq<nat>, t: HuffTable)
    requires |w| == |cs| == 257
  {
    && TableOk(t) && CodeTree(t) && SymbolsDistinct(t)
    && (forall x :: 0 <= x < 256 ==> (w[x] > 0 <==> x in t.huffval[..|Lens(t)|]))
    && (cs[256] <= 16 ==> forall p :: 0 <= p < |Lens(t)| ==> Lens(t)[p] == cs[t.huffval[p]])
    && Shaped(cs, t)
  }

  // How many codes there are of each length up to n.
  function CountsAt(cs: seq<nat>, n: nat): (r: seq<nat>)
    ensures CountsOf(cs, n, r)
  {
    seq(n + 1, (l: nat) requires l <= n => if l == 0 then 0 else Count(cs, l, |cs|))
  }

  // The lengths are those of cs, limited as Figure K.3 says, less one of the longest; the
  // symbols are listed by their lengths before that. So no symbol gets a longer code than
  // one that was to have a longer code. Closed.
  ghost predicate Shaped(cs: seq<nat>, t: HuffTable)
    requires TableOk(t)
  {
    forall k :: Focus(2, k) ==> ShapedBy(cs, t, Limit(CountsAt(cs, MAX_CLEN)))
  }

  predicate ShapedBy(cs: seq<nat>, t: HuffTable, limited: seq<nat>)
    requires TableOk(t) && limited != []
  {
    && |limited| > |t.bits| && |Lens(t)| <= |t.huffval|
    && (forall l :: 0 <= l < |t.bits| ==>
          limited[l] == t.bits[l] as nat + if l == Longest(limited, |limited| - 1) then 1 else 0)
    && Sorted(cs, t.huffval[..|Lens(t)|])
  }

  // Lengths by length: when the counts are those of the list, symbol by symbol.
  lemma {:induction false} LengthsAgree(cs: seq<nat>, bits: seq<byte>, l: nat)
    requires |cs| == 257 && |bits| == 17 && l < |bits|
    requires forall k :: 1 <= k <= l ==> bits[k] == |SymbolsOf(cs, k, 256)|
    ensures |Sizes(bits, l)| == |BySize(cs, l, 256)|
    ensures forall p :: 0 <= p < |Sizes(bits, l)| ==>
              BySize(cs, l, 256)[p] < 257 && Sizes(bits, l)[p] == cs[BySize(cs, l, 256)[p]]
  {
    if l > 0 {
      LengthsAgree(cs, bits, l - 1);
      SymbolsOfAre(cs, l, 256);
      forall q | 0 <= q < |SymbolsOf(cs, l, 256)|
        ensures SymbolsOf(cs, l, 256)[q] < 257 && cs[SymbolsOf(cs, l, 256)[q]] == l
      {
        assert SymbolsOf(cs, l, 256)[q] in SymbolsOf(cs, l, 256);
      }
    }
  }

  lemma {:induction false} SizesTotal(bits: seq<byte>, l: nat)
    requires |bits| == 17 && l < |bits| && bits[0] == 0
    ensures |Sizes(bits, l)| == TotalTo(bits, l + 1)
  {
    if l > 0 {
      SizesTotal(bits, l - 1);
    } else {
      assert TotalTo(bits, 0) == 0;
    }
  }

  // Sums of numbers that differ in one place, and agree elsewhere up to n.
  lemma {:induction false} TotalDiffers(s: seq<int>, t: seq<int>, i: nat, d: int, n: nat)
    requires n <= |s| && n <= |t| && i < |s| && i < |t|
    requires forall k :: 0 <= k < n ==> s[k] == t[k] + if k == i then d else 0
    ensures TotalTo(s, n) == TotalTo(t, n) + if i < n then d else 0
  {
    if n > 0 {
      TotalDiffers(s, t, i, d, n - 1);
    }
  }

  lemma {:induction false} TotalTail(s: seq<int>, k: nat, n: nat)
    requires k <= n <= |s| && forall i :: k <= i < |s| ==> s[i] == 0
    ensures TotalTo(s, n) == TotalTo(s, k)
  {
    if k < n {
      TotalTail(s, k, n - 1);
    }
  }

  // The table is made of the limited counts, less one code of i bits, and the list of
  // the symbols with up to n bits.
  predicate Made(limited: seq<nat>, i: nat, cs: seq<nat>, n: nat, t: HuffTable) {
    && TableOk(t) && |limited| == n + 1 && n >= 17 && |cs| == 257 && OneLess(t.bits, i)
    && (forall l :: 0 <= l <= 16 && l != i ==> limited[l] == t.bits[l]) && limited[i] == 1 + t.bits[i] as nat
    && (forall l :: i < l <= n ==> limited[l] == 0)
    && Begins(t.huffval, BySize(cs, n, 256))
  }

  predicate CountsOf(cs: seq<nat>, n: nat, counts: seq<nat>) {
    |counts| == n + 1 && counts[0] == 0 && forall l :: 1 <= l <= n ==> counts[l] == Count(cs, l, |cs|)
  }

  // As many codes as symbols.
  lemma MadeLength(cs: seq<nat>, counts: seq<nat>, limited: seq<nat>, i: nat, n: nat, t: HuffTable)
    requires Made(limited, i, cs, n, t) && CountsOf(cs, n, counts) && Total(limited) == Total(counts)
    requires 1 <= cs[256] <= n
    ensures |Lens(t)| == |BySize(cs, n, 256)| == Total(counts) - 1
  {
    ListLength(cs, counts, n);
    TotalTail(limited, |t.bits|, |limited|);
    TotalDiffers(limited, t.bits, i, 1, |t.bits|);
    SizesTotal(t.bits, |t.bits| - 1);
  }

  lemma MadeFor(w: Weights, cs: seq<nat>, counts: seq<nat>, limited: seq<nat>, i: nat, n: nat, t: HuffTable)
    requires |w| == 257 && Made(limited, i, cs, n, t) && CountsOf(cs, n, counts)
    requires Total(limited) == Total(counts) <= 255
    requires LengthsOk(w, cs) && Used(w) >= 2 && cs[256] <= n
    requires cs[256] <= 16 ==> limited == counts
    requires n == MAX_CLEN && limited == Limit(counts)
    ensures TableFor(w, cs, t)
  {
    MadeLength(cs, counts, limited, i, n, t);
    OneLessFits(t, i);
    BySizeIs(cs, n, 256);
    ListIsPrefix(t.huffval, BySize(cs, n, 256));
    if cs[256] <= 16 {
      MadeExactly(w, cs, counts, i, n, t);
    }
    MadeShaped(cs, counts, limited, i, n, t);
  }

  lemma MadeShaped(cs: seq<nat>, counts: seq<nat>, limited: seq<nat>, i: nat, n: nat, t: HuffTable)
    requires Made(limited, i, cs, n, t) && CountsOf(cs, n, counts) && n == MAX_CLEN && limited == Limit(counts)
    requires |Lens(t)| == |BySize(cs, n, 256)|
    ensures Shaped(cs, t)
  {
    assert counts == CountsAt(cs, n);
    BySizeSorted(cs, n, 256);
    assert t.huffval[..|Lens(t)|] == BySize(cs, n, 256);
    assert Longest(limited, |limited| - 1) == i;
  }

  lemma ListIsPrefix(huffval: seq<byte>, list: seq<nat>)
    requires Begins(huffval, list) && HuffmanLimit.Distinct(list)
    ensures forall p, q :: 0 <= p < q < |list| ==> huffval[p] != huffval[q]
    ensures forall x: nat :: x in list <==> x in huffval[..|list|]
  {
    assert forall p :: 0 <= p < |list| ==> huffval[..|list|][p] == list[p];
  }

  // Without limiting, every symbol gets a code of its own length: the pseudo-symbol
  // has the longest length, from which its code was dropped.
  lemma MadeExactly(w: Weights, cs: seq<nat>, counts: seq<nat>, i: nat, n: nat, t: HuffTable)
    requires |w| == 257 && Made(counts, i, cs, n, t) && CountsOf(cs, n, counts)
    requires LengthsOk(w, cs) && Used(w) >= 2 && cs[256] <= 16
    ensures |Lens(t)| == |BySize(cs, n, 256)| && forall p :: 0 <= p < |Lens(t)| ==> Lens(t)[p] == cs[t.huffval[p]]
  {
    LongestIsLast(w, cs, counts, i, n);
    forall k | 1 <= k < |t.bits|
      ensures t.bits[k] == |SymbolsOf(cs, k, 256)|
    {
      SymbolsOfAre(cs, k, 256);
    }
    LengthsAgree(cs, t.bits, |t.bits| - 1);
    SameList(cs, |t.bits| - 1, n, 256);
  }

  lemma LongestIsLast(w: Weights, cs: seq<nat>, counts: seq<nat>, i: nat, n: nat)
    requires |w| == 257 && LengthsOk(w, cs) && Used(w) >= 2 && cs[256] <= n && CountsOf(cs, n, counts)
    requires 1 <= i <= n && counts[i] > 0 && forall l :: i < l <= n ==> counts[l] == 0
    ensures i == cs[256]
  {
    assert counts[cs[256]] == Count(cs, cs[256], 257);
    if cs[256] < i {
      CountZero(cs, i, 257);
    }
  }

  lemma {:induction false} CountZero(cs: seq<nat>, l: nat, k: nat)
    requires k <= |cs| && forall x :: 0 <= x < k ==> cs[x] < l
    ensures Count(cs, l, k) == 0
  {
    if k > 0 {
      CountZero(cs, l, k - 1);
    }
  }

  lemma {:induction false} NoSymbols(cs: seq<nat>, l: nat, k: nat)
    requires k <= |cs| && forall x :: 0 <= x < k ==> cs[x] < l
    ensures SymbolsOf(cs, l, k) == []
  {
    if k > 0 {
      NoSymbols(cs, l, k - 1);
    }
  }

  lemma {:induction false} SameList(cs: seq<nat>, l: nat, n: nat, k: nat)
    requires l <= n && k <= |cs| && forall x :: 0 <= x < k ==> cs[x] <= l
    ensures BySize(cs, n, k) == BySize(cs, l, k)
    decreases n
  {
    if l < n {
      SameList(cs, l, n - 1, k);
      NoSymbols(cs, n, k);
    }
  }

  lemma LengthsNonzero(w: Weights, cs: seq<nat>)
    requires LengthsOk(w, cs) && Used(w) >= 2
    ensures forall x :: 0 <= x < |w| ==> (w[x] == 0 <==> cs[x] == 0)
  {
  }

  // Limit the lengths, drop the pseudo-symbol and return the counts up to 16 bits.
  method ShapeCounts(bits: array<nat>) returns (counts: seq<byte>, i: nat, ghost limited: seq<nat>)
    requires bits.Length == 33 && bits[0] == 0 && Units(bits[..], 32) == Shl(1, 32) && Total(bits[..]) <= 255
    modifies bits
    ensures |limited| == 33 && Total(limited) == Total(old(bits[..])) && OneLess(counts, i)
    ensures limited == Limit(old(bits[..]))
    ensures forall l :: 0 <= l <= 16 && l != i ==> limited[l] == counts[l]
    ensures limited[i] == 1 + counts[i] as nat && forall l :: i < l <= 32 ==> limited[l] == 0
    ensures (forall l :: 17 <= l < 33 ==> old(bits[..])[l] == 0) ==> limited == old(bits[..])
  {
    LimitLengths(bits);
    limited := bits[..];
    i := DropPseudo(bits);
    counts := [];
    var l := 0;
    while l <= 16
      invariant l <= 17 && |counts| == l && bits[..] == limited[i := limited[i] - 1]
      invariant forall k :: 0 <= k < l ==> counts[k] == bits[k]
    {
      TotalAtLeast(limited, l);
      counts := counts + [bits[l] as byte];
      l := l + 1;
    }
    UnitsSame(bits[..], counts, 16);
  }

  lemma {:induction false} UnitsSame(a: seq<nat>, b: seq<nat>, i: nat)
    requires i < |a| && i < |b| && forall k :: 0 <= k <= i ==> a[k] == b[k]
    ensures Units(a, i) == Units(b, i)
  {
    if i > 0 {
      UnitsSame(a, b, i - 1);
    }
  }

  lemma {:induction false} UsedAtMost(w: Weights, n: nat)
    requires n <= |w|
    ensures UsedTo(w, n) <= n
  {
    if n > 0 {
      UsedAtMost(w, n - 1);
    }
  }

  // Two symbols are used and two are not.
  lemma UsedBetween(w: Weights, a: nat, b: nat, c: nat, d: nat)
    requires a < b < |w| && w[a] > 0 && w[b] > 0 && c < d < |w| && w[c] == w[d] == 0
    ensures 2 <= Used(w) <= |w| - 2
  {
    UsedUpdate(w, a, 0);
    UsedUpdate(w[a := 0], b, 0);
    UsedUpdate(w, c, 1);
    UsedUpdate(w[c := 1], d, 1);
    UsedAtMost(w[c := 1][d := 1], |w|);
  }

  // Counts that the procedure refuses, with the smallest total for which it can happen:
  // symbol i < 33 occurs as often as the Fibonacci number 33 - i says.
  lemma FibonacciRefused(w: Weights, top: nat, s: nat)
    requires FibRow(w, top, s) && top == 33 && s == 256
    ensures Countable(w) && Total(w[s := 1]) == LONG_TOTAL && Depth(w[s := 1], s) == 33
  {
    FibTooDeep(w, top, s);
    FibUses(w, top, s, 100);
    assert w[s := 1] == w;
  }

  lemma FibUses(w: Weights, top: nat, s: nat, c: nat)
    requires FibRow(w, top, s) && 0 < top <= c && c + 1 < s
    ensures 2 <= Used(w) <= |w| - 2
  {
    FibGrows(top);
    UsedBetween(w, 0, s, c, c + 1);
  }

  // Generate the best Huffman code table for the given counts. lens are the lengths
  // before limiting; the procedure gives up when one of them exceeds 32.
  method GenOptimalTable(freq: array<nat>) returns (table: Option<HuffTable>, ghost lens: seq<nat>)
    requires freq.Length == 257 && Countable(freq[..])
    modifies freq
    ensures |lens| == 257 && LengthsOk(old(freq[..])[256 := 1], lens) && Optimal(old(freq[..])[256 := 1], lens)
    ensures lens[256] == Depth(old(freq[..])[256 := 1], 256)
    ensures table.Some? <==> Depth(old(freq[..])[256 := 1], 256) <= 32
    ensures Total(old(freq[..])[256 := 1]) < LONG_TOTAL ==> table.Some?
    ensures table.Some? ==> TableFor(old(freq[..])[256 := 1], lens, table.value)
  {
    freq[256] := 1;
    ghost var w: Weights := freq[..];
    if Total(w) < LONG_TOTAL {
      ShortBelow(w, 256);
    }
    var codesize := HuffmanLengths(freq);
    lens := codesize[..];
    LengthsNonzero(w, lens);
    var ok, bits := CountLengths(codesize, w);
    if !ok {
      return None, lens;
    }
    ghost var counts := bits[..];
    var final, i, limited := ShapeCounts(bits);
    ListLength(lens, counts, MAX_CLEN);
    var huffval := ListSymbols(codesize, MAX_CLEN);
    var t := HuffTable(final, huffval[..]);
    NothingLong(lens, counts, MAX_CLEN);
    MadeFor(w, lens, counts, limited, i, MAX_CLEN, t);
    table := Some(t);
  }

  lemma NothingLong(cs: seq<nat>, counts: seq<nat>, n: nat)
    requires |cs| == 257 && CountsOf(cs, n, counts) && forall x :: 0 <= x < 257 ==> cs[x] <= cs[256]
    ensures forall l :: cs[256] < l <= n ==> counts[l] == 0
  {
    forall l | cs[256] < l <= n
      ensures counts[l] == 0
    {
      CountZero(cs, l, 257);
    }
  }

  // The table meets the checks of jpeg_make_c_derived_tbl, and the encoder's table then
  // has a code for the symbols that were counted and for no other.
  lemma OptimalAccepted(w: Weights, cs: seq<nat>, t: HuffTable, dc: bool, ehufco: seq<nat>, ehufsi: seq<nat>)
    requires |w| == |cs| == 257 && TableFor(w, cs, t)
    requires dc ==> forall x :: 16 <= x < 256 ==> w[x] == 0
    ensures CodeTree(t) && SymbolsInRange(t, dc) && SymbolsDistinct(t)
    ensures Encodes(t, ehufco, ehufsi) ==> forall x :: 0 <= x < 256 ==> (ehufsi[x] > 0 <==> w[x] > 0)
  {
    var n := |Lens(t)|;
    forall p | 0 <= p < n
      ensures t.huffval[p] in t.huffval[..n]
    {
      assert t.huffval[..n][p] == t.huffval[p];
    }
    if Encodes(t, ehufco, ehufsi) {
      forall x | 0 <= x < 256 && w[x] > 0
        ensures ehufsi[x] > 0
      {
        var p :| 0 <= p < n && t.huffval[..n][p] == x;
        assert t.huffval[p] == x;
      }
    }
  }
}

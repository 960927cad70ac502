// The encoder emits a band while it collects zeros, correction bits and ended bands;
// the decoder takes tokens one by one. This file turns the first view into the second.

module HuffViews {
  import opened Prelude
  import opened HuffBits
  import opened Coefficients
  import opened Scans
  import opened HuffBinarisation

  // ---- bands of new coefficients ----

  // The first index from k to se of a nonzero coefficient, or se + 1.
  function NextNonzero(z: Coefs, se: nat, k: nat): (p: nat)
    requires se < 64 && k <= se + 1
    ensures k <= p <= se + 1 && (p <= se ==> z[p] != 0) && forall j :: k <= j < p ==> z[j] == 0
    decreases se + 1 - k
  {
    if k > se || z[k] != 0 then k else NextNonzero(z, se, k + 1)
  }

  // The band from k on, where a symbol begins: end if only zeros are left, rest if
  // nothing is left.
  function Band(tbl: HuffNo, z: Coefs, se: nat, k: nat, end: Tokens, rest: Tokens): Tokens
    requires se < 64 && k <= se + 1
    decreases se + 1 - k
  {
    var p := NextNonzero(z, se, k);
    if k > se then rest
    else if p > se then end
    else CoefTokens(tbl, p - k, z[p], Band(tbl, z, se, p + 1, end, rest))
  }

  // What the decoder meets where a symbol begins.
  lemma BandStep(tbl: HuffNo, z: Coefs, se: nat, k: nat, end: Tokens, rest: Tokens)
    requires k <= se < 64 && CoefsFit(z, k, se)
    ensures var p := NextNonzero(z, se, k);
            if p > se then Band(tbl, z, se, k, end, rest) == end
            else if p - k > 15 then Band(tbl, z, se, k, end, rest) ==
                Cons(Sym(tbl, 0xF0), Band(tbl, z, se, k + 16, end, rest))
            else Band(tbl, z, se, k, end, rest) ==
                   Cons(Sym(tbl, 16 * (p - k) + NBits(Abs(z[p]))),
                        Cons(ValueToken(z[p]), Band(tbl, z, se, p + 1, end, rest)))
  {
    var p := NextNonzero(z, se, k);
    if p <= se {
      CoefStep(tbl, p - k, z[p], Band(tbl, z, se, p + 1, end, rest));
      if p - k > 15 {
        BandFrom(tbl, z, se, k, k + 16, end, rest);
      }
    }
  }

  // Between zeros the band has the same coefficients ahead.
  lemma BandFrom(tbl: HuffNo, z: Coefs, se: nat, k: nat, m: nat, end: Tokens, rest: Tokens)
    requires k <= m <= se < 64 && m <= NextNonzero(z, se, k) <= se
    ensures var p := NextNonzero(z, se, k);
            Band(tbl, z, se, m, end, rest) == CoefTokens(tbl, p - m, z[p], Band(tbl, z, se, p + 1, end, rest))
  {
    NextAfterZero(z, se, k, m);
  }

  lemma CoefStep(tbl: HuffNo, r: nat, v: int, rest: Tokens)
    requires NBits(Abs(v)) <= 15
    ensures if r > 15 then CoefTokens(tbl, r, v, rest) == Cons(Sym(tbl, 0xF0), CoefTokens(tbl, r - 16, v, rest))
            else CoefTokens(tbl, r, v, rest) == Cons(Sym(tbl, 16 * r + NBits(Abs(v))), Cons(ValueToken(v), rest))
  {
    if r > 15 {
      SixteenLess(r);
    } else {
      SymbolExact(r, NBits(Abs(v)));
    }
  }

  lemma SixteenLess(r: nat)
    requires r > 15
    ensures (r - 16) % 16 == r % 16 && (r - 16) / 16 == r / 16 - 1 && r / 16 > 0
  {
  }

  lemma SymbolExact(r: nat, n: nat)
    requires r <= 15 && n <= 15
    ensures r / 16 == 0 && (r % 16 * 16 + n) % 256 == 16 * r + n
  {
  }

  lemma NextAfterZero(z: Coefs, se: nat, k: nat, m: nat)
    requires se < 64 && k <= se + 1 && k <= m <= NextNonzero(z, se, k)
    ensures m <= se + 1 && NextNonzero(z, se, m) == NextNonzero(z, se, k)
    decreases m - k
  {
    if k < m {
      NextAfterZero(z, se, k + 1, m);
    }
  }

  lemma {:induction false} AcView(tbl: HuffNo, z: Coefs, se: nat, k: nat, r: nat, rest: Tokens)
    requires se < 64 && r <= k <= se + 1 && k - r <= NextNonzero(z, se, k - r) && k <= NextNonzero(z, se, k - r)
    ensures AcTokens(tbl, z, se, k, r, rest) == Band(tbl, z, se, k - r, Cons(Sym(tbl, 0), rest), rest)
    decreases se + 1 - k
  {
    NextAfterZero(z, se, k - r, k);
    if k <= se {
      if z[k] == 0 {
        AcView(tbl, z, se, k + 1, r + 1, rest);
      } else {
        AcView(tbl, z, se, k + 1, 0, rest);
      }
    }
  }

  // With no pending run, the band of a first scan leaves its last zeros to the run.
  lemma {:induction false} FirstView(tbl: HuffNo, z: Coefs, se: nat, k: nat, r: nat, rest: Tokens)
    requires se < 64 && r <= k <= se + 1 && k <= NextNonzero(z, se, k - r)
    ensures FirstTokens(tbl, z, se, k, r, 0, rest) == Band(tbl, z, se, k - r, rest, rest)
    ensures FirstRun(z, se, k, r, 0) == if se < 64 && EndsOpen(z, se, k - r) then 1 else 0
    decreases se + 1 - k
  {
    NextAfterZero(z, se, k - r, k);
    if k <= se {
      if z[k] == 0 {
        FirstView(tbl, z, se, k + 1, r + 1, rest);
      } else {
        FirstView(tbl, z, se, k + 1, 0, rest);
      }
    }
  }

  // The band from k on is not exhausted by its nonzero coefficients.
  predicate EndsOpen(z: Coefs, se: nat, k: nat)
    requires se < 64 && k <= se + 1
    decreases se + 1 - k
  {
    var p := NextNonzero(z, se, k);
    k <= se && (p > se || EndsOpen(z, se, p + 1))
  }

  lemma OpenStep(z: Coefs, se: nat, k: nat)
    requires k <= se < 64
    ensures var p := NextNonzero(z, se, k);
            if p > se then EndsOpen(z, se, k)
            else if p - k > 15 then k + 16 <= p && EndsOpen(z, se, k + 16) == EndsOpen(z, se, k)
            else EndsOpen(z, se, p + 1) == EndsOpen(z, se, k)
  {
    var p := NextNonzero(z, se, k);
    if p <= se && p - k > 15 {
      NextAfterZero(z, se, k, k + 16);
    }
  }

  // A pending run is emitted before the first symbol of the band.
  lemma {:induction false} FirstAfterRun(tbl: HuffNo, z: Coefs, se: nat, k: nat, r: nat, run: nat, rest: Tokens)
    requires se < 64 && k <= se + 1 && run < 0x7FFF && NextNonzero(z, se, k) <= se
    ensures FirstTokens(tbl, z, se, k, r, run, rest) == EobTokens(tbl, run, [], FirstTokens(tbl, z, se, k, r, 0, rest))
    ensures FirstRun(z, se, k, r, run) == FirstRun(z, se, k, r, 0)
    decreases se + 1 - k
  {
    if z[k] == 0 {
      FirstAfterRun(tbl, z, se, k + 1, r + 1, run, rest);
    }
  }

  // A band of zeros only extends the run.
  lemma {:induction false} FirstInRun(tbl: HuffNo, z: Coefs, se: nat, k: nat, r: nat, run: nat, rest: Tokens)
    requires se < 64 && k <= se + 1 && run < 0x7FFF && NextNonzero(z, se, k) > se && r + (se + 1 - k) > 0
    ensures FirstTokens(tbl, z, se, k, r, run, rest) == if run + 1 == 0x7FFF then EobTokens(tbl, run + 1, [], rest)
            else rest
    ensures FirstRun(z, se, k, r, run) == if run + 1 == 0x7FFF then 0 else run + 1
    decreases se + 1 - k
  {
    if k <= se {
      FirstInRun(tbl, z, se, k + 1, r + 1, run, rest);
    }
  }

  // ---- refined bands ----

  // The first index from k to se of a newly nonzero coefficient, or se + 1.
  function NextNew(z: Coefs, se: nat, k: nat): (p: nat)
    requires se < 64 && k <= se + 1
    ensures k <= p <= se + 1 && (p <= se ==> Abs(z[p]) == 1) && forall j :: k <= j < p ==> Abs(z[j]) != 1
    decreases se + 1 - k
  {
    if k > se || Abs(z[k]) == 1 then k else NextNew(z, se, k + 1)
  }

  // The number of coefficients from a to b - 1 that stay zero.
  function Zeros(z: Coefs, a: nat, b: nat): nat
    requires a <= b <= 64
    decreases b - a
  {
    if a == b then 0 else Zeros(z, a, b - 1) + if z[b - 1] == 0 then 1 else 0
  }

  // The correction bits from a to b - 1.
  function OldBits(z: Coefs, a: nat, b: nat): seq<Bit>
    requires a <= b <= 64
    decreases b - a
  {
    if a == b then [] else OldBits(z, a, b - 1) + if Abs(z[b - 1]) > 1 then [NextBit(z[b - 1])] else []
  }

  // The same as tokens, in front of rest.
  function OldTokens(z: Coefs, a: nat, b: nat, rest: Tokens): Tokens
    requires a <= b <= 64
    decreases b - a
  {
    if a == b then rest
    else if Abs(z[a]) > 1 then Cons(Val(NextBit(z[a]), 1), OldTokens(z, a + 1, b, rest))
    else OldTokens(z, a + 1, b, rest)
  }

  // The index of the coefficient behind k that stays zero and has n such before it.
  function ZeroAt(z: Coefs, k: nat, n: nat): (q: nat)
    requires k <= 64 && Zeros(z, k, 64) > n
    ensures k <= q < 64 && z[q] == 0 && Zeros(z, k, q) == n
    decreases 64 - k
  {
    ZerosFirst(z, k, 64);
    if z[k] == 0 && n == 0 then k
    else
      var q := ZeroAt(z, k + 1, if z[k] == 0 then n - 1 else n);
      ZerosFirst(z, k, q);
      q
  }

  lemma {:induction false} ZerosFirst(z: Coefs, a: nat, b: nat)
    requires a <= b <= 64
    ensures a < b ==> Zeros(z, a, b) == Zeros(z, a + 1, b) + if z[a] == 0 then 1 else 0
    decreases b - a
  {
    if a + 1 < b {
      ZerosFirst(z, a, b - 1);
    }
  }

  lemma {:induction false} ZerosMonotone(z: Coefs, a: nat, b: nat, c: nat)
    requires a <= b <= c <= 64
    ensures Zeros(z, a, b) <= Zeros(z, a, c)
    decreases c - b
  {
    if b < c {
      ZerosMonotone(z, a, b, c - 1);
    }
  }

  lemma {:induction false} ZerosSplit(z: Coefs, a: nat, b: nat, c: nat)
    requires a <= b <= c <= 64
    ensures Zeros(z, a, c) == Zeros(z, a, b) + Zeros(z, b, c)
    decreases c - b
  {
    if b < c {
      ZerosSplit(z, a, b, c - 1);
    }
  }

  lemma {:induction false} OldSplit(z: Coefs, a: nat, b: nat, c: nat)
    requires a <= b <= c <= 64
    ensures OldBits(z, a, c) == OldBits(z, a, b) + OldBits(z, b, c)
    decreases c - b
  {
    if b < c {
      OldSplit(z, a, b, c - 1);
    }
  }

  lemma {:induction false} OldLength(z: Coefs, a: nat, b: nat)
    requires a <= b <= 64
    ensures |OldBits(z, a, b)| <= b - a
            && (Zeros(z, a, b) == 0 && OldBits(z, a, b) == [] && a < b ==> Abs(z[b - 1]) == 1)
    decreases b - a
  {
    if a < b {
      OldLength(z, a, b - 1);
    }
  }

  // The buffered correction bits come out as the tokens that the decoder expects.
  lemma {:induction false} CorrOld(z: Coefs, a: nat, b: nat, rest: Tokens)
    requires a <= b <= 64
    ensures CorrTokens(OldBits(z, a, b), rest) == OldTokens(z, a, b, rest)
    decreases b - a
  {
    if a < b {
      OldLast(z, a, b, rest);
      var more := if Abs(z[b - 1]) > 1 then Cons(Val(NextBit(z[b - 1]), 1), rest) else rest;
      CorrLast(z, a, b, rest, more);
      CorrOld(z, a, b - 1, more);
    }
  }

  lemma CorrLast(z: Coefs, a: nat, b: nat, rest: Tokens, more: Tokens)
    requires a < b <= 64 && more == if Abs(z[b - 1]) > 1 then Cons(Val(NextBit(z[b - 1]), 1), rest) else rest
    ensures CorrTokens(OldBits(z, a, b), rest) == CorrTokens(OldBits(z, a, b - 1), more)
  {
    if Abs(z[b - 1]) > 1 {
      CorrSnoc(OldBits(z, a, b - 1), NextBit(z[b - 1]), rest);
    } else {
      assert OldBits(z, a, b) == OldBits(z, a, b - 1);
    }
  }

  lemma CorrSnoc(corr: seq<Bit>, bit: Bit, rest: Tokens)
    ensures CorrTokens(corr + [bit], rest) == CorrTokens(corr, Cons(Val(bit, 1), rest))
  {
    assert (corr + [bit])[..|corr|] == corr;
  }

  lemma {:induction false} OldLast(z: Coefs, a: nat, b: nat, rest: Tokens)
    requires a < b <= 64
    ensures OldTokens(z, a, b, rest) ==
              OldTokens(z, a, b - 1, if Abs(z[b - 1]) > 1 then Cons(Val(NextBit(z[b - 1]), 1), rest) else rest)
    decreases b - a
  {
    if a + 1 < b {
      OldLast(z, a + 1, b, rest);
    }
  }

  lemma {:induction false} OldNone(z: Coefs, a: nat, b: nat, rest: Tokens)
    requires a <= b <= 64 && forall j :: a <= j < b ==> Abs(z[j]) <= 1
    ensures OldTokens(z, a, b, rest) == rest && OldBits(z, a, b) == []
    decreases b - a
  {
    if a < b {
      OldNone(z, a + 1, b, rest);
      OldSplit(z, a, a + 1, b);
    }
  }

  lemma {:induction false} OldTokensSplit(z: Coefs, a: nat, b: nat, c: nat, rest: Tokens)
    requires a <= b <= c <= 64
    ensures OldTokens(z, a, c, rest) == OldTokens(z, a, b, OldTokens(z, b, c, rest))
    decreases b - a
  {
    if a < b {
      OldTokensSplit(z, a + 1, b, c, rest);
    }
  }

  // The refined band from k on, where a symbol begins. Behind the last newly nonzero
  // coefficient the band leaves everything to the run of ended bands.
  function Seen(tbl: HuffNo, z: Coefs, se: nat, k: nat, rest: Tokens): Tokens
    requires se < 64 && k <= se + 1
    decreases se + 1 - k
  {
    var p := NextNew(z, se, k);
    if p > se then rest
    else if Zeros(z, k, p) <= 15 then
      Cons(Sym(tbl, 16 * Zeros(z, k, p) + 1), Cons(SignToken(z[p]), OldTokens(z, k, p, Seen(tbl, z, se, p + 1, rest))))
    else
      var q := SixteenthZero(z, k, p);
      Cons(Sym(tbl, 0xF0), OldTokens(z, k, q, Seen(tbl, z, se, q + 1, rest)))
  }

  function SixteenthZero(z: Coefs, k: nat, p: nat): (q: nat)
    requires k <= p <= 64 && Zeros(z, k, p) > 15
    ensures k <= q < p && z[q] == 0 && Zeros(z, k, q) == 15
  {
    ZerosMonotone(z, k, p, 64);
    var q := ZeroAt(z, k, 15);
    if q >= p then ZerosMonotone(z, k, p, q); q else q
  }

  // Where the run of ended bands takes over.
  function Tail(z: Coefs, se: nat, k: nat): (t: nat)
    requires se < 64 && k <= se + 1
    ensures k <= t <= se + 1
    decreases se + 1 - k
  {
    var p := NextNew(z, se, k);
    if p > se then k else Tail(z, se, p + 1)
  }

  function RunOf(z: Coefs, se: nat, k: nat): (nat, seq<Bit>)
    requires se < 64 && k <= se + 1
  {
    if Tail(z, se, k) > se then (0, []) else (1, OldBits(z, Tail(z, se, k), se + 1))
  }

  predicate LastNewIs(z: Coefs, se: nat, k: nat, eob: nat)
    requires se < 64
  {
    NewUpTo(z, k, se, eob) && (eob < k || (eob <= se && Abs(z[eob]) == 1))
  }

  lemma OldFirst(z: Coefs, k: nat, b: nat, br: seq<Bit>)
    requires k < b <= 64
    ensures br + OldBits(z, k, b) == (br + if Abs(z[k]) > 1 then [NextBit(z[k])] else []) + OldBits(z, k + 1, b)
  {
    OldSplit(z, k, k + 1, b);
    assert OldBits(z, k, k) == [];
  }

  // Nothing becomes nonzero any more: the rest of the band joins the run; all are the
  // correction bits of the band.
  lemma {:induction false} RefineInRun(tbl: HuffNo, z: Coefs, se: nat, eob: nat, k: nat, r: nat, run: nat,
                                       corr: seq<Bit>, br: seq<Bit>,
                                       all: seq<Bit>, rest: Tokens)
    requires se < 64 && k <= se + 1 && run < 0x7FFF && NewUpTo(z, k, se, eob) && eob < k
    requires (r > 0 || br != [] || k <= se) && all == br + OldBits(z, k, se + 1)
    ensures var full := run + 1 == 0x7FFF || |corr| + |all| > CORR_LIMIT;
            && RefineTokens(tbl, z, se, eob, k, r, run, corr, br, rest) ==
                 (if full then EobTokens(tbl, run + 1, corr + all, rest) else rest)
            && RefineRun(z, se, eob, k, r, run, corr, br) == if full then (0, []) else (run + 1, corr + all)
    decreases se + 1 - k
  {
    if k > se {
      assert all == br;
    } else {
      OldFirst(z, k, se + 1, br);
      if z[k] == 0 {
        assert br + [] == br;
        RefineInRun(tbl, z, se, eob, k + 1, r + 1, run, corr, br, all, rest);
      } else {
        RefineInRun(tbl, z, se, eob, k + 1, r, run, corr, br + [NextBit(z[k])], all, rest);
      }
    }
  }

  // A pending run is emitted before the first symbol of the band.
  lemma {:induction false} RefineAfterRun(tbl: HuffNo, z: Coefs, se: nat, eob: nat, k: nat, r: nat, run: nat,
                                          corr: seq<Bit>, br: seq<Bit>, rest: Tokens)
    requires se < 64 && k <= se + 1 && run < 0x7FFF && NewUpTo(z, k, se, eob) && NextNew(z, se, k) <= se
    ensures RefineTokens(tbl, z, se, eob, k, r, run, corr, br, rest) ==
              EobTokens(tbl, run, corr, RefineTokens(tbl, z, se, eob, k, r, 0, [], br, rest))
    ensures RefineRun(z, se, eob, k, r, run, corr, br) == RefineRun(z, se, eob, k, r, 0, [], br)
    decreases se + 1 - k
  {
    if z[k] == 0 {
      RefineAfterRun(tbl, z, se, eob, k + 1, r + 1, run, corr, br, rest);
    } else if r <= 15 || k > eob {
      if Abs(z[k]) > 1 {
        RefineAfterRun(tbl, z, se, eob, k + 1, r, run, corr, br + [NextBit(z[k])], rest);
      }
    }
  }

  // What is known between two symbols: k0 is where the last one ended, r zeros and the
  // correction bits br lie behind it. If more is to come, no correction bit is behind
  // the sixteenth zero, because there a ZRL would have been emitted.
  ghost predicate Between(z: Coefs, se: nat, eob: nat, k0: nat, k: nat, r: nat, br: seq<Bit>)
    requires se < 64
  {
    && k0 <= k <= se + 1 && NewUpTo(z, k, se, eob)
    && forall f :: Focus(2, f) ==>
         && LastNewIs(z, se, k, eob) && r == Zeros(z, k0, k) && br == OldBits(z, k0, k)
         && (forall j :: k0 <= j < k ==> Abs(z[j]) != 1)
         && (NextNew(z, se, k) <= se ==> forall j :: k0 <= j < k && z[j] != 0 ==> Zeros(z, k0, j) <= 15)
  }

  lemma {:induction false} NextNewFrom(z: Coefs, se: nat, k0: nat, k: nat)
    requires se < 64 && k0 <= k <= se + 1 && forall j :: k0 <= j < k ==> Abs(z[j]) != 1
    ensures NextNew(z, se, k0) == NextNew(z, se, k)
    decreases k - k0
  {
    if k0 < k {
      NextNewFrom(z, se, k0 + 1, k);
    }
  }

  // One more coefficient.
  lemma BetweenNext(z: Coefs, se: nat, eob: nat, k0: nat, k: nat, r: nat, br: seq<Bit>)
    requires se < 64 && Between(z, se, eob, k0, k, r, br) && NextNew(z, se, k) <= se
    ensures k <= se && k <= eob
    ensures z[k] == 0 ==> Between(z, se, eob, k0, k + 1, r + 1, br)
    ensures Abs(z[k]) > 1 && r <= 15 ==> Between(z, se, eob, k0, k + 1, r, br + [NextBit(z[k])])
    ensures Abs(z[k]) == 1 ==> Between(z, se, eob, k + 1, k + 1, 0, [])
  {
    assert Focus(2, 0);
  }

  // Without a pending run, what the encoder emits for a band is what the decoder sees,
  // and the run that it leaves is that of the tail.
  lemma {:induction false} SeenView(tbl: HuffNo, z: Coefs, se: nat, eob: nat, k0: nat, k: nat, r: nat, br: seq<Bit>,
                                    rest: Tokens)
    requires se < 64 && Between(z, se, eob, k0, k, r, br)
    ensures RefineTokens(tbl, z, se, eob, k, r, 0, [], br, rest) == Seen(tbl, z, se, k0, rest)
    ensures RefineRun(z, se, eob, k, r, 0, [], br) == RunOf(z, se, k0)
    decreases se + 1 - k, r, 1
  {
    if NextNew(z, se, k) <= se {
      BetweenNext(z, se, eob, k0, k, r, br);
    }
    if NextNew(z, se, k) > se {
      SeenTail(tbl, z, se, eob, k0, k, r, br, rest);
    } else if z[k] == 0 {
      SeenView(tbl, z, se, eob, k0, k + 1, r + 1, br, rest);
    } else if r > 15 {
      SeenZrl(tbl, z, se, eob, k0, k, r, br, rest);
    } else if Abs(z[k]) > 1 {
      SeenView(tbl, z, se, eob, k0, k + 1, r, br + [NextBit(z[k])], rest);
    } else {
      SeenView(tbl, z, se, eob, k + 1, k + 1, 0, [], rest);
      SeenNew(tbl, z, se, eob, k0, k, r, br, rest);
    }
  }

  // A newly nonzero coefficient.
  lemma SeenNew(tbl: HuffNo, z: Coefs, se: nat, eob: nat, k0: nat, k: nat, r: nat, br: seq<Bit>, rest: Tokens)
    requires se < 64 && Between(z, se, eob, k0, k, r, br) && k <= se && Abs(z[k]) == 1 && r <= 15
    requires RefineTokens(tbl, z, se, eob, k + 1, 0, 0, [], [], rest) == Seen(tbl, z, se, k + 1, rest)
    requires RefineRun(z, se, eob, k + 1, 0, 0, [], []) == RunOf(z, se, k + 1)
    ensures RefineTokens(tbl, z, se, eob, k, r, 0, [], br, rest) == Seen(tbl, z, se, k0, rest)
    ensures RefineRun(z, se, eob, k, r, 0, [], br) == RunOf(z, se, k0)
  {
    assert Focus(2, 0);
    NextNewFrom(z, se, k0, k);
    assert NextNew(z, se, k) == k;
    CorrOld(z, k0, k, Seen(tbl, z, se, k + 1, rest));
  }

  lemma SeenTail(tbl: HuffNo, z: Coefs, se: nat, eob: nat, k0: nat, k: nat, r: nat, br: seq<Bit>, rest: Tokens)
    requires se < 64 && Between(z, se, eob, k0, k, r, br) && NextNew(z, se, k) > se
    ensures RefineTokens(tbl, z, se, eob, k, r, 0, [], br, rest) == Seen(tbl, z, se, k0, rest)
    ensures RefineRun(z, se, eob, k, r, 0, [], br) == RunOf(z, se, k0)
  {
    TailFacts(z, se, eob, k0, k, r, br);
    var all := OldBits(z, k0, se + 1);
    if k0 <= se {
      RefineInRun(tbl, z, se, eob, k, r, 0, [], br, all, rest);
      assert [] + all == all;
    }
  }

  lemma TailFacts(z: Coefs, se: nat, eob: nat, k0: nat, k: nat, r: nat, br: seq<Bit>)
    requires se < 64 && Between(z, se, eob, k0, k, r, br) && NextNew(z, se, k) > se
    ensures eob < k && k0 <= k <= se + 1 && NextNew(z, se, k0) == NextNew(z, se, k)
    ensures k0 <= se ==> OldBits(z, k0, se + 1) == br + OldBits(z, k, se + 1)
    ensures |OldBits(z, k0, se + 1)| <= se + 1 - k0 && |br| <= k - k0
    ensures NewUpTo(z, k, se, eob) && (k0 <= se ==> r > 0 || br != [] || k <= se)
    ensures k0 == k ==> r == 0 && br == []
  {
    assert Focus(2, 0);
    NextNewFrom(z, se, k0, k);
    OldLength(z, k0, se + 1);
    OldLength(z, k0, k);
    if k0 <= se {
      OldSplit(z, k0, k, se + 1);
    }
  }

  lemma {:induction false} SeenZrl(tbl: HuffNo, z: Coefs, se: nat, eob: nat, k0: nat, k: nat, r: nat, br: seq<Bit>,
                                   rest: Tokens)
    requires se < 64 && Between(z, se, eob, k0, k, r, br) && NextNew(z, se, k) <= se && z[k] != 0 && r > 15
    ensures RefineTokens(tbl, z, se, eob, k, r, 0, [], br, rest) == Seen(tbl, z, se, k0, rest)
    ensures RefineRun(z, se, eob, k, r, 0, [], br) == RunOf(z, se, k0)
    decreases se + 1 - k, r, 0
  {
    var q := ZrlHere(z, se, eob, k0, k, r, br);
    ZrlRest(z, se, eob, k0, k, r, br, q);
    SeenView(tbl, z, se, eob, q + 1, k, r - 16, [], rest);
    ZrlJoined(tbl, z, se, eob, k0, k, r, br, q, rest);
  }

  // The ZRL in front of what comes behind the sixteenth zero q.
  lemma ZrlJoined(tbl: HuffNo, z: Coefs, se: nat, eob: nat, k0: nat, k: nat, r: nat, br: seq<Bit>, q: nat, rest: Tokens)
    requires k0 <= q < k <= se < 64 && NewUpTo(z, k, se, eob) && k <= eob && z[k] != 0 && r > 15
    requires NextNew(z, se, k0) <= se && q < NextNew(z, se, k0) && Zeros(z, k0, NextNew(z, se, k0)) > 15
    requires q == SixteenthZero(z, k0, NextNew(z, se, k0)) && br == OldBits(z, k0, q)
    requires RefineTokens(tbl, z, se, eob, k, r - 16, 0, [], [], rest) == Seen(tbl, z, se, q + 1, rest)
    requires RefineRun(z, se, eob, k, r - 16, 0, [], []) == RunOf(z, se, q + 1)
    ensures RefineTokens(tbl, z, se, eob, k, r, 0, [], br, rest) == Seen(tbl, z, se, k0, rest)
    ensures RefineRun(z, se, eob, k, r, 0, [], br) == RunOf(z, se, k0)
  {
    CorrOld(z, k0, q, Seen(tbl, z, se, q + 1, rest));
    RefineZrl(tbl, z, se, eob, k, r, br, rest);
    SeenIsZrl(tbl, z, se, k0, q, rest);
    TailFrom(z, se, k0, q + 1);
  }

  lemma RefineZrl(tbl: HuffNo, z: Coefs, se: nat, eob: nat, k: nat, r: nat, br: seq<Bit>, rest: Tokens)
    requires k <= se < 64 && NewUpTo(z, k, se, eob) && z[k] != 0 && r > 15 && k <= eob
    ensures RefineTokens(tbl, z, se, eob, k, r, 0, [], br, rest) ==
              Cons(Sym(tbl, 0xF0), CorrTokens(br, RefineTokens(tbl, z, se, eob, k, r - 16, 0, [], [], rest)))
    ensures RefineRun(z, se, eob, k, r, 0, [], br) == RefineRun(z, se, eob, k, r - 16, 0, [], [])
  {
  }

  lemma SeenIsZrl(tbl: HuffNo, z: Coefs, se: nat, k0: nat, q: nat, rest: Tokens)
    requires se < 64 && k0 <= se + 1 && NextNew(z, se, k0) <= se && Zeros(z, k0, NextNew(z, se, k0)) > 15
    requires q == SixteenthZero(z, k0, NextNew(z, se, k0))
    ensures Seen(tbl, z, se, k0, rest) == Cons(Sym(tbl, 0xF0), OldTokens(z, k0, q, Seen(tbl, z, se, q + 1, rest)))
  {
  }

  lemma ZrlHere(z: Coefs, se: nat, eob: nat, k0: nat, k: nat, r: nat, br: seq<Bit>) returns (q: nat)
    requires se < 64 && Between(z, se, eob, k0, k, r, br) && NextNew(z, se, k) <= se && r > 15
    ensures NextNew(z, se, k0) == NextNew(z, se, k) && Zeros(z, k0, NextNew(z, se, k0)) > 15 && k <= eob
    ensures q == SixteenthZero(z, k0, NextNew(z, se, k0)) && k0 <= q < k && z[q] == 0 && Zeros(z, k0, q) == 15
  {
    assert Focus(2, 0);
    q := ZrlPlace(z, se, k0, k, r);
  }

  // A ZRL ends at the sixteenth zero q.
  lemma ZrlPlace(z: Coefs, se: nat, k0: nat, k: nat, r: nat) returns (q: nat)
    requires se < 64 && k0 <= k <= se + 1 && r == Zeros(z, k0, k) && r > 15 && NextNew(z, se, k) <= se
    requires forall j :: k0 <= j < k ==> Abs(z[j]) != 1
    ensures NextNew(z, se, k0) == NextNew(z, se, k) && Zeros(z, k0, NextNew(z, se, k0)) > 15
    ensures q == SixteenthZero(z, k0, NextNew(z, se, k0)) && k0 <= q < k && z[q] == 0 && Zeros(z, k0, q) == 15
  {
    NextNewFrom(z, se, k0, k);
    var p := NextNew(z, se, k0);
    ZerosMonotone(z, k0, k, p);
    q := SixteenthZero(z, k0, p);
    if q >= k {
      ZerosMonotone(z, k0, k, q);
    }
  }

  // Behind it there are only zeros so far.
  lemma ZrlRest(z: Coefs, se: nat, eob: nat, k0: nat, k: nat, r: nat, br: seq<Bit>, q: nat)
    requires se < 64 && Between(z, se, eob, k0, k, r, br) && NextNew(z, se, k) <= se && r > 15
    requires k0 <= q < k && z[q] == 0 && Zeros(z, k0, q) == 15
    ensures br == OldBits(z, k0, q) && Between(z, se, eob, q + 1, k, r - 16, [])
  {
    assert Focus(2, 0);
    ZerosOnly(z, k0, q, k);
    OldSplit(z, k0, q, k);
    OldNone(z, q, k, Nil);
    OldNone(z, q + 1, k, Nil);
    ZerosSplit(z, k0, q + 1, k);
  }

  // Behind the sixteenth zero there are only zeros.
  lemma ZerosOnly(z: Coefs, k0: nat, q: nat, k: nat)
    requires k0 <= q < k <= 64 && z[q] == 0 && Zeros(z, k0, q) == 15
    requires forall j :: k0 <= j < k && z[j] != 0 ==> Zeros(z, k0, j) <= 15
    ensures forall j :: q <= j < k ==> z[j] == 0
  {
    forall j | q < j < k
      ensures z[j] == 0
    {
      ZerosMonotone(z, k0, q + 1, j);
    }
  }

  lemma TailFrom(z: Coefs, se: nat, k0: nat, k: nat)
    requires se < 64 && k0 <= se + 1 && k0 <= k <= NextNew(z, se, k0) <= se
    ensures Tail(z, se, k0) == Tail(z, se, k)
  {
    NextNewFrom(z, se, k0, k);
  }
}

// Decoding an AC refinement band (decode_mcu_AC_refine of jdhuff.c). An attempt may have
// to suspend anywhere; what it leaves in the block must not confuse the next attempt.

module HuffRefinement {
  import opened Prelude
  import opened Coefficients
  import opened Scans
  import opened HuffBits
  import opened HuffBinarisation
  import opened HuffViews
  import opened HuffScan
  import opened HuffTokenReader
  import opened HuffMcuDecoder

  // ---- coefficients between two precisions ----

  // What is stored for coefficient x: the refined value when it was reached. Before, its
  // value at the lower precision, unless an earlier attempt has corrected it already.
  predicate RefKnown(v: Coef, x: Coef, al: nat, reached: bool) {
    if reached then v == Trunc(x, al)
    else v == Trunc(x, al + 1) || (Abs(PointTransform(x, al)) > 1 && v == Trunc(x, al))
  }

  // A correction bit for v; a bit that is set already is left alone.
  function Corrected(v: Coef, al: nat, bit: nat): Coef {
    if bit == 0 || Shr(v, al) % 2 != 0 then v
    else ToCoef(if v >= 0 then v + Shl(1, al) else v - Shl(1, al))
  }

  // Corrections can be repeated.
  lemma CorrectionOnce(v: Coef, x: Coef, al: nat)
    requires RefKnown(v, x, al, false) && Abs(PointTransform(x, al)) > 1
    ensures v != 0 && Corrected(v, al, Abs(PointTransform(x, al)) % 2) == Trunc(x, al)
  {
    RefineOne(x, al);
    var q, a := PointTransform(x, al), Abs(PointTransform(x, al));
    var lower: int := a / 2 * 2;
    lower := if x < 0 then -lower else lower;
    TruncZero(x, al);
    ScaledBack(x, al);
    LowerPrecision(x, al);
    ShrOfShl(q, al);
    ShrOfShl(lower, al);
    if v == Trunc(x, al) {
      assert Shr(v, al) == q;
    } else {
      assert Shr(v, al) == lower && a % 2 == 1;
    }
  }

  // The value at the lower precision, in units of the higher one.
  lemma LowerPrecision(x: Coef, al: nat)
    ensures var a := Abs(PointTransform(x, al));
            Trunc(x, al + 1) == Shl(if x < 0 then -(a / 2 * 2) else a / 2 * 2, al)
  {
    ShrShrinks(Abs(x), al);
    ShrHalves(Abs(x), al);
    var h := Shr(Abs(x), al + 1);
    ShlDouble(h, al);
    ShlAdd(h, h, al);
    ShlNegates(h + h, al);
  }

  // Coefficients that were zero stay zero until they are reached.
  lemma ZeroUntouched(v: Coef, x: Coef, al: nat)
    requires RefKnown(v, x, al, false)
    ensures v == 0 <==> Abs(PointTransform(x, al)) <= 1
    ensures PointTransform(x, al) == 0 ==> RefKnown(v, x, al, true)
  {
    RefineOne(x, al);
    if Abs(PointTransform(x, al)) > 1 {
      CorrectionOnce(v, x, al);
    }
  }

  lemma NewValue(x: Coef, al: nat)
    requires Abs(PointTransform(x, al)) == 1
    ensures ToCoef(Shl(PointTransform(x, al), al)) == Trunc(x, al)
  {
    ScaledBack(x, al);
  }

  // ---- the band ----

  // The coefficients of the band up to k - 1 are reached.
  ghost predicate Refined(s: Scan, data: seq<Coef>, off: nat, k: nat, b: Block)
    requires ScanOk(s) && off + 64 <= |data|
  {
    forall j :: s.ss <= j <= s.se ==> RefKnown(data[off + s.order[j]], b[s.order[j]], s.al, j < k)
  }

  // Coefficient k is reached.
  lemma RefinedStep(s: Scan, data: seq<Coef>, off: nat, k: nat, b: Block, v: Coef)
    requires ScanOk(s) && off + 64 <= |data| && s.ss <= k <= s.se && Refined(s, data, off, k, b)
    requires RefKnown(v, b[s.order[k]], s.al, true)
    ensures Refined(s, data[off + s.order[k] := v], off, k + 1, b)
  {
  }

  // The positions that became nonzero are those that the attempt has set. Closed.
  ghost predicate NewOnes(s: Scan, newnz: seq<nat>, k: nat, b: Block)
    requires ScanOk(s)
  {
    forall f :: Focus(1, f) ==>
      && (forall j :: s.ss <= j <= s.se ==>
          (s.order[j] in newnz <==> j < k && Abs(PointTransform(b[s.order[j]], s.al)) == 1))
      && forall p :: p in newnz ==> InBand(s, 0, s.ss - 1, s.se, p)
  }

  // After zeroing them again the band looks as before the attempt, corrections aside.
  lemma UndoneBand(s: Scan, data: seq<Coef>, data': seq<Coef>, off: nat, newnz: seq<nat>, k: nat, b: Block)
    requires ScanOk(s) && off + 64 <= |data| == |data'| && Refined(s, data, off, k, b) && NewOnes(s, newnz, k, b)
    requires forall p :: 0 <= p < 64 ==> data'[off + p] == if p in newnz then 0 else data[off + p]
    ensures Refined(s, data', off, s.ss, b)
  {
    assert Focus(1, 0);
    forall j | s.ss <= j <= s.se
      ensures RefKnown(data'[off + s.order[j]], b[s.order[j]], s.al, false)
    {
      RefineOne(b[s.order[j]], s.al);
      assert s.order[j] in newnz <==> j < k && Abs(PointTransform(b[s.order[j]], s.al)) == 1;
    }
  }

  // ---- reading ----

  // The next coefficient is nonzero already: append a correction bit to it.
  method Correct(tr: TokenReader, s: Scan, data: array<Coef>, off: nat, k: nat, ghost on: bool, ghost b: Block,
                 ghost rest: Tokens)
    returns (ok: bool)
    requires tr.Valid() && ScanOk(s) && off + 64 <= data.Length && s.ss <= k <= s.se
    requires on ==>
               tr.pending == Some(Cons(Val(NextBit(Ordered(s, b, s.al)[k]), 1), rest))
               && Abs(Ordered(s, b, s.al)[k]) > 1
    requires on ==> Refined(s, data[..], off, k, b)
    modifies tr, tr.br, data
    ensures Went(tr, ok) && (on && ok ==> Reached(tr, rest))
    ensures on ==> Refined(s, data[..], off, if ok then k + 1 else k, b)
    ensures forall i :: 0 <= i < data.Length && i != off + s.order[k] ==> data[i] == old(data[i])
  {
    var bit := tr.ReceiveValue(1);
    if bit == None {
      return false;
    }
    if on {
      LowLow(NextBit(Ordered(s, b, s.al)[k]), 1);
      assert Low(NextBit(Ordered(s, b, s.al)[k]), 1) == NextBit(Ordered(s, b, s.al)[k]);
    }
    Append(s, data, off, k, bit.value, on, b);
    ok := true;
  }

  // Append the bit, unless an earlier attempt did so.
  method Append(s: Scan, data: array<Coef>, off: nat, k: nat, bit: nat, ghost on: bool, ghost b: Block)
    requires ScanOk(s) && off + 64 <= data.Length && s.ss <= k <= s.se
    requires on ==>
               Refined(s, data[..], off, k, b) && bit == NextBit(Ordered(s, b, s.al)[k])
               && Abs(Ordered(s, b, s.al)[k]) > 1
    modifies data
    ensures on ==> Refined(s, data[..], off, k + 1, b)
    ensures forall i :: 0 <= i < data.Length && i != off + s.order[k] ==> data[i] == old(data[i])
  {
    var place := off + s.order[k];
    ghost var was := data[..];
    if bit != 0 && Shr(data[place], s.al) % 2 == 0 {
      data[place] := ToCoef(if data[place] >= 0 then data[place] + Shl(1, s.al) else data[place] - Shl(1, s.al));
    }
    assert data[..] == was[place := Corrected(was[place], s.al, bit)];
    if on {
      AppendedOnce(s, was, off, k, bit, b);
    }
  }

  lemma AppendedOnce(s: Scan, data: seq<Coef>, off: nat, k: nat, bit: nat, b: Block)
    requires ScanOk(s) && off + 64 <= |data| && s.ss <= k <= s.se && Refined(s, data, off, k, b)
    requires bit == NextBit(Ordered(s, b, s.al)[k]) && Abs(Ordered(s, b, s.al)[k]) > 1
    ensures Refined(s, data[off + s.order[k] := Corrected(data[off + s.order[k]], s.al, bit)], off, k + 1, b)
  {
    CorrectionOnce(data[off + s.order[k]], b[s.order[k]], s.al);
    RefinedStep(s, data, off, k, b, Trunc(b[s.order[k]], s.al));
  }

  // Coefficient k on the way to `target`: a correction bit if it is nonzero already.
  ghost predicate OnTheWay(tr: TokenReader, s: Scan, data: seq<Coef>, off: nat, k: nat, b: Block, target: nat,
                           after: Tokens)
    requires ScanOk(s) && off + 64 <= |data|
    reads tr
  {
    k <= target <= s.se + 1 && tr.pending == Some(OldTokens(Ordered(s, b, s.al), k, target, after))
    && Refined(s, data, off, k, b)
  }

  method Pass(tr: TokenReader, s: Scan, data: array<Coef>, off: nat, k: nat, ghost on: bool, ghost b: Block,
              ghost target: nat, ghost after: Tokens)
    returns (ok: bool, nonzero: bool)
    requires tr.Valid() && ScanOk(s) && off + 64 <= data.Length && s.ss <= k <= s.se
    requires on ==> OnTheWay(tr, s, data[..], off, k, b, target, after)
    requires on ==> if k < target then Abs(Ordered(s, b, s.al)[k]) != 1 else Abs(Ordered(s, b, s.al)[k]) <= 1
    modifies tr, tr.br, data
    ensures Went(tr, ok)
    ensures on && ok ==>
              nonzero == (Abs(Ordered(s, b, s.al)[k]) > 1) && tr.br.insufficientData == old(tr.br.insufficientData)
    ensures on && ok ==> OnTheWay(tr, s, data[..], off, if k < target then k + 1 else k, b, target, after)
    ensures on && !ok ==> k < target && Refined(s, data[..], off, k, b)
    ensures Framed(s, on, off, old(data[..]), data[..])
  {
    ok, nonzero := true, data[off + s.order[k]] != 0;
    ghost var was, rest := data[..], Nil;
    if on {
      rest := PassFacts(tr, s, was, off, k, b, target, after);
    }
    if nonzero {
      ok := Correct(tr, s, data, off, k, on, b, rest);
      FramedAt(s, on, off, k, was, data[..]);
    }
  }

  lemma PassFacts(tr: TokenReader, s: Scan, data: seq<Coef>, off: nat, k: nat, b: Block, target: nat, after: Tokens)
    returns (rest: Tokens)
    requires ScanOk(s) && off + 64 <= |data| && s.ss <= k <= s.se && OnTheWay(tr, s, data, off, k, b, target, after)
    requires if k < target then Abs(Ordered(s, b, s.al)[k]) != 1 else Abs(Ordered(s, b, s.al)[k]) <= 1
    ensures data[off + s.order[k]] != 0 <==> Abs(Ordered(s, b, s.al)[k]) > 1
    ensures k < target ==> rest == OldTokens(Ordered(s, b, s.al), k + 1, target, after)
    ensures k < target && data[off + s.order[k]] != 0 ==>
              tr.pending == Some(Cons(Val(NextBit(Ordered(s, b, s.al)[k]), 1), rest))
    ensures k < target && data[off + s.order[k]] == 0 ==> tr.pending == Some(rest) && Refined(s, data, off, k + 1, b)
  {
    ReadyAt(s, data, off, k, b);
    rest := OldStep(Ordered(s, b, s.al), k, target, after);
  }

  lemma OldStep(z: Coefs, k: nat, target: nat, after: Tokens) returns (rest: Tokens)
    requires k <= target <= 64
    ensures k < target ==> rest == OldTokens(z, k + 1, target, after)
    ensures k < target ==>
              OldTokens(z, k, target, after) == if Abs(z[k]) > 1 then Cons(Val(NextBit(z[k]), 1), rest) else rest
  {
    rest := if k < target then OldTokens(z, k + 1, target, after) else after;
  }

  lemma ReadyAt(s: Scan, data: seq<Coef>, off: nat, k: nat, b: Block)
    requires ScanOk(s) && off + 64 <= |data| && s.ss <= k <= s.se && Refined(s, data, off, k, b)
    ensures var z, v := Ordered(s, b, s.al), data[off + s.order[k]];
            && (v != 0 <==> Abs(z[k]) > 1) && (Abs(z[k]) != 1 && v == 0 ==> Refined(s, data, off, k + 1, b))
  {
    var x, v := b[s.order[k]], data[off + s.order[k]];
    assert RefKnown(v, x, s.al, false);
    ZeroUntouched(v, x, s.al);
    assert Ordered(s, b, s.al)[k] == PointTransform(x, s.al);
    if RefKnown(v, x, s.al, true) {
      StillZero(s, data, off, k, b);
    }
  }

  lemma StillZero(s: Scan, data: seq<Coef>, off: nat, k: nat, b: Block)
    requires ScanOk(s) && off + 64 <= |data| && s.ss <= k <= s.se && Refined(s, data, off, k, b)
    requires RefKnown(data[off + s.order[k]], b[s.order[k]], s.al, true)
    ensures Refined(s, data, off, k + 1, b)
  {
    forall j | s.ss <= j <= s.se
      ensures RefKnown(data[off + s.order[j]], b[s.order[j]], s.al, j < k + 1)
    {
      assert RefKnown(data[off + s.order[j]], b[s.order[j]], s.al, j < k);
    }
  }

  // What is still to be read up to the coefficient `target`, of which r stay zero.
  ghost predicate Passing(tr: TokenReader, s: Scan, data: seq<Coef>, off: nat, k: nat, r: int, b: Block, target: nat,
                          after: Tokens)
    requires ScanOk(s) && off + 64 <= |data|
    reads tr
  {
    var z := Ordered(s, b, s.al);
    target <= s.se && OnTheWay(tr, s, data, off, k, b, target, after) && ZerosLeft(z, k, r, target)
  }

  // Of the coefficients from k to target - 1 none becomes nonzero and r stay zero. Closed.
  ghost predicate ZerosLeft(z: Coefs, k: nat, r: int, target: nat)
    requires k <= target < 64
  {
    forall f :: Focus(2, f) ==> r == Zeros(z, k, target) && Abs(z[target]) <= 1 && forall j :: k <= j < target ==>
      Abs(z[j]) != 1
  }

  lemma ZerosLeftStep(z: Coefs, k: nat, r: int, target: nat)
    requires k <= target < 64 && ZerosLeft(z, k, r, target)
    ensures if k == target then r == 0 && Abs(z[k]) <= 1
            else
              && Abs(z[k]) != 1 && r >= (if z[k] == 0 then 1 else 0)
              && ZerosLeft(z, k + 1, if z[k] == 0 then r - 1 else r, target)
  {
    assert Focus(2, 0);
    ZerosFirst(z, k, target);
  }

  method PassOne(tr: TokenReader, s: Scan, data: array<Coef>, off: nat, k: nat, ghost r: int,
                 ghost on: bool, ghost b: Block, ghost target: nat, ghost after: Tokens)
    returns (ok: bool, nonzero: bool)
    requires tr.Valid() && ScanOk(s) && off + 64 <= data.Length && s.ss <= k <= s.se
    requires on ==> Passing(tr, s, data[..], off, k, r, b, target, after)
    modifies tr, tr.br, data
    ensures Went(tr, ok) && (on && !ok ==> k < target && Refined(s, data[..], off, k, b))
    ensures on && ok ==> tr.br.insufficientData == old(tr.br.insufficientData)
    ensures on && ok ==>
              if k < target then Passing(tr, s, data[..], off, k + 1, if nonzero then r else r - 1, b, target, after)
              else !nonzero && r == 0 && Passing(tr, s, data[..], off, k, r, b, target, after)
    ensures on && ok && k < target && !nonzero ==> r > 0
    ensures Framed(s, on, off, old(data[..]), data[..])
  {
    if on {
      ZerosLeftStep(Ordered(s, b, s.al), k, r, target);
    }
    ok, nonzero := Pass(tr, s, data, off, k, on, b, target, after);
  }

  // Advance over nonzero coefficients and r that stay zero.
  method Advance(tr: TokenReader, s: Scan, data: array<Coef>, off: nat, k0: nat, zeros: nat,
                 ghost on: bool, ghost b: Block, ghost target: nat, ghost after: Tokens) returns (ok: bool, k: nat)
    requires tr.Valid() && ScanOk(s) && off + 64 <= data.Length && s.ss <= k0 <= s.se
    requires on ==> Passing(tr, s, data[..], off, k0, zeros, b, target, after)
    modifies tr, tr.br, data
    ensures Went(tr, ok) && k0 <= k <= s.se + 1
    ensures on ==> k <= target && Refined(s, data[..], off, k, b)
    ensures on && ok ==> k == target && Reached(tr, after)
    ensures Framed(s, on, off, old(data[..]), data[..])
  {
    k := k0;
    var r: int := zeros;
    while k <= s.se
      invariant k0 <= k <= s.se + 1 && Went(tr, true) && r >= 0
      invariant on ==> Passing(tr, s, data[..], off, k, r, b, target, after)
      invariant on ==> tr.br.insufficientData == old(tr.br.insufficientData)
      invariant Framed(s, on, off, old(data[..]), data[..])
    {
      var nonzero;
      ok, nonzero := PassOne(tr, s, data, off, k, r, on, b, target, after);
      if !ok {
        return;
      }
      if !nonzero {
        r := r - 1;
        if r < 0 {
          break;
        }
      }
      k := k + 1;
    }
    ok := true;
  }

  // The coefficient at which the run of zeros of a symbol ends.
  function TargetOf(z: Coefs, se: nat, k: nat): (t: nat)
    requires k <= se < 64 && NextNew(z, se, k) <= se
    ensures k <= t <= se && Abs(z[t]) <= 1 && forall j :: k <= j < t ==> Abs(z[j]) != 1
    ensures Zeros(z, k, t) <= 15 && (z[t] == 0 ==> Zeros(z, k, t) == 15) && (z[t] != 0 <==> t == NextNew(z, se, k))
  {
    var p := NextNew(z, se, k);
    if Zeros(z, k, p) <= 15 then p else SixteenthZero(z, k, p)
  }

  // What lies behind it.
  lemma BehindTarget(tbl: HuffNo, z: Coefs, se: nat, k: nat, end: Tokens)
    requires k <= se < 64 && NextNew(z, se, k) <= se
    ensures var t := TargetOf(z, se, k);
            && Tail(z, se, t + 1) == Tail(z, se, k)
            && Seen(tbl, z, se, k, end) ==
               if z[t] != 0 then
                 Cons(Sym(tbl, 16 * Zeros(z, k, t) + 1),
                      Cons(SignToken(z[t]), OldTokens(z, k, t, Seen(tbl, z, se, t + 1, end))))
               else Cons(Sym(tbl, 0xF0), OldTokens(z, k, t, Seen(tbl, z, se, t + 1, end)))
  {
    var p := NextNew(z, se, k);
    if Zeros(z, k, p) > 15 {
      TailFrom(z, se, k, SixteenthZero(z, k, p) + 1);
    }
  }

  // Nothing new from k0 to k - 1.
  lemma NewOnesKept(s: Scan, newnz: seq<nat>, k0: nat, k: nat, b: Block)
    requires ScanOk(s) && k0 <= k && NewOnes(s, newnz, k0, b)
    requires forall j :: k0 <= j < k && j <= s.se ==> Abs(Ordered(s, b, s.al)[j]) != 1
    ensures NewOnes(s, newnz, k, b)
  {
    assert Focus(1, 0);
    forall j | s.ss <= j <= s.se
      ensures s.order[j] in newnz <==> j < k && Abs(PointTransform(b[s.order[j]], s.al)) == 1
    {
      assert Ordered(s, b, s.al)[j] == PointTransform(b[s.order[j]], s.al);
    }
  }

  // Coefficient t, which may be new.
  lemma NewOnesNext(s: Scan, newnz: seq<nat>, t: nat, b: Block)
    requires ScanOk(s) && s.ss <= t <= s.se && NewOnes(s, newnz, t, b)
    ensures var z := Ordered(s, b, s.al)[t];
            NewOnes(s, if z != 0 && Abs(z) <= 1 then newnz + [s.order[t]] else newnz, t + 1, b)
  {
    assert Focus(1, 0);
    assert Ordered(s, b, s.al)[t] == PointTransform(b[s.order[t]], s.al);
    assert InBand(s, 0, s.ss - 1, s.se, s.order[t]);
  }

  lemma NewOnesStep(s: Scan, newnz: seq<nat>, k: nat, t: nat, b: Block)
    requires ScanOk(s) && s.ss <= k <= t <= s.se && NewOnes(s, newnz, k, b)
    requires forall j :: k <= j < t ==> Abs(Ordered(s, b, s.al)[j]) != 1
    ensures forall i :: k <= i <= t ==> NewOnes(s, newnz, i, b)
    ensures var z := Ordered(s, b, s.al)[t];
            NewOnes(s, if z != 0 && Abs(z) <= 1 then newnz + [s.order[t]] else newnz, t + 1, b)
  {
    forall i | k <= i <= t
      ensures NewOnes(s, newnz, i, b)
    {
      NewOnesKept(s, newnz, k, i, b);
    }
    NewOnesNext(s, newnz, t, b);
  }

  // The tokens of a symbol that ends at coefficient t, with n zeros before it.
  function EventTokens(tbl: HuffNo, z: Coefs, k: nat, t: nat, n: nat, after: Tokens): Tokens
    requires k <= t < 64 && n <= 15
  {
    if z[t] != 0 then Cons(Sym(tbl, 16 * n + 1), Cons(SignToken(z[t]), OldTokens(z, k, t, after)))
    else Cons(Sym(tbl, 0xF0), OldTokens(z, k, t, after))
  }

  predicate IsEobHead(tbl: HuffNo, end: Tokens) {
    end.Cons? && end.head.Sym? && end.head.tbl == tbl && end.head.s % 16 == 0 && end.head.s < 240
  }

  // The next symbol: a new coefficient after n that stay zero, 16 that stay zero, or the
  // end of the band.
  method RefineEvent(tr: TokenReader, tbl: HuffNo, ghost on: bool, ghost more: bool, ghost z: Coefs, ghost k: nat,
                     ghost t: nat, ghost n: nat,
                     ghost after: Tokens, ghost end: Tokens) returns (e: Event)
    requires tr.Valid() && tr.pairs[tbl].Some? && k <= t < 64 && n <= 15
    requires on && more ==> tr.pending == Some(EventTokens(tbl, z, k, t, n, after)) && Abs(z[t]) <= 1
    requires on && !more ==> tr.pending == Some(end) && IsEobHead(tbl, end)
    modifies tr, tr.br
    ensures Went(tr, e != Suspended) && (e.Eob? ==> e.r < 15) && (e.Coef? ==> e.r < 16)
    ensures on && e != Suspended ==>
              if more then e == (if z[t] != 0 then Coef(n, z[t]) else SixteenZeros)
              && Reached(tr, OldTokens(z, k, t, after))
              else e == Eob(end.head.s / 16) && Reached(tr, end.tail)
  {
    var symbol := tr.DecodeSymbol(tbl);
    if symbol == None {
      return Suspended;
    }
    var r, s := symbol.value / 16, symbol.value % 16;
    if s != 0 {
      var sign := tr.ReceiveValue(1);
      if sign == None {
        return Suspended;
      }
      return Coef(r, if sign != Some(0) then 1 else -1);
    }
    return if r == 15 then SixteenZeros else Eob(r);
  }

  // Behind the last new coefficient: the correction bits of the rest of the band.
  ghost predicate InTail(tr: TokenReader, s: Scan, data: seq<Coef>, off: nat, k: nat, b: Block, rest: Tokens)
    requires ScanOk(s) && off + 64 <= |data|
    reads tr
  {
    var z := Ordered(s, b, s.al);
    OnTheWay(tr, s, data, off, k, b, s.se + 1, rest) && forall j :: k <= j <= s.se ==> Abs(z[j]) != 1
  }

  // Append correction bits up to the end of the band.
  method CorrectRest(tr: TokenReader, s: Scan, data: array<Coef>, off: nat, k0: nat, ghost on: bool, ghost b: Block,
                     ghost rest: Tokens)
    returns (ok: bool, ghost k: nat)
    requires tr.Valid() && ScanOk(s) && off + 64 <= data.Length && s.ss <= k0
    requires on ==> InTail(tr, s, data[..], off, k0, b, rest)
    modifies tr, tr.br, data
    ensures Went(tr, ok) && k0 <= k
    ensures on ==> k <= s.se + 1 && Refined(s, data[..], off, k, b) && forall j :: k0 <= j <= s.se ==>
              Abs(Ordered(s, b, s.al)[j]) != 1
    ensures on && ok ==> k == s.se + 1 && Reached(tr, rest)
    ensures Framed(s, on, off, old(data[..]), data[..])
  {
    var j := k0;
    k := k0;
    while j <= s.se
      invariant k0 <= j == k && Went(tr, true)
      invariant on ==> InTail(tr, s, data[..], off, j, b, rest) && tr.br.insufficientData == old(tr.br.insufficientData)
      invariant Framed(s, on, off, old(data[..]), data[..])
    {
      var nonzero;
      ok, nonzero := Pass(tr, s, data, off, j, on, b, s.se + 1, rest);
      if !ok {
        return;
      }
      j := j + 1;
      k := k + 1;
    }
    ok := true;
  }


  // The band behind coefficient t, which ends the run of a symbol that begins at k.
  // Closed.
  ghost predicate StepPlan(s: Scan, tbl: HuffNo, b: Block, k: nat, t: nat, after: Tokens, newnz: seq<nat>, end: Tokens,
                           m: nat, rest: Tokens)
    requires ScanOk(s)
  {
    forall f :: Focus(2, f) ==>
      var z := Ordered(s, b, s.al);
      && k <= t <= s.se && after == Seen(tbl, z, s.se, t + 1, end)
      && EndsWith(tbl, Tail(z, s.se, t + 1) <= s.se, end, m, OldTokens(z, Tail(z, s.se, t + 1), s.se + 1, rest))
      && NewOnes(s, newnz, k, b) && Abs(z[t]) <= 1 && forall j :: k <= j < t ==> Abs(z[j]) != 1
  }

  lemma StepPlanned(s: Scan, tbl: HuffNo, b: Block, k: nat, newnz: seq<nat>, end: Tokens, m: nat, rest: Tokens)
    returns (t: nat, n: nat, after: Tokens)
    requires ScanOk(s) && k <= s.se && NextNew(Ordered(s, b, s.al), s.se, k) <= s.se && NewOnes(s, newnz, k, b)
    requires var z := Ordered(s, b, s.al);
             EndsWith(tbl, Tail(z, s.se, k) <= s.se, end, m, OldTokens(z, Tail(z, s.se, k), s.se + 1, rest))
    ensures StepPlan(s, tbl, b, k, t, after, newnz, end, m, rest)
    ensures var z := Ordered(s, b, s.al);
            && k <= t <= s.se && n <= 15 && (z[t] == 0 ==> n == 15) && Abs(z[t]) <= 1 && ZerosLeft(z, k, n, t)
            && Seen(tbl, z, s.se, k, end) == EventTokens(tbl, z, k, t, n, after)
  {
    var z := Ordered(s, b, s.al);
    t := TargetOf(z, s.se, k);
    n, after := Zeros(z, k, t), Seen(tbl, z, s.se, t + 1, end);
    BehindTarget(tbl, z, s.se, k, end);
  }

  // What the next symbol will be.
  lemma EventPlanned(tr: TokenReader, s: Scan, tbl: HuffNo, data: seq<Coef>, off: nat, k: nat, newnz: seq<nat>,
                     b: Block, end: Tokens, m: nat, rest: Tokens)
    returns (more: bool, t: nat, n: nat, after: Tokens)
    requires ScanOk(s) && off + 64 <= |data| && k <= s.se && BandAt(tr, s, tbl, data, off, k, newnz, b, end, m, rest)
    ensures k <= t < 64 && n <= 15 && Refined(s, data, off, k, b)
    ensures var z := Ordered(s, b, s.al);
            if more then
              && t <= s.se && tr.pending == Some(EventTokens(tbl, z, k, t, n, after)) && Abs(z[t]) <= 1
              && (z[t] == 0 ==> n == 15)
              && ZerosLeft(z, k, n, t) && StepPlan(s, tbl, b, k, t, after, newnz, end, m, rest)
            else
              && tr.pending == Some(end) && IsEobHead(tbl, end) && EndOfBand(s, tbl, b, k, end, m, rest)
              && end.head.s / 16 == NBits(m) - 1
  {
    assert Focus(2, 0);
    var z := Ordered(s, b, s.al);
    more, t, n, after := NextNew(z, s.se, k) <= s.se, k, 0, Nil;
    if more {
      t, n, after := StepPlanned(s, tbl, b, k, newnz, end, m, rest);
    } else {
      EobHeadParts(tbl, m, OldTokens(z, k, s.se + 1, rest));
    }
  }

  // The band is exhausted.
  lemma BandOver(tr: TokenReader, s: Scan, tbl: HuffNo, data: seq<Coef>, off: nat, k: nat, newnz: seq<nat>, b: Block,
                 end: Tokens, m: nat, rest: Tokens)
    requires ScanOk(s) && off + 64 <= |data| && k > s.se && BandAt(tr, s, tbl, data, off, k, newnz, b, end, m, rest)
    ensures m == 0 && tr.pending == Some(rest) && Refined(s, data, off, s.se + 1, b)
  {
    assert Focus(2, 0);
  }

  // The symbol itself.
  method ReadEvent(tr: TokenReader, s: Scan, tbl: HuffNo, off: nat, k: nat, ghost newnz: seq<nat>, ghost on: bool,
                   ghost data: seq<Coef>,
                   ghost b: Block, ghost end: Tokens, ghost m: nat, ghost rest: Tokens)
    returns (e: Event, ghost t: nat, ghost after: Tokens)
    requires tr.Valid() && tr.pairs[tbl].Some? && ScanOk(s) && off + 64 <= |data| && s.ss <= k <= s.se
    requires on ==> BandAt(tr, s, tbl, data, off, k, newnz, b, end, m, rest)
    modifies tr, tr.br
    ensures Went(tr, e != Suspended) && (e.Eob? ==> e.r < 15)
    ensures on && e != Suspended ==> tr.br.insufficientData == old(tr.br.insufficientData)
    ensures on && (e.SixteenZeros? || e.Coef?) ==>
              && Passing(tr, s, data, off, k, if e.Coef? then e.r else 15, b, t, after)
              && StepPlan(s, tbl, b, k, t, after, newnz, end, m, rest)
              && Ordered(s, b, s.al)[t] == (if e.Coef? then e.v else 0) && (e.Coef? ==> Abs(e.v) == 1)
    ensures on && e.Eob? ==>
              EndOfBand(s, tbl, b, k, end, m, rest) && e.r == NBits(m) - 1 && tr.pending == Some(end.tail)
  {
    ghost var more, n := false, 0;
    t, after := k, Nil;
    if on {
      more, t, n, after := EventPlanned(tr, s, tbl, data, off, k, newnz, b, end, m, rest);
    }
    e := RefineEvent(tr, tbl, on, more, Ordered(s, b, s.al), k, t, n, after, end);
  }

  // Decoding the band before coefficient k. Its tokens are closed.
  ghost predicate BandAt(tr: TokenReader, s: Scan, tbl: HuffNo, data: seq<Coef>, off: nat, k: nat, newnz: seq<nat>,
                         b: Block, end: Tokens, m: nat, rest: Tokens)
    requires ScanOk(s) && off + 64 <= |data|
    reads tr
  {
    && k <= s.se + 1 && Refined(s, data, off, k, b) && NewOnes(s, newnz, k, b)
    && forall f :: Focus(2, f) ==>
         var z := Ordered(s, b, s.al);
         && tr.pending == Some(Seen(tbl, z, s.se, k, end))
         && EndsWith(tbl, Tail(z, s.se, k) <= s.se, end, m, OldTokens(z, Tail(z, s.se, k), s.se + 1, rest))
  }

  lemma StepDone(tr: TokenReader, s: Scan, tbl: HuffNo, data: seq<Coef>, off: nat, k: nat, t: nat, after: Tokens,
                 newnz: seq<nat>,
                 b: Block, end: Tokens, m: nat, rest: Tokens, newnz': seq<nat>)
    requires ScanOk(s) && off + 64 <= |data| && s.ss <= k && t <= s.se
    requires StepPlan(s, tbl, b, k, t, after, newnz, end, m, rest)
    requires newnz' == if Ordered(s, b, s.al)[t] != 0 then newnz + [s.order[t]] else newnz
    ensures forall i :: k <= i <= t ==> NewOnes(s, newnz, i, b)
    ensures tr.pending == Some(after) && Refined(s, data, off, t + 1, b) ==>
              BandAt(tr, s, tbl, data, off, t + 1, newnz', b, end, m, rest)
  {
    assert Focus(2, 0);
    NewOnesStep(s, newnz, k, t, b);
  }

  // One symbol of the band and the coefficients up to its end. The symbol that ends the
  // band is left with its length bits to follow.
  method RefineStep(tr: TokenReader, s: Scan, tbl: HuffNo, data: array<Coef>, off: nat, k0: nat, newnz0: seq<nat>,
                    ghost on: bool, ghost b: Block, ghost end: Tokens, ghost m: nat, ghost rest: Tokens)
    returns (e: Event, k: nat, newnz: seq<nat>)
    requires tr.Valid() && tr.pairs[tbl].Some? && ScanOk(s) && off + 64 <= data.Length && s.ss <= k0 <= s.se
    requires on ==> BandAt(tr, s, tbl, data[..], off, k0, newnz0, b, end, m, rest)
    modifies tr, tr.br, data
    ensures Went(tr, e != Suspended) && (e.Eob? ==> e.r < 15) && k0 <= k && (e.SixteenZeros? || e.Coef? ==> k > k0)
    ensures newnz0 <= newnz && (forall i :: |newnz0| <= i < |newnz| ==> newnz[i] < 64)
    ensures if e.Coef? then |newnz| == |newnz0| + 1 else newnz == newnz0
    ensures on && e != Suspended ==> tr.br.insufficientData == old(tr.br.insufficientData)
    ensures on && (e.SixteenZeros? || e.Coef?) ==> BandAt(tr, s, tbl, data[..], off, k, newnz, b, end, m, rest)
    ensures on && e.Eob? ==>
              && EndOfBand(s, tbl, b, k0, end, m, rest) && e.r == NBits(m) - 1 && k == k0
              && tr.pending == Some(end.tail) && Refined(s, data[..], off, k, b) && NewOnes(s, newnz, k, b)
    ensures on && e == Suspended ==> Refined(s, data[..], off, k, b) && NewOnes(s, newnz, k, b)
    ensures Framed(s, on, off, old(data[..]), data[..])
  {
    k, newnz := k0, newnz0;
    ghost var t, after;
    e, t, after := ReadEvent(tr, s, tbl, off, k0, newnz0, on, data[..], b, end, m, rest);
    if e.SixteenZeros? || e.Coef? {
      var ok;
      ok, k, newnz := FinishStep(tr, s, tbl, data, off, k0, newnz0, e, on, b, t, after, end, m, rest);
      if !ok {
        e := Suspended;
      }
    }
  }

  method FinishStep(tr: TokenReader, s: Scan, tbl: HuffNo, data: array<Coef>, off: nat, k0: nat, newnz0: seq<nat>,
                    e: Event,
                    ghost on: bool, ghost b: Block, ghost t: nat, ghost after: Tokens, ghost end: Tokens, ghost m: nat,
                    ghost rest: Tokens)
    returns (ok: bool, k: nat, newnz: seq<nat>)
    requires tr.Valid() && ScanOk(s) && off + 64 <= data.Length && s.ss <= k0 <= s.se && (e.SixteenZeros? || e.Coef?)
    requires on ==> Passing(tr, s, data[..], off, k0, if e.Coef? then e.r else 15, b, t, after)
    requires on ==> StepPlan(s, tbl, b, k0, t, after, newnz0, end, m, rest)
    requires on ==> Ordered(s, b, s.al)[t] == (if e.Coef? then e.v else 0) && (e.Coef? ==> Abs(e.v) == 1)
    modifies tr, tr.br, data
    ensures Went(tr, ok) && k0 <= k && (ok ==> k > k0) && newnz0 <= newnz
    ensures if ok && e.Coef? then |newnz| == |newnz0| + 1 && newnz[|newnz0|] < 64 else newnz == newnz0
    ensures on && ok ==>
              BandAt(tr, s, tbl, data[..], off, k, newnz, b, end, m, rest)
              && tr.br.insufficientData == old(tr.br.insufficientData)
    ensures on && !ok ==> Refined(s, data[..], off, k, b) && NewOnes(s, newnz, k, b)
    ensures Framed(s, on, off, old(data[..]), data[..])
  {
    newnz := newnz0;
    ok, k := ReachTarget(tr, s, data, off, k0, e, on, b, t, after);
    if on {
      StepDone(tr, s, tbl, data[..], off, k0, t, after, newnz0, b, end, m, rest, if e.Coef? then newnz0 + [s.order[t]]
               else newnz0);
    }
    if ok {
      if e.Coef? {
        newnz := newnz + [Natural(s, k)];
      }
      k := k + 1;
    }
  }

  // No coefficient is new any more, and the band is not exhausted.
  ghost predicate EndOfBand(s: Scan, tbl: HuffNo, b: Block, k: nat, end: Tokens, m: nat, rest: Tokens)
    requires ScanOk(s)
  {
    var z := Ordered(s, b, s.al);
    && k <= s.se && NextNew(z, s.se, k) > s.se && 0 < m <= 0x7FFF
    && end == EobHead(tbl, m, OldTokens(z, k, s.se + 1, rest))
  }

  // The coefficients up to the end of a symbol's run, and the new one if there is one.
  method ReachTarget(tr: TokenReader, s: Scan, data: array<Coef>, off: nat, k0: nat, e: Event,
                     ghost on: bool, ghost b: Block, ghost t: nat, ghost after: Tokens) returns (ok: bool, k: nat)
    requires tr.Valid() && ScanOk(s) && off + 64 <= data.Length && s.ss <= k0 <= s.se && (e.SixteenZeros? || e.Coef?)
    requires on ==> Passing(tr, s, data[..], off, k0, if e.Coef? then e.r else 15, b, t, after)
    requires on ==> Ordered(s, b, s.al)[t] == if e.Coef? then e.v else 0
    requires on && e.Coef? ==> Abs(e.v) == 1
    modifies tr, tr.br, data
    ensures Went(tr, ok) && k0 <= k <= s.se + 1
    ensures on && ok ==> k == t && Reached(tr, after) && Refined(s, data[..], off, k + 1, b)
    ensures on && !ok ==> k <= t && Refined(s, data[..], off, k, b)
    ensures Framed(s, on, off, old(data[..]), data[..])
  {
    ok, k := Advance(tr, s, data, off, k0, if e.Coef? then e.r else 15, on, b, t, after);
    if ok {
      if e.Coef? {
        StoreNew(s, data, off, k, e.v, on, b);
      } else if on {
        ZeroReached(s, data[..], off, k, b);
      }
    }
  }

  method StoreNew(s: Scan, data: array<Coef>, off: nat, k: nat, v: int, ghost on: bool, ghost b: Block)
    requires ScanOk(s) && off + 64 <= data.Length && s.ss <= k <= s.se + 1
    requires on ==> k <= s.se && v == Ordered(s, b, s.al)[k] && Abs(v) == 1 && Refined(s, data[..], off, k, b)
    modifies data
    ensures on ==> Refined(s, data[..], off, k + 1, b)
    ensures Framed(s, on, off, old(data[..]), data[..])
  {
    ghost var was := data[..];
    data[off + Natural(s, k)] := ToCoef(Shl(v, s.al));
    if on {
      NewValue(b[s.order[k]], s.al);
      RefinedStep(s, was, off, k, b, data[off + s.order[k]]);
      FramedAt(s, on, off, k, was, data[..]);
      assert data[..] == was[off + s.order[k] := data[off + s.order[k]]];
    }
  }

  lemma ZeroReached(s: Scan, data: seq<Coef>, off: nat, k: nat, b: Block)
    requires ScanOk(s) && off + 64 <= |data| && s.ss <= k <= s.se && Refined(s, data, off, k, b)
    requires Ordered(s, b, s.al)[k] == 0
    ensures Refined(s, data, off, k + 1, b)
  {
    ReadyAt(s, data, off, k, b);
  }

  // The symbols of the band, up to its end or to the symbol that says how many bands end.
  method ReadSymbols(tr: TokenReader, s: Scan, tbl: HuffNo, data: array<Coef>, off: nat,
                     ghost on: bool, ghost b: Block, ghost end: Tokens, ghost m: nat, ghost rest: Tokens)
    returns (ok: bool, eobRun: nat, k: nat, newnz: seq<nat>)
    requires tr.Valid() && tr.pairs[tbl].Some? && ScanOk(s) && off + 64 <= data.Length && s.ss > 0
    requires on ==> BandAt(tr, s, tbl, data[..], off, s.ss, [], b, end, m, rest)
    modifies tr, tr.br, data
    ensures Went(tr, ok) && s.ss <= k && |newnz| < 64 && forall i :: 0 <= i < |newnz| ==> newnz[i] < 64
    ensures on ==> Refined(s, data[..], off, k, b) && NewOnes(s, newnz, k, b)
    ensures on && ok ==> eobRun == m && tr.br.insufficientData == old(tr.br.insufficientData)
    ensures on && ok && m > 0 ==> InTail(tr, s, data[..], off, k, b, rest)
    ensures on && ok && m == 0 ==> tr.pending == Some(rest) && Refined(s, data[..], off, s.se + 1, b)
    ensures Framed(s, on, off, old(data[..]), data[..])
  {
    k, newnz, eobRun := s.ss, [], 0;
    while k <= s.se
      invariant s.ss <= k && |newnz| <= k - s.ss && |newnz| < 64 && (forall i :: 0 <= i < |newnz| ==> newnz[i] < 64)
                && Went(tr, true)
      invariant on ==> BandAt(tr, s, tbl, data[..], off, k, newnz, b, end, m, rest)
      invariant on ==> tr.br.insufficientData == old(tr.br.insufficientData)
      invariant Framed(s, on, off, old(data[..]), data[..])
      decreases 64 - k
    {
      var e;
      e, k, newnz := RefineStep(tr, s, tbl, data, off, k, newnz, on, b, end, m, rest);
      if e == Suspended {
        return false, 0, k, newnz;
      } else if e.Eob? {
        if on {
          EobHeadParts(tbl, m, OldTokens(Ordered(s, b, s.al), k, s.se + 1, rest));
        }
        ok, eobRun := ReadEobRun(tr, e.r, on, m, if on then OldTokens(Ordered(s, b, s.al), k, s.se + 1, rest) else Nil);
        return;
      }
    }
    if on {
      BandOver(tr, s, tbl, data[..], off, k, newnz, b, end, m, rest);
    }
    ok := true;
  }

  // Re-zero any output coefficients that became nonzero.
  method Undo(s: Scan, data: array<Coef>, off: nat, newnz: seq<nat>, ghost on: bool, ghost k: nat, ghost b: Block)
    requires ScanOk(s) && off + 64 <= data.Length && forall i :: 0 <= i < |newnz| ==> newnz[i] < 64
    requires on ==> Refined(s, data[..], off, k, b) && NewOnes(s, newnz, k, b)
    modifies data
    ensures on ==> Refined(s, data[..], off, s.ss, b)
    ensures forall i :: 0 <= i < data.Length && !(off <= i < off + 64 && i - off in newnz) ==> data[i] == old(data[i])
  {
    var n := |newnz|;
    while n > 0
      invariant 0 <= n <= |newnz|
      invariant forall i :: 0 <= i < data.Length ==>
                  data[i] == if off <= i < off + 64 && i - off in newnz[n..] then 0 else old(data[i])
    {
      n := n - 1;
      assert newnz[n..] == [newnz[n]] + newnz[n + 1..];
      data[off + newnz[n]] := 0;
    }
    assert newnz[n..] == newnz;
    if on {
      UndoneBand(s, old(data[..]), data[..], off, newnz, k, b);
    }
  }

  // What an attempt may expect: a band whose end is a run of m bands, or a band inside
  // of such a run. It may not be the first attempt.
  ghost predicate RefineAhead(tr: TokenReader, s: Scan, tbl: HuffNo, data: seq<Coef>, off: nat, eobRun: nat,
                              b: Block, end: Tokens, m: nat, rest: Tokens)
    requires ScanOk(s) && off + 64 <= |data|
    reads tr
  {
    if eobRun == 0 then BandAt(tr, s, tbl, data, off, s.ss, [], b, end, m, rest)
    else InTail(tr, s, data, off, s.ss, b, rest)
  }

  // The whole band, or an attempt that leaves the block ready for the next one.
  method DecodeRefine(tr: TokenReader, s: Scan, tbl: HuffNo, data: array<Coef>, off: nat, eobRun0: nat,
                      ghost on: bool, ghost b: Block, ghost end: Tokens, ghost m: nat, ghost rest: Tokens)
    returns (ok: bool, eobRun: nat)
    requires tr.Valid() && tr.pairs[tbl].Some? && ScanOk(s) && off + 64 <= data.Length && s.ss > 0
    requires on ==> RefineAhead(tr, s, tbl, data[..], off, eobRun0, b, end, m, rest)
    modifies tr, tr.br, data
    ensures Went(tr, ok) && (on && ok ==> Reached(tr, rest))
    ensures on && ok ==> eobRun == if eobRun0 > 0 then eobRun0 - 1 else if m > 0 then m - 1 else 0
    ensures on ==> Refined(s, data[..], off, if ok then s.se + 1 else s.ss, b)
    ensures Framed(s, on, off, old(data[..]), data[..])
  {
    var k, newnz := s.ss, [];
    ok, eobRun := true, eobRun0;
    if eobRun0 == 0 {
      ok, eobRun, k, newnz := ReadSymbols(tr, s, tbl, data, off, on, b, end, m, rest);
    }
    ghost var reached := k;
    if ok && eobRun > 0 {
      ok, reached := CorrectRest(tr, s, data, off, k, on, b, rest);
      if on {
        NewOnesKept(s, newnz, k, reached, b);
      }
      eobRun := eobRun - 1;
    }
    if !ok {
      ghost var was := data[..];
      Undo(s, data, off, newnz, on, reached, b);
      FramedUndo(s, on, off, newnz, reached, b, was, data[..]);
    }
  }

  // Undoing stays within the band.
  lemma FramedUndo(s: Scan, on: bool, off: nat, newnz: seq<nat>, k: nat, b: Block, was: seq<Coef>, now: seq<Coef>)
    requires ScanOk(s) && |was| == |now| && (on ==> NewOnes(s, newnz, k, b))
    requires forall i :: 0 <= i < |was| && !(off <= i < off + 64 && i - off in newnz) ==> now[i] == was[i]
    ensures Framed(s, on, off, was, now)
  {
    assert Focus(1, 0);
    forall p | on && p in newnz
      ensures InBand(s, off, s.ss - 1, s.se, off + p)
    {
      var j :| s.ss - 1 < j <= s.se && p == s.order[j];
    }
  }
}

// The MCU routines of the Huffman encoder (jchuff.c). Each is proved to emit the tokens
// that HuffBinarisation.dfy lists, or to fail: on a coefficient out of range, or on a
// symbol that has no code.

module HuffMcuEncoder {
  import opened Prelude
  import opened HuffBits
  import opened Coefficients
  import opened Scans
  import opened HuffBinarisation
  import opened HuffEncoder

  // The number of bits needed for a magnitude.
  method CountBits(magnitude: nat) returns (nbits: nat)
    ensures nbits == NBits(magnitude)
  {
    var temp := magnitude;
    nbits := 0;
    while temp != 0
      invariant nbits + NBits(temp) == NBits(magnitude)
      decreases temp
    {
      nbits := nbits + 1;
      temp := temp / 2;
    }
  }

  // A DC difference; it may have one bit more than a coefficient.
  method EmitDc(enc: HuffEncoder, tbl: HuffNo, diff: int, ghost rest: Tokens) returns (ok: bool)
    requires enc.Valid() && enc.plan == DcTokens(tbl, diff, rest)
    modifies enc, enc.counts
    ensures ok ==> enc.Emitted(rest) && NBits(Abs(diff)) <= MAX_COEF_BITS + 1
    ensures old(enc.sound) && NBits(Abs(diff)) <= MAX_COEF_BITS + 1 ==> ok
  {
    var nbits := CountBits(Abs(diff));
    if nbits > MAX_COEF_BITS + 1 {
      return false;
    }
    ok := enc.EmitSymbol(tbl, nbits);
    if ok && nbits != 0 {
      enc.EmitValue(Vli(diff), nbits);
    }
  }

  // A nonzero coefficient after r zeros.
  method EmitCoef(enc: HuffEncoder, tbl: HuffNo, r0: nat, v: int, ghost rest: Tokens) returns (ok: bool)
    requires enc.Valid() && enc.plan == CoefTokens(tbl, r0, v, rest) && v != 0
    modifies enc, enc.counts
    ensures ok ==> enc.Emitted(rest) && NBits(Abs(v)) <= MAX_COEF_BITS
    ensures old(enc.sound) && NBits(Abs(v)) <= MAX_COEF_BITS ==> ok
  {
    ghost var tail := Cons(Sym(tbl, (r0 % 16 * 16 + NBits(Abs(v))) % 256), Cons(ValueToken(v), rest));
    var r: nat := r0;
    while r > 15
      invariant enc.Emitted(Zrls(tbl, r / 16, tail)) && r % 16 == r0 % 16
    {
      ZrlStep(tbl, r, tail);
      ok := enc.EmitSymbol(tbl, 0xF0);
      if !ok {
        return;
      }
      r := r - 16;
    }
    var nbits := CountBits(Abs(v));
    if nbits > MAX_COEF_BITS {
      return false;
    }
    SymbolFits(r0, r, nbits);
    ok := enc.EmitSymbol(tbl, r * 16 + nbits);
    if ok {
      enc.EmitValue(Vli(v), nbits);
    }
  }

  lemma SymbolFits(r0: nat, r: nat, nbits: nat)
    requires r <= 15 && r % 16 == r0 % 16 && nbits <= 15
    ensures r * 16 + nbits < 256 && (r0 % 16 * 16 + nbits) % 256 == r * 16 + nbits && r / 16 == 0
  {
  }

  lemma ZrlStep(tbl: HuffNo, r: nat, tail: Tokens)
    requires r > 15
    ensures Zrls(tbl, r / 16, tail) == Cons(Sym(tbl, 0xF0), Zrls(tbl, (r - 16) / 16, tail))
    ensures (r - 16) % 16 == r % 16
  {
  }

  // ---- sequential ----

  // The AC coefficients of a sequential block, up to the last index of a block.
  method EncodeAc(enc: HuffEncoder, s: Scan, tbl: HuffNo, b: Block, ghost rest: Tokens) returns (ok: bool)
    requires enc.Valid() && ScanOk(s) && enc.plan == AcTokens(tbl, Ordered(s, b, 0), s.limSe, 1, 0, rest)
    modifies enc, enc.counts
    ensures ok ==> enc.Emitted(rest) && CoefsFit(Ordered(s, b, 0), 1, s.limSe)
    ensures old(enc.sound) && CoefsFit(Ordered(s, b, 0), 1, s.limSe) ==> ok
  {
    ghost var z := Ordered(s, b, 0);
    var r, k := 0, 1;
    while k <= s.limSe
      invariant 1 <= k <= s.limSe + 1 && enc.Emitted(AcTokens(tbl, z, s.limSe, k, r, rest))
      invariant CoefsFit(z, 1, k - 1)
    {
      var temp: int := b[s.order[k]];
      if temp == 0 {
        r := r + 1;
      } else {
        ok := EmitCoef(enc, tbl, r, temp, AcTokens(tbl, z, s.limSe, k + 1, 0, rest));
        if !ok {
          return;
        }
        r := 0;
      }
      k := k + 1;
    }
    ok := true;
    if r > 0 {
      ok := enc.EmitSymbol(tbl, 0);
    }
  }

  // ---- sequential, statistics only ----

  // The DC part of htest_one_block.
  method CountDc(enc: HuffEncoder, tbl: HuffNo, diff: int, ghost rest: Tokens) returns (ok: bool)
    requires enc.Valid() && enc.gather && enc.plan == DcTokens(tbl, diff, rest) && (rest.Cons? ==> rest.head.Sym?)
    modifies enc, enc.counts
    ensures ok == (NBits(Abs(diff)) <= MAX_COEF_BITS + 1) && (ok ==> enc.Emitted(rest))
  {
    var temp, nbits := Abs(diff), 0;
    while temp != 0
      invariant nbits + NBits(temp) == NBits(Abs(diff))
      decreases temp
    {
      nbits := nbits + 1;
      temp := temp / 2;
    }
    if nbits > MAX_COEF_BITS + 1 {
      return false;
    }
    ok := true;
    enc.Count(tbl, nbits);
  }

  // The AC part of htest_one_block.
  method CountAc(enc: HuffEncoder, s: Scan, tbl: HuffNo, b: Block, ghost rest: Tokens) returns (ok: bool)
    requires enc.Valid() && enc.gather && ScanOk(s) && enc.plan == AcTokens(tbl, Ordered(s, b, 0), s.limSe, 1, 0, rest)
    requires rest.Cons? ==> rest.head.Sym?
    modifies enc, enc.counts
    ensures ok == CoefsFit(Ordered(s, b, 0), 1, s.limSe) && (ok ==> enc.Emitted(rest))
  {
    ghost var z := Ordered(s, b, 0);
    var r, k := 0, 1;
    while k <= s.limSe
      invariant 1 <= k <= s.limSe + 1 && enc.Emitted(AcTokens(tbl, z, s.limSe, k, r, rest))
      invariant CoefsFit(z, 1, k - 1)
    {
      var temp: int := b[s.order[k]];
      if temp == 0 {
        r := r + 1;
      } else {
        ghost var next := AcTokens(tbl, z, s.limSe, k + 1, 0, rest);
        AcBeginsWithSymbol(tbl, z, s.limSe, k + 1, 0, rest);
        ok := CountCoef(enc, tbl, r, temp, next);
        if !ok {
          assert !CoefsFit(z, 1, s.limSe) by {
            assert NBits(Abs(z[k])) > MAX_COEF_BITS;
          }
          return;
        }
        r := 0;
      }
      k := k + 1;
    }
    ok := true;
    if r > 0 {
      enc.Count(tbl, 0);
    }
  }

  method CountCoef(enc: HuffEncoder, tbl: HuffNo, r0: nat, v: int, ghost rest: Tokens) returns (ok: bool)
    requires enc.Valid() && enc.gather && enc.plan == CoefTokens(tbl, r0, v, rest) && v != 0
    modifies enc, enc.counts
    ensures ok == (NBits(Abs(v)) <= MAX_COEF_BITS) && (ok ==> enc.Emitted(rest))
  {
    ghost var tail := Cons(Sym(tbl, (r0 % 16 * 16 + NBits(Abs(v))) % 256), Cons(ValueToken(v), rest));
    var r: nat := r0;
    while r > 15
      invariant enc.Emitted(Zrls(tbl, r / 16, tail)) && r % 16 == r0 % 16
    {
      ZrlStep(tbl, r, tail);
      enc.Count(tbl, 0xF0);
      r := r - 16;
    }
    var temp: nat, nbits := Abs(v) / 2, 1;
    while temp != 0
      invariant nbits + NBits(temp) == NBits(Abs(v))
      decreases temp
    {
      nbits := nbits + 1;
      temp := temp / 2;
    }
    if nbits > MAX_COEF_BITS {
      return false;
    }
    ok := true;
    SymbolFits(r0, r, nbits);
    enc.Count(tbl, r * 16 + nbits);
  }

  lemma {:induction false} AcBeginsWithSymbol(tbl: HuffNo, z: Coefs, se: nat, k: nat, r: nat, rest: Tokens)
    requires se < 64 && k <= se + 1 && (rest.Cons? ==> rest.head.Sym?)
    ensures AcTokens(tbl, z, se, k, r, rest).Cons? ==> AcTokens(tbl, z, se, k, r, rest).head.Sym?
    decreases se + 1 - k
  {
    if k <= se && z[k] == 0 {
      AcBeginsWithSymbol(tbl, z, se, k + 1, r + 1, rest);
    }
  }

  // ---- first AC scan ----

  // Correction bits from a buffer.
  method EmitBuffered(enc: HuffEncoder, buffer: seq<Bit>, ghost rest: Tokens)
    requires enc.Valid() && enc.plan == CorrTokens(buffer, rest)
    modifies enc
    ensures enc.Emitted(rest)
  {
    var i := 0;
    assert buffer[0..] == buffer;
    while i < |buffer|
      invariant i <= |buffer| && enc.Emitted(CorrTokens(buffer[i..], rest))
    {
      CorrFirst(buffer[i..], rest);
      assert buffer[i..][1..] == buffer[i + 1..];
      LowBit(buffer[i]);
      enc.EmitValue(buffer[i], 1);
      i := i + 1;
    }
  }

  lemma LowBit(b: Bit)
    ensures Low(b, 1) == b
  {
  }

  lemma {:induction false} CorrFirst(corr: seq<Bit>, rest: Tokens)
    requires corr != []
    ensures CorrTokens(corr, rest) == Cons(Val(corr[0], 1), CorrTokens(corr[1..], rest))
    decreases corr
  {
    var z := |corr| - 1;
    if z > 0 {
      CorrFirst(corr[..z], Cons(Val(corr[z], 1), rest));
      assert corr[1..][..z - 1] == corr[..z][1..];
    }
  }

  // Any pending run of ended bands, with its correction bits.
  method EmitEobrun(enc: HuffEncoder, tbl: HuffNo, run: nat, corr: seq<Bit>, ghost rest: Tokens) returns (ok: bool)
    requires enc.Valid() && run <= 0x7FFF && enc.plan == EobTokens(tbl, run, corr, rest)
    modifies enc, enc.counts
    ensures ok ==> enc.Emitted(rest)
    ensures old(enc.sound) ==> ok
  {
    ok := true;
    if run > 0 {
      EobBits(run);
      var temp: nat, nbits := run / 2, 0;
      while temp != 0
        invariant nbits + NBits(temp) == NBits(run) - 1
        decreases temp
      {
        nbits := nbits + 1;
        temp := temp / 2;
      }
      // The safety check nbits > 14 cannot fail.
      ok := enc.EmitSymbol(tbl, nbits * 16);
      if !ok {
        return;
      }
      if nbits != 0 {
        enc.EmitValue(run, nbits);
      }
      EmitBuffered(enc, corr, rest);
    }
  }

  // The band of a first AC scan. run counts the ended bands not yet emitted.
  method EncodeFirst(enc: HuffEncoder, s: Scan, tbl: HuffNo, b: Block, run0: nat, ghost rest: Tokens)
    returns (ok: bool, run: nat)
    requires enc.Valid() && ScanOk(s) && s.ss > 0 && run0 < 0x7FFF
    requires enc.plan == FirstTokens(tbl, Ordered(s, b, s.al), s.se, s.ss, 0, run0, rest)
    modifies enc, enc.counts
    ensures ok ==> enc.Emitted(rest) && run == FirstRun(Ordered(s, b, s.al), s.se, s.ss, 0, run0)
    ensures ok ==> CoefsFit(Ordered(s, b, s.al), s.ss, s.se)
    ensures old(enc.sound) && CoefsFit(Ordered(s, b, s.al), s.ss, s.se) ==> ok
  {
    ghost var z := Ordered(s, b, s.al);
    run := run0;
    var r, k := 0, s.ss;
    while k <= s.se
      invariant s.ss <= k <= s.se + 1 && run < 0x7FFF
      invariant enc.Emitted(FirstTokens(tbl, z, s.se, k, r, run, rest))
      invariant FirstRun(z, s.se, k, r, run) == FirstRun(z, s.se, s.ss, 0, run0)
      invariant CoefsFit(z, s.ss, k - 1)
    {
      var temp := PointTransform(b[s.order[k]], s.al);
      if temp == 0 {
        r := r + 1;
      } else {
        ghost var next := FirstTokens(tbl, z, s.se, k + 1, 0, 0, rest);
        ok := EmitEobrun(enc, tbl, run, [], CoefTokens(tbl, r, temp, next));
        if !ok {
          return;
        }
        run := 0;
        ok := EmitCoef(enc, tbl, r, temp, next);
        if !ok {
          return;
        }
        r := 0;
      }
      k := k + 1;
    }
    ok := true;
    if r > 0 {
      run := run + 1;
      if run == 0x7FFF {
        ok := EmitEobrun(enc, tbl, run, [], rest);
        run := 0;
      }
    }
  }

  // ---- AC refinement ----

  // The pre-pass: absolute values after the point transform, and the index of the last
  // newly nonzero coefficient.
  method FindNew(s: Scan, b: Block) returns (eob: nat)
    requires ScanOk(s) && s.ss > 0
    ensures eob == LastNew(Ordered(s, b, s.al), s.ss, s.se)
  {
    ghost var z := Ordered(s, b, s.al);
    eob := 0;
    var k := s.ss;
    while k <= s.se
      invariant s.ss <= k <= s.se + 1 && eob == if k == s.ss then 0 else LastNew(z, s.ss, k - 1)
    {
      if Abs(PointTransform(b[s.order[k]], s.al)) == 1 {
        eob := k;
      }
      k := k + 1;
    }
  }

  // The symbol for a run of zeros and a newly nonzero coefficient or a ZRL, after any
  // pending run of ended bands, and with the correction bits that go with it.
  method EmitRefined(enc: HuffEncoder, tbl: HuffNo, symbol: byte, sign: Option<int>, run: nat, corr: seq<Bit>,
                     br: seq<Bit>, ghost rest: Tokens)
    returns (ok: bool)
    requires enc.Valid() && run <= 0x7FFF
    requires enc.plan == EobTokens(tbl, run, corr, Cons(Sym(tbl, symbol),
               match sign case None => CorrTokens(br, rest) case Some(v) => Cons(SignToken(v), CorrTokens(br, rest))))
    modifies enc, enc.counts
    ensures (ok ==> enc.Emitted(rest)) && (old(enc.sound) ==> ok)
  {
    ghost var bits := CorrTokens(br, rest);
    ghost var value := match sign case None => bits case Some(v) => Cons(SignToken(v), bits);
    ok := EmitEobrun(enc, tbl, run, corr, Cons(Sym(tbl, symbol), value));
    if !ok {
      return;
    }
    ok := enc.EmitSymbol(tbl, symbol);
    if !ok {
      return;
    }
    if sign.Some? {
      LowBit(if sign.value < 0 then 0 else 1);
      enc.EmitValue(if sign.value < 0 then 0 else 1, 1);
    }
    EmitBuffered(enc, br, rest);
  }

  // The band of a refinement scan. run and corr are the ended bands not yet emitted and
  // their correction bits; the buffer of MAX_CORR_BITS entries suffices.
  method EncodeRefine(enc: HuffEncoder, s: Scan, tbl: HuffNo, b: Block, run0: nat, corr0: seq<Bit>, ghost rest: Tokens)
    returns (ok: bool, run: nat, corr: seq<Bit>)
    requires enc.Valid() && ScanOk(s) && s.ss > 0 && run0 < 0x7FFF && |corr0| <= CORR_LIMIT
             && (run0 == 0 ==> corr0 == [])
    requires var z := Ordered(s, b, s.al);
             enc.plan == RefineTokens(tbl, z, s.se, LastNew(z, s.ss, s.se), s.ss, 0, run0, corr0, [], rest)
    modifies enc, enc.counts
    ensures ok ==> enc.Emitted(rest)
    ensures ok ==> var z := Ordered(s, b, s.al);
                   (run, corr) == RefineRun(z, s.se, LastNew(z, s.ss, s.se), s.ss, 0, run0, corr0, [])
    ensures ok ==> |corr| <= CORR_LIMIT && (run == 0 ==> corr == [])
    ensures old(enc.sound) ==> ok
  {
    ghost var z := Ordered(s, b, s.al);
    var eob := FindNew(s, b);
    run, corr := run0, corr0;
    ghost var target := RefineRun(z, s.se, eob, s.ss, 0, run0, corr0, []);
    var r, k, br := 0, s.ss, [];
    while k <= s.se
      invariant s.ss <= k <= s.se + 1 && BuffersOk(run, corr, br, k - s.ss)
      invariant enc.Emitted(RefineTokens(tbl, z, s.se, eob, k, r, run, corr, br, rest))
      invariant RefineRun(z, s.se, eob, k, r, run, corr, br) == target
    {
      ok, r, run, corr, br := RefineCoef(enc, s, tbl, b, eob, k, r, run, corr, br, rest);
      if !ok {
        return;
      }
      k := k + 1;
    }
    ok, run, corr := EndBand(enc, s, tbl, b, eob, k, r, run, corr, br, rest);
  }

  // The buffered correction bits; br are those since the last symbol, n coefficients ago
  // at most. The buffer is never exceeded.
  predicate BuffersOk(run: nat, corr: seq<Bit>, br: seq<Bit>, n: nat) {
    && run < 0x7FFF && |corr| <= CORR_LIMIT && |br| <= n <= 63 && (run == 0 ==> corr == [])
    && |corr| + |br| <= MAX_CORR_BITS
  }

  // Coefficient k of a refined band.
  method RefineCoef(enc: HuffEncoder, s: Scan, tbl: HuffNo, b: Block, eob: nat, k: nat, r0: nat, run0: nat,
                    corr0: seq<Bit>, br0: seq<Bit>,
                    ghost rest: Tokens)
    returns (ok: bool, r: nat, run: nat, corr: seq<Bit>, br: seq<Bit>)
    requires enc.Valid() && ScanOk(s) && 0 < s.ss <= k <= s.se && BuffersOk(run0, corr0, br0, k - s.ss)
    requires NewUpTo(Ordered(s, b, s.al), k, s.se, eob)
    requires enc.plan == RefineTokens(tbl, Ordered(s, b, s.al), s.se, eob, k, r0, run0, corr0, br0, rest)
    modifies enc, enc.counts
    ensures BuffersOk(run, corr, br, k + 1 - s.ss) && (old(enc.sound) ==> ok)
    ensures ok ==> enc.Emitted(RefineTokens(tbl, Ordered(s, b, s.al), s.se, eob, k + 1, r, run, corr, br, rest))
    ensures ok ==> var z := Ordered(s, b, s.al);
                   RefineRun(z, s.se, eob, k + 1, r, run, corr, br) == RefineRun(z, s.se, eob, k, r0, run0, corr0, br0)
  {
    ghost var z := Ordered(s, b, s.al);
    ok, r, run, corr, br := true, r0, run0, corr0, br0;
    var temp := PointTransform(b[s.order[k]], s.al);
    if temp == 0 {
      r := r + 1;
    } else {
      ok, r, run, corr, br := EmitZrls(enc, tbl, z, s.se, eob, k, r, run, corr, br, rest);
      if !ok {
        run, corr, br := 0, [], [];
      } else if Abs(temp) > 1 {
        br := br + [NextBit(temp)];
      } else {
        ok := EmitRefined(enc, tbl, r * 16 + 1, Some(temp), run, corr, br,
                          RefineTokens(tbl, z, s.se, eob, k + 1, 0, 0, [], [], rest));
        run, corr, br, r := 0, [], [], 0;
      }
    }
  }

  // Behind the last coefficient: the band joins the run, which is emitted when it is full.
  method EndBand(enc: HuffEncoder, s: Scan, tbl: HuffNo, ghost b: Block, ghost eob: nat, ghost k: nat, r: nat,
                 run0: nat, corr0: seq<Bit>,
                 br: seq<Bit>, ghost rest: Tokens)
    returns (ok: bool, run: nat, corr: seq<Bit>)
    requires enc.Valid() && ScanOk(s) && 0 < s.ss && k == s.se + 1 && BuffersOk(run0, corr0, br, k - s.ss)
    requires NewUpTo(Ordered(s, b, s.al), k, s.se, eob)
    requires enc.plan == RefineTokens(tbl, Ordered(s, b, s.al), s.se, eob, k, r, run0, corr0, br, rest)
    modifies enc, enc.counts
    ensures ok ==> enc.Emitted(rest) && (run, corr) == RefineRun(Ordered(s, b, s.al), s.se, eob, k, r, run0, corr0, br)
    ensures ok ==> |corr| <= CORR_LIMIT && (run == 0 ==> corr == [])
    ensures old(enc.sound) ==> ok
  {
    ok, run, corr := true, run0, corr0;
    if r > 0 || br != [] {
      run := run + 1;
      corr := corr + br;
      if run == 0x7FFF || |corr| > CORR_LIMIT {
        ok := EmitEobrun(enc, tbl, run, corr, rest);
        run, corr := 0, [];
      }
    }
  }

  // Any required ZRLs before coefficient k, unless they can be folded into an EOB.
  method EmitZrls(enc: HuffEncoder, tbl: HuffNo, ghost z: Coefs, ghost se: nat, eob: nat, k: nat,
                  r0: nat, run0: nat, corr0: seq<Bit>, br0: seq<Bit>, ghost rest: Tokens)
    returns (ok: bool, r: nat, run: nat, corr: seq<Bit>, br: seq<Bit>)
    requires enc.Valid() && k <= se < 64 && z[k] != 0 && run0 < 0x7FFF && NewUpTo(z, k, se, eob)
    requires enc.plan == RefineTokens(tbl, z, se, eob, k, r0, run0, corr0, br0, rest)
    modifies enc, enc.counts
    ensures run < 0x7FFF && (old(enc.sound) ==> ok)
    ensures ok ==> enc.Emitted(RefineTokens(tbl, z, se, eob, k, r, run, corr, br, rest)) && !(r > 15 && k <= eob)
    ensures ok ==> RefineRun(z, se, eob, k, r, run, corr, br) == RefineRun(z, se, eob, k, r0, run0, corr0, br0)
    ensures ok ==> (run, corr, br) == (run0, corr0, br0) || (run, corr, br) == (0, [], [])
  {
    r, run, corr, br := r0, run0, corr0, br0;
    while r > 15 && k <= eob
      invariant run < 0x7FFF && enc.Emitted(RefineTokens(tbl, z, se, eob, k, r, run, corr, br, rest))
      invariant RefineRun(z, se, eob, k, r, run, corr, br) == RefineRun(z, se, eob, k, r0, run0, corr0, br0)
      invariant (run, corr, br) == (run0, corr0, br0) || (run, corr, br) == (0, [], [])
      decreases r
    {
      ok := EmitRefined(enc, tbl, 0xF0, None, run, corr, br, RefineTokens(tbl, z, se, eob, k, r - 16, 0, [], [], rest));
      if !ok {
        return;
      }
      r, run, corr, br := r - 16, 0, [], [];
    }
    ok := true;
  }
}

// The MCU decoding routines of jdarith.c. They run on any data; when the decoder
// is known to answer with the decisions that ArithBinarisation.dfy lists for some
// coefficients, they return those coefficients.

module ArithMcuDecoder {
  import opened Prelude
  import opened ArithCoder
  import opened ArithRoundTrip
  import opened ArithDecoder
  import opened ArithBinarisation
  import opened Coefficients
  import opened Scans
  import opened ArithMasks

  // How a routine ends: normally, with the "bad code" warning that disables the
  // decoder until the next restart, or with a fatal error of the data source.
  datatype Ending = Normal | BadCode | Fatal

  // Figure F.23 from the first doubling on: the mask doubles with every decision 1
  // and must not reach 0x8000. Returns the last bin used.
  method DecodeCategory(dec: BinaryDecoder, start: nat, m0: nat, ghost on: bool, ghost v: nat, ghost w: nat,
                        ghost rest: Decisions)
    returns (e: Ending, st: nat, m: nat)
    requires dec.Valid() && start + 30 < BIN_COUNT && 0 < m0 < 0x8000 && IsPow2(m0)
    requires on ==> start + Log2(v) + 14 < BIN_COUNT && dec.pending == Category(start, v, m0, w, rest)
    modifies dec, dec.bins
    ensures dec.Kept(e != Fatal) && (on || old(dec.ending).Some? ==> e != Fatal)
    ensures e == Normal ==> st <= start + 14 && m < 0x8000 && IsPow2(m)
    ensures on ==> (e == Normal <==> MaskAfter(m0, v) < 0x8000)
    ensures on && e == Normal ==>
              m == MaskAfter(m0, v) && dec.pending == Pattern(st + 14, m, w, rest) && dec.last == old(dec.last)
  {
    st, m := start, m0;
    ghost var v2 := v;
    while true
      invariant dec.Kept(true) && st <= start + 14 && m < 0x8000 && IsPow2(m) && st + Log2(m0) == start + Log2(m)
      invariant on ==> st + Log2(v2) + 14 < BIN_COUNT && MaskAfter(m, v2) == MaskAfter(m0, v)
      invariant on ==> dec.pending == Category(st, v2, m, w, rest) && dec.last == old(dec.last)
      decreases 0x8000 - m
    {
      var r := dec.Decode(st);
      if r == None {
        return Fatal, st, m;
      }
      if r == Some(0) {
        return Normal, st, m;
      }
      PowersAreApart(m, 0x8000);
      m := 2 * m;
      if m == 0x8000 {
        if on {
          MaskGrows(m, v2 / 2);
        }
        return BadCode, st, m;
      }
      Log2Below16(m);
      st := st + 1;
      v2 := v2 / 2;
    }
  }

  // Figure F.24: the bits of the magnitude below its top bit.
  method DecodePattern(dec: BinaryDecoder, st: BinNo, top: nat, ghost on: bool, ghost w: nat, ghost rest: Decisions)
    returns (e: Ending, v: nat)
    requires dec.Valid() && top > 0 && IsPow2(top)
    requires on ==> dec.pending == Pattern(st, top, w, rest) && top == TopBit(w)
    modifies dec, dec.bins
    ensures e != BadCode && dec.Kept(e != Fatal) && (on || old(dec.ending).Some? ==> e != Fatal)
    ensures on ==> v == w && dec.pending == rest && dec.last == old(dec.last)
  {
    HighTop(w);
    v := top;
    var m: nat := top / 2;
    ghost var mask := top;
    while m != 0
      invariant m == mask / 2 && IsPow2(mask) && dec.Kept(true)
      invariant on ==> v == High(w, mask) && dec.pending == Pattern(st, mask, w, rest) && dec.last == old(dec.last)
      decreases m
    {
      HighNext(w, mask);
      var r := dec.Decode(st);
      if r == None {
        return Fatal, v;
      }
      if r == Some(1) {
        v := v + m;
      }
      mask := m;
      m := m / 2;
    }
    e := Normal;
  }

  // The magnitude of a DC difference, less one; also the mask of its top bit.
  method DecodeDcMagnitude(dec: BinaryDecoder, tbl: TableNo, start: BinNo, ghost on: bool, ghost w: nat,
                           ghost rest: Decisions)
    returns (e: Ending, m: nat, v: nat)
    requires dec.Valid() && w < 65536
    requires on ==> dec.pending == DcMagnitude(tbl, start, w, rest)
    modifies dec, dec.bins
    ensures dec.Kept(e != Fatal) && (on || old(dec.ending).Some? ==> e != Fatal)
    ensures on ==> (e == Normal <==> w < 32768)
    ensures on && e == Normal ==> m == TopBit(w) && v == w && dec.pending == rest && dec.last == old(dec.last)
  {
    Log2Below16(w);
    m, v := 0, 0;
    var r := dec.Decode(start);
    if r == None {
      return Fatal, m, v;
    }
    if r == Some(0) {
      return Normal, m, v;
    }
    e, m, v := DecodeLargeDc(dec, tbl, on, w, rest);
  }

  method DecodeLargeDc(dec: BinaryDecoder, tbl: TableNo, ghost on: bool, ghost w: nat, ghost rest: Decisions)
    returns (e: Ending, m: nat, v: nat)
    requires dec.Valid() && w < 65536 && DcArea(tbl) + 20 + Log2(w) + 14 < BIN_COUNT
    requires on ==> dec.pending == Category(DcArea(tbl) + 20, w, 1, w, rest) && w > 0
    modifies dec, dec.bins
    ensures dec.Kept(e != Fatal) && (on || old(dec.ending).Some? ==> e != Fatal)
    ensures on ==> (e == Normal <==> w < 32768)
    ensures on && e == Normal ==> m == TopBit(w) && v == w && dec.pending == rest && dec.last == old(dec.last)
  {
    TopBitBound(w, 0x8000);
    MaskIsTopBit(if w > 0 then w else 1);
    var st;
    v := 0;
    e, st, m := DecodeCategory(dec, DcArea(tbl) + 20, 1, on, w, w, rest);
    if e == Normal {
      e, v := DecodePattern(dec, st + 14, m, on, w, rest);
    }
  }

  // Figures F.19 to F.24 for a DC difference and its conditioning category.
  method DecodeDcDifference(dec: BinaryDecoder, tbl: TableNo, context: Context, lower: nat, upper: nat,
                            ghost on: bool, ghost diff: Difference, ghost rest: Decisions)
    returns (e: Ending, v: int, category: Context)
    requires dec.Valid()
    requires on ==> dec.pending == DcDecisions(tbl, context, diff, rest)
    modifies dec, dec.bins
    ensures dec.Kept(e != Fatal) && (on || old(dec.ending).Some? ==> e != Fatal)
    ensures on ==> (e == Normal <==> Abs(diff) <= 32768)
    ensures on && e == Normal ==>
              v == diff && category == DcCategory(diff, lower, upper) && dec.pending == rest
              && dec.last == old(dec.last)
  {
    v, category := 0, 0;
    var st := DcArea(tbl) + context;
    var r := dec.Decode(st);
    if r == None {
      return Fatal, v, category;
    }
    if r == Some(0) {
      return Normal, v, category;
    }
    var sign := dec.Decode(st + 1);
    if sign == None {
      return Fatal, v, category;
    }
    var m;
    var negative: nat := sign.value;
    e, m, v := DecodeDcMagnitude(dec, tbl, st + 2 + negative, on, if diff == 0 then 0 else Abs(diff) - 1, rest);
    if e == Normal {
      if m < Shl(1, lower) / 2 {
        category := 0;
      } else if m > Shl(1, upper) / 2 {
        category := 12 + 4 * negative;
      } else {
        category := 4 + 4 * negative;
      }
      v := v + 1;
      if sign == Some(1) {
        v := -v;
      }
    }
  }

  // The magnitude of an AC coefficient, less one.
  method DecodeAcMagnitude(dec: BinaryDecoder, tbl: TableNo, start: BinNo, low: bool, ghost on: bool, ghost w: nat,
                           ghost rest: Decisions)
    returns (e: Ending, v: nat)
    requires dec.Valid() && w < 32768
    requires on ==> dec.pending == AcMagnitude(tbl, start, w, low, rest)
    modifies dec, dec.bins
    ensures dec.Kept(e != Fatal) && (on || old(dec.ending).Some? ==> e != Fatal)
    ensures on ==> e == Normal && v == w && dec.pending == rest && dec.last == old(dec.last)
  {
    TopBitBound(w, 0x8000);
    Log2Below16(w / 2);
    v := 0;
    var r := dec.Decode(start);
    if r == None {
      return Fatal, v;
    }
    if r == Some(0) {
      return Normal, v;
    }
    r := dec.Decode(start);
    if r == None {
      return Fatal, v;
    }
    if r == Some(0) {
      return Normal, 1;
    }
    MaskIsTopBit(if w > 1 then w else 2);
    var st, m;
    e, st, m := DecodeCategory(dec, AcHigh(tbl, low), 2, on, w / 2, w, rest);
    if e == Normal {
      e, v := DecodePattern(dec, st + 14, m, on, w, rest);
    }
  }

  // ---- AC coefficients ----

  // The zero run after index k0 and the nonzero coefficient v at index k that ends it.
  method DecodeCoefficient(dec: BinaryDecoder, tbl: TableNo, kx: nat, k0: nat, se: nat,
                           ghost on: bool, ghost z: Coefs, ghost rest: Decisions)
    returns (e: Ending, k: nat, v: int)
    requires dec.Valid() && k0 < se < 64
    requires on ==> k0 < LastNonzero(z, se) && dec.pending == AcRun(tbl, kx, z, se, k0, rest)
    modifies dec, dec.bins
    ensures dec.Kept(e != Fatal) && (on || old(dec.ending).Some? ==> e != Fatal)
    ensures e == Normal ==> k0 < k <= se
    ensures on ==> e == Normal && v == z[k] && (forall j :: k0 < j < k ==> z[j] == 0)
    ensures on ==> dec.pending == AcAfter(tbl, kx, z, se, k, rest) && dec.last == old(dec.last)
  {
    k, v := k0 + 1, 0;
    var st := AcArea(tbl) + 3 * k0;
    while true
      invariant k0 < k <= se && st == AcArea(tbl) + 3 * (k - 1) && dec.Kept(true)
      invariant on ==> k <= LastNonzero(z, se) && (forall j :: k0 < j < k ==> z[j] == 0)
      invariant on ==> dec.pending == AcRun(tbl, kx, z, se, k - 1, rest) && dec.last == old(dec.last)
      decreases se - k
    {
      var r := dec.Decode(st + 1);
      if r == None {
        return Fatal, k, v;
      }
      if r == Some(1) {
        break;
      }
      if k >= se {
        return BadCode, k, v;
      }
      st := st + 3;
      k := k + 1;
    }
    var sign := dec.Decode(FIXED_BIN);
    if sign == None {
      return Fatal, k, v;
    }
    e, v := DecodeAcMagnitude(dec, tbl, st + 2, k <= kx, on, if on then Abs(z[k]) - 1 else 0,
                              if on then AcAfter(tbl, kx, z, se, k, rest) else Nil);
    v := v + 1;
    if sign == Some(1) {
      v := -v;
    }
  }

  // The coefficients after start up to k hold z, scaled; those up to se are still zero.
  ghost predicate BandUpTo(s: Scan, data: array<Coef>, off: nat, start: nat, k: nat, se: nat, z: Coefs, al: nat)
    requires ScanOk(s) && start <= k <= se < 64 && off + 64 <= data.Length
    reads data
  {
    && (forall j :: start < j <= k ==> data[off + s.order[j]] == ToCoef(Shl(z[j], al)))
    && (forall j :: k < j <= se ==> data[off + s.order[j]] == 0)
  }

  lemma BandKnown(s: Scan, data: array<Coef>, off: nat, start: nat, se: nat, b: Block, al: nat)
    requires ScanOk(s) && start <= se < 64 && off + 64 <= data.Length
    requires BandUpTo(s, data, off, start, se, se, Ordered(s, b, al), al)
    ensures KnownTo(s, data[..], off, start, se, b, al)
  {
    forall j | start < j <= se
      ensures data[..][off + s.order[j]] == Trunc(b[s.order[j]], al)
    {
      assert data[off + s.order[j]] == ToCoef(Shl(PointTransform(b[s.order[j]], al), al));
      ScaledBack(b[s.order[j]], al);
    }
  }

  lemma BandZero(s: Scan, data: array<Coef>, off: nat, start: nat, se: nat, z: Coefs, al: nat)
    requires ScanOk(s) && start <= se < 64 && off + 64 <= data.Length
    requires ZeroBand(s, data[..], off, start, se)
    ensures BandUpTo(s, data, off, start, start, se, z, al)
  {
  }

  method StoreCoefficient(s: Scan, data: array<Coef>, off: nat, k: nat, v: int, al: nat,
                          ghost on: bool, ghost start: nat, ghost k0: nat, ghost se: nat, ghost z: Coefs)
    requires ScanOk(s) && start <= k0 < k <= se < 64 && off + 64 <= data.Length
    requires on ==> BandUpTo(s, data, off, start, k0, se, z, al) && v == z[k] && forall j :: k0 < j < k ==> z[j] == 0
    modifies data
    ensures data[..] == old(data[..])[off + s.order[k] := ToCoef(Shl(v, al))]
    ensures on ==> BandUpTo(s, data, off, start, k, se, z, al)
  {
    ShlAdd(0, 0, al);
    data[off + s.order[k]] := ToCoef(Shl(v, al));
  }

  // Only the band has changed.
  ghost predicate BandFramed(s: Scan, off: nat, start: nat, se: nat, was: seq<Coef>, now: seq<Coef>)
    requires ScanOk(s) && se < 64
  {
    |was| == |now| && forall i :: 0 <= i < |was| && !InBand(s, off, start, se, i) ==> now[i] == was[i]
  }

  lemma BandFramedStep(s: Scan, off: nat, start: nat, se: nat, was: seq<Coef>, mid: seq<Coef>, k: nat, v: Coef)
    requires ScanOk(s) && start < k <= se < 64 && off + 64 <= |mid| && BandFramed(s, off, start, se, was, mid)
    ensures BandFramed(s, off, start, se, was, mid[off + s.order[k] := v])
  {
    assert InBand(s, off, start, se, off + s.order[k]);
  }

  // Figure F.20 for the band after index start up to se: decode_mcu with start = 0
  // and al = 0, decode_mcu_AC_first with start = Ss - 1. The band is zero before.
  method DecodeBand(dec: BinaryDecoder, s: Scan, tbl: TableNo, data: array<Coef>, off: nat, start: nat, se: nat,
                    al: nat,
                    ghost on: bool, ghost z: Coefs, ghost rest: Decisions)
    returns (e: Ending)
    requires dec.Valid() && ScanOk(s) && start <= se < 64 && off + 64 <= data.Length
    requires on ==> dec.pending == AcAfter(tbl, s.acK[tbl], z, se, start, rest)
    requires on ==> BandUpTo(s, data, off, start, start, se, z, al)
    modifies dec, dec.bins, data
    ensures dec.Kept(e != Fatal) && (on || old(dec.ending).Some? ==> e != Fatal)
    ensures BandFramed(s, off, start, se, old(data[..]), data[..])
    ensures on ==> e == Normal && dec.pending == rest && dec.last == old(dec.last)
    ensures on ==> BandUpTo(s, data, off, start, se, se, z, al)
  {
    ShlAdd(0, 0, al);
    var k := start;
    while k < se
      invariant start <= k <= se && dec.Kept(true)
      invariant BandFramed(s, off, start, se, old(data[..]), data[..])
      invariant on ==> dec.pending == AcAfter(tbl, s.acK[tbl], z, se, k, rest) && dec.last == old(dec.last)
      invariant on ==> BandUpTo(s, data, off, start, k, se, z, al)
      decreases se - k
    {
      var r := dec.Decode(AcArea(tbl) + 3 * k);
      if r == None {
        return Fatal;
      }
      if r == Some(1) {
        break;
      }
      var v;
      ghost var k0, was := k, data[..];
      e, k, v := DecodeCoefficient(dec, tbl, s.acK[tbl], k, se, on, z, rest);
      if e != Normal {
        return;
      }
      StoreCoefficient(s, data, off, k, v, al, on, start, k0, se, z);
      BandFramedStep(s, off, start, se, old(data[..]), was, k, data[off + s.order[k]]);
      assert data[..] == was[off + s.order[k] := data[off + s.order[k]]];
    }
    e := Normal;
  }

  // ---- refinement ----

  // The last index up to se of a coefficient that is nonzero so far.
  method FindLastKnown(s: Scan, data: array<Coef>, off: nat, start: nat, se: nat, ghost on: bool, ghost b: Block,
                       ghost ah: nat)
    returns (kex: nat)
    requires ScanOk(s) && start <= se < 64 && off + 64 <= data.Length
    requires on ==> KnownTo(s, data[..], off, start, se, b, ah)
    ensures kex <= se
    ensures on ==> Agree(start, kex, LastNonzero(Ordered(s, b, ah), se))
  {
    kex := se;
    ghost var z := Ordered(s, b, ah);
    while kex > 0 && data[off + s.order[kex]] == 0
      invariant kex <= se
      invariant on && kex >= start ==> LastNonzero(z, se) == LastNonzero(z, kex)
      invariant on && kex < start ==> LastNonzero(z, se) <= start
    {
      if on && kex > start {
        TruncZero(b[s.order[kex]], ah);
      }
      kex := kex - 1;
    }
    if on && kex > start {
      TruncZero(b[s.order[kex]], ah);
    }
  }

  // Two end-of-block indices that no position after start tells apart.
  predicate Agree(start: nat, kex: nat, kex': nat) {
    kex == kex' || (kex <= start && kex' <= start)
  }

  lemma {:induction false} AgreeSuffices(tbl: TableNo, z: Coefs, se: nat, kex: nat, kex': nat, start: nat, k: nat,
                                         rest: Decisions)
    requires start <= k <= se < 64 && Agree(start, kex, kex')
    ensures RefineAfter(tbl, z, se, kex, k, rest) == RefineAfter(tbl, z, se, kex', k, rest)
    ensures k < LastNonzero(z, se) ==> RefineRun(tbl, z, se, kex, k, rest) == RefineRun(tbl, z, se, kex', k, rest)
    decreases se - k
  {
    if k < LastNonzero(z, se) {
      AgreeSuffices(tbl, z, se, kex, kex', start, k + 1, rest);
    }
  }

  // The encoder looks for the old end of block only up to the new one.
  lemma SameOldEnd(s: Scan, b: Block, se: nat, al: nat)
    requires ScanOk(s) && se < 64
    ensures LastNonzero(Ordered(s, b, al + 1), LastNonzero(Ordered(s, b, al), se)) ==
            LastNonzero(Ordered(s, b, al + 1), se)
  {
    var z, y, ke := Ordered(s, b, al), Ordered(s, b, al + 1), LastNonzero(Ordered(s, b, al), se);
    forall j | ke < j <= se
      ensures y[j] == 0
    {
      assert z[j] == 0;
      ShrHalves(Abs(b[s.order[j]]), al);
    }
    LastFrom(y, ke, se);
  }

  lemma {:induction false} LastFrom(y: seq<int>, lo: nat, hi: nat)
    requires lo <= hi < |y| && forall j :: lo < j <= hi ==> y[j] == 0
    ensures LastNonzero(y, hi) == LastNonzero(y, lo)
    decreases hi
  {
    if lo < hi {
      LastFrom(y, lo, hi - 1);
    }
  }

  // What one decision, or two, make of the coefficient cur: a correction bit for a
  // nonzero one, otherwise whether it becomes nonzero, and its sign.
  method RefineValue(dec: BinaryDecoder, st: nat, cur: Coef, al: nat,
                     ghost on: bool, ghost x: Coef, ghost after: Decisions, ghost run: Decisions)
    returns (e: Ending, v: Coef)
    requires dec.Valid() && st + 2 < BIN_COUNT
    requires on ==> cur == Trunc(x, al + 1)
    requires on && PointTransform(x, al) == 0 ==> dec.pending == Cons(Decision(st + 1, 0), run)
    requires on && PointTransform(x, al) != 0 ==> dec.pending == RefineNonzero(st, PointTransform(x, al), after)
    modifies dec, dec.bins
    ensures e != BadCode && dec.Kept(e != Fatal) && (on || old(dec.ending).Some? ==> e != Fatal)
    ensures on ==>
              v == Trunc(x, al) && dec.last == old(dec.last) && (cur != 0 || v != 0 <==> PointTransform(x, al) != 0)
    ensures on ==> dec.pending == if PointTransform(x, al) == 0 then run else after
  {
    RefineOne(x, al);
    TruncZero(x, al);
    v := cur;
    if cur != 0 {
      var r := dec.Decode(st + 2);
      if r == None {
        return Fatal, v;
      }
      if r == Some(1) {
        v := ToCoef(if cur < 0 then cur - Shl(1, al) else cur + Shl(1, al));
      }
      return Normal, v;
    }
    var r := dec.Decode(st + 1);
    if r == None {
      return Fatal, v;
    }
    if r == Some(1) {
      var sign := dec.Decode(FIXED_BIN);
      if sign == None {
        return Fatal, v;
      }
      v := ToCoef(if sign == Some(1) then -Shl(1, al) else Shl(1, al));
    }
    return Normal, v;
  }

  // The zeros after index k0 and the refined value v of the coefficient k behind them.
  method DecodeRefinedCoefficient(dec: BinaryDecoder, s: Scan, tbl: TableNo, data: array<Coef>, off: nat,
                                  k0: nat, se: nat, al: nat,
                                  ghost on: bool, ghost b: Block, ghost kex: nat, ghost rest: Decisions)
    returns (e: Ending, k: nat, v: Coef)
    requires dec.Valid() && ScanOk(s) && k0 < se < 64 && off + 64 <= data.Length
    requires on ==> k0 < LastNonzero(Ordered(s, b, al), se) && KnownTo(s, data[..], off, k0, se, b, al + 1)
    requires on ==> dec.pending == RefineRun(tbl, Ordered(s, b, al), se, kex, k0, rest)
    modifies dec, dec.bins
    ensures dec.Kept(e != Fatal) && (on || old(dec.ending).Some? ==> e != Fatal)
    ensures e == Normal ==> k0 < k <= se
    ensures on ==> e == Normal && v == Trunc(b[s.order[k]], al) && forall j :: k0 < j < k ==> Ordered(s, b, al)[j] == 0
    ensures on ==> dec.pending == RefineAfter(tbl, Ordered(s, b, al), se, kex, k, rest) && dec.last == old(dec.last)
  {
    ghost var z := Ordered(s, b, al);
    k := k0 + 1;
    while true
      invariant k0 < k <= se && dec.Kept(true)
      invariant on ==> k <= LastNonzero(z, se) && forall j :: k0 < j < k ==> z[j] == 0
      invariant on ==> dec.pending == RefineRun(tbl, z, se, kex, k - 1, rest) && dec.last == old(dec.last)
      decreases se - k
    {
      var pos := off + s.order[k];
      e, v := RefineNext(dec, s, tbl, data, off, k, se, al, on, b, kex, rest);
      if e != Normal || data[pos] != 0 || v != 0 {
        return;
      }
      if k >= se {
        return BadCode, k, v;
      }
      k := k + 1;
    }
  }

  // What the decisions for coefficient k say.
  method RefineNext(dec: BinaryDecoder, s: Scan, tbl: TableNo, data: array<Coef>, off: nat, k: nat, se: nat, al: nat,
                    ghost on: bool, ghost b: Block, ghost kex: nat, ghost rest: Decisions)
    returns (e: Ending, v: Coef)
    requires dec.Valid() && ScanOk(s) && 0 < k <= se < 64 && off + 64 <= data.Length
    requires on ==> k <= LastNonzero(Ordered(s, b, al), se) && data[off + s.order[k]] == Trunc(b[s.order[k]], al + 1)
    requires on ==> dec.pending == RefineRun(tbl, Ordered(s, b, al), se, kex, k - 1, rest)
    modifies dec, dec.bins
    ensures e != BadCode && dec.Kept(e != Fatal) && (on || old(dec.ending).Some? ==> e != Fatal)
    ensures on ==> v == Trunc(b[s.order[k]], al) && dec.last == old(dec.last)
    ensures on ==> (data[off + s.order[k]] != 0 || v != 0 <==> Ordered(s, b, al)[k] != 0)
    ensures on && Ordered(s, b, al)[k] != 0 ==> dec.pending == RefineAfter(tbl, Ordered(s, b, al), se, kex, k, rest)
    ensures on && Ordered(s, b, al)[k] == 0 ==>
              k < LastNonzero(Ordered(s, b, al), se) && dec.pending ==
                  RefineRun(tbl, Ordered(s, b, al), se, kex, k, rest)
  {
    ghost var z := Ordered(s, b, al);
    ghost var more := on && k < LastNonzero(z, se);
    e, v := RefineValue(dec, AcArea(tbl) + 3 * (k - 1), data[off + s.order[k]], al, on, b[s.order[k]],
                        if on then RefineAfter(tbl, z, se, kex, k, rest) else Nil,
                        if more then RefineRun(tbl, z, se, kex, k, rest) else Nil);
  }

  // Storing the refined coefficient k extends the known part of the band to k.
  lemma RefinedUpTo(s: Scan, data: seq<Coef>, off: nat, start: nat, k0: nat, k: nat, se: nat, b: Block, al: nat,
                    data': seq<Coef>)
    requires ScanOk(s) && start <= k0 < k <= se < 64 && off + 64 <= |data|
    requires KnownTo(s, data, off, start, k0, b, al) && KnownTo(s, data, off, k0, se, b, al + 1)
    requires forall j :: k0 < j < k ==> Ordered(s, b, al)[j] == 0
    requires data' == data[off + s.order[k] := Trunc(b[s.order[k]], al)]
    ensures KnownTo(s, data', off, start, k, b, al) && KnownTo(s, data', off, k, se, b, al + 1)
  {
    forall j | start < j <= k
      ensures data'[off + s.order[j]] == Trunc(b[s.order[j]], al)
    {
      if k0 < j < k {
        assert Ordered(s, b, al)[j] == PointTransform(b[s.order[j]], al);
        RefineOne(b[s.order[j]], al);
      }
    }
  }

  // Figure G.10 decoded: decode_mcu_AC_refine for the band after start up to se.
  method DecodeRefinement(dec: BinaryDecoder, s: Scan, tbl: TableNo, data: array<Coef>, off: nat, start: nat, se: nat,
                          al: nat,
                          ghost on: bool, ghost b: Block, ghost rest: Decisions)
    returns (e: Ending)
    requires dec.Valid() && ScanOk(s) && start <= se < 64 && off + 64 <= data.Length
    requires on ==> KnownTo(s, data[..], off, start, se, b, al + 1)
    requires var z, kex := Ordered(s, b, al), LastNonzero(Ordered(s, b, al + 1), LastNonzero(Ordered(s, b, al), se));
             on ==> dec.pending == RefineAfter(tbl, z, se, kex, start, rest)
    modifies dec, dec.bins, data
    ensures dec.Kept(e != Fatal) && (on || old(dec.ending).Some? ==> e != Fatal)
    ensures forall i :: 0 <= i < data.Length && !InBand(s, off, start, se, i) ==> data[i] == old(data[i])
    ensures on ==> e == Normal && dec.pending == rest && dec.last == old(dec.last)
    ensures on ==> KnownTo(s, data[..], off, start, se, b, al)
  {
    ghost var z := Ordered(s, b, al);
    var kex := FindLastKnown(s, data, off, start, se, on, b, al + 1);
    SameOldEnd(s, b, se, al);
    var k := start;
    if on {
      AgreeSuffices(tbl, z, se, LastNonzero(Ordered(s, b, al + 1), se), kex, start, start, rest);
    }
    while k < se
      invariant start <= k <= se && dec.Kept(true)
      invariant forall i :: 0 <= i < data.Length && !InBand(s, off, start, se, i) ==> data[i] == old(data[i])
      invariant on ==> dec.pending == RefineAfter(tbl, z, se, kex, k, rest) && dec.last == old(dec.last)
      invariant on ==> KnownTo(s, data[..], off, start, k, b, al) && KnownTo(s, data[..], off, k, se, b, al + 1)
      decreases se - k
    {
      if k + 1 > kex {
        var r := dec.Decode(AcArea(tbl) + 3 * k);
        if r == None {
          return Fatal;
        }
        if r == Some(1) {
          break;
        }
      }
      var v;
      ghost var k0, was := k, data[..];
      e, k, v := DecodeRefinedCoefficient(dec, s, tbl, data, off, k, se, al, on, b, kex, rest);
      if e != Normal {
        return;
      }
      data[off + s.order[k]] := v;
      assert data[..] == was[off + s.order[k] := v];
      if on {
        RefinedUpTo(s, was, off, start, k0, k, se, b, al, data[..]);
      }
    }
    e := Normal;
    if on {
      RefinedTail(s, data[..], off, start, k, se, b, al);
    }
  }

  // Behind the end of block nothing becomes nonzero.
  lemma RefinedTail(s: Scan, data: seq<Coef>, off: nat, start: nat, k: nat, se: nat, b: Block, al: nat)
    requires ScanOk(s) && start <= k <= se < 64 && off + 64 <= |data|
    requires KnownTo(s, data, off, start, k, b, al) && KnownTo(s, data, off, k, se, b, al + 1)
    requires LastNonzero(Ordered(s, b, al), se) <= k
    ensures KnownTo(s, data, off, start, se, b, al)
  {
    forall j | k < j <= se
      ensures data[off + s.order[j]] == Trunc(b[s.order[j]], al)
    {
      assert Ordered(s, b, al)[j] == PointTransform(b[s.order[j]], al);
      RefineOne(b[s.order[j]], al);
    }
  }
}

// The MCU encoding routines of jcarith.c: each codes exactly the decisions that
// ArithBinarisation.dfy lists for its coefficients.

module ArithMcuEncoder {
  import opened Prelude
  import opened ArithCoder
  import opened ArithRoundTrip
  import opened ArithEncoder
  import opened ArithBinarisation
  import opened Coefficients
  import opened Scans
  import opened ArithMasks

  // Figure F.8 from the first doubling on, with the terminating zero. Returns the
  // last bin used and the final mask; the bit pattern is still to come.
  method CodeCategory(coder: BinaryEncoder, start: nat, v: nat, m0: nat, ghost w: nat, ghost rest: Decisions)
    returns (st: nat, m: nat)
    requires start + Log2(v) + 14 < BIN_COUNT
    requires coder.Valid() && coder.plan == Category(start, v, m0, w, rest)
    modifies coder, coder.bins
    ensures st + 14 < BIN_COUNT && m == MaskAfter(m0, v)
    ensures coder.Coded(Pattern(st + 14, m, w, rest))
  {
    m := m0;
    st := start;
    var v2 := v;
    while v2 / 2 != 0
      invariant st + Log2(v2) + 14 < BIN_COUNT && MaskAfter(m, v2) == MaskAfter(m0, v)
      invariant coder.Coded(Category(st, v2, m, w, rest))
      decreases v2
    {
      coder.ArithEncode(st, 1);
      m := 2 * m;
      st := st + 1;
      v2 := v2 / 2;
    }
    coder.ArithEncode(st, 0);
  }

  // Figure F.9: the bits of v below the mask.
  method CodePattern(coder: BinaryEncoder, st: BinNo, top: nat, v: nat, ghost rest: Decisions)
    requires coder.Valid() && coder.plan == Pattern(st, top, v, rest)
    modifies coder, coder.bins
    ensures coder.Coded(rest)
  {
    var m: nat := top / 2;
    ghost var mask := top;
    while m != 0
      invariant m == mask / 2 && coder.Coded(Pattern(st, mask, v, rest))
      decreases m
    {
      coder.ArithEncode(st, MaskBit(v, m));
      mask := m;
      m := m / 2;
    }
  }

  // Figures F.8 and F.9 for the DC magnitude v + 1; returns the mask m.
  method CodeDcMagnitude(coder: BinaryEncoder, tbl: TableNo, start: BinNo, v: nat, ghost rest: Decisions)
    returns (m: nat)
    requires v < 65536
    requires coder.Valid() && coder.plan == DcMagnitude(tbl, start, v, rest)
    modifies coder, coder.bins
    ensures m == TopBit(v) && coder.Coded(rest)
  {
    if v != 0 {
      Log2Below16(v);
      MaskIsTopBit(v);
      coder.ArithEncode(start, 1);
      var st;
      st, m := CodeCategory(coder, DcArea(tbl) + 20, v, 1, v, rest);
      CodePattern(coder, st + 14, m, v, rest);
    } else {
      m := 0;
      coder.ArithEncode(start, 0);
    }
  }

  // Figure F.4 for a DC difference; returns the new conditioning category.
  method CodeDcDifference(coder: BinaryEncoder, tbl: TableNo, context: Context, diff: Difference, lower: nat,
                          upper: nat,
                          ghost rest: Decisions)
    returns (category: Context)
    requires coder.Valid() && coder.plan == DcDecisions(tbl, context, diff, rest)
    modifies coder, coder.bins
    ensures category == DcCategory(diff, lower, upper) && coder.Coded(rest)
  {
    var st := DcArea(tbl) + context;
    if diff == 0 {
      coder.ArithEncode(st, 0);
      return 0;
    }
    coder.ArithEncode(st, 1);
    var m;
    if diff > 0 {
      coder.ArithEncode(st + 1, 0);
      category := 4;
      m := CodeDcMagnitude(coder, tbl, st + 2, diff - 1, rest);
    } else {
      coder.ArithEncode(st + 1, 1);
      category := 8;
      m := CodeDcMagnitude(coder, tbl, st + 3, -diff - 1, rest);
    }
    if m < Shl(1, lower) / 2 {
      category := 0;
    } else if m > Shl(1, upper) / 2 {
      category := category + 8;
    }
  }

  // Figures F.8 and F.9 for the AC magnitude v + 1.
  method CodeAcMagnitude(coder: BinaryEncoder, tbl: TableNo, start: BinNo, v: nat, low: bool, ghost rest: Decisions)
    requires v < 32768
    requires coder.Valid() && coder.plan == AcMagnitude(tbl, start, v, low, rest)
    modifies coder, coder.bins
    ensures coder.Coded(rest)
  {
    if v != 0 {
      coder.ArithEncode(start, 1);
      if v / 2 != 0 {
        Log2Below16(v / 2);
        coder.ArithEncode(start, 1);
        var st, m := CodeCategory(coder, AcHigh(tbl, low), v / 2, 2, v, rest);
        CodePattern(coder, st + 14, m, v, rest);
      } else {
        coder.ArithEncode(start, 0);
      }
    } else {
      coder.ArithEncode(start, 0);
    }
  }

  // The end-of-block search: the last index up to se of a coefficient that is
  // nonzero after the point transform by al.
  method FindLast(s: Scan, b: Block, se: nat, al: nat) returns (ke: nat)
    requires ScanOk(s) && se < 64
    ensures ke == LastNonzero(Ordered(s, b, al), se)
  {
    ke := se;
    while ke > 0 && PointTransform(b[s.order[ke]], al) == 0
      invariant ke <= se && LastNonzero(Ordered(s, b, al), se) == LastNonzero(Ordered(s, b, al), ke)
    {
      ke := ke - 1;
    }
  }

  // The zero run after index k and the nonzero coefficient that ends it.
  method CodeCoefficient(coder: BinaryEncoder, s: Scan, tbl: TableNo, b: Block, k0: nat, se: nat, al: nat,
                         ghost rest: Decisions)
    returns (k: nat)
    requires ScanOk(s) && se < 64 && k0 < LastNonzero(Ordered(s, b, al), se)
    requires coder.Valid() && coder.plan == AcRun(tbl, s.acK[tbl], Ordered(s, b, al), se, k0, rest)
    modifies coder, coder.bins
    ensures k0 < k <= se && coder.Coded(AcAfter(tbl, s.acK[tbl], Ordered(s, b, al), se, k, rest))
  {
    ghost var z := Ordered(s, b, al);
    var st := AcArea(tbl) + 3 * k0;
    k := k0 + 1;
    var v: int := PointTransform(b[s.order[k]], al);
    while v == 0
      invariant k0 < k <= LastNonzero(z, se) && st == AcArea(tbl) + 3 * (k - 1) && v == z[k]
      invariant coder.Coded(AcRun(tbl, s.acK[tbl], z, se, k - 1, rest))
      decreases se - k
    {
      coder.ArithEncode(st + 1, 0);
      st := st + 3;
      k := k + 1;
      v := PointTransform(b[s.order[k]], al);
    }
    coder.ArithEncode(st + 1, 1);
    CodeAcValue(coder, tbl, st + 2, v, k <= s.acK[tbl], AcAfter(tbl, s.acK[tbl], z, se, k, rest));
  }

  // The sign and magnitude of a coefficient.
  method CodeAcValue(coder: BinaryEncoder, tbl: TableNo, st: BinNo, v: int, low: bool, ghost rest: Decisions)
    requires coder.Valid() && 0 < Abs(v) <= 32768
    requires coder.plan == Cons(Decision(FIXED_BIN, SignBit(v)), AcMagnitude(tbl, st, Abs(v) - 1, low, rest))
    modifies coder, coder.bins
    ensures coder.Coded(rest)
  {
    if v > 0 {
      coder.ArithEncode(FIXED_BIN, 0);
      CodeAcMagnitude(coder, tbl, st, v - 1, low, rest);
    } else {
      coder.ArithEncode(FIXED_BIN, 1);
      CodeAcMagnitude(coder, tbl, st, -v - 1, low, rest);
    }
  }

  // Figure F.5 for the band after index start up to se (encode_mcu with start = 0,
  // al = 0 and se = lim_Se; encode_mcu_AC_first with start = Ss - 1).
  method CodeBand(coder: BinaryEncoder, s: Scan, tbl: TableNo, b: Block, start: nat, se: nat, al: nat,
                  ghost rest: Decisions)
    requires ScanOk(s) && start <= se < 64
    requires coder.Valid() && coder.plan == AcAfter(tbl, s.acK[tbl], Ordered(s, b, al), se, start, rest)
    modifies coder, coder.bins
    ensures coder.Coded(rest)
  {
    var ke := FindLast(s, b, se, al);
    var k := start;
    while k < ke
      invariant k <= se && coder.Coded(AcAfter(tbl, s.acK[tbl], Ordered(s, b, al), se, k, rest))
      decreases se - k
    {
      coder.ArithEncode(AcArea(tbl) + 3 * k, 0);
      k := CodeCoefficient(coder, s, tbl, b, k, se, al, rest);
    }
    if k < se {
      coder.ArithEncode(AcArea(tbl) + 3 * k, 1);
    }
  }

  // One refined coefficient after index k, with the zeros before it.
  method CodeRefinedCoefficient(coder: BinaryEncoder, s: Scan, tbl: TableNo, b: Block, k0: nat, se: nat, al: nat,
                                ghost kex: nat, ghost rest: Decisions)
    returns (k: nat)
    requires ScanOk(s) && se < 64 && k0 < LastNonzero(Ordered(s, b, al), se)
    requires coder.Valid() && coder.plan == RefineRun(tbl, Ordered(s, b, al), se, kex, k0, rest)
    modifies coder, coder.bins
    ensures k0 < k <= se && coder.Coded(RefineAfter(tbl, Ordered(s, b, al), se, kex, k, rest))
  {
    ghost var z := Ordered(s, b, al);
    var st := AcArea(tbl) + 3 * k0;
    k := k0 + 1;
    var v: int := PointTransform(b[s.order[k]], al);
    while v == 0
      invariant k0 < k <= LastNonzero(z, se) && st == AcArea(tbl) + 3 * (k - 1) && v == z[k]
      invariant coder.Coded(RefineRun(tbl, z, se, kex, k - 1, rest))
      decreases se - k
    {
      coder.ArithEncode(st + 1, 0);
      st := st + 3;
      k := k + 1;
      v := PointTransform(b[s.order[k]], al);
    }
    if Abs(v) / 2 != 0 {
      coder.ArithEncode(st + 2, Abs(v) % 2);
    } else {
      coder.ArithEncode(st + 1, 1);
      coder.ArithEncode(FIXED_BIN, SignBit(v));
    }
  }

  // Figure G.10 for the band after index start up to se (encode_mcu_AC_refine).
  method CodeRefinement(coder: BinaryEncoder, s: Scan, tbl: TableNo, b: Block, start: nat, se: nat, al: nat, ah: nat,
                        ghost rest: Decisions)
    requires ScanOk(s) && start <= se < 64
    requires var z, kex := Ordered(s, b, al), LastNonzero(Ordered(s, b, ah), LastNonzero(Ordered(s, b, al), se));
             coder.Valid() && coder.plan == RefineAfter(tbl, z, se, kex, start, rest)
    modifies coder, coder.bins
    ensures coder.Coded(rest)
  {
    var ke := FindLast(s, b, se, al);
    var kex := FindLast(s, b, ke, ah);
    var k := start;
    while k < ke
      invariant k <= se && coder.Coded(RefineAfter(tbl, Ordered(s, b, al), se, kex, k, rest))
      decreases se - k
    {
      if k + 1 > kex {
        coder.ArithEncode(AcArea(tbl) + 3 * k, 0);
      }
      k := CodeRefinedCoefficient(coder, s, tbl, b, k, se, al, kex, rest);
    }
    if k < se {
      coder.ArithEncode(AcArea(tbl) + 3 * k, 1);
    }
  }
}

// The statistics areas: which bins the decisions of a table use (jcarith.c, Tables F.4 and
// F.5 of T.81). The areas of different tables do not overlap.

module ArithAreas {
  import opened Prelude
  import opened Coefficients
  import opened Scans
  import opened ArithCoder
  import opened ArithRoundTrip
  import opened ArithBinarisation

  // The numbers of bins that a DC and an AC table use.
  const DC_BINS := 49
  const AC_BINS := 245

  // All decisions use bins of u.
  ghost predicate Within(ds: Decisions, u: iset<nat>)
    decreases ds
  {
    ds.Cons? ==> ds.head.bin in u && Within(ds.tail, u)
  }

  ghost predicate Has(u: iset<nat>, first: nat, count: nat) {
    forall bin: nat :: first <= bin < first + count ==> bin in u
  }

  // The bins of a table.
  predicate InArea(bin: nat, first: nat, count: nat) {
    first <= bin < first + count
  }

  lemma {:induction false} PatternWithin(st: BinNo, m: nat, w: nat, rest: Decisions, u: iset<nat>)
    requires st in u && Within(rest, u)
    ensures Within(Pattern(st, m, w, rest), u)
    decreases m
  {
    if m / 2 != 0 {
      PatternWithin(st, m / 2, w, rest, u);
    }
  }

  // A magnitude category of n + 1 bits uses n + 1 bins, and one for the bits below the
  // first, 14 bins behind the last of those.
  lemma {:induction false} CategoryWithin(st: nat, v2: nat, m: nat, w: nat, rest: Decisions, u: iset<nat>)
    requires st + Log2(v2) + 14 < BIN_COUNT && Has(u, st, Log2(v2) + 1) && st + Log2(v2) + 14 in u && Within(rest, u)
    ensures Within(Category(st, v2, m, w, rest), u)
    decreases v2
  {
    if v2 / 2 == 0 {
      PatternWithin(st + 14, m, w, rest, u);
    } else {
      CategoryWithin(st + 1, v2 / 2, 2 * m, w, rest, u);
    }
  }

  // ---- DC ----

  // The bins for a difference: whether it is zero, by the category of the difference
  // before; the sign; whether the magnitude is 1, by the sign; and the magnitude category,
  // from bin 20 on.
  ghost predicate DcUses(tbl: TableNo, context: Context, diff: Difference, u: iset<nat>) {
    var first, n := DcArea(tbl), Log2(if diff == 0 then 0 else Abs(diff) - 1);
    && first + context in u && (diff != 0 ==> first + context + 1 in u)
    && (diff > 0 ==> first + context + 2 in u) && (diff < 0 ==> first + context + 3 in u)
    && (Abs(diff) > 1 ==> Has(u, first + 20, n + 1) && first + 34 + n in u)
  }

  lemma DcWithin(tbl: TableNo, context: Context, diff: Difference, rest: Decisions, u: iset<nat>)
    requires DcUses(tbl, context, diff, u) && Within(rest, u)
    ensures Within(DcDecisions(tbl, context, diff, rest), u)
  {
    if diff != 0 {
      var w := Abs(diff) - 1;
      Log2Below16(w);
      if w > 0 {
        CategoryWithin(DcArea(tbl) + 20, w, 1, w, rest, u);
      }
    }
  }

  // For a difference that the decoder can decode these are among the first 49 bins.
  lemma DcInArea(tbl: TableNo, context: Context, diff: Difference, u: iset<nat>)
    requires Has(u, DcArea(tbl), if Abs(diff) <= 32768 then DC_BINS else DC_BINS + 1)
    ensures DcUses(tbl, context, diff, u)
  {
    Log2Below16(if diff == 0 then 0 else Abs(diff) - 1);
  }

  // ---- AC ----

  lemma MagnitudeWithin(tbl: TableNo, st: BinNo, w: nat, low: bool, rest: Decisions, u: iset<nat>)
    requires w < 32768 && st in u && (w > 1 ==> Has(u, AcHigh(tbl, low), 28)) && Within(rest, u)
    ensures Within(AcMagnitude(tbl, st, w, low, rest), u)
  {
    if w > 1 {
      ShlFour(1, 10);
      ShlFour(16, 6);
      ShlFour(256, 2);
      Log2Bound(w / 2, 13);
      Log2Below16(w / 2);
      CategoryWithin(AcHigh(tbl, low), w / 2, 2, w, rest, u);
    }
  }

  // The bins for the coefficients k + 1 to se: three for each index, the fixed bin for the
  // signs, and for large magnitudes 28 bins up to index kx and another 28 above it.
  ghost predicate AcUses(tbl: TableNo, kx: nat, k: nat, se: nat, u: iset<nat>)
    requires k <= se
  {
    && FIXED_BIN in u && Has(u, AcArea(tbl) + 3 * k, 3 * (se - k))
    && (k < se && k + 1 <= kx ==> Has(u, AcArea(tbl) + 189, 28)) && (se > kx ==> Has(u, AcArea(tbl) + 217, 28))
  }

  lemma {:induction false} AcWithin(tbl: TableNo, kx: nat, z: Coefs, se: nat, k: nat, rest: Decisions, u: iset<nat>)
    requires k <= se < 64 && AcUses(tbl, kx, k, se, u) && Within(rest, u)
    ensures Within(AcAfter(tbl, kx, z, se, k, rest), u)
    decreases se - k, 1
  {
    if k < LastNonzero(z, se) {
      RunWithin(tbl, kx, z, se, k, rest, u);
    }
  }

  lemma {:induction false} RunWithin(tbl: TableNo, kx: nat, z: Coefs, se: nat, k: nat, rest: Decisions, u: iset<nat>)
    requires se < 64 && k < LastNonzero(z, se) && AcUses(tbl, kx, k, se, u) && Within(rest, u)
    ensures Within(AcRun(tbl, kx, z, se, k, rest), u)
    decreases se - k, 0
  {
    if z[k + 1] == 0 {
      RunWithin(tbl, kx, z, se, k + 1, rest, u);
    } else {
      AcWithin(tbl, kx, z, se, k + 1, rest, u);
      MagnitudeWithin(tbl, AcArea(tbl) + 3 * k + 2, Abs(z[k + 1]) - 1, k + 1 <= kx,
                      AcAfter(tbl, kx, z, se, k + 1, rest), u);
    }
  }

  // The bins for a refined band: two for each index, the third only behind kex, the end of
  // the band before, since it ends no earlier now; and the fixed bin for the signs.
  ghost predicate RefineUses(tbl: TableNo, k: nat, se: nat, kex: nat, u: iset<nat>) {
    FIXED_BIN in u && forall j :: k <= j < se ==> RefinesAt(AcArea(tbl) + 3 * j, j + 1 > kex, u)
  }

  ghost predicate RefinesAt(st: nat, mayEnd: bool, u: iset<nat>) {
    st + 1 in u && st + 2 in u && (mayEnd ==> st in u)
  }

  lemma {:induction false} RefineWithin(tbl: TableNo, z: Coefs, se: nat, kex: nat, k: nat, rest: Decisions,
                                        u: iset<nat>)
    requires k <= se < 64 && kex <= LastNonzero(z, se) && RefineUses(tbl, k, se, kex, u) && Within(rest, u)
    ensures Within(RefineAfter(tbl, z, se, kex, k, rest), u)
    decreases se - k, 1
  {
    if k < se {
      assert RefinesAt(AcArea(tbl) + 3 * k, k + 1 > kex, u);
    }
    if k < LastNonzero(z, se) {
      RefineRunWithin(tbl, z, se, kex, k, rest, u);
    }
  }

  lemma {:induction false} RefineRunWithin(tbl: TableNo, z: Coefs, se: nat, kex: nat, k: nat, rest: Decisions,
                                           u: iset<nat>)
    requires se < 64 && k < LastNonzero(z, se) && kex <= LastNonzero(z, se)
    requires RefineUses(tbl, k, se, kex, u) && Within(rest, u)
    ensures Within(RefineRun(tbl, z, se, kex, k, rest), u)
    decreases se - k, 0
  {
    assert RefinesAt(AcArea(tbl) + 3 * k, k + 1 > kex, u);
    if z[k + 1] == 0 {
      RefineRunWithin(tbl, z, se, kex, k + 1, rest, u);
    } else {
      RefineWithin(tbl, z, se, kex, k + 1, rest, u);
    }
  }

  // These are among the first 245 bins.
  lemma AcInArea(tbl: TableNo, kx: nat, kex: nat, k: nat, se: nat, u: iset<nat>)
    requires k <= se < 64 && FIXED_BIN in u && Has(u, AcArea(tbl), AC_BINS)
    ensures AcUses(tbl, kx, k, se, u) && RefineUses(tbl, k, se, kex, u)
  {
  }

  // No bin belongs to two tables, and the fixed bin to none.
  lemma AreasApart(a: TableNo, b: TableNo, bin: BinNo)
    ensures InArea(bin, DcArea(a), DC_BINS) && InArea(bin, DcArea(b), DC_BINS) ==> a == b
    ensures InArea(bin, AcArea(a), AC_BINS) && InArea(bin, AcArea(b), AC_BINS) ==> a == b
    ensures !(InArea(bin, DcArea(a), DC_BINS) && InArea(bin, AcArea(b), AC_BINS))
    ensures InArea(bin, DcArea(a), DC_BINS) || InArea(bin, AcArea(a), AC_BINS) ==> bin != FIXED_BIN
  {
  }
}

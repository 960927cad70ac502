// Restart markers cut an arithmetic-coded scan into segments that stand on their own: what
// follows a marker is coded as if the scan began there (emit_restart of jcarith.c).

module ArithRestarts {
  import opened Prelude
  import opened ByteStream
  import opened Coefficients
  import opened Scans
  import opened ArithTable
  import opened ArithCoder
  import opened ArithRoundTrip
  import opened ArithBinarisation
  import opened ArithAreas
  import opened ArithScan

  // The bins that a scan uses: those that a restart clears, and the fixed bin.
  ghost function Usable(s: Scan): iset<nat>
    requires ScanOk(s)
  {
    iset bin: nat | bin == FIXED_BIN || Cleared(s, bin)
  }

  lemma DcUsable(s: Scan, ci: nat, p: Prediction, value: Coef, rest: Decisions)
    requires ScanOk(s) && ci < |s.comps| && PredictionOk(s, p) && s.ss == 0 && s.ah == 0 && Within(rest, Usable(s))
    ensures Within(CodeDc(s, ci, p, value, rest), Usable(s))
  {
    var tbl := s.comps[ci].dcTbl;
    forall bin: nat | DcArea(tbl) <= bin < DcArea(tbl) + 50
      ensures bin in Usable(s)
    {
      assert ClearedBy(s, ci, bin);
    }
    DcInArea(tbl, p.context[ci], value - p.lastDc[ci], Usable(s));
    DcWithin(tbl, p.context[ci], value - p.lastDc[ci], rest, Usable(s));
  }

  lemma AcUsable(s: Scan, ci: nat)
    requires ScanOk(s) && ci < |s.comps| && s.se != 0
    ensures Has(Usable(s), AcArea(s.comps[ci].acTbl), AC_BINS)
  {
    var tbl := s.comps[ci].acTbl;
    forall bin: nat | AcArea(tbl) <= bin < AcArea(tbl) + AC_BINS
      ensures bin in Usable(s)
    {
      assert ClearedBy(s, ci, bin);
    }
  }

  lemma BandUsable(s: Scan, ci: nat, kex: nat, k: nat)
    requires ScanOk(s) && ci < |s.comps| && k <= s.se
    ensures var tbl := s.comps[ci].acTbl;
            AcUses(tbl, s.acK[tbl], k, s.se, Usable(s)) && RefineUses(tbl, k, s.se, kex, Usable(s))
  {
    if s.se != 0 {
      AcUsable(s, ci);
      AcInArea(s.comps[ci].acTbl, s.acK[s.comps[ci].acTbl], kex, k, s.se, Usable(s));
    }
  }

  lemma BlockUsable(s: Scan, i: nat, p: Prediction, b: Block, rest: Decisions)
    requires ScanOk(s) && PredictionOk(s, p) && i < |s.membership| && Within(rest, Usable(s))
    ensures Within(BlockDecisions(s, i, p, b, rest), Usable(s))
  {
    var ci := s.membership[i];
    var tbl, u := s.comps[ci].acTbl, Usable(s);
    match KindOf(s)
    case Sequential =>
      BandUsable(s, ci, 0, 0);
      AcWithin(tbl, s.acK[tbl], Ordered(s, b, 0), s.limSe, 0, rest, u);
      DcUsable(s, ci, p, b[0], AcAfter(tbl, s.acK[tbl], Ordered(s, b, 0), s.limSe, 0, rest));
    case DcFirst =>
      DcUsable(s, ci, p, DcShifted(b[0], s.al), rest);
    case AcFirst =>
      BandUsable(s, ci, 0, s.ss - 1);
      AcWithin(tbl, s.acK[tbl], Ordered(s, b, s.al), s.se, s.ss - 1, rest, u);
    case DcRefine =>
    case AcRefine =>
      BandUsable(s, ci, OldEnd(s, b), s.ss - 1);
      RefineWithin(tbl, Ordered(s, b, s.al), s.se, OldEnd(s, b), s.ss - 1, rest, u);
  }

  lemma {:induction false} McuUsable(s: Scan, i: nat, p: Prediction, mcu: Mcu, rest: Decisions)
    requires ScanOk(s) && PredictionOk(s, p) && McuOk(s, mcu) && i <= |mcu| && Within(rest, Usable(s))
    ensures Within(McuDecisions(s, i, p, mcu, rest), Usable(s))
    decreases |mcu| - i
  {
    if i < |mcu| {
      var p' := AfterBlock(s, i, p, mcu[i]);
      McuUsable(s, i + 1, p', mcu, rest);
      BlockUsable(s, i, p, mcu[i], McuDecisions(s, i + 1, p', mcu, rest));
    }
  }

  lemma {:induction false} SegmentUsable(s: Scan, p: Prediction, mcus: seq<Mcu>, i: nat, j: nat)
    requires ScanOk(s) && PredictionOk(s, p) && McusOk(s, mcus) && i <= j <= |mcus|
    ensures Within(SegmentDecisions(s, p, mcus, i, j), Usable(s))
    decreases j - i
  {
    if i < j {
      var p' := AfterMcu(s, 0, p, mcus[i]);
      SegmentUsable(s, p', mcus, i + 1, j);
      McuUsable(s, 0, p, mcus[i], SegmentDecisions(s, p', mcus, i + 1, j));
    }
  }

  // ---- statistics ----

  ghost predicate Agree(a: Bins, b: Bins, u: iset<nat>) {
    forall i :: 0 <= i < |a| && i in u ==> a[i] == b[i]
  }

  // Bins that are not used do not matter.
  lemma {:induction false} SameCoding(m: Machine, e: NormalEnc, a: Bins, b: Bins, ds: Decisions, u: iset<nat>)
    requires Within(ds, u) && Agree(a, b, u)
    ensures Encode(m, e, a, ds).0 == Encode(m, e, b, ds).0
    decreases ds
  {
    match ds
    case Nil =>
    case Cons(d, rest) =>
      var (e', s) := EncodeBit(m, e, a[d.bin], d.val);
      SameCoding(m, e', a[d.bin := s], b[d.bin := s], rest, u);
  }

  // The fixed bin keeps its state.
  lemma {:induction false} FixedStays(m: Machine, e: NormalEnc, bins: Bins, ds: Decisions)
    requires m == JpegAritab() && bins[FIXED_BIN] == FIXED_STATE
    ensures Encode(m, e, bins, ds).1[FIXED_BIN] == FIXED_STATE
    decreases ds
  {
    match ds
    case Nil =>
    case Cons(d, rest) =>
      var (e', s) := EncodeBit(m, e, bins[d.bin], d.val);
      assert m[FIXED_STATE] == Aritab(FIXED_STATE);
      FixedStays(m, e', bins[d.bin := s], rest);
  }

  // Cleared bins are as good as fresh ones.
  lemma ClearedAgree(s: Scan, bins: Bins)
    requires ScanOk(s) && bins[FIXED_BIN] == FIXED_STATE
    ensures Agree(ClearBins(s, bins), StartBins(), Usable(s)) && ClearBins(s, bins)[FIXED_BIN] == FIXED_STATE
  {
    assert !Cleared(s, FIXED_BIN);
  }

  // ---- whole scans ----

  // The bytes of a scan do not depend on bins that it does not use.
  lemma SameScan(m: Machine, s: Scan, a: Bins, b: Bins, n: nat, mcus: seq<Mcu>, i: nat)
    requires ScanOk(s) && McusOk(s, mcus) && n < 8 && i <= |mcus| && m == JpegAritab()
    requires Agree(a, b, Usable(s)) && a[FIXED_BIN] == b[FIXED_BIN] == FIXED_STATE
    ensures ScanBytes(m, s, a, n, mcus, i) == ScanBytes(m, s, b, n, mcus, i)
    decreases |mcus| - i
  {
    var j := SegmentEnd(s, i, |mcus|);
    var ds := SegmentDecisions(s, NoPrediction(s), mcus, i, j);
    SegmentUsable(s, NoPrediction(s), mcus, i, j);
    SameCoding(m, EncStart, a, b, ds, Usable(s));
    if j < |mcus| {
      FixedStays(m, EncStart, a, ds);
      FixedStays(m, EncStart, b, ds);
      ClearedAgree(s, Encode(m, EncStart, a, ds).1);
      ClearedAgree(s, Encode(m, EncStart, b, ds).1);
      SameScan(m, s, NextBins(m, s, a, ds), NextBins(m, s, b, ds), (n + 1) % 8, mcus, j);
    }
  }

  // A scan is its first segment, a restart marker, and the remaining MCUs as a scan of
  // their own.
  lemma SegmentsApart(m: Machine, s: Scan, n: nat, mcus: seq<Mcu>, i: nat)
    requires ScanOk(s) && McusOk(s, mcus) && n < 8 && i <= |mcus| && m == JpegAritab()
    ensures var j := SegmentEnd(s, i, |mcus|);
            var data := Stuff(Segment(m, StartBins(), SegmentDecisions(s, NoPrediction(s), mcus, i, j)));
            ScanBytes(m, s, StartBins(), n, mcus, i) ==
              if j == |mcus| then data
              else data + RestartMarker(n) + ScanBytes(m, s, StartBins(), (n + 1) % 8, mcus, j)
  {
    var j := SegmentEnd(s, i, |mcus|);
    var ds := SegmentDecisions(s, NoPrediction(s), mcus, i, j);
    if j < |mcus| {
      FreshAfter(m, s, ds, (n + 1) % 8, mcus, j);
    }
  }

  lemma FreshAfter(m: Machine, s: Scan, ds: Decisions, n: nat, mcus: seq<Mcu>, j: nat)
    requires ScanOk(s) && McusOk(s, mcus) && n < 8 && j <= |mcus| && m == JpegAritab()
    ensures ScanBytes(m, s, NextBins(m, s, StartBins(), ds), n, mcus, j) == ScanBytes(m, s, StartBins(), n, mcus, j)
  {
    FixedStays(m, EncStart, StartBins(), ds);
    ClearedAgree(s, Encode(m, EncStart, StartBins(), ds).1);
    SameScan(m, s, NextBins(m, s, StartBins(), ds), StartBins(), n, mcus, j);
  }
}

// Which symbols a scan can use: what the statistics pass counts, and why tables made for
// the counts serve the output pass.

module HuffStatistics {
  import opened Prelude
  import opened Coefficients
  import opened Scans
  import opened HuffBits
  import opened HuffBinarisation
  import opened HuffViews
  import opened HuffScan
  import opened HuffCourse

  // The tables that a scan needs: 0 to 3 for DC, 4 to 7 for AC coefficients.
  predicate NeededBy(s: Scan, ci: nat, k: nat)
    requires HuffScanOk(s) && ci < |s.comps|
  {
    || (k == s.comps[ci].dcTbl && s.ss == 0 && s.ah == 0)
    || (k == 4 + s.comps[ci].acTbl && s.se > 0)
  }

  predicate Needed(s: Scan, k: nat)
    requires HuffScanOk(s)
  {
    exists ci :: 0 <= ci < |s.comps| && NeededBy(s, ci, k)
  }

  // Symbols are of the tables needed. DC symbols are at most 11, and AC symbols have at
  // most 10 in the low four bits.
  predicate Proper(s: Scan, t: Token)
    requires HuffScanOk(s)
  {
    t.Sym? ==> Needed(s, t.tbl) && InRange(t.tbl, t.s)
  }

  predicate InRange(tbl: nat, sym: nat) {
    if tbl < 4 then sym <= MAX_COEF_BITS + 1 else sym % 16 <= MAX_COEF_BITS
  }

  predicate AllProper(s: Scan, ts: Tokens)
    requires HuffScanOk(s)
    decreases ts
  {
    ts.Cons? ==> Proper(s, ts.head) && AllProper(s, ts.tail)
  }

  lemma {:induction false} ProperTally(s: Scan, ts: Tokens, tbl: nat, sym: nat)
    requires HuffScanOk(s) && AllProper(s, ts) && Tally(ts, tbl, sym) > 0
    ensures Needed(s, tbl) && InRange(tbl, sym) && sym < 256
    decreases ts
  {
    if !(ts.head.Sym? && ts.head.tbl == tbl && ts.head.s == sym) {
      ProperTally(s, ts.tail, tbl, sym);
    }
  }

  // ---- tokens of coefficients ----

  predicate AcTable(s: Scan, tbl: HuffNo)
    requires HuffScanOk(s)
  {
    tbl >= 4 && Needed(s, tbl)
  }

  lemma ProperCoef(s: Scan, tbl: HuffNo, r: nat, v: int, rest: Tokens)
    requires HuffScanOk(s) && AcTable(s, tbl) && NBits(Abs(v)) <= MAX_COEF_BITS && AllProper(s, rest)
    ensures AllProper(s, CoefTokens(tbl, r, v, rest))
  {
    LowPart(r % 16, NBits(Abs(v)));
    ProperZrls(s, tbl, r / 16, Cons(Sym(tbl, (r % 16 * 16 + NBits(Abs(v))) % 256), Cons(ValueToken(v), rest)));
  }

  lemma LowPart(r: nat, n: nat)
    requires r < 16 && n <= MAX_COEF_BITS
    ensures (r * 16 + n) % 256 % 16 == n
  {
  }

  lemma {:induction false} ProperZrls(s: Scan, tbl: HuffNo, n: nat, rest: Tokens)
    requires HuffScanOk(s) && AcTable(s, tbl) && AllProper(s, rest)
    ensures AllProper(s, Zrls(tbl, n, rest))
    decreases n
  {
    if n > 0 {
      ProperZrls(s, tbl, n - 1, rest);
    }
  }

  lemma {:induction false} ProperAc(s: Scan, tbl: HuffNo, z: Coefs, se: nat, k: nat, r: nat, rest: Tokens)
    requires HuffScanOk(s) && AcTable(s, tbl) && se < 64 && k <= se + 1 && CoefsFit(z, k, se) && AllProper(s, rest)
    ensures AllProper(s, AcTokens(tbl, z, se, k, r, rest))
    decreases se + 1 - k
  {
    if k <= se {
      if z[k] == 0 {
        ProperAc(s, tbl, z, se, k + 1, r + 1, rest);
      } else {
        ProperAc(s, tbl, z, se, k + 1, 0, rest);
        ProperCoef(s, tbl, r, z[k], AcTokens(tbl, z, se, k + 1, 0, rest));
      }
    }
  }

  lemma {:induction false} ProperCorr(s: Scan, corr: seq<Bit>, rest: Tokens)
    requires HuffScanOk(s) && AllProper(s, rest)
    ensures AllProper(s, CorrTokens(corr, rest))
    decreases corr
  {
    if corr != [] {
      ProperCorr(s, corr[..|corr| - 1], Cons(Val(corr[|corr| - 1], 1), rest));
    }
  }

  lemma ProperEob(s: Scan, tbl: HuffNo, run: nat, corr: seq<Bit>, rest: Tokens)
    requires HuffScanOk(s) && (run > 0 ==> AcTable(s, tbl)) && run <= 0x7FFF && AllProper(s, rest)
    ensures AllProper(s, EobTokens(tbl, run, corr, rest))
  {
    if run > 0 {
      EobBits(run);
      ProperCorr(s, corr, rest);
    }
  }

  lemma {:induction false} ProperFirst(s: Scan, tbl: HuffNo, z: Coefs, se: nat, k: nat, r: nat, run: nat, rest: Tokens)
    requires HuffScanOk(s) && AcTable(s, tbl) && se < 64 && k <= se + 1 && run < 0x7FFF && CoefsFit(z, k, se)
    requires AllProper(s, rest)
    ensures AllProper(s, FirstTokens(tbl, z, se, k, r, run, rest))
    decreases se + 1 - k
  {
    if k > se {
      ProperEob(s, tbl, run + 1, [], rest);
    } else if z[k] == 0 {
      ProperFirst(s, tbl, z, se, k + 1, r + 1, run, rest);
    } else {
      var behind := FirstTokens(tbl, z, se, k + 1, 0, 0, rest);
      ProperFirst(s, tbl, z, se, k + 1, 0, 0, rest);
      ProperCoef(s, tbl, r, z[k], behind);
      ProperEob(s, tbl, run, [], CoefTokens(tbl, r, z[k], behind));
    }
  }

  lemma {:induction false} ProperRefine(s: Scan, tbl: HuffNo, z: Coefs, se: nat, eob: nat, k: nat, r: nat, run: nat,
                                        corr: seq<Bit>, br: seq<Bit>, rest: Tokens)
    requires HuffScanOk(s) && AcTable(s, tbl) && se < 64 && k <= se + 1 && run < 0x7FFF && NewUpTo(z, k, se, eob)
    requires AllProper(s, rest)
    ensures AllProper(s, RefineTokens(tbl, z, se, eob, k, r, run, corr, br, rest))
    decreases se + 1 - k, r
  {
    if k > se {
      ProperEob(s, tbl, run + 1, corr + br, rest);
    } else if z[k] == 0 {
      ProperRefine(s, tbl, z, se, eob, k + 1, r + 1, run, corr, br, rest);
    } else if r > 15 && k <= eob {
      var behind := RefineTokens(tbl, z, se, eob, k, r - 16, 0, [], [], rest);
      ProperRefine(s, tbl, z, se, eob, k, r - 16, 0, [], [], rest);
      ProperCorr(s, br, behind);
      ProperEob(s, tbl, run, corr, Cons(Sym(tbl, 0xF0), CorrTokens(br, behind)));
    } else if Abs(z[k]) > 1 {
      ProperRefine(s, tbl, z, se, eob, k + 1, r, run, corr, br + [NextBit(z[k])], rest);
    } else {
      var behind := RefineTokens(tbl, z, se, eob, k + 1, 0, 0, [], [], rest);
      ProperRefine(s, tbl, z, se, eob, k + 1, 0, 0, [], [], rest);
      ProperCorr(s, br, behind);
      ProperEob(s, tbl, run, corr, Cons(Sym(tbl, 16 * r + 1), Cons(SignToken(z[k]), CorrTokens(br, behind))));
    }
  }

  // ---- tokens of MCUs and scans ----

  lemma ProperBlock(s: Scan, last: seq<Coef>, i: nat, b: Block, rest: Tokens)
    requires HuffScanOk(s) && !AcScan(s) && |last| == |s.comps| && i < |s.membership|
    requires BlockAccepted(s, last, i, b) && AllProper(s, rest)
    ensures AllProper(s, BlockTokens(s, last, i, b, rest))
  {
    var ci := s.membership[i];
    if KindOf(s) == Sequential {
      var band := AcTokens(4 + s.comps[ci].acTbl, Ordered(s, b, 0), s.limSe, 1, 0, rest);
      ProperBand(s, ci, b, rest);
      ProperDc(s, ci, last[ci], b[0], band);
    } else if KindOf(s) == DcFirst {
      ProperDc(s, ci, last[ci], DcShifted(b[0], s.al), rest);
    }
  }

  lemma ProperBand(s: Scan, ci: nat, b: Block, rest: Tokens)
    requires HuffScanOk(s) && KindOf(s) == Sequential && ci < |s.comps| && CoefsFit(Ordered(s, b, 0), 1, s.limSe)
    requires AllProper(s, rest)
    ensures AllProper(s, AcTokens(4 + s.comps[ci].acTbl, Ordered(s, b, 0), s.limSe, 1, 0, rest))
  {
    if s.limSe > 0 {
      assert NeededBy(s, ci, 4 + s.comps[ci].acTbl);
      ProperAc(s, 4 + s.comps[ci].acTbl, Ordered(s, b, 0), s.limSe, 1, 0, rest);
    }
  }

  lemma ProperDc(s: Scan, ci: nat, last: Coef, value: Coef, rest: Tokens)
    requires HuffScanOk(s) && s.ss == 0 && s.ah == 0 && ci < |s.comps| && DcAccepted(last, value) && AllProper(s, rest)
    ensures AllProper(s, DcTokens(s.comps[ci].dcTbl, DcDiff(last, value), rest))
  {
    NeededDc(s, ci);
    ProperDcSymbol(s, s.comps[ci].dcTbl, DcDiff(last, value), rest);
  }

  lemma ProperDcSymbol(s: Scan, tbl: HuffNo, diff: int, rest: Tokens)
    requires HuffScanOk(s) && tbl < 4 && Needed(s, tbl) && NBits(Abs(diff)) <= MAX_COEF_BITS + 1 && AllProper(s, rest)
    ensures AllProper(s, DcTokens(tbl, diff, rest))
  {
    var n: nat := NBits(Abs(diff));
    assert n % 256 == n;
  }

  lemma NeededDc(s: Scan, ci: nat)
    requires HuffScanOk(s) && s.ss == 0 && s.ah == 0 && ci < |s.comps|
    ensures Needed(s, s.comps[ci].dcTbl)
  {
    assert NeededBy(s, ci, s.comps[ci].dcTbl);
  }

  lemma {:induction false} ProperBlocks(s: Scan, last: seq<Coef>, i: nat, mcu: Mcu, rest: Tokens)
    requires HuffScanOk(s) && !AcScan(s) && |last| == |s.comps| && McuOk(s, mcu) && i <= |mcu|
    requires McuAccepted(s, last, i, mcu) && AllProper(s, rest)
    ensures AllProper(s, BlocksTokens(s, last, i, mcu, rest))
    decreases |mcu| - i
  {
    if i < |mcu| {
      var next := AfterBlock(s, last, i, mcu[i]);
      ProperBlocks(s, next, i + 1, mcu, rest);
      ProperBlock(s, last, i, mcu[i], BlocksTokens(s, next, i + 1, mcu, rest));
    }
  }

  lemma ProperMcu(s: Scan, c: Carry, mcu: Mcu, rest: Tokens)
    requires HuffScanOk(s) && CarryOk(s, c) && McuOk(s, mcu) && McuAccepted(s, c.lastDc, 0, mcu) && AllProper(s, rest)
    ensures AllProper(s, McuTokens(s, c, mcu, rest))
  {
    if AcScan(s) {
      var z := BandOf(s, mcu);
      assert NeededBy(s, 0, AcNo(s)) && BlockAccepted(s, c.lastDc, 0, mcu[0]);
      if KindOf(s) == AcFirst {
        ProperFirst(s, AcNo(s), z, s.se, s.ss, 0, c.run, rest);
      } else {
        ProperRefine(s, AcNo(s), z, s.se, LastNew(z, s.ss, s.se), s.ss, 0, c.run, c.corr, [], rest);
      }
    } else {
      ProperBlocks(s, c.lastDc, 0, mcu, rest);
    }
  }

  lemma {:induction false} ProperSegment(s: Scan, c: Carry, mcus: seq<Mcu>, i: nat, j: nat)
    requires HuffScanOk(s) && CarryOk(s, c) && McusOk(s, mcus) && i <= j <= |mcus|
    requires SegAccepted(s, c.lastDc, mcus, i, j)
    ensures AllProper(s, SegTokens(s, c, mcus, i, j))
    decreases j - i
  {
    if i == j {
      if c.run > 0 {
        assert NeededBy(s, 0, AcNo(s));
      }
      ProperEob(s, AcNo(s), c.run, c.corr, Nil);
    } else {
      AfterLast(s, c, mcus[i]);
      ProperSegment(s, AfterMcu(s, c, mcus[i]), mcus, i + 1, j);
      ProperMcu(s, c, mcus[i], SegTokens(s, AfterMcu(s, c, mcus[i]), mcus, i + 1, j));
    }
  }

  // Only proper symbols are counted.
  lemma {:induction false} CountedProper(s: Scan, mcus: seq<Mcu>, i: nat, tbl: nat, sym: nat)
    requires HuffScanOk(s) && McusOk(s, mcus) && i <= |mcus| && ScanAccepted(s, mcus, i)
    requires ScanTally(s, mcus, i, tbl, sym) > 0
    ensures Needed(s, tbl) && InRange(tbl, sym) && sym < 256
    decreases |mcus| - i
  {
    var j := SegmentEnd(s, i, |mcus|);
    var ts := SegTokens(s, NoCarry(s), mcus, i, j);
    if Tally(ts, tbl, sym) > 0 {
      ProperSegment(s, NoCarry(s), mcus, i, j);
      ProperTally(s, ts, tbl, sym);
    } else {
      CountedProper(s, mcus, j, tbl, sym);
    }
  }

  // ---- every table that is needed is used ----

  predicate Uses(ts: Tokens, tbl: nat)
    decreases ts
  {
    ts.Cons? && ((ts.head.Sym? && ts.head.tbl == tbl) || Uses(ts.tail, tbl))
  }

  lemma {:induction false} UsedCounted(ts: Tokens, tbl: nat) returns (sym: byte)
    requires Uses(ts, tbl)
    ensures Tally(ts, tbl, sym) > 0
    decreases ts
  {
    if ts.head.Sym? && ts.head.tbl == tbl {
      sym := ts.head.s;
    } else {
      sym := UsedCounted(ts.tail, tbl);
    }
  }

  lemma {:induction false} ZrlsUse(tbl: HuffNo, n: nat, rest: Tokens, t: nat)
    requires Uses(rest, t)
    ensures Uses(Zrls(tbl, n, rest), t)
    decreases n
  {
    if n > 0 {
      ZrlsUse(tbl, n - 1, rest, t);
    }
  }

  lemma CoefUses(tbl: HuffNo, r: nat, v: int, rest: Tokens, t: nat)
    requires t == tbl || Uses(rest, t)
    ensures Uses(CoefTokens(tbl, r, v, rest), t)
  {
    ZrlsUse(tbl, r / 16, Cons(Sym(tbl, (r % 16 * 16 + NBits(Abs(v))) % 256), Cons(ValueToken(v), rest)), t);
  }

  lemma {:induction false} AcUses(tbl: HuffNo, z: Coefs, se: nat, k: nat, r: nat, rest: Tokens, t: nat)
    requires se < 64 && k <= se + 1 && (Uses(rest, t) || (t == tbl && (r > 0 || k <= se)))
    ensures Uses(AcTokens(tbl, z, se, k, r, rest), t)
    decreases se + 1 - k
  {
    if k <= se {
      if z[k] == 0 {
        AcUses(tbl, z, se, k + 1, r + 1, rest, t);
      } else {
        if Uses(rest, t) {
          AcUses(tbl, z, se, k + 1, 0, rest, t);
        }
        CoefUses(tbl, r, z[k], AcTokens(tbl, z, se, k + 1, 0, rest), t);
      }
    }
  }

  lemma BlockUses(s: Scan, last: seq<Coef>, i: nat, b: Block, rest: Tokens, t: nat)
    requires HuffScanOk(s) && !AcScan(s) && |last| == |s.comps| && i < |s.membership|
    requires NeededBy(s, s.membership[i], t) || Uses(rest, t)
    ensures Uses(BlockTokens(s, last, i, b, rest), t)
  {
    if KindOf(s) == Sequential && (Uses(rest, t) || t >= 4) {
      AcUses(4 + s.comps[s.membership[i]].acTbl, Ordered(s, b, 0), s.limSe, 1, 0, rest, t);
    }
  }

  lemma {:induction false} BlocksUse(s: Scan, last: seq<Coef>, i: nat, mcu: Mcu, rest: Tokens, k: nat, t: nat)
    requires HuffScanOk(s) && !AcScan(s) && |last| == |s.comps| && McuOk(s, mcu) && i <= k < |mcu|
    requires NeededBy(s, s.membership[k], t)
    ensures Uses(BlocksTokens(s, last, i, mcu, rest), t)
    decreases k - i
  {
    var next := AfterBlock(s, last, i, mcu[i]);
    if i < k {
      BlocksUse(s, next, i + 1, mcu, rest, k, t);
    }
    BlockUses(s, last, i, mcu[i], BlocksTokens(s, next, i + 1, mcu, rest), t);
  }

  lemma FirstBandFits(s: Scan, last: seq<Coef>, mcus: seq<Mcu>, i: nat, j: nat)
    requires HuffScanOk(s) && AcScan(s) && |last| == |s.comps| && McusOk(s, mcus) && i < j <= |mcus|
    requires SegAccepted(s, last, mcus, i, j)
    ensures KindOf(s) == AcFirst ==> CoefsFit(BandOf(s, mcus[i]), s.ss, s.se)
  {
    assert BlockAccepted(s, last, 0, mcus[i][0]);
  }

  // A band has a symbol, or else it joins a run, which has one.
  lemma BandUses(s: Scan, mcus: seq<Mcu>, i: nat, j: nat)
    requires HuffScanOk(s) && AcScan(s) && McusOk(s, mcus) && i < j <= |mcus|
    requires SegAccepted(s, NoCarry(s).lastDc, mcus, i, j)
    ensures Uses(SegTokens(s, NoCarry(s), mcus, i, j), AcNo(s))
  {
    var mcu, c := mcus[i], AfterMcu(s, NoCarry(s), mcus[i]);
    var z, rest := BandOf(s, mcu), SegTokens(s, c, mcus, i + 1, j);
    BandLeaves(s, NoCarry(s).lastDc, mcu, rest);
    FirstBandFits(s, NoCarry(s).lastDc, mcus, i, j);
    if KindOf(s) == AcFirst {
      BandStep(AcNo(s), z, s.se, s.ss, rest, rest);
      assert NextNonzero(z, s.se, s.ss) > s.se ==> EndsOpen(z, s.se, s.ss);
    }
    if c.run == 1 {
      var m, after := RunBehind(s, c, mcus, i + 1, j);
    }
  }

  // Every component has a block in the MCUs.
  predicate EveryComponent(s: Scan) {
    forall ci :: 0 <= ci < |s.comps| ==> HasBlock(s, ci)
  }

  predicate HasBlock(s: Scan, ci: nat) {
    exists i :: 0 <= i < |s.membership| && s.membership[i] == ci
  }

  lemma NeededCounted(s: Scan, mcus: seq<Mcu>, tbl: nat) returns (sym: byte)
    requires HuffScanOk(s) && McusOk(s, mcus) && ScanAccepted(s, mcus, 0) && mcus != [] && EveryComponent(s)
    requires Needed(s, tbl)
    ensures ScanTally(s, mcus, 0, tbl, sym) > 0
  {
    var ci :| 0 <= ci < |s.comps| && NeededBy(s, ci, tbl);
    var j := SegmentEnd(s, 0, |mcus|);
    var ts := SegTokens(s, NoCarry(s), mcus, 0, j);
    if AcScan(s) {
      BandUses(s, mcus, 0, j);
    } else {
      assert HasBlock(s, ci);
      var k :| 0 <= k < |s.membership| && s.membership[k] == ci;
      BlocksUse(s, NoCarry(s).lastDc, 0, mcus[0], SegTokens(s, AfterMcu(s, NoCarry(s), mcus[0]), mcus, 1, j), k, tbl);
    }
    sym := UsedCounted(ts, tbl);
  }
}

// The tokens of whole MCUs and scans, the byte stream they become, and how the decoder
// sees runs of ended bands.

module HuffScan {
  import opened Prelude
  import opened ByteStream
  import opened Coefficients
  import opened Scans
  import opened HuffBits
  import opened HuffBinarisation
  import opened HuffViews

  // Scans for Huffman coding: four tables of each kind.
  predicate HuffScanOk(s: Scan) {
    ScanOk(s) && forall i :: 0 <= i < |s.comps| ==> s.comps[i].dcTbl < 4 && s.comps[i].acTbl < 4
  }

  function AcNo(s: Scan): HuffNo
    requires HuffScanOk(s)
  {
    4 + s.comps[0].acTbl
  }

  // What the coding carries from MCU to MCU: DC predictions, and the ended bands that
  // are not yet emitted with their correction bits.
  datatype Carry = Carry(lastDc: seq<Coef>, run: nat, corr: seq<Bit>)

  predicate CarryOk(s: Scan, c: Carry) {
    && |c.lastDc| == |s.comps| && c.run < 0x7FFF && |c.corr| <= CORR_LIMIT && (c.run == 0 ==> c.corr == [])
    && (!AcScan(s) ==> c.run == 0) && (KindOf(s) != AcRefine ==> c.corr == [])
  }

  function NoCarry(s: Scan): Carry {
    Carry(seq(|s.comps|, _ => 0), 0, [])
  }

  // ---- MCUs ----

  function DcDiff(last: Coef, value: Coef): int {
    value - last
  }

  // The tokens of block i of an MCU in scans with DC coefficients.
  function BlockTokens(s: Scan, last: seq<Coef>, i: nat, b: Block, rest: Tokens): Tokens
    requires HuffScanOk(s) && |last| == |s.comps| && i < |s.membership|
  {
    var ci := s.membership[i];
    match KindOf(s)
    case Sequential =>
      DcTokens(s.comps[ci].dcTbl, DcDiff(last[ci], b[0]),
               AcTokens(4 + s.comps[ci].acTbl, Ordered(s, b, 0), s.limSe, 1, 0, rest))
    case DcFirst => DcTokens(s.comps[ci].dcTbl, DcDiff(last[ci], DcShifted(b[0], s.al)), rest)
    case _ => Cons(Val(Low(Shr(b[0], s.al), 1), 1), rest)
  }

  function AfterBlock(s: Scan, last: seq<Coef>, i: nat, b: Block): (r: seq<Coef>)
    requires HuffScanOk(s) && |last| == |s.comps| && i < |s.membership|
    ensures |r| == |last|
  {
    match KindOf(s)
    case Sequential => last[s.membership[i] := b[0]]
    case DcFirst => last[s.membership[i] := DcShifted(b[0], s.al)]
    case _ => last
  }

  function BlocksTokens(s: Scan, last: seq<Coef>, i: nat, mcu: Mcu, rest: Tokens): Tokens
    requires HuffScanOk(s) && |last| == |s.comps| && McuOk(s, mcu) && i <= |mcu|
    decreases |mcu| - i
  {
    if i == |mcu| then rest
    else BlockTokens(s, last, i, mcu[i], BlocksTokens(s, AfterBlock(s, last, i, mcu[i]), i + 1, mcu, rest))
  }

  function AfterBlocks(s: Scan, last: seq<Coef>, i: nat, mcu: Mcu): (r: seq<Coef>)
    requires HuffScanOk(s) && |last| == |s.comps| && McuOk(s, mcu) && i <= |mcu|
    ensures |r| == |last|
    decreases |mcu| - i
  {
    if i == |mcu| then last else AfterBlocks(s, AfterBlock(s, last, i, mcu[i]), i + 1, mcu)
  }

  // A DC value is predicted by the one before it of the same component: behind an MCU that
  // is the value of the component's last block.
  lemma {:induction false} LastPredicts(s: Scan, last: seq<Coef>, i: nat, mcu: Mcu, ci: nat, j: nat)
    requires HuffScanOk(s) && |last| == |s.comps| && McuOk(s, mcu) && i <= |mcu| && s.ss == 0 && s.ah == 0
    requires ci < |s.comps| && LastBlockOf(s, ci, j)
    ensures AfterBlocks(s, last, i, mcu)[ci] == if i <= j then DcValue(s, mcu[j]) else last[ci]
    decreases |mcu| - i
  {
    if i < |mcu| {
      LastPredicts(s, AfterBlock(s, last, i, mcu[i]), i + 1, mcu, ci, j);
    }
  }

  predicate AcScan(s: Scan) {
    KindOf(s) == AcFirst || KindOf(s) == AcRefine
  }

  // The band of a progressive AC block.
  function BandOf(s: Scan, mcu: Mcu): Coefs
    requires HuffScanOk(s) && McuOk(s, mcu)
  {
    Ordered(s, mcu[0], s.al)
  }

  function McuTokens(s: Scan, c: Carry, mcu: Mcu, rest: Tokens): Tokens
    requires HuffScanOk(s) && CarryOk(s, c) && McuOk(s, mcu)
  {
    match KindOf(s)
    case AcFirst => FirstTokens(AcNo(s), BandOf(s, mcu), s.se, s.ss, 0, c.run, rest)
    case AcRefine =>
      var z := BandOf(s, mcu);
      RefineTokens(AcNo(s), z, s.se, LastNew(z, s.ss, s.se), s.ss, 0, c.run, c.corr, [], rest)
    case _ => BlocksTokens(s, c.lastDc, 0, mcu, rest)
  }

  function AfterMcu(s: Scan, c: Carry, mcu: Mcu): (r: Carry)
    requires HuffScanOk(s) && CarryOk(s, c) && McuOk(s, mcu)
    ensures CarryOk(s, r)
  {
    match KindOf(s)
    case AcFirst =>
      Carry(c.lastDc, FirstRun(BandOf(s, mcu), s.se, s.ss, 0, c.run), [])
    case AcRefine =>
      var z := BandOf(s, mcu);
      var eob := LastNew(z, s.ss, s.se);
      RefineRunOk(z, s.se, eob, s.ss, 0, c.run, c.corr, []);
      var x := RefineRun(z, s.se, eob, s.ss, 0, c.run, c.corr, []);
      Carry(c.lastDc, x.0, x.1)
    case _ => Carry(AfterBlocks(s, c.lastDc, 0, mcu), c.run, c.corr)
  }

  lemma {:induction false} RefineRunOk(z: Coefs, se: nat, eob: nat, k: nat, r: nat, run: nat, corr: seq<Bit>,
                                       br: seq<Bit>)
    requires se < 64 && k <= se + 1 && run < 0x7FFF && |corr| <= CORR_LIMIT && (run == 0 ==> corr == [])
    ensures var x := RefineRun(z, se, eob, k, r, run, corr, br); |x.1| <= CORR_LIMIT && (x.0 == 0 ==> x.1 == [])
    decreases se + 1 - k, r
  {
    if k <= se {
      if z[k] == 0 {
        RefineRunOk(z, se, eob, k + 1, r + 1, run, corr, br);
      } else if r > 15 && k <= eob {
        RefineRunOk(z, se, eob, k, r - 16, 0, [], []);
      } else if Abs(z[k]) > 1 {
        RefineRunOk(z, se, eob, k + 1, r, run, corr, br + [NextBit(z[k])]);
      } else {
        RefineRunOk(z, se, eob, k + 1, 0, 0, [], []);
      }
    }
  }

  // ---- which coefficients are accepted ----

  // DC differences of 11 bits, AC coefficients of 10.
  predicate BlockAccepted(s: Scan, last: seq<Coef>, i: nat, b: Block)
    requires HuffScanOk(s) && |last| == |s.comps| && i < |s.membership|
  {
    var ci := s.membership[i];
    match KindOf(s)
    case Sequential => DcAccepted(last[ci], b[0]) && CoefsFit(Ordered(s, b, 0), 1, s.limSe)
    case DcFirst => DcAccepted(last[ci], DcShifted(b[0], s.al))
    case AcFirst => CoefsFit(Ordered(s, b, s.al), s.ss, s.se)
    case _ => true
  }

  predicate DcAccepted(last: Coef, value: Coef) {
    NBits(Abs(DcDiff(last, value))) <= MAX_COEF_BITS + 1
  }

  predicate McuAccepted(s: Scan, last: seq<Coef>, i: nat, mcu: Mcu)
    requires HuffScanOk(s) && |last| == |s.comps| && McuOk(s, mcu) && i <= |mcu|
    decreases |mcu| - i
  {
    i < |mcu| ==> BlockAccepted(s, last, i, mcu[i]) && McuAccepted(s, AfterBlock(s, last, i, mcu[i]), i + 1, mcu)
  }

  predicate SegAccepted(s: Scan, last: seq<Coef>, mcus: seq<Mcu>, i: nat, j: nat)
    requires HuffScanOk(s) && |last| == |s.comps| && McusOk(s, mcus) && i <= j <= |mcus|
    decreases j - i
  {
    i < j ==> McuAccepted(s, last, 0, mcus[i]) && SegAccepted(s, AfterBlocks(s, last, 0, mcus[i]), mcus, i + 1, j)
  }

  predicate ScanAccepted(s: Scan, mcus: seq<Mcu>, i: nat)
    requires HuffScanOk(s) && McusOk(s, mcus) && i <= |mcus|
    decreases |mcus| - i
  {
    var j := SegmentEnd(s, i, |mcus|);
    SegAccepted(s, NoCarry(s).lastDc, mcus, i, j) && (j < |mcus| ==> ScanAccepted(s, mcus, j))
  }

  // AC scans leave the predictions alone.
  lemma {:induction false} AcKeepsLast(s: Scan, last: seq<Coef>, i: nat, mcu: Mcu)
    requires HuffScanOk(s) && AcScan(s) && |last| == |s.comps| && McuOk(s, mcu) && i <= |mcu|
    ensures AfterBlocks(s, last, i, mcu) == last
    decreases |mcu| - i
  {
    if i < |mcu| {
      AcKeepsLast(s, last, i + 1, mcu);
    }
  }

  lemma AfterLast(s: Scan, c: Carry, mcu: Mcu)
    requires HuffScanOk(s) && CarryOk(s, c) && McuOk(s, mcu)
    ensures AfterMcu(s, c, mcu).lastDc == AfterBlocks(s, c.lastDc, 0, mcu)
  {
    if AcScan(s) {
      AcKeepsLast(s, c.lastDc, 0, mcu);
    }
  }

  // Values that are accepted in any order: DC within 11 bits including the sign, so
  // that differences have 11 bits at most, AC within 10 bits.
  predicate SmallDc(v: Coef) {
    -1024 <= v <= 1023
  }

  predicate Fits(s: Scan, b: Block)
    requires HuffScanOk(s)
  {
    match KindOf(s)
    case Sequential => SmallDc(b[0]) && CoefsFit(Ordered(s, b, 0), 1, s.limSe)
    case DcFirst => SmallDc(DcShifted(b[0], s.al))
    case AcFirst => CoefsFit(Ordered(s, b, s.al), s.ss, s.se)
    case _ => true
  }

  predicate McuFits(s: Scan, mcu: Mcu)
    requires HuffScanOk(s)
  {
    forall i :: 0 <= i < |mcu| ==> Fits(s, mcu[i])
  }

  predicate AllFit(s: Scan, mcus: seq<Mcu>)
    requires HuffScanOk(s)
  {
    forall i :: 0 <= i < |mcus| ==> McuFits(s, mcus[i])
  }

  predicate SmallPredictions(last: seq<Coef>) {
    forall i :: 0 <= i < |last| ==> SmallDc(last[i])
  }

  lemma SmallDifference(a: Coef, b: Coef)
    requires SmallDc(a) && SmallDc(b)
    ensures DcAccepted(a, b)
  {
    ShlByte(1);
    ShlFour(1, 7);
    ShlFour(16, 3);
    NBitsBound(Abs(DcDiff(a, b)), 11);
  }

  lemma {:induction false} FitMcuAccepted(s: Scan, last: seq<Coef>, i: nat, mcu: Mcu)
    requires HuffScanOk(s) && |last| == |s.comps| && McuOk(s, mcu) && i <= |mcu| && SmallPredictions(last)
    requires McuFits(s, mcu)
    ensures McuAccepted(s, last, i, mcu) && SmallPredictions(AfterBlocks(s, last, i, mcu))
    decreases |mcu| - i
  {
    if i < |mcu| {
      var b, ci := mcu[i], s.membership[i];
      assert Fits(s, b);
      if KindOf(s) == Sequential {
        SmallDifference(last[ci], b[0]);
      } else if KindOf(s) == DcFirst {
        SmallDifference(last[ci], DcShifted(b[0], s.al));
      }
      FitMcuAccepted(s, AfterBlock(s, last, i, b), i + 1, mcu);
    }
  }

  lemma {:induction false} FitSegAccepted(s: Scan, last: seq<Coef>, mcus: seq<Mcu>, i: nat, j: nat)
    requires HuffScanOk(s) && |last| == |s.comps| && McusOk(s, mcus) && i <= j <= |mcus| && SmallPredictions(last)
    requires AllFit(s, mcus)
    ensures SegAccepted(s, last, mcus, i, j)
    decreases j - i
  {
    if i < j {
      FitMcuAccepted(s, last, 0, mcus[i]);
      FitSegAccepted(s, AfterBlocks(s, last, 0, mcus[i]), mcus, i + 1, j);
    }
  }

  lemma {:induction false} FitAccepted(s: Scan, mcus: seq<Mcu>, i: nat)
    requires HuffScanOk(s) && McusOk(s, mcus) && i <= |mcus| && AllFit(s, mcus)
    ensures ScanAccepted(s, mcus, i)
    decreases |mcus| - i
  {
    var j := SegmentEnd(s, i, |mcus|);
    FitSegAccepted(s, NoCarry(s).lastDc, mcus, i, j);
    if j < |mcus| {
      FitAccepted(s, mcus, j);
    }
  }

  // ---- segments ----

  // The tokens of the MCUs i to j - 1, which end a segment.
  function SegTokens(s: Scan, c: Carry, mcus: seq<Mcu>, i: nat, j: nat): Tokens
    requires HuffScanOk(s) && CarryOk(s, c) && McusOk(s, mcus) && i <= j <= |mcus|
    decreases j - i
  {
    if i == j then EobTokens(AcNo(s), c.run, c.corr, Nil)
    else McuTokens(s, c, mcus[i], SegTokens(s, AfterMcu(s, c, mcus[i]), mcus, i + 1, j))
  }

  // ---- scans ----

  // The entropy-coded bytes of a scan from MCU i on, with restart markers from n.
  function ScanBytes(tabs: Tables, s: Scan, n: nat, mcus: seq<Mcu>, i: nat): seq<byte>
    requires TablesOk(tabs) && HuffScanOk(s) && McusOk(s, mcus) && n < 8 && i <= |mcus|
    decreases |mcus| - i
  {
    var j := SegmentEnd(s, i, |mcus|);
    var data := Stuff(Data(tabs, SegTokens(s, NoCarry(s), mcus, i, j)));
    if j == |mcus| then data else data + RestartMarker(n) + ScanBytes(tabs, s, (n + 1) % 8, mcus, j)
  }

  // How often a symbol occurs in a scan.
  function ScanTally(s: Scan, mcus: seq<Mcu>, i: nat, tbl: nat, sym: nat): nat
    requires HuffScanOk(s) && McusOk(s, mcus) && i <= |mcus|
    decreases |mcus| - i
  {
    var j := SegmentEnd(s, i, |mcus|);
    Tally(SegTokens(s, NoCarry(s), mcus, i, j), tbl, sym) + if j == |mcus| then 0 else ScanTally(s, mcus, j, tbl, sym)
  }

  // Every symbol of the scan has a code.
  predicate ScanCoded(tabs: Tables, s: Scan, mcus: seq<Mcu>, i: nat)
    requires TablesOk(tabs) && HuffScanOk(s) && McusOk(s, mcus) && i <= |mcus|
    decreases |mcus| - i
  {
    var j := SegmentEnd(s, i, |mcus|);
    Coded(tabs, SegTokens(s, NoCarry(s), mcus, i, j)) && (j < |mcus| ==> ScanCoded(tabs, s, mcus, j))
  }

  predicate HasCode(tabs: Tables, tbl: nat, sym: nat)
    requires TablesOk(tabs)
  {
    tbl < 8 && sym < 256 && tabs[tbl].ehufsi[sym] > 0
  }

  // The tables have a code for every symbol that the statistics count.
  ghost predicate Covered(tabs: Tables, ts: Tokens)
    requires TablesOk(tabs)
  {
    forall tbl: nat, sym: nat :: Tally(ts, tbl, sym) > 0 ==> HasCode(tabs, tbl, sym)
  }

  ghost predicate ScanCovered(tabs: Tables, s: Scan, mcus: seq<Mcu>, i: nat)
    requires TablesOk(tabs) && HuffScanOk(s) && McusOk(s, mcus) && i <= |mcus|
  {
    forall tbl: nat, sym: nat :: ScanTally(s, mcus, i, tbl, sym) > 0 ==> HasCode(tabs, tbl, sym)
  }

  lemma {:induction false} CoveredCoded(tabs: Tables, ts: Tokens)
    requires TablesOk(tabs) && Covered(tabs, ts)
    ensures Coded(tabs, ts)
    decreases ts
  {
    match ts
    case Nil =>
    case Cons(t, rest) =>
      forall tbl: nat, sym: nat | Tally(rest, tbl, sym) > 0
        ensures HasCode(tabs, tbl, sym)
      {
        assert Tally(ts, tbl, sym) > 0;
      }
      CoveredCoded(tabs, rest);
      if t.Sym? {
        assert Tally(ts, t.tbl, t.s) > 0;
      }
  }

  // So the output pass never meets a missing code.
  lemma {:induction false} ScanCoveredCoded(tabs: Tables, s: Scan, mcus: seq<Mcu>, i: nat)
    requires TablesOk(tabs) && HuffScanOk(s) && McusOk(s, mcus) && i <= |mcus| && ScanCovered(tabs, s, mcus, i)
    ensures ScanCoded(tabs, s, mcus, i)
    decreases |mcus| - i
  {
    var j := SegmentEnd(s, i, |mcus|);
    var ts := SegTokens(s, NoCarry(s), mcus, i, j);
    forall tbl: nat, sym: nat | Tally(ts, tbl, sym) > 0
      ensures HasCode(tabs, tbl, sym)
    {
      assert ScanTally(s, mcus, i, tbl, sym) > 0;
    }
    CoveredCoded(tabs, ts);
    if j < |mcus| {
      forall tbl: nat, sym: nat | ScanTally(s, mcus, j, tbl, sym) > 0
        ensures HasCode(tabs, tbl, sym)
      {
        assert ScanTally(s, mcus, i, tbl, sym) > 0;
      }
      ScanCoveredCoded(tabs, s, mcus, j);
    }
  }

  // ---- runs of ended bands, as the decoder sees them ----

  // The symbol for a run of ended bands, and its length bits.
  function EobHead(tbl: HuffNo, run: nat, rest: Tokens): Tokens
    requires 0 < run <= 0x7FFF
  {
    EobBits(run);
    var n := NBits(run) - 1;
    Cons(Sym(tbl, 16 * n), if n == 0 then rest else Cons(Val(Low(run, n), n), rest))
  }

  // Nothing in the band of the MCU needs a symbol of its own.
  predicate Ended(s: Scan, mcu: Mcu)
    requires HuffScanOk(s) && McuOk(s, mcu) && s.ss <= s.se + 1
  {
    if KindOf(s) == AcFirst then NextNonzero(BandOf(s, mcu), s.se, s.ss) > s.se
    else NextNew(BandOf(s, mcu), s.se, s.ss) > s.se
  }

  // The correction bits of such a band.
  function BandBits(s: Scan, mcu: Mcu): seq<Bit>
    requires HuffScanOk(s) && McuOk(s, mcu)
  {
    if KindOf(s) == AcRefine then OldBits(BandOf(s, mcu), s.ss, s.se + 1) else []
  }

  // The correction bits of n such MCUs from i on.
  function JoinTokens(s: Scan, mcus: seq<Mcu>, i: nat, n: nat, rest: Tokens): Tokens
    requires HuffScanOk(s) && McusOk(s, mcus) && i + n <= |mcus|
    decreases n
  {
    if n == 0 then rest
    else if KindOf(s) == AcRefine then
        OldTokens(BandOf(s, mcus[i]), s.ss, s.se + 1, JoinTokens(s, mcus, i + 1, n - 1, rest))
    else JoinTokens(s, mcus, i + 1, n - 1, rest)
  }

  // The same carry without a pending run.
  function Flushed(c: Carry): Carry {
    Carry(c.lastDc, 0, [])
  }
}

// The decisions of whole MCUs and scans, and the byte stream they become.

module ArithScan {
  import opened Prelude
  import opened ByteStream
  import opened Coefficients
  import opened Scans
  import opened ArithTable
  import opened ArithCoder
  import opened ArithRoundTrip
  import opened ArithBinarisation

  // What the DC coding carries from block to block, for each component.
  datatype Prediction = Prediction(lastDc: seq<Coef>, context: seq<Context>)

  function NoPrediction(s: Scan): Prediction {
    Prediction(seq(|s.comps|, _ => 0), seq(|s.comps|, _ => 0))
  }

  predicate PredictionOk(s: Scan, p: Prediction) {
    |p.lastDc| == |p.context| == |s.comps|
  }

  function AfterDc(s: Scan, ci: nat, p: Prediction, value: Coef): (r: Prediction)
    requires ScanOk(s) && ci < |s.comps| && PredictionOk(s, p)
    ensures PredictionOk(s, r)
  {
    var tbl := s.comps[ci].dcTbl;
    Prediction(p.lastDc[ci := value],
               p.context[ci := DcCategory(value - p.lastDc[ci], s.dcL[tbl], s.dcU[tbl])])
  }

  function CodeDc(s: Scan, ci: nat, p: Prediction, value: Coef, rest: Decisions): Decisions
    requires ScanOk(s) && ci < |s.comps| && PredictionOk(s, p)
  {
    DcDecisions(s.comps[ci].dcTbl, p.context[ci], value - p.lastDc[ci], rest)
  }

  // The decisions for block i of an MCU, and the predictions after it.
  function BlockDecisions(s: Scan, i: nat, p: Prediction, b: Block, rest: Decisions): Decisions
    requires ScanOk(s) && PredictionOk(s, p) && i < |s.membership|
  {
    var ci := s.membership[i];
    var acTbl := s.comps[ci].acTbl;
    match KindOf(s)
    case Sequential =>
      CodeDc(s, ci, p, b[0], AcAfter(acTbl, s.acK[acTbl], Ordered(s, b, 0), s.limSe, 0, rest))
    case DcFirst => CodeDc(s, ci, p, DcShifted(b[0], s.al), rest)
    case AcFirst => AcAfter(acTbl, s.acK[acTbl], Ordered(s, b, s.al), s.se, s.ss - 1, rest)
    case DcRefine => Cons(Decision(FIXED_BIN, Shr(b[0], s.al) % 2), rest)
    case AcRefine => RefineAfter(acTbl, Ordered(s, b, s.al), s.se, OldEnd(s, b), s.ss - 1, rest)
  }

  // The end of block at the previous precision, as the encoder looks for it.
  function OldEnd(s: Scan, b: Block): nat
    requires ScanOk(s)
  {
    LastNonzero(Ordered(s, b, s.ah), LastNonzero(Ordered(s, b, s.al), s.se))
  }

  function AfterBlock(s: Scan, i: nat, p: Prediction, b: Block): (r: Prediction)
    requires ScanOk(s) && PredictionOk(s, p) && i < |s.membership|
    ensures PredictionOk(s, r)
  {
    match KindOf(s)
    case Sequential => AfterDc(s, s.membership[i], p, b[0])
    case DcFirst => AfterDc(s, s.membership[i], p, DcShifted(b[0], s.al))
    case _ => p
  }

  // The decisions for the blocks of an MCU from block i on.
  function McuDecisions(s: Scan, i: nat, p: Prediction, mcu: Mcu, rest: Decisions): Decisions
    requires ScanOk(s) && PredictionOk(s, p) && McuOk(s, mcu) && i <= |mcu|
    decreases |mcu| - i
  {
    if i == |mcu| then rest
    else BlockDecisions(s, i, p, mcu[i], McuDecisions(s, i + 1, AfterBlock(s, i, p, mcu[i]), mcu, rest))
  }

  function AfterMcu(s: Scan, i: nat, p: Prediction, mcu: Mcu): (r: Prediction)
    requires ScanOk(s) && PredictionOk(s, p) && McuOk(s, mcu) && i <= |mcu|
    ensures PredictionOk(s, r)
    decreases |mcu| - i
  {
    if i == |mcu| then p else AfterMcu(s, i + 1, AfterBlock(s, i, p, mcu[i]), mcu)
  }

  // A DC value is predicted by the one before it of the same component: behind an MCU that
  // is the value of the component's last block j, with the category of its difference.
  lemma {:induction false} LastPredicts(s: Scan, i: nat, p: Prediction, mcu: Mcu, ci: nat, j: nat)
    requires ScanOk(s) && PredictionOk(s, p) && McuOk(s, mcu) && i <= j && s.ss == 0 && s.ah == 0
    requires ci < |s.comps| && LastBlockOf(s, ci, j)
    ensures var r, value, tbl := AfterMcu(s, i, p, mcu), DcValue(s, mcu[j]), s.comps[ci].dcTbl;
            && r.lastDc[ci] == value
            && (i == j ==> r.context[ci] == DcCategory(value - p.lastDc[ci], s.dcL[tbl], s.dcU[tbl]))
    decreases |mcu| - i
  {
    if i < j {
      LastPredicts(s, i + 1, AfterBlock(s, i, p, mcu[i]), mcu, ci, j);
    } else {
      OthersKeep(s, i + 1, AfterBlock(s, i, p, mcu[i]), mcu, ci);
    }
  }

  lemma {:induction false} OthersKeep(s: Scan, i: nat, p: Prediction, mcu: Mcu, ci: nat)
    requires ScanOk(s) && PredictionOk(s, p) && McuOk(s, mcu) && i <= |mcu| && ci < |s.comps|
    requires forall k :: i <= k < |mcu| ==> s.membership[k] != ci
    ensures AfterMcu(s, i, p, mcu).lastDc[ci] == p.lastDc[ci] && AfterMcu(s, i, p, mcu).context[ci] == p.context[ci]
    decreases |mcu| - i
  {
    if i < |mcu| {
      OthersKeep(s, i + 1, AfterBlock(s, i, p, mcu[i]), mcu, ci);
    }
  }

  // The decisions of the MCUs i to j - 1, in one segment.
  function SegmentDecisions(s: Scan, p: Prediction, mcus: seq<Mcu>, i: nat, j: nat): Decisions
    requires ScanOk(s) && PredictionOk(s, p) && McusOk(s, mcus) && i <= j <= |mcus|
    decreases j - i
  {
    if i == j then Nil
    else McuDecisions(s, 0, p, mcus[i], SegmentDecisions(s, AfterMcu(s, 0, p, mcus[i]), mcus, i + 1, j))
  }

  // ---- statistics areas ----

  // The areas a restart clears: those of the tables this scan uses.
  predicate Cleared(s: Scan, bin: nat)
    requires ScanOk(s)
  {
    exists ci :: 0 <= ci < |s.comps| && ClearedBy(s, ci, bin)
  }

  predicate ClearedBy(s: Scan, ci: nat, bin: nat)
    requires ScanOk(s) && ci < |s.comps|
  {
    || (s.ss == 0 && s.ah == 0 && DcArea(s.comps[ci].dcTbl) <= bin < DcArea(s.comps[ci].dcTbl) + 64)
    || (s.se != 0 && AcArea(s.comps[ci].acTbl) <= bin < AcArea(s.comps[ci].acTbl) + 256)
  }

  function ClearBins(s: Scan, bins: Bins): Bins
    requires ScanOk(s)
  {
    seq(BIN_COUNT, (i: nat) requires i < BIN_COUNT => if Cleared(s, i) then 0 else bins[i])
  }

  // ---- scans ----

  // The bins at the start of the segment after the one with decisions ds.
  function NextBins(m: Machine, s: Scan, bins: Bins, ds: Decisions): Bins
    requires ScanOk(s)
  {
    ClearBins(s, Encode(m, EncStart, bins, ds).1)
  }

  // The entropy-coded bytes of a scan from MCU i on: segments of restartInterval MCUs
  // (one segment if that is 0), separated by restart markers numbered modulo 8 from n.
  function ScanBytes(m: Machine, s: Scan, bins: Bins, n: nat, mcus: seq<Mcu>, i: nat): seq<byte>
    requires ScanOk(s) && McusOk(s, mcus) && n < 8 && i <= |mcus|
    decreases |mcus| - i
  {
    var j := SegmentEnd(s, i, |mcus|);
    var ds := SegmentDecisions(s, NoPrediction(s), mcus, i, j);
    var data := Stuff(Segment(m, bins, ds));
    if j == |mcus| then data
    else data + RestartMarker(n) + ScanBytes(m, s, NextBins(m, s, bins, ds), (n + 1) % 8, mcus, j)
  }

  // Where the encoder of a scan stands: segment seg to end - 1 with its initial bins
  // is being coded up to MCU i; before is written, plan is left of the segment, goal
  // is what the segment leads to, n numbers the next restart marker.
  datatype Position = Position(
    seg: nat, end: nat, i: nat, bins: Bins, p: Prediction, n: nat,
    before: seq<byte>, plan: Decisions, goal: (NormalEnc, Bins))

  predicate PositionOk(s: Scan, mcus: seq<Mcu>, x: Position) {
    && ScanOk(s) && McusOk(s, mcus) && PredictionOk(s, x.p) && x.n < 8
    && x.seg <= x.i <= x.end <= |mcus| && x.end == SegmentEnd(s, x.seg, |mcus|)
  }

  // What is written, what is left of the segment and the segments still to come add
  // up to the promised bytes. Closed.
  ghost predicate Promised(m: Machine, s: Scan, mcus: seq<Mcu>, x: Position, promise: seq<byte>)
    requires PositionOk(s, mcus, x)
  {
    forall k :: Focus(3, k) ==> Promises(m, s, mcus, x, promise)
  }

  ghost predicate Promises(m: Machine, s: Scan, mcus: seq<Mcu>, x: Position, promise: seq<byte>)
    requires PositionOk(s, mcus, x)
  {
    && x.goal == Encode(m, EncStart, x.bins, SegmentDecisions(s, NoPrediction(s), mcus, x.seg, x.end))
    && x.plan == SegmentDecisions(s, x.p, mcus, x.i, x.end)
    && x.before + ScanBytes(m, s, x.bins, x.n, mcus, x.seg) == promise
  }

  lemma PromiseStarts(m: Machine, s: Scan, mcus: seq<Mcu>, x: Position, destination: seq<byte>)
    requires PositionOk(s, mcus, x)
    requires x.seg == x.i == x.n == 0 && x.p == NoPrediction(s) && x.before == destination
    requires x.plan == SegmentDecisions(s, x.p, mcus, 0, x.end) && Leads(m, EncStart, x.bins, x.plan, x.goal)
    ensures Promised(m, s, mcus, x, destination + ScanBytes(m, s, x.bins, 0, mcus, 0))
  {
  }

  // Inside a segment the plan begins with the decisions of MCU i.
  lemma PromisePlan(m: Machine, s: Scan, mcus: seq<Mcu>, x: Position, promise: seq<byte>)
    requires PositionOk(s, mcus, x) && Promised(m, s, mcus, x, promise)
    ensures x.i == x.end ==> x.plan == Nil
    ensures x.i < x.end ==>
      x.plan == McuDecisions(s, 0, x.p, mcus[x.i],
                             SegmentDecisions(s, AfterMcu(s, 0, x.p, mcus[x.i]), mcus, x.i + 1, x.end))
  {
    assert Focus(3, 0);
  }

  lemma PromiseAdvances(m: Machine, s: Scan, mcus: seq<Mcu>, x: Position, promise: seq<byte>, y: Position)
    requires PositionOk(s, mcus, x) && Promised(m, s, mcus, x, promise) && x.i < x.end
    requires y == x.(i := x.i + 1, p := AfterMcu(s, 0, x.p, mcus[x.i]), plan := y.plan)
    requires y.plan == SegmentDecisions(s, y.p, mcus, y.i, y.end)
    ensures PositionOk(s, mcus, y) && Promised(m, s, mcus, y, promise)
  {
    assert Focus(3, 0);
  }

  // The segment is full and another one follows after a restart marker.
  lemma PromiseTurns(m: Machine, s: Scan, mcus: seq<Mcu>, x: Position, promise: seq<byte>, y: Position)
    requires PositionOk(s, mcus, x) && Promised(m, s, mcus, x, promise) && x.i == x.end < |mcus|
    requires y.seg == y.i == x.i && y.end == SegmentEnd(s, x.i, |mcus|) && y.p == NoPrediction(s)
    requires y.bins == ClearBins(s, x.goal.1) && y.n == (x.n + 1) % 8
    requires y.before == x.before + Stuff(Finish(x.goal.0)) + RestartMarker(x.n)
    requires y.plan == SegmentDecisions(s, y.p, mcus, y.i, y.end) && Leads(m, EncStart, y.bins, y.plan, y.goal)
    ensures PositionOk(s, mcus, y) && Promised(m, s, mcus, y, promise)
  {
    assert Focus(3, 0);
    PromisesTurn(m, s, mcus, x, promise, y);
  }

  lemma PromisesTurn(m: Machine, s: Scan, mcus: seq<Mcu>, x: Position, promise: seq<byte>, y: Position)
    requires PositionOk(s, mcus, x) && Promises(m, s, mcus, x, promise) && x.end < |mcus|
    requires PositionOk(s, mcus, y) && y.seg == y.i == x.end && y.p == NoPrediction(s)
    requires y.bins == ClearBins(s, x.goal.1) && y.n == (x.n + 1) % 8
    requires y.before == x.before + Stuff(Finish(x.goal.0)) + RestartMarker(x.n)
    requires y.plan == SegmentDecisions(s, y.p, mcus, y.i, y.end) && y.goal == Encode(m, EncStart, y.bins, y.plan)
    ensures Promises(m, s, mcus, y, promise)
  {
    SegmentTurns(m, s, x.bins, x.n, mcus, x.seg, x.before, x.goal);
  }

  lemma SegmentTurns(m: Machine, s: Scan, bins: Bins, n: nat, mcus: seq<Mcu>, i: nat, before: seq<byte>,
                     goal: (NormalEnc, Bins))
    requires ScanOk(s) && McusOk(s, mcus) && n < 8 && i <= |mcus| && SegmentEnd(s, i, |mcus|) < |mcus|
    requires goal == Encode(m, EncStart, bins, SegmentDecisions(s, NoPrediction(s), mcus, i, SegmentEnd(s, i, |mcus|)))
    ensures before + ScanBytes(m, s, bins, n, mcus, i) ==
              (before + Stuff(Finish(goal.0)) + RestartMarker(n))
              + ScanBytes(m, s, ClearBins(s, goal.1), (n + 1) % 8, mcus, SegmentEnd(s, i, |mcus|))
  {
    Associate(before, Stuff(Finish(goal.0)), RestartMarker(n),
              ScanBytes(m, s, ClearBins(s, goal.1), (n + 1) % 8, mcus, SegmentEnd(s, i, |mcus|)));
  }

  lemma PromiseKept(m: Machine, s: Scan, mcus: seq<Mcu>, x: Position, promise: seq<byte>)
    requires PositionOk(s, mcus, x) && Promised(m, s, mcus, x, promise) && x.i == |mcus|
    ensures x.plan == Nil && promise == x.before + Stuff(Finish(x.goal.0))
  {
    assert Focus(3, 0);
  }

  lemma Associate(a: seq<byte>, b: seq<byte>, c: seq<byte>, d: seq<byte>)
    ensures a + (b + c + d) == (a + b + c) + d
  {
  }

  // ---- what the decoder can read back ----

  function DcDiff(p: Prediction, ci: nat, value: int): int
    requires ci < |p.lastDc|
  {
    value - p.lastDc[ci]
  }

  // The decoder gives up on a magnitude category of 2^15, so a DC difference must
  // not exceed 2^15 in magnitude; 16-bit coefficients could differ by more.
  predicate BlockCodable(s: Scan, i: nat, p: Prediction, b: Block)
    requires ScanOk(s) && PredictionOk(s, p) && i < |s.membership|
  {
    match KindOf(s)
    case Sequential => Abs(DcDiff(p, s.membership[i], b[0])) <= 32768
    case DcFirst => Abs(DcDiff(p, s.membership[i], DcShifted(b[0], s.al))) <= 32768
    case _ => true
  }

  predicate McuCodable(s: Scan, i: nat, p: Prediction, mcu: Mcu)
    requires ScanOk(s) && PredictionOk(s, p) && McuOk(s, mcu) && i <= |mcu|
    decreases |mcu| - i
  {
    i < |mcu| ==> BlockCodable(s, i, p, mcu[i]) && McuCodable(s, i + 1, AfterBlock(s, i, p, mcu[i]), mcu)
  }

  predicate SegmentCodable(s: Scan, p: Prediction, mcus: seq<Mcu>, i: nat, j: nat)
    requires ScanOk(s) && PredictionOk(s, p) && McusOk(s, mcus) && i <= j <= |mcus|
    decreases j - i
  {
    i < j ==> McuCodable(s, 0, p, mcus[i]) && SegmentCodable(s, AfterMcu(s, 0, p, mcus[i]), mcus, i + 1, j)
  }

  predicate ScanCodable(s: Scan, mcus: seq<Mcu>, i: nat)
    requires ScanOk(s) && McusOk(s, mcus) && i <= |mcus|
    decreases |mcus| - i
  {
    var j := SegmentEnd(s, i, |mcus|);
    SegmentCodable(s, NoPrediction(s), mcus, i, j) && (j < |mcus| ==> ScanCodable(s, mcus, j))
  }

  // A simple condition under which every scan is codable: after the point transform
  // DC coefficients use 15 bits at most. Any DC scan with al > 0 meets it.
  predicate CentralDc(s: Scan, b: Block) {
    -16384 <= DcShifted(b[0], s.al) <= 16384
  }

  predicate SmallPrediction(p: Prediction) {
    forall ci :: 0 <= ci < |p.lastDc| ==> -16384 <= p.lastDc[ci] <= 16384
  }

  lemma {:induction false} SmallMcuCodable(s: Scan, i: nat, p: Prediction, mcu: Mcu)
    requires ScanOk(s) && PredictionOk(s, p) && McuOk(s, mcu) && i <= |mcu|
    requires SmallPrediction(p) && forall j :: 0 <= j < |mcu| ==> CentralDc(s, mcu[j])
    ensures McuCodable(s, i, p, mcu) && SmallPrediction(AfterMcu(s, i, p, mcu))
    decreases |mcu| - i
  {
    if i < |mcu| {
      SmallMcuCodable(s, i + 1, AfterBlock(s, i, p, mcu[i]), mcu);
    }
  }

  lemma {:induction false} SmallSegmentCodable(s: Scan, p: Prediction, mcus: seq<Mcu>, i: nat, j: nat)
    requires ScanOk(s) && PredictionOk(s, p) && McusOk(s, mcus) && i <= j <= |mcus| && SmallPrediction(p)
    requires forall k, l :: 0 <= k < |mcus| && 0 <= l < |mcus[k]| ==> CentralDc(s, mcus[k][l])
    ensures SegmentCodable(s, p, mcus, i, j)
    decreases j - i
  {
    if i < j {
      SmallMcuCodable(s, 0, p, mcus[i]);
      SmallSegmentCodable(s, AfterMcu(s, 0, p, mcus[i]), mcus, i + 1, j);
    }
  }

  lemma {:induction false} SmallScanCodable(s: Scan, mcus: seq<Mcu>, i: nat)
    requires ScanOk(s) && McusOk(s, mcus) && i <= |mcus|
    requires forall k, l :: 0 <= k < |mcus| && 0 <= l < |mcus[k]| ==> CentralDc(s, mcus[k][l])
    ensures ScanCodable(s, mcus, i)
    decreases |mcus| - i
  {
    var j := SegmentEnd(s, i, |mcus|);
    SmallSegmentCodable(s, NoPrediction(s), mcus, i, j);
    if j < |mcus| {
      SmallScanCodable(s, mcus, j);
    }
  }
}

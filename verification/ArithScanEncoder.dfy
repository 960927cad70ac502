// The arithmetic entropy encoder for a whole scan (jcarith.c): MCU routines with
// restart markers, and termination.

module ArithScanEncoder {
  import opened Prelude
  import opened ByteStream
  import opened ArithTable
  import opened Coefficients
  import opened Scans
  import opened ArithCoder
  import opened ArithRoundTrip
  import opened ArithBinarisation
  import opened ArithScan
  import opened ArithEncoder
  import opened ArithMcuEncoder

  class ScanEncoder {
    const scan: Scan
    const coder: BinaryEncoder
    // last_dc_val and dc_context, one entry per component of the scan.
    const lastDc: array<Coef>
    const dcContext: array<Context>
    var restartsToGo: nat
    var nextRestartNum: nat

    // A forecast, for specification only: the MCUs of the scan, how many are coded,
    // the present segment with its initial bins, and the bytes that will result.
    ghost var script: seq<Mcu>
    ghost var done: nat
    ghost var seg: nat
    ghost var end: nat
    ghost var segBins: Bins
    ghost var promise: seq<byte>

    ghost predicate Ready()
      reads this, coder, coder.bins, lastDc, dcContext
    {
      && ScanOk(scan) && coder.Valid()
      && lastDc.Length == dcContext.Length == |scan.comps|
      && nextRestartNum < 8
      // Only first scans of DC coefficients use predictions.
      && (scan.ss != 0 || scan.ah != 0 ==> Predictions() == NoPrediction(scan))
    }

    ghost predicate Valid()
      reads this, coder, coder.bins, lastDc, dcContext
    {
      && Ready() && PositionOk(scan, script, Where())
      && (scan.restartInterval != 0 ==> restartsToGo == scan.restartInterval - (done - seg))
      && Promised(coder.table, scan, script, Where(), promise)
    }

    ghost function Where(): Position
      reads this, coder, lastDc, dcContext
    {
      Position(seg, end, done, segBins, Predictions(), nextRestartNum, coder.before, coder.plan, coder.goal)
    }

    ghost function Predictions(): Prediction
      reads lastDc, dcContext
    {
      Prediction(lastDc[..], dcContext[..])
    }

    constructor (s: Scan, destination: seq<byte>, ghost mcus: seq<Mcu>)
      requires ScanOk(s) && McusOk(s, mcus)
      ensures Valid() && scan == s && script == mcus && done == 0
      ensures promise == destination + ScanBytes(JpegAritab(), s, StartBins(), 0, mcus, 0)
      ensures fresh(coder) && fresh(coder.bins) && fresh(lastDc) && fresh(dcContext)
    {
      scan := s;
      coder := new BinaryEncoder(destination);
      lastDc := new Coef[|s.comps|](_ => 0);
      dcContext := new Context[|s.comps|](_ => 0);
      restartsToGo, nextRestartNum := s.restartInterval, 0;
      script, done, seg, end, segBins := mcus, 0, 0, SegmentEnd(s, 0, |mcus|), StartBins();
      promise := destination + ScanBytes(JpegAritab(), s, StartBins(), 0, mcus, 0);
      new;
      assert lastDc[..] == seq(|s.comps|, _ => 0);
      assert dcContext[..] == seq(|s.comps|, _ => 0);
      coder.Announce(SegmentDecisions(s, NoPrediction(s), mcus, 0, end));
      PromiseStarts(JpegAritab(), s, mcus, Where(), destination);
    }

    // The DC coefficient of component ci, after the point transform.
    method EncodeDc(ci: nat, value: Coef, ghost rest: Decisions)
      requires Ready() && scan.ss == 0 && scan.ah == 0
      requires ci < |scan.comps| && coder.plan == CodeDc(scan, ci, Predictions(), value, rest)
      modifies coder, coder.bins, lastDc, dcContext
      ensures Ready() && coder.Coded(rest)
      ensures Predictions() == old(AfterDc(scan, ci, Predictions(), value))
    {
      var tbl := scan.comps[ci].dcTbl;
      var category := CodeDcDifference(coder, tbl, dcContext[ci], value - lastDc[ci], scan.dcL[tbl], scan.dcU[tbl],
                                       rest);
      dcContext[ci] := category;
      lastDc[ci] := value;
    }

    // Block i of an MCU.
    method EncodeBlock(i: nat, b: Block, ghost rest: Decisions)
      requires Ready() && i < |scan.membership|
      requires coder.plan == BlockDecisions(scan, i, Predictions(), b, rest)
      modifies coder, coder.bins, lastDc, dcContext
      ensures Ready() && coder.Coded(rest)
      ensures Predictions() == old(AfterBlock(scan, i, Predictions(), b))
    {
      var ci := scan.membership[i];
      var acTbl := scan.comps[ci].acTbl;
      match KindOf(scan)
      case Sequential =>
        EncodeDc(ci, b[0], AcAfter(acTbl, scan.acK[acTbl], Ordered(scan, b, 0), scan.limSe, 0, rest));
        CodeBand(coder, scan, acTbl, b, 0, scan.limSe, 0, rest);
      case DcFirst =>
        EncodeDc(ci, DcShifted(b[0], scan.al), rest);
      case AcFirst =>
        CodeBand(coder, scan, acTbl, b, scan.ss - 1, scan.se, scan.al, rest);
      case DcRefine =>
        coder.ArithEncode(FIXED_BIN, Shr(b[0], scan.al) % 2);
      case AcRefine =>
        CodeRefinement(coder, scan, acTbl, b, scan.ss - 1, scan.se, scan.al, scan.ah, rest);
    }

    // All blocks of an MCU.
    method EncodeBlocks(mcu: Mcu, ghost rest: Decisions)
      requires Ready() && McuOk(scan, mcu) && coder.plan == McuDecisions(scan, 0, Predictions(), mcu, rest)
      modifies coder, coder.bins, lastDc, dcContext
      ensures Ready() && coder.Coded(rest)
      ensures Predictions() == old(AfterMcu(scan, 0, Predictions(), mcu))
    {
      var i := 0;
      while i < |mcu|
        invariant i <= |mcu| && Ready()
        invariant coder.Coded(McuDecisions(scan, i, Predictions(), mcu, rest))
        invariant AfterMcu(scan, i, Predictions(), mcu) == old(AfterMcu(scan, 0, Predictions(), mcu))
      {
        EncodeBlock(i, mcu[i], McuDecisions(scan, i + 1, AfterBlock(scan, i, Predictions(), mcu[i]), mcu, rest));
        i := i + 1;
      }
    }

    // MEMZERO of the statistics areas of the tables in use.
    method ClearStatistics()
      requires ScanOk(scan) && coder.bins.Length == BIN_COUNT
      modifies coder.bins
      ensures coder.bins[..] == ClearBins(scan, old(coder.bins[..]))
    {
      ghost var was: Bins := coder.bins[..];
      var ci := 0;
      while ci < |scan.comps|
        invariant ci <= |scan.comps|
        invariant forall bin :: 0 <= bin < BIN_COUNT ==>
                    coder.bins[bin] == if exists c :: 0 <= c < ci && ClearedBy(scan, c, bin) then 0 else was[bin]
      {
        ghost var before: Bins := coder.bins[..];
        forall bin | 0 <= bin < BIN_COUNT && ClearedBy(scan, ci, bin) {
          coder.bins[bin] := 0;
        }
        ci := ci + 1;
      }
    }

    method ClearPredictions()
      requires ScanOk(scan) && lastDc.Length == dcContext.Length == |scan.comps|
      modifies lastDc, dcContext
      ensures Predictions() == NoPrediction(scan)
    {
      forall ci | 0 <= ci < |scan.comps| {
        lastDc[ci] := 0;
      }
      forall ci | 0 <= ci < |scan.comps| {
        dcContext[ci] := 0;
      }
    }

    // End the segment with a restart marker and begin the next one, which will code
    // the decisions in next.
    method EmitRestart(ghost next: Decisions)
      requires Ready() && coder.plan == Nil
      modifies coder, coder.bins, lastDc, dcContext
      ensures Ready() && coder.bins == old(coder.bins)
      ensures coder.before == old(coder.before + Stuff(Finish(coder.goal.0))) + RestartMarker(nextRestartNum)
      ensures coder.plan == next
      ensures Leads(coder.table, EncStart, ClearBins(scan, old(coder.goal).1), next, coder.goal)
      ensures Predictions() == NoPrediction(scan)
    {
      coder.FinishPass();
      coder.EmitByte(0xFF);
      coder.EmitByte(0xD0 + nextRestartNum);
      if scan.ss == 0 && scan.ah == 0 {
        ClearPredictions();
      }
      ClearStatistics();
      coder.Restart(next);
    }

    // Emit a restart marker if one is due.
    method HandleRestart()
      requires Valid() && done < |script|
      modifies this, coder, coder.bins, lastDc, dcContext
      ensures Valid() && done < end && coder.bins == old(coder.bins)
      ensures done == old(done) && script == old(script) && promise == old(promise)
    {
      if scan.restartInterval != 0 {
        if restartsToGo == 0 {
          TurnSegment();
        }
      }
    }

    method TurnSegment()
      requires Valid() && done < |script| && scan.restartInterval != 0 && restartsToGo == 0
      modifies this, coder, coder.bins, lastDc, dcContext
      ensures Valid() && done < end && coder.bins == old(coder.bins)
      ensures done == old(done) && script == old(script) && promise == old(promise)
    {
      ghost var x := Where();
      PromisePlan(coder.table, scan, script, x, promise);
      ghost var next := SegmentEnd(scan, done, |script|);
      EmitRestart(SegmentDecisions(scan, NoPrediction(scan), script, done, next));
      BeginSegment(x, next);
    }

    // The segment at position x is complete, and the decisions of the next one are announced.
    method BeginSegment(ghost x: Position, ghost next: nat)
      requires Ready() && PositionOk(scan, script, x) && Promised(coder.table, scan, script, x, promise)
      requires x.i == x.end < |script| && done == x.i && next == SegmentEnd(scan, done, |script|)
      requires nextRestartNum == x.n
      requires coder.before == x.before + Stuff(Finish(x.goal.0)) + RestartMarker(x.n)
      requires Predictions() == NoPrediction(scan)
      requires coder.plan == SegmentDecisions(scan, NoPrediction(scan), script, done, next)
      requires Leads(coder.table, EncStart, ClearBins(scan, x.goal.1), coder.plan, coder.goal)
      modifies this`restartsToGo, this`nextRestartNum, this`seg, this`end, this`segBins
      ensures Valid() && done < end
    {
      restartsToGo := scan.restartInterval;
      nextRestartNum := (nextRestartNum + 1) % 8;
      seg, end, segBins := done, next, ClearBins(scan, x.goal.1);
      ghost var y := Where();
      PromiseTurns(coder.table, scan, script, x, promise, y);
    }

    // The next MCU of the scan.
    method EncodeMcu(mcu: Mcu)
      requires Valid() && done < |script| && mcu == script[done]
      modifies this, coder, coder.bins, lastDc, dcContext
      ensures Valid() && coder.bins == old(coder.bins)
      ensures done == old(done) + 1 && script == old(script) && promise == old(promise)
    {
      HandleRestart();
      EncodeNext(mcu);
    }

    // The MCU itself.
    method EncodeNext(mcu: Mcu)
      requires Valid() && done < end && mcu == script[done]
      modifies this, coder, coder.bins, lastDc, dcContext
      ensures Valid() && coder.bins == old(coder.bins)
      ensures done == old(done) + 1 && script == old(script) && promise == old(promise)
    {
      ghost var x := Where();
      EncodePlanned(mcu);
      CountMcu(x);
    }

    method EncodePlanned(mcu: Mcu)
      requires Valid() && done < end && mcu == script[done]
      modifies coder, coder.bins, lastDc, dcContext
      ensures Ready() && coder.bins == old(coder.bins)
      ensures Where() == old(Where()).(p := old(AfterMcu(scan, 0, Predictions(), mcu)), plan := coder.plan)
      ensures coder.plan == SegmentDecisions(scan, Predictions(), script, done + 1, end)
    {
      ghost var p := Predictions();
      PromisePlan(coder.table, scan, script, Where(), promise);
      EncodeBlocks(mcu, SegmentDecisions(scan, AfterMcu(scan, 0, p, mcu), script, done + 1, end));
    }

    // The MCU at position x is coded.
    method CountMcu(ghost x: Position)
      requires Ready() && PositionOk(scan, script, x) && Promised(coder.table, scan, script, x, promise) && x.i < x.end
      requires done == x.i
      requires Where() == x.(p := AfterMcu(scan, 0, x.p, script[done]), plan := coder.plan)
      requires coder.plan == SegmentDecisions(scan, Predictions(), script, done + 1, end)
      requires scan.restartInterval != 0 ==> restartsToGo == scan.restartInterval - (done - seg)
      modifies this`restartsToGo, this`done
      ensures Valid() && done == old(done) + 1
    {
      if scan.restartInterval != 0 {
        restartsToGo := restartsToGo - 1;
      }
      done := done + 1;
      PromiseAdvances(coder.table, scan, script, x, promise, Where());
    }

    // Finish up at the end of the scan.
    method FinishScan()
      requires Valid() && done == |script|
      modifies this, coder
      ensures coder.out == old(promise)
    {
      PromiseKept(coder.table, scan, script, Where(), promise);
      coder.FinishPass();
    }
  }

  // A whole scan, as the coefficient controller drives it: every MCU in turn, then
  // the end of the pass.
  method EncodeScan(s: Scan, mcus: seq<Mcu>, destination: seq<byte>) returns (out: seq<byte>)
    requires ScanOk(s) && McusOk(s, mcus)
    ensures out == destination + ScanBytes(JpegAritab(), s, StartBins(), 0, mcus, 0)
  {
    var e := new ScanEncoder(s, destination, mcus);
    var i := 0;
    while i < |mcus|
      invariant i <= |mcus| && i == e.done && e.script == mcus && e.Valid()
      invariant e.promise == destination + ScanBytes(JpegAritab(), s, StartBins(), 0, mcus, 0)
      invariant fresh(e) && fresh(e.coder) && fresh(e.coder.bins) && fresh(e.lastDc) && fresh(e.dcContext)
    {
      e.EncodeMcu(mcus[i]);
      i := i + 1;
    }
    e.FinishScan();
    out := e.coder.out;
  }
}

// The arithmetic entropy decoder for a whole scan (jdarith.c): MCU routines with
// restart markers and resynchronisation (jdmarker.c).

module ArithScanDecoder {
  import opened Prelude
  import opened ByteStream
  import opened ArithTable
  import opened Coefficients
  import opened Scans
  import opened ArithCoder
  import opened ArithRoundTrip
  import opened ArithBinarisation
  import opened ArithScan
  import opened ArithDecoder
  import opened ArithMcuDecoder

  // What a decoder can expect when its source holds the bytes of a scan: the MCUs
  // and the marker and bytes behind the scan; it is decoding the segment seg to
  // end - 1, has done i MCUs and p, pending, last and ending describe its state.
  datatype Course = Course(
    mcus: seq<Mcu>, marker: byte, after: seq<byte>,
    seg: nat, end: nat, i: nat, bins: Bins, n: nat)

  predicate CourseOk(s: Scan, x: Course) {
    && ScanOk(s) && McusOk(s, x.mcus) && IsMarker(x.marker) && x.n < 8
    && x.seg <= x.i <= x.end <= |x.mcus| && x.end == SegmentEnd(s, x.seg, |x.mcus|)
  }

  // The bytes of the scan from MCU i on and what follows the scan.
  function Remaining(m: Machine, s: Scan, bins: Bins, n: nat, mcus: seq<Mcu>, i: nat, marker: byte,
                     after: seq<byte>): seq<byte>
    requires ScanOk(s) && McusOk(s, mcus) && n < 8 && i <= |mcus|
  {
    ScanBytes(m, s, bins, n, mcus, i) + [0xFF, marker] + after
  }

  // The marker behind the present segment, which leaves the bins last, and what follows it.
  function Behind(m: Machine, s: Scan, x: Course, last: Bins): (r: (byte, seq<byte>))
    requires CourseOk(s, x)
    ensures IsMarker(r.0)
  {
    if x.end == |x.mcus| then (x.marker, x.after)
    else (0xD0 + x.n, Remaining(m, s, ClearBins(s, last), (x.n + 1) % 8, x.mcus, x.end, x.marker, x.after))
  }

  // The decisions of the present segment, and the bins they leave.
  function Whole(s: Scan, x: Course): Decisions
    requires CourseOk(s, x)
  {
    SegmentDecisions(s, NoPrediction(s), x.mcus, x.seg, x.end)
  }

  function LastBins(m: Machine, s: Scan, x: Course): Bins
    requires CourseOk(s, x)
  {
    Encode(m, EncStart, x.bins, Whole(s, x)).1
  }

  // What is decoded behind the segment that starts at x. Closed.
  ghost predicate Continues(m: Machine, s: Scan, x: Course, last: Bins, ending: Option<(byte, seq<byte>)>)
    requires CourseOk(s, x)
  {
    forall k :: Focus(4, k) ==> last == LastBins(m, s, x) && ending == Some(Behind(m, s, x, last))
  }

  // The start of the present segment.
  function Start(x: Course): Course {
    x.(i := x.seg)
  }

  ghost predicate Inside(s: Scan, x: Course, p: Prediction, pending: Decisions)
    requires CourseOk(s, x)
  {
    PredictionOk(s, p) && pending == SegmentDecisions(s, p, x.mcus, x.i, x.end)
  }

  // The decoder's state fits the course. Closed.
  ghost predicate Expected(m: Machine, s: Scan, x: Course, p: Prediction, pending: Decisions, last: Bins,
                           ending: Option<(byte, seq<byte>)>)
    requires CourseOk(s, x)
  {
    forall k :: Focus(3, k) ==> Inside(s, x, p, pending) && Continues(m, s, Start(x), last, ending)
  }

  // The bytes of a scan and what follows split into the first segment, its marker
  // and the rest.
  lemma FirstSegment(m: Machine, s: Scan, x: Course, ds: Decisions, last: Bins)
    requires CourseOk(s, x) && x.i == x.seg && ds == Whole(s, x) && last == LastBins(m, s, x)
    ensures var b := Behind(m, s, x, last);
            Remaining(m, s, x.bins, x.n, x.mcus, x.i, x.marker, x.after) == Stuff(Segment(m, x.bins, ds)) + [0xFF, b.0]
                + b.1
  {
    if x.end < |x.mcus| {
      InnerBehind(m, s, x, last);
      NextFromLast(m, s, x, ds, last);
      InnerSegment(m, s, x.bins, x.n, x.mcus, x.i, x.end, x.marker, x.after, ds, Behind(m, s, x, last).1);
    } else {
      LastSegment(m, s, x.bins, x.n, x.mcus, x.i, x.marker, x.after);
    }
  }

  lemma InnerBehind(m: Machine, s: Scan, x: Course, last: Bins)
    requires CourseOk(s, x) && x.end < |x.mcus|
    ensures Behind(m, s, x, last).0 == 0xD0 + x.n
    ensures Behind(m, s, x, last).1 ==
              Remaining(m, s, ClearBins(s, last), (x.n + 1) % 8, x.mcus, x.end, x.marker, x.after)
  {
  }

  lemma NextFromLast(m: Machine, s: Scan, x: Course, ds: Decisions, last: Bins)
    requires CourseOk(s, x) && ds == Whole(s, x) && last == LastBins(m, s, x)
    ensures NextBins(m, s, x.bins, ds) == ClearBins(s, last)
  {
  }

  lemma InnerSegment(m: Machine, s: Scan, bins: Bins, n: nat, mcus: seq<Mcu>, i: nat, j: nat, marker: byte,
                     after: seq<byte>, ds: Decisions, more: seq<byte>)
    requires ScanOk(s) && McusOk(s, mcus) && n < 8 && i <= |mcus| && j == SegmentEnd(s, i, |mcus|) < |mcus|
    requires ds == SegmentDecisions(s, NoPrediction(s), mcus, i, j)
    requires more == Remaining(m, s, NextBins(m, s, bins, ds), (n + 1) % 8, mcus, j, marker, after)
    ensures Remaining(m, s, bins, n, mcus, i, marker, after) == Stuff(Segment(m, bins, ds)) + [0xFF, 0xD0 + n] + more
  {
    Regroup(Stuff(Segment(m, bins, ds)), RestartMarker(n),
            ScanBytes(m, s, NextBins(m, s, bins, ds), (n + 1) % 8, mcus, j), [0xFF, marker], after);
  }

  lemma LastSegment(m: Machine, s: Scan, bins: Bins, n: nat, mcus: seq<Mcu>, i: nat, marker: byte, after: seq<byte>)
    requires ScanOk(s) && McusOk(s, mcus) && n < 8 && i <= |mcus| == SegmentEnd(s, i, |mcus|)
    ensures Remaining(m, s, bins, n, mcus, i, marker, after) ==
              Stuff(Segment(m, bins, SegmentDecisions(s, NoPrediction(s), mcus, i, |mcus|))) + [0xFF, marker] + after
  {
  }

  lemma Regroup(a: seq<byte>, b: seq<byte>, c: seq<byte>, d: seq<byte>, e: seq<byte>)
    ensures (a + b + c) + d + e == a + b + (c + d + e)
  {
  }

  lemma SegmentStep(s: Scan, p: Prediction, mcus: seq<Mcu>, i: nat, j: nat)
    requires ScanOk(s) && PredictionOk(s, p) && McusOk(s, mcus) && i < j <= |mcus|
    ensures SegmentDecisions(s, p, mcus, i, j) ==
              McuDecisions(s, 0, p, mcus[i], SegmentDecisions(s, AfterMcu(s, 0, p, mcus[i]), mcus, i + 1, j))
  {
  }

  // At the start of a segment the decoder can expect the whole segment: Input is
  // what it reads then.
  function Input(m: Machine, s: Scan, x: Course): Source
    requires CourseOk(s, x)
  {
    Source(Remaining(m, s, x.bins, x.n, x.mcus, x.i, x.marker, x.after), 0)
  }

  ghost predicate Launched(m: Machine, s: Scan, x: Course)
    requires CourseOk(s, x)
  {
    var ds, last := Whole(s, x), LastBins(m, s, x);
    var b := Behind(m, s, x, last);
    && Expected(m, s, x, NoPrediction(s), ds, last, Some(b)) && Follows(m, DecStart(Input(m, s, x)), x.bins, ds, last)
    && Before(Input(m, s, x), b.0, b.1)
  }

  lemma CourseStarts(m: Machine, s: Scan, x: Course)
    requires CourseOk(s, x) && x.i == x.seg
    ensures Launched(m, s, x)
  {
    var ds, last := Whole(s, x), LastBins(m, s, x);
    var b, data := Behind(m, s, x, last), Segment(m, x.bins, ds);
    FirstSegment(m, s, x, ds, last);
    Lossless(m, x.bins, ds, b.0, b.1);
    assert Feeds(Source(Stuff(data) + [0xFF, b.0] + b.1, 0), data, b.0, b.1);
  }

  // Inside a segment the decoder can expect MCU i.
  lemma CourseMcu(m: Machine, s: Scan, x: Course, p: Prediction, pending: Decisions, last: Bins,
                  ending: Option<(byte, seq<byte>)>, y: Course)
    requires CourseOk(s, x) && Expected(m, s, x, p, pending, last, ending) && x.i < x.end
    requires y == x.(i := x.i + 1)
    ensures CourseOk(s, y) && PredictionOk(s, p)
    ensures var p' := AfterMcu(s, 0, p, x.mcus[x.i]);
            var rest := SegmentDecisions(s, p', x.mcus, y.i, x.end);
            pending == McuDecisions(s, 0, p, x.mcus[x.i], rest) && Expected(m, s, y, p', rest, last, ending)
  {
    assert Focus(3, 0);
    SegmentStep(s, p, x.mcus, x.i, x.end);
  }

  // At the end of a segment that is not the last one, the bytes behind the marker are
  // those of the scan that remain, to be decoded from cleared bins.
  lemma CourseTurns(m: Machine, s: Scan, x: Course, p: Prediction, pending: Decisions, last: Bins,
                    ending: Option<(byte, seq<byte>)>, y: Course)
    requires CourseOk(s, x) && Expected(m, s, x, p, pending, last, ending) && x.i == x.end < |x.mcus|
    requires y == x.(seg := x.i, end := SegmentEnd(s, x.i, |x.mcus|), bins := ClearBins(s, last), n := (x.n + 1) % 8)
    ensures CourseOk(s, y) && pending == Nil && ending == Some((0xD0 + x.n, Input(m, s, y).bytes))
  {
    NonePending(m, s, x, p, pending, last, ending);
    EndingIs(m, s, Start(x), last, ending);
    InputBehind(m, s, Start(x), last, y);
  }

  lemma NonePending(m: Machine, s: Scan, x: Course, p: Prediction, pending: Decisions, last: Bins,
                    ending: Option<(byte, seq<byte>)>)
    requires CourseOk(s, x) && Expected(m, s, x, p, pending, last, ending) && x.i == x.end
    ensures pending == Nil && Continues(m, s, Start(x), last, ending)
  {
    assert Focus(3, 0);
  }

  lemma EndingIs(m: Machine, s: Scan, x: Course, last: Bins, ending: Option<(byte, seq<byte>)>)
    requires CourseOk(s, x) && Continues(m, s, x, last, ending)
    ensures ending == Some(Behind(m, s, x, last))
  {
    assert Focus(4, 0);
  }

  lemma InputBehind(m: Machine, s: Scan, x: Course, last: Bins, y: Course)
    requires CourseOk(s, x) && x.end < |x.mcus|
    requires y == x.(seg := x.end, i := x.end, end := y.end, bins := ClearBins(s, last), n := (x.n + 1) % 8)
    requires CourseOk(s, y)
    ensures Behind(m, s, x, last) == (0xD0 + x.n, Input(m, s, y).bytes)
  {
    InnerBehind(m, s, x, last);
    InputBytes(m, s, y);
  }

  lemma InputBytes(m: Machine, s: Scan, x: Course)
    requires CourseOk(s, x)
    ensures Input(m, s, x).bytes == Remaining(m, s, x.bins, x.n, x.mcus, x.i, x.marker, x.after)
  {
  }

  // The same scan, and the same bytes behind it.
  ghost predicate Same(x: Course, y: Course) {
    y.mcus == x.mcus && y.marker == x.marker && y.after == x.after
  }

  class ScanDecoder {
    const scan: Scan
    const coder: BinaryDecoder
    // last_dc_val and dc_context, one entry per component of the scan.
    const lastDc: array<int>
    const dcContext: array<Context>
    var restartsToGo: nat
    var nextRestartNum: nat
    // For specification only: where decoding stands if the source is known to hold a
    // scan, and the predictions that then agree with the encoder's.
    ghost var course: Option<Course>
    ghost var prediction: Prediction

    constructor (s: Scan, source: seq<byte>, ghost plan: Option<Course>)
      requires ScanOk(s)
      requires plan.Some? ==> CourseOk(s, plan.value) && plan.value.i == plan.value.seg == plan.value.n == 0
      requires plan.Some? ==> plan.value.bins == StartBins()
      requires plan.Some? ==> Source(source, 0) == Input(JpegAritab(), s, plan.value)
      ensures Valid() && scan == s && course == plan && prediction == NoPrediction(s)
      ensures fresh(coder) && fresh(coder.bins) && fresh(lastDc) && fresh(dcContext)
    {
      scan := s;
      coder := new BinaryDecoder(source);
      lastDc := new int[|s.comps|](_ => 0);
      dcContext := new Context[|s.comps|](_ => 0);
      restartsToGo, nextRestartNum := s.restartInterval, 0;
      course, prediction := plan, NoPrediction(s);
      new;
      assert lastDc[..] == prediction.lastDc;
      assert dcContext[..] == prediction.context;
      Launch();
    }

    // Start decoding a segment at the present place of the source.
    method Launch()
      requires Ready() && (scan.ss != 0 || scan.ah != 0 ==> Predicts(NoPrediction(scan)))
      requires course.Some? ==> CourseOk(scan, course.value) && course.value.i == course.value.seg
      requires course.Some? ==> course.value.n == nextRestartNum && restartsToGo == scan.restartInterval
      requires course.Some? ==> prediction == NoPrediction(scan) && Predicts(prediction)
      requires course.Some? ==> coder.bins[..] == course.value.bins
      requires course.Some? ==> Source(coder.input, coder.unreadMarker) == Input(coder.table, scan, course.value)
      modifies coder
      ensures Valid() && coder.Valid() && coder.bins == old(coder.bins)
    {
      ghost var ds, target, tail := Nil, coder.bins[..], None;
      if course.Some? {
        var x := course.value;
        CourseStarts(coder.table, scan, x);
        ds, target := Whole(scan, x), LastBins(coder.table, scan, x);
        tail := Some(Behind(coder.table, scan, x, target));
      }
      coder.Restart(ds, target, tail);
      coder.NotDisabled();
    }

    // A bad code sets the counter ct to -1: the rest of the segment is skipped.
    ghost predicate Valid()
      reads this, coder, coder.bins, lastDc, dcContext
    {
      && Ready()
      && (coder.ct == -1 ==> KindOf(scan) != DcRefine && course == None)
      && (coder.ct != -1 ==> coder.Valid())
      // Only first scans of DC coefficients use predictions.
      && (scan.ss != 0 || scan.ah != 0 ==> Predicts(NoPrediction(scan)))
      && (course.Some? ==> OnCourse(course.value))
    }

    ghost predicate OnCourse(x: Course)
      requires ScanOk(scan)
      reads this, coder, lastDc, dcContext
    {
      && CourseOk(scan, x) && x.n == nextRestartNum && Predicts(prediction)
      && (scan.restartInterval != 0 ==> restartsToGo == scan.restartInterval - (x.i - x.seg))
      && Expected(coder.table, scan, x, prediction, coder.pending, coder.last, coder.ending)
    }

    ghost predicate Ready()
      reads this, coder, coder.bins, lastDc, dcContext
    {
      && ScanOk(scan) && coder.bins.Length == BIN_COUNT
      && lastDc.Length == dcContext.Length == |scan.comps|
      && nextRestartNum < 8
    }

    ghost predicate Predicts(p: Prediction)
      reads lastDc, dcContext
    {
      p.lastDc == lastDc[..] && p.context == dcContext[..]
    }

    // The DC coefficient of component ci at offset off; value is what it should be
    // before scaling.
    method DecodeDc(data: array<Coef>, off: nat, ci: nat, ghost on: bool, ghost p: Prediction, ghost value: Coef,
                    ghost rest: Decisions)
      returns (e: Ending)
      requires Ready() && coder.Valid() && scan.ss == 0 && scan.ah == 0
      requires ci < |scan.comps| && off + 64 <= data.Length && PredictionOk(scan, p)
      requires on ==> Predicts(p) && coder.pending == CodeDc(scan, ci, p, value, rest)
      modifies coder, coder.bins, lastDc, dcContext, data
      ensures coder.Kept(e != Fatal) && (on || old(coder.ending).Some? ==> e != Fatal)
      ensures on ==>
                (e == Normal <==> Abs(DcDiff(p, ci, value)) <= 32768) && (e == Normal || data[off] == old(data[off]))
      ensures on && e == Normal ==> coder.pending == rest && coder.last == old(coder.last)
      ensures on && e == Normal ==> Predicts(AfterDc(scan, ci, p, value)) && data[off] == ToCoef(Shl(value, scan.al))
      ensures forall i :: 0 <= i < data.Length && i != off ==> data[i] == old(data[i])
    {
      var tbl := scan.comps[ci].dcTbl;
      var v, category;
      e, v, category := DecodeDcDifference(coder, tbl, dcContext[ci], scan.dcL[tbl], scan.dcU[tbl],
                                           on, if on then DcDiff(p, ci, value) else 0, rest);
      if e == Normal {
        dcContext[ci] := category;
        lastDc[ci] := lastDc[ci] + v;
        data[off] := ToCoef(Shl(lastDc[ci], scan.al));
      }
    }

    ghost function SequentialBand(ci: nat, b: Block, rest: Decisions): Decisions
      requires ScanOk(scan) && ci < |scan.comps|
    {
      var tbl := scan.comps[ci].acTbl;
      AcAfter(tbl, scan.acK[tbl], Ordered(scan, b, 0), scan.limSe, 0, rest)
    }

    method DecodeSequentialBand(data: array<Coef>, off: nat, ci: nat, ghost on: bool, ghost b: Block,
                                ghost rest: Decisions)
      returns (e: Ending)
      requires Ready() && coder.Valid() && KindOf(scan) == Sequential && ci < |scan.comps| && off + 64 <= data.Length
      requires on ==> coder.pending == SequentialBand(ci, b, rest) && ZeroBand(scan, data[..], off, 0, scan.limSe)
      modifies coder, coder.bins, data
      ensures coder.Kept(e != Fatal) && (on || old(coder.ending).Some? ==> e != Fatal)
      ensures on ==> e == Normal && coder.pending == rest && coder.last == old(coder.last)
      ensures on ==> KnownTo(scan, data[..], off, 0, scan.limSe, b, 0)
      ensures forall i :: 0 <= i < data.Length && !InBand(scan, off, 0, scan.limSe, i) ==> data[i] == old(data[i])
    {
      var tbl := scan.comps[ci].acTbl;
      ghost var z := Ordered(scan, b, 0);
      if on {
        BandZero(scan, data, off, 0, scan.limSe, z, 0);
      }
      e := DecodeBand(coder, scan, tbl, data, off, 0, scan.limSe, 0, on, z, rest);
      if on {
        BandKnown(scan, data, off, 0, scan.limSe, b, 0);
      }
    }

    // Block i of a sequential MCU, of component ci.
    method DecodeSequential(data: array<Coef>, off: nat, ci: nat, ghost on: bool, ghost p: Prediction, ghost b: Block,
                            ghost rest: Decisions)
      returns (e: Ending)
      requires Ready() && coder.Valid() && KindOf(scan) == Sequential
      requires ci < |scan.comps| && off + 64 <= data.Length && PredictionOk(scan, p)
      requires on ==> coder.pending == CodeDc(scan, ci, p, b[0], SequentialBand(ci, b, rest))
      requires on ==> Predicts(p) && ZeroBand(scan, data[..], off, 0, scan.limSe)
      modifies coder, coder.bins, lastDc, dcContext, data
      ensures coder.Kept(e != Fatal) && (on || old(coder.ending).Some? ==> e != Fatal)
      ensures on ==>
                (e == Normal <==> Abs(DcDiff(p, ci, b[0])) <= 32768) && (e == Normal || data[off] == old(data[off]))
      ensures on && e == Normal ==> coder.pending == rest && coder.last == old(coder.last)
      ensures on && e == Normal ==>
                Predicts(AfterDc(scan, ci, p, b[0])) && data[off] == b[0]
                && KnownTo(scan, data[..], off, 0, scan.limSe, b, 0)
      ensures forall i :: 0 <= i < data.Length && !Written(scan, off, i) ==> data[i] == old(data[i])
    {
      SequentialWrites(scan, off);
      ghost var was := data[..];
      e := DecodeDc(data, off, ci, on, p, b[0], SequentialBand(ci, b, rest));
      if e == Normal {
        if on {
          ZeroBandKept(scan, was, data[..], off);
          StoredExactly(b[0]);
          assert data[off] == b[0];
        }
        e := DecodeSequentialBand(data, off, ci, on, b, rest);
      }
    }

    // The band of a first AC scan.
    method DecodeFirst(data: array<Coef>, off: nat, ci: nat, ghost on: bool, ghost b: Block, ghost rest: Decisions)
      returns (e: Ending)
      requires Ready() && coder.Valid() && KindOf(scan) == AcFirst && ci < |scan.comps| && off + 64 <= data.Length
      requires var tbl := scan.comps[ci].acTbl;
               on ==>
                 coder.pending == AcAfter(tbl, scan.acK[tbl], Ordered(scan, b, scan.al), scan.se, scan.ss - 1, rest)
      requires on ==> BlockBefore(scan, data[..], off, b)
      modifies coder, coder.bins, data
      ensures coder.Kept(e != Fatal) && (on || old(coder.ending).Some? ==> e != Fatal)
      ensures on ==> e == Normal && coder.pending == rest && coder.last == old(coder.last)
      ensures on ==> BlockAfter(scan, old(data[..]), data[..], off, b)
      ensures forall i :: 0 <= i < data.Length && !Written(scan, off, i) ==> data[i] == old(data[i])
    {
      var tbl := scan.comps[ci].acTbl;
      if on {
        BandZero(scan, data, off, scan.ss - 1, scan.se, Ordered(scan, b, scan.al), scan.al);
      }
      e := DecodeBand(coder, scan, tbl, data, off, scan.ss - 1, scan.se, scan.al, on, Ordered(scan, b, scan.al), rest);
      if on {
        BandKnown(scan, data, off, scan.ss - 1, scan.se, b, scan.al);
      }
    }

    // The next bit of a DC coefficient.
    method DecodeDcBit(data: array<Coef>, off: nat, ghost on: bool, ghost b: Block, ghost rest: Decisions)
      returns (e: Ending)
      requires Ready() && coder.Valid() && KindOf(scan) == DcRefine && off + 64 <= data.Length
      requires on ==> coder.pending == Cons(Decision(FIXED_BIN, Shr(b[0], scan.al) % 2), rest)
      requires on ==> BlockBefore(scan, data[..], off, b)
      modifies coder, coder.bins, data
      ensures e != BadCode && coder.Kept(e != Fatal) && (on || old(coder.ending).Some? ==> e != Fatal)
      ensures on ==> e == Normal && coder.pending == rest && coder.last == old(coder.last)
      ensures on ==> BlockAfter(scan, old(data[..]), data[..], off, b)
      ensures forall i :: 0 <= i < data.Length && i != off ==> data[i] == old(data[i])
    {
      var bit := coder.Decode(FIXED_BIN);
      if bit == None {
        return Fatal;
      }
      if bit == Some(1) {
        data[off] := WithBit(data[off], scan.al);
      }
      e := Normal;
      if on && scan.al < 13 {
        DcBitSet(b[0], scan.al);
      }
    }

    // Block i of an MCU in a scan with predictions.
    method DecodeDcBlock(data: array<Coef>, off: nat, i: nat, ghost on: bool, ghost p: Prediction, ghost b: Block,
                         ghost rest: Decisions)
      returns (e: Ending)
      requires Ready() && coder.Valid() && i < |scan.membership| && off + 64 <= data.Length && PredictionOk(scan, p)
      requires KindOf(scan) == Sequential || KindOf(scan) == DcFirst
      requires on ==>
                 Predicts(p) && coder.pending == BlockDecisions(scan, i, p, b, rest)
                 && BlockBefore(scan, data[..], off, b)
      modifies coder, coder.bins, lastDc, dcContext, data
      ensures coder.Kept(e != Fatal) && (on || old(coder.ending).Some? ==> e != Fatal)
      ensures on ==>
                (e == Normal <==> BlockCodable(scan, i, p, b))
                && (e == Normal || MissedBlock(scan, old(data[..]), data[..], off, b))
      ensures on && e == Normal ==> coder.pending == rest && coder.last == old(coder.last)
      ensures on && e == Normal ==>
                Predicts(AfterBlock(scan, i, p, b)) && BlockAfter(scan, old(data[..]), data[..], off, b)
      ensures forall i :: 0 <= i < data.Length && !Written(scan, off, i) ==> data[i] == old(data[i])
    {
      var ci := scan.membership[i];
      NotZero(scan, i, p, b);
      if KindOf(scan) == Sequential {
        e := DecodeSequential(data, off, ci, on, p, b, rest);
      } else {
        e := DecodeDc(data, off, ci, on, p, DcShifted(b[0], scan.al), rest);
        if on {
          var _ := DcFloor(b[0], scan.al);
        }
        DcIsWritten(scan, off);
      }
    }

    method DecodeBlock(data: array<Coef>, off: nat, i: nat, ghost on: bool, ghost p: Prediction, ghost b: Block,
                       ghost rest: Decisions)
      returns (e: Ending)
      requires Ready() && coder.Valid() && i < |scan.membership| && off + 64 <= data.Length && PredictionOk(scan, p)
      requires on ==>
                 Predicts(p) && coder.pending == BlockDecisions(scan, i, p, b, rest)
                 && BlockBefore(scan, data[..], off, b)
      modifies coder, coder.bins, lastDc, dcContext, data
      ensures coder.Kept(e != Fatal) && (on || old(coder.ending).Some? ==> e != Fatal)
      ensures on ==>
                (e == Normal <==> BlockCodable(scan, i, p, b))
                && (e == Normal || MissedBlock(scan, old(data[..]), data[..], off, b))
      ensures on && e == Normal ==> coder.pending == rest && coder.last == old(coder.last)
      ensures on && e == Normal ==>
                Predicts(AfterBlock(scan, i, p, b)) && BlockAfter(scan, old(data[..]), data[..], off, b)
      ensures forall i :: 0 <= i < data.Length && !Written(scan, off, i) ==> data[i] == old(data[i])
      ensures e == BadCode ==> KindOf(scan) != DcRefine
      ensures scan.ss != 0 || scan.ah != 0 ==> lastDc[..] == old(lastDc[..]) && dcContext[..] == old(dcContext[..])
    {
      var ci := scan.membership[i];
      var acTbl := scan.comps[ci].acTbl;
      if KindOf(scan) == Sequential || KindOf(scan) == DcFirst {
        e := DecodeDcBlock(data, off, i, on, p, b, rest);
      } else if KindOf(scan) == AcFirst {
        e := DecodeFirst(data, off, ci, on, b, rest);
      } else if KindOf(scan) == DcRefine {
        e := DecodeDcBit(data, off, on, b, rest);
        DcIsWritten(scan, off);
      } else {
        e := DecodeRefinement(coder, scan, acTbl, data, off, scan.ss - 1, scan.se, scan.al, on, b, rest);
      }
    }

    // The blocks of an MCU, unless a bad code disables the decoder.
    method DecodeBlocks(data: array<Coef>, place: seq<nat>, ghost on: bool, ghost was0: seq<Coef>, ghost p: Prediction,
                        ghost mcu: Mcu, ghost rest: Decisions)
      returns (e: Ending)
      requires Ready() && coder.Valid() && PlaceOk(scan, place, data.Length) && McuOk(scan, mcu)
      requires PredictionOk(scan, p)
      requires |was0| == data.Length
      requires on ==> Predicts(p) && coder.pending == McuDecisions(scan, 0, p, mcu, rest)
      requires on ==> McuState(scan, was0, data[..], place, mcu, 0)
      modifies coder, coder.bins, lastDc, dcContext, data
      ensures coder.Kept(e != Fatal) && (on || old(coder.ending).Some? ==> e != Fatal)
      ensures on ==>
                (e == Normal <==> McuCodable(scan, 0, p, mcu))
                && (e == Normal || MissedIn(scan, was0, data[..], place, mcu))
      ensures on && e == Normal ==> coder.pending == rest && coder.last == old(coder.last)
      ensures on && e == Normal ==>
                Predicts(AfterMcu(scan, 0, p, mcu)) && McuState(scan, was0, data[..], place, mcu, |mcu|)
      ensures OnlyWritten(scan, old(data[..]), data[..], place)
      ensures e == BadCode ==> KindOf(scan) != DcRefine
      ensures scan.ss != 0 || scan.ah != 0 ==> lastDc[..] == old(lastDc[..]) && dcContext[..] == old(dcContext[..])
    {
      var i := 0;
      ghost var q := p;
      while i < |place|
        invariant i <= |place| && Ready() && coder.Kept(true) && PredictionOk(scan, q)
        invariant on ==>
                    Predicts(q) && coder.pending == McuDecisions(scan, i, q, mcu, rest) && coder.last == old(coder.last)
        invariant on ==> McuState(scan, was0, data[..], place, mcu, i)
        invariant on ==> McuCodable(scan, i, q, mcu) == McuCodable(scan, 0, p, mcu)
        invariant AfterMcu(scan, i, q, mcu) == AfterMcu(scan, 0, p, mcu)
        invariant OnlyWritten(scan, old(data[..]), data[..], place)
        invariant scan.ss != 0 || scan.ah != 0 ==> lastDc[..] == old(lastDc[..]) && dcContext[..] == old(dcContext[..])
      {
        ghost var was, q' := data[..], AfterBlock(scan, i, q, mcu[i]);
        e := DecodeBlock(data, 64 * place[i], i, on, q, mcu[i], McuDecisions(scan, i + 1, q', mcu, rest));
        OnlyWrittenStep(scan, old(data[..]), was, data[..], place, i);
        if e != Normal {
          if on {
            MissedHere(scan, was0, was, data[..], place, mcu, i);
          }
          return;
        }
        if on {
          McuStep(scan, was0, was, data[..], place, mcu, i);
        }
        i, q := i + 1, q';
      }
      e := Normal;
    }

    // ---- restarts ----

    // read_restart_marker of jdmarker.c.
    method ReadRestartMarker() returns (ok: bool)
      requires nextRestartNum < 8
      modifies this`nextRestartNum, coder`input, coder`unreadMarker
      ensures match MarkerAhead(old(coder.State().src))
              case None => !ok
              case Some((marker, after)) =>
                marker == 0xD0 + old(nextRestartNum) ==> ok && coder.State().src == Source(after, 0)
      ensures ok ==> nextRestartNum == (old(nextRestartNum) + 1) % 8
    {
      if coder.unreadMarker == 0 {
        ok := coder.NextMarker();
        if !ok {
          return;
        }
      }
      if coder.unreadMarker == 0xD0 + nextRestartNum {
        coder.unreadMarker := 0;
      } else {
        ok := ResyncToRestart(nextRestartNum);
        if !ok {
          return;
        }
      }
      nextRestartNum := (nextRestartNum + 1) % 8;
      ok := true;
    }

    // Restart markers may have been lost or damaged. Afterwards the decoder either goes
    // on with the data, or it is left in front of a marker that belongs to a later place:
    // one of the next two restarts or no restart marker at all.
    method ResyncToRestart(desired: nat) returns (ok: bool)
      requires desired < 8 && coder.unreadMarker != 0
      modifies coder`input, coder`unreadMarker
      ensures ok && coder.unreadMarker != 0 ==>
                || coder.unreadMarker == 0xD0 + (desired + 1) % 8 || coder.unreadMarker == 0xD0 + (desired + 2) % 8
                || (coder.unreadMarker >= 0xC0 && !(0xD0 <= coder.unreadMarker <= 0xD7))
    {
      while true
        invariant coder.unreadMarker != 0
        decreases |coder.input|
      {
        var marker := coder.unreadMarker;
        if marker < 0xC0 || marker == 0xD0 + (desired + 7) % 8 || marker == 0xD0 + (desired + 6) % 8 {
          var found := coder.NextMarker();
          if !found {
            return false;
          }
        } else if || marker < 0xD0 || marker > 0xD7
                  || marker == 0xD0 + (desired + 1) % 8 || marker == 0xD0 + (desired + 2) % 8 {
          return true;
        } else {
          coder.unreadMarker := 0;
          return true;
        }
      }
    }

    // MEMZERO of the statistics areas of the tables in use.
    method ClearStatistics()
      requires ScanOk(scan) && coder.bins.Length == BIN_COUNT
      modifies coder.bins
      ensures coder.bins[..] == ClearBins(scan, old(coder.bins[..]))
    {
      ghost var was: Bins := coder.bins[..];
      var ci := 0;
      while ci < |scan.comps|
        invariant ci <= |scan.comps|
        invariant forall bin :: 0 <= bin < BIN_COUNT ==>
                    coder.bins[bin] == if exists c :: 0 <= c < ci && ClearedBy(scan, c, bin) then 0 else was[bin]
      {
        ghost var before: Bins := coder.bins[..];
        forall bin | 0 <= bin < BIN_COUNT && ClearedBy(scan, ci, bin) {
          coder.bins[bin] := 0;
        }
        ci := ci + 1;
      }
    }

    method ClearPredictions()
      requires ScanOk(scan) && lastDc.Length == dcContext.Length == |scan.comps|
      modifies lastDc, dcContext
      ensures Predicts(NoPrediction(scan))
    {
      forall ci | 0 <= ci < |scan.comps| {
        lastDc[ci] := 0;
      }
      forall ci | 0 <= ci < |scan.comps| {
        dcContext[ci] := 0;
      }
    }

    // Re-initialise the statistics and the predictions.
    method ClearState()
      requires Ready() && (scan.ss != 0 || scan.ah != 0 ==> Predicts(NoPrediction(scan)))
      modifies coder.bins, lastDc, dcContext
      ensures Predicts(NoPrediction(scan)) && coder.bins[..] == ClearBins(scan, old(coder.bins[..]))
    {
      ClearStatistics();
      if scan.ss == 0 && scan.ah == 0 {
        ClearPredictions();
      }
    }

    // The course after the restart marker that ends the present segment.
    ghost function NextCourse(x: Course): Course
      requires CourseOk(scan, x)
      reads coder
    {
      x.(seg := x.i, end := SegmentEnd(scan, x.i, |x.mcus|), bins := ClearBins(scan, coder.last), n := (x.n + 1) % 8)
    }

    lemma SegmentDone(x: Course)
      requires ScanOk(scan) && CourseOk(scan, x) && x.i == x.end < |x.mcus| && x.n == nextRestartNum && coder.Valid()
      requires Expected(coder.table, scan, x, prediction, coder.pending, coder.last, coder.ending)
      ensures var y := NextCourse(x);
              && CourseOk(scan, y) && y.i < y.end && y.bins == ClearBins(scan, coder.bins[..])
              && MarkerAhead(coder.State().src) == Some((0xD0 + nextRestartNum, Input(coder.table, scan, y).bytes))
    {
      SegmentCourse(x);
      coder.ClaimsMet();
    }

    lemma SegmentCourse(x: Course)
      requires ScanOk(scan) && CourseOk(scan, x) && x.i == x.end < |x.mcus| && x.n == nextRestartNum
      requires Expected(coder.table, scan, x, prediction, coder.pending, coder.last, coder.ending)
      ensures var y := NextCourse(x);
              && CourseOk(scan, y) && y.i < y.end && coder.pending == Nil
              && coder.ending == Some((0xD0 + nextRestartNum, Input(coder.table, scan, y).bytes))
    {
      CourseTurns(coder.table, scan, x, prediction, coder.pending, coder.last, coder.ending, NextCourse(x));
    }

    // Check for a restart marker and begin the next segment. Decoding on course keeps
    // to it; otherwise the decoder is at least enabled again.
    method ProcessRestart() returns (ok: bool)
      requires Valid()
      requires course.Some? ==> course.value.i == course.value.end < |course.value.mcus|
      modifies this, coder, coder.bins, lastDc, dcContext
      ensures ok ==> Valid() && coder.Valid() && restartsToGo == scan.restartInterval && coder.bins == old(coder.bins)
      ensures match old(course)
              case None => course == None
              case Some(x) =>
                && ok && course == Some(old(NextCourse(x))) && course.value.i < course.value.end
                && RestCodable(course.value) == old(RestCodable(x))
    {
      ghost var y := course;
      if course.Some? {
        SegmentDone(course.value);
        y := Some(NextCourse(course.value));
      }
      ok := ReadRestartMarker();
      if !ok {
        return;
      }
      ClearState();
      Resume(y);
    }

    // Begin the segment of course y, if decoding is on course, behind its marker.
    method Resume(ghost y: Option<Course>)
      requires Ready() && Predicts(NoPrediction(scan))
      requires y.Some? ==>
                 && CourseOk(scan, y.value) && y.value.i == y.value.seg && y.value.n == nextRestartNum
                 && coder.bins[..] == y.value.bins
                 && Source(coder.input, coder.unreadMarker) == Input(coder.table, scan, y.value)
      modifies this`restartsToGo, this`course, this`prediction, coder
      ensures Valid() && coder.Valid() && coder.bins == old(coder.bins)
      ensures restartsToGo == scan.restartInterval && course == y && prediction == NoPrediction(scan)
    {
      restartsToGo := scan.restartInterval;
      course, prediction := y, NoPrediction(scan);
      Launch();
    }

    // The MCUs that are still to come can be coded.
    ghost predicate RestCodable(x: Course)
      reads this
    {
      && CourseOk(scan, x) && PredictionOk(scan, prediction) && SegmentCodable(scan, prediction, x.mcus, x.i, x.end)
      && (x.end < |x.mcus| ==> ScanCodable(scan, x.mcus, x.end))
    }

    ghost predicate Codable()
      reads this
    {
      course.Some? && RestCodable(course.value)
    }

    // At the end of the scan there is nothing left that could not be coded.
    lemma AllCodable()
      requires Valid() && course.Some? && course.value.i == |course.value.mcus|
      ensures Codable()
    {
      assert Focus(3, 0);
    }

    // Between the restart check and the MCU itself.
    ghost predicate InMcu()
      reads this, coder, coder.bins, lastDc, dcContext
    {
      && Ready() && coder.Valid()
      && (scan.ss != 0 || scan.ah != 0 ==> Predicts(NoPrediction(scan)))
      && (course.Some? ==>
            var x := course.value;
            && CourseOk(scan, x) && x.n == nextRestartNum && Predicts(prediction) && x.i < x.end
            && (scan.restartInterval != 0 ==> restartsToGo == scan.restartInterval - (x.i - x.seg) - 1)
            && Expected(coder.table, scan, x, prediction, coder.pending, coder.last, coder.ending))
    }

    ghost function AnyMcu(): (mcu: Mcu)
      ensures McuOk(scan, mcu)
    {
      seq(|scan.membership|, _ => seq(64, _ => 0))
    }

    lemma McuAhead(x: Course, y: Course) returns (rest: Decisions)
      requires InMcu() && course == Some(x) && y == x.(i := x.i + 1)
      ensures CourseOk(scan, y) && PredictionOk(scan, prediction)
      ensures coder.pending == McuDecisions(scan, 0, prediction, x.mcus[x.i], rest)
      ensures Expected(coder.table, scan, y, AfterMcu(scan, 0, prediction, x.mcus[x.i]), rest, coder.last, coder.ending)
    {
      CourseMcu(coder.table, scan, x, prediction, coder.pending, coder.last, coder.ending, y);
      rest := SegmentDecisions(scan, AfterMcu(scan, 0, prediction, x.mcus[x.i]), x.mcus, y.i, y.end);
    }

    method DecodeEnabled(data: array<Coef>, place: seq<nat>, ghost was: seq<Coef>) returns (ok: bool)
      requires InMcu() && PlaceOk(scan, place, data.Length) && |was| == data.Length
      requires course.Some? ==> McuState(scan, was, data[..], place, course.value.mcus[course.value.i], 0)
      modifies this, coder, coder.bins, lastDc, dcContext, data
      ensures ok ==> Valid() && coder.bins == old(coder.bins)
      ensures OnlyWritten(scan, old(data[..]), data[..], place)
      ensures Progress(scan, old(course), old(Codable()), course, Codable(), ok, was, data[..], place)
    {
      ghost var on, y, p, mcu, rest := course.Some?, course, NoPrediction(scan), AnyMcu(), Nil;
      if on {
        y, p, mcu := Some(course.value.(i := course.value.i + 1)), prediction, course.value.mcus[course.value.i];
        rest := McuAhead(course.value, y.value);
      }
      var e := DecodeBlocks(data, place, on, was, p, mcu, rest);
      course, prediction := if e == Normal then y else None, AfterMcu(scan, 0, p, mcu);
      if e == Normal {
        coder.NotDisabled();
      } else if e == BadCode {
        coder.ct := -1;
      }
      ok := e != Fatal;
    }

    // The next MCU, whose blocks lie at place in the buffer. It fails only when the
    // data source does.
    method DecodeMcu(data: array<Coef>, place: seq<nat>, ghost was: seq<Coef>) returns (ok: bool)
      requires Valid() && PlaceOk(scan, place, data.Length) && |was| == data.Length
      requires course.Some? ==> course.value.i < |course.value.mcus|
      requires course.Some? ==> McuState(scan, was, data[..], place, course.value.mcus[course.value.i], 0)
      modifies this, coder, coder.bins, lastDc, dcContext, data
      ensures ok ==> Valid() && coder.bins == old(coder.bins)
      ensures OnlyWritten(scan, old(data[..]), data[..], place)
      ensures Progress(scan, old(course), old(Codable()), course, Codable(), ok, was, data[..], place)
    {
      if scan.restartInterval != 0 {
        if restartsToGo == 0 {
          ok := ProcessRestart();
          if !ok {
            return;
          }
        }
        restartsToGo := restartsToGo - 1;
      }
      if coder.ct == -1 {
        return true;
      }
      ok := DecodeEnabled(data, place, was);
    }
  }

  // How an MCU goes when decoding was on course: if it can be coded it is decoded, else a
  // DC coefficient is missed, and the course is lost. before and after are the courses,
  // codable and rest say whether what is to come can be coded.
  ghost predicate Progress(s: Scan, before: Option<Course>, codable: bool, after: Option<Course>, rest: bool, ok: bool,
                           was: seq<Coef>, data: seq<Coef>, place: seq<nat>)
    requires ScanOk(s) && |was| == |data| && PlaceOk(s, place, |data|)
  {
    match before
    case None => after == None
    case Some(x) =>
      && ok && x.i < |x.mcus| && McuOk(s, x.mcus[x.i])
      && match after
         case None => !codable && MissedIn(s, was, data, place, x.mcus[x.i])
         case Some(y) =>
           y.i == x.i + 1 && Same(x, y) && rest == codable && McuState(s, was, data, place, x.mcus[x.i], |place|)
  }

  // Before MCU i of a scan whose source holds the MCUs: either decoding is on course and
  // has restored all MCUs so far, or the scan cannot be coded and something was missed.
  // Closed.
  ghost predicate Tracked(s: Scan, mcus: seq<Mcu>, course: Option<Course>, rest: bool, was: seq<Coef>, data: seq<Coef>,
                          places: seq<seq<nat>>, i: nat)
    requires ScanOk(s) && McusOk(s, mcus) && |was| == |data| && PlacesOk(s, places, |data|) && i <= |places| == |mcus|
  {
    forall k :: Focus(3, k) ==>
      match course
      case None => !ScanCodable(s, mcus, 0) && MissedBefore(s, was, data, places, mcus, i)
      case Some(x) =>
        x.i == i && x.mcus == mcus && rest == ScanCodable(s, mcus, 0) && ScanState(s, was, data, places, mcus, i)
  }

  lemma TrackedStep(s: Scan, mcus: seq<Mcu>, before: Option<Course>, codable: bool, after: Option<Course>, rest: bool,
                    ok: bool,
                    was: seq<Coef>, mid: seq<Coef>, data: seq<Coef>, places: seq<seq<nat>>, i: nat)
    requires ScanOk(s) && McusOk(s, mcus) && |was| == |mid| == |data| && PlacesOk(s, places, |data|)
    requires i < |places| == |mcus|
    requires Tracked(s, mcus, before, codable, was, mid, places, i) && OnlyWritten(s, mid, data, places[i])
    requires Progress(s, before, codable, after, rest, ok, was, data, places[i])
    ensures Tracked(s, mcus, after, rest, was, data, places, i + 1)
    ensures after.Some? ==> after.value.i == i + 1 && after.value.mcus == mcus
    ensures before.Some? || after == None
    ensures !ok ==> after == None
  {
    assert Focus(3, 0);
    if before == None {
      MissedKept(s, was, mid, data, places, mcus, i);
    } else if after.Some? {
      ScanStep(s, was, mid, data, places, mcus, i);
    } else {
      MissedOne(s, was, data, places, mcus, i);
    }
  }

  lemma TrackedEnd(s: Scan, mcus: seq<Mcu>, course: Option<Course>, rest: bool, was: seq<Coef>, data: seq<Coef>,
                   places: seq<seq<nat>>, i: nat)
    requires ScanOk(s) && McusOk(s, mcus) && |was| == |data| && PlacesOk(s, places, |data|) && i <= |places| == |mcus|
    requires Tracked(s, mcus, course, rest, was, data, places, i) && (course.Some? ==> i == |mcus| && rest)
    ensures Concluded(s, mcus, course.Some?, was, data, places) && (course.Some? <==> ScanCodable(s, mcus, 0))
  {
    assert Focus(3, 0);
    NotRestored(s, was, data, places, mcus, i, course == None);
  }

  // Decoding stands before MCU i.
  ghost predicate Stands(d: ScanDecoder, s: Scan, mcus: seq<Mcu>, on: bool, was: seq<Coef>, data: seq<Coef>,
                         places: seq<seq<nat>>, i: nat)
    requires ScanOk(s) && McusOk(s, mcus) && |was| == |data| && PlacesOk(s, places, |data|) && i <= |places| == |mcus|
    reads d, d.coder, d.coder.bins, d.lastDc, d.dcContext
  {
    && d.Valid() && d.scan == s && (d.course.Some? ==> on && d.course.value.i == i && d.course.value.mcus == mcus)
    && (on ==> Tracked(s, mcus, d.course, d.Codable(), was, data, places, i)) && OnlyScanWritten(s, was, data, places)
  }

  // One MCU. When the source is exhausted the scan could not be coded.
  method DecodeOne(d: ScanDecoder, s: Scan, data: array<Coef>, places: seq<seq<nat>>, i: nat,
                    ghost mcus: seq<Mcu>, ghost on: bool, ghost start: seq<Coef>) returns (ok: bool)
    requires ScanOk(s) && McusOk(s, mcus) && PlacesOk(s, places, data.Length) && i < |places| == |mcus|
    requires |start| == data.Length
    requires Stands(d, s, mcus, on, start, data[..], places, i)
    modifies d, d.coder, d.coder.bins, d.lastDc, d.dcContext, data
    ensures d.coder.bins == old(d.coder.bins) || !ok
    ensures ok ==> Stands(d, s, mcus, on, start, data[..], places, i + 1)
    ensures OnlyScanWritten(s, start, data[..], places)
    ensures on && !ok ==> Concluded(s, mcus, false, start, data[..], places)
  {
    ghost var was, before, codable := data[..], d.course, d.Codable();
    if on {
      TrackedMcu(s, mcus, d.course, codable, start, was, places, i);
    }
    ok := d.DecodeMcu(data, places[i], start);
    OnlyScanStep(s, start, was, data[..], places, i);
    if on {
      TrackedStep(s, mcus, before, codable, d.course, d.Codable(), ok, start, was, data[..], places, i);
      if !ok {
        TrackedEnd(s, mcus, d.course, d.Codable(), start, data[..], places, i + 1);
      }
    }
  }

  // How a scan ends whose source held the MCUs.
  ghost predicate Concluded(s: Scan, mcus: seq<Mcu>, ok: bool, was: seq<Coef>, data: seq<Coef>, places: seq<seq<nat>>)
    requires ScanOk(s) && McusOk(s, mcus) && |was| == |data| && PlacesOk(s, places, |data|) && |places| == |mcus|
  {
    if ScanCodable(s, mcus, 0) then ok && ScanState(s, was, data, places, mcus, |mcus|)
    else DcZero(s, was, places) ==> !ScanState(s, was, data, places, mcus, |mcus|)
  }

  // A whole scan. On any data it terminates; given the bytes that the encoder produces for
  // some MCUs, followed by a marker, it restores those MCUs if all DC differences can be
  // coded. If some cannot, and the blocks were zero before, it does not.
  method DecodeScan(s: Scan, source: seq<byte>, data: array<Coef>, places: seq<seq<nat>>,
                    ghost mcus: seq<Mcu>, ghost marker: byte, ghost after: seq<byte>) returns (ok: bool)
    requires ScanOk(s) && PlacesOk(s, places, data.Length)
    requires McusOk(s, mcus) && |mcus| == |places| && IsMarker(marker)
    modifies data
    ensures OnlyScanWritten(s, old(data[..]), data[..], places)
    ensures var intact := source == ScanBytes(JpegAritab(), s, StartBins(), 0, mcus, 0) + [0xFF, marker] + after;
            intact && ScanState(s, old(data[..]), old(data[..]), places, mcus, 0) ==>
              Concluded(s, mcus, ok, old(data[..]), data[..], places)
  {
    ghost var start := data[..];
    ghost var on := && source == ScanBytes(JpegAritab(), s, StartBins(), 0, mcus, 0) + [0xFF, marker] + after
                    && ScanState(s, data[..], data[..], places, mcus, 0);
    ghost var x := Course(mcus, marker, after, 0, SegmentEnd(s, 0, |mcus|), 0, StartBins(), 0);
    var d := new ScanDecoder(s, source, if on then Some(x) else None);
    TrackedStart(d, s, mcus, on, start, places);
    var i := 0;
    while i < |places|
      invariant i <= |places| && Stands(d, s, mcus, on, start, data[..], places, i)
      invariant fresh(d) && fresh(d.coder) && fresh(d.coder.bins) && fresh(d.lastDc) && fresh(d.dcContext)
    {
      ok := DecodeOne(d, s, data, places, i, mcus, on, start);
      if !ok {
        return;
      }
      i := i + 1;
    }
    if on {
      if d.course.Some? {
        d.AllCodable();
      }
      TrackedEnd(s, mcus, d.course, d.Codable(), start, data[..], places, i);
    }
    ok := true;
  }

  lemma TrackedStart(d: ScanDecoder, s: Scan, mcus: seq<Mcu>, on: bool, data: seq<Coef>, places: seq<seq<nat>>)
    requires ScanOk(s) && McusOk(s, mcus) && PlacesOk(s, places, |data|) && |places| == |mcus| && d.Valid()
    requires d.scan == s
    requires on ==> ScanState(s, data, data, places, mcus, 0)
    requires on ==> d.course.Some? && d.course.value.i == d.course.value.seg == 0 && d.course.value.mcus == mcus
    requires d.prediction == NoPrediction(s) && (!on ==> d.course == None)
    ensures Stands(d, s, mcus, on, data, data, places, 0)
  {
    assert on ==> d.Codable() == ScanCodable(s, mcus, 0);
  }

  lemma TrackedMcu(s: Scan, mcus: seq<Mcu>, course: Option<Course>, rest: bool, was: seq<Coef>, data: seq<Coef>,
                   places: seq<seq<nat>>, i: nat)
    requires ScanOk(s) && McusOk(s, mcus) && |was| == |data| && PlacesOk(s, places, |data|) && i < |places| == |mcus|
    requires Tracked(s, mcus, course, rest, was, data, places, i)
    ensures course.Some? ==> McuState(s, was, data, places[i], mcus[i], 0)
  {
    assert Focus(3, 0);
  }

  // ---- values that cannot be coded ----

  // What a scan with DC coefficients makes of one.
  function DcStored(s: Scan, b: Block): int
    requires ScanOk(s)
  {
    if KindOf(s) == Sequential then b[0] else if KindOf(s) == DcFirst then DcFloor(b[0], s.al) else 0
  }

  // The DC coefficient was not stored, although it is not zero.
  ghost predicate MissedBlock(s: Scan, was: seq<Coef>, data: seq<Coef>, off: nat, b: Block)
    requires ScanOk(s) && off + 64 <= |data| == |was|
  {
    data[off] == was[off] && DcStored(s, b) != 0
  }

  ghost predicate MissedIn(s: Scan, was: seq<Coef>, data: seq<Coef>, place: seq<nat>, mcu: Mcu)
    requires ScanOk(s) && |was| == |data| && PlaceOk(s, place, |data|) && McuOk(s, mcu)
  {
    exists j :: 0 <= j < |place| && MissedBlock(s, was, data, 64 * place[j], mcu[j])
  }

  lemma DcIsWritten(s: Scan, off: nat)
    requires ScanOk(s) && s.ss == 0
    ensures Written(s, off, off)
  {
    assert off == off + s.order[0];
  }

  // A value that cannot be coded is not zero.
  lemma NotZero(s: Scan, i: nat, p: Prediction, b: Block)
    requires ScanOk(s) && PredictionOk(s, p) && i < |s.membership|
    ensures !BlockCodable(s, i, p, b) ==> DcStored(s, b) != 0
  {
    if KindOf(s) == DcFirst {
      ShlMonotone(0, Shr(b[0], s.al), s.al);
      ShlMonotone(Shr(b[0], s.al), 0, s.al);
      ShlAdd(0, 0, s.al);
    }
  }

  lemma MissedHere(s: Scan, was: seq<Coef>, mid: seq<Coef>, data: seq<Coef>, place: seq<nat>, mcu: Mcu, i: nat)
    requires ScanOk(s) && |was| == |mid| == |data| && PlaceOk(s, place, |data|) && McuOk(s, mcu) && i < |place|
    requires McuState(s, was, mid, place, mcu, i) && MissedBlock(s, mid, data, 64 * place[i], mcu[i])
    ensures MissedIn(s, was, data, place, mcu)
  {
    assert BlockState(s, was, mid, 64 * place[i], mcu[i], false);
    assert MissedBlock(s, was, data, 64 * place[i], mcu[i]);
  }

  lemma MissedOne(s: Scan, was: seq<Coef>, data: seq<Coef>, places: seq<seq<nat>>, mcus: seq<Mcu>, i: nat)
    requires ScanOk(s) && |was| == |data| && PlacesOk(s, places, |data|) && McusOk(s, mcus) && |mcus| == |places|
    requires i < |places| && MissedIn(s, was, data, places[i], mcus[i])
    ensures MissedBefore(s, was, data, places, mcus, i + 1)
  {
  }

  // Where the scan had zeros before, such a coefficient is not restored.
  ghost predicate DcZero(s: Scan, was: seq<Coef>, places: seq<seq<nat>>)
    requires ScanOk(s) && PlacesOk(s, places, |was|)
  {
    forall i, j :: 0 <= i < |places| && 0 <= j < |places[i]| ==> was[64 * places[i][j]] == 0
  }

  lemma NotRestored(s: Scan, was: seq<Coef>, data: seq<Coef>, places: seq<seq<nat>>, mcus: seq<Mcu>, n: nat,
                    missed: bool)
    requires ScanOk(s) && |was| == |data| && PlacesOk(s, places, |data|) && McusOk(s, mcus) && |mcus| == |places|
    requires missed ==> n <= |places| && MissedBefore(s, was, data, places, mcus, n)
    ensures missed && DcZero(s, was, places) ==> !ScanState(s, was, data, places, mcus, |mcus|)
  {
    if missed && DcZero(s, was, places) {
      var i :| 0 <= i < n && MissedIn(s, was, data, places[i], mcus[i]);
      var j :| 0 <= j < |places[i]| && MissedBlock(s, was, data, 64 * places[i][j], mcus[i][j]);
      assert !BlockState(s, was, data, 64 * places[i][j], mcus[i][j], true);
      assert !McuState(s, was, data, places[i], mcus[i], |places[i]|);
    }
  }

  // Later MCUs lie elsewhere.
  lemma MissedKept(s: Scan, was: seq<Coef>, mid: seq<Coef>, data: seq<Coef>, places: seq<seq<nat>>, mcus: seq<Mcu>,
                   n: nat)
    requires ScanOk(s) && |was| == |mid| == |data| && PlacesOk(s, places, |data|) && McusOk(s, mcus)
    requires |mcus| == |places|
    requires n < |places| && OnlyWritten(s, mid, data, places[n]) && MissedBefore(s, was, mid, places, mcus, n)
    ensures MissedBefore(s, was, data, places, mcus, n)
  {
    var i :| 0 <= i < n && MissedIn(s, was, mid, places[i], mcus[i]);
    var j :| 0 <= j < |places[i]| && MissedBlock(s, was, mid, 64 * places[i][j], mcus[i][j]);
    forall k | 0 <= k < |places[n]|
      ensures !Written(s, 64 * places[n][k], 64 * places[i][j])
    {
      assert places[i][j] != places[n][k];
    }
    assert MissedBlock(s, was, data, 64 * places[i][j], mcus[i][j]);
    assert MissedIn(s, was, data, places[i], mcus[i]);
  }

  ghost predicate MissedBefore(s: Scan, was: seq<Coef>, data: seq<Coef>, places: seq<seq<nat>>, mcus: seq<Mcu>, n: nat)
    requires ScanOk(s) && |was| == |data| && PlacesOk(s, places, |data|) && McusOk(s, mcus) && n <= |mcus| == |places|
  {
    exists i :: 0 <= i < n && MissedIn(s, was, data, places[i], mcus[i])
  }
}

// What a decoder can expect when its source holds the bytes of a Huffman-coded scan: the
// tokens MCU by MCU, and the runs of ended bands as it meets them.

module HuffCourse {
  import opened Prelude
  import opened ByteStream
  import opened Coefficients
  import opened Scans
  import opened HuffBits
  import opened HuffReader
  import opened HuffBinarisation
  import opened HuffViews
  import opened HuffScan
  import opened HuffRuns
  import opened HuffTokenReader
  import opened HuffMcuDecoder

  // The MCUs and the marker and bytes behind the scan; decoding stands in the segment seg
  // to end - 1 in front of MCU i. last are the DC predictions there, the next run MCUs
  // belong to a run of ended bands, and n numbers the next restart marker.
  datatype Course = Course(
    mcus: seq<Mcu>, marker: byte, after: seq<byte>,
    seg: nat, end: nat, i: nat, last: seq<Coef>, run: nat, n: nat)

  predicate CourseOk(s: Scan, x: Course) {
    && HuffScanOk(s) && McusOk(s, x.mcus) && IsMarker(x.marker) && x.n < 8
    && x.seg <= x.i <= x.i + x.run <= x.end <= |x.mcus| && x.end == SegmentEnd(s, x.seg, |x.mcus|)
    && |x.last| == |s.comps| && SegAccepted(s, x.last, x.mcus, x.i, x.end)
    && (x.run > 0 ==> AcScan(s)) && forall k :: x.i <= k < x.i + x.run ==> Ended(s, x.mcus[k])
  }

  function Settle(last: seq<Coef>): Carry {
    Carry(last, 0, [])
  }

  // The tokens that are still to come in the segment.
  function Awaited(s: Scan, x: Course): Tokens
    requires CourseOk(s, x)
  {
    JoinTokens(s, x.mcus, x.i, x.run, SegTokens(s, Settle(x.last), x.mcus, x.i + x.run, x.end))
  }

  // The bytes of the scan from MCU i on and what follows the scan.
  function Remaining(tabs: Tables, s: Scan, n: nat, mcus: seq<Mcu>, i: nat, marker: byte, after: seq<byte>): seq<byte>
    requires TablesOk(tabs) && HuffScanOk(s) && McusOk(s, mcus) && n < 8 && i <= |mcus|
  {
    ScanBytes(tabs, s, n, mcus, i) + [0xFF, marker] + after
  }

  // The marker behind the present segment, and what follows it.
  function Behind(tabs: Tables, s: Scan, x: Course): (r: (byte, seq<byte>))
    requires TablesOk(tabs) && CourseOk(s, x)
    ensures IsMarker(r.0)
  {
    if x.end == |x.mcus| then (x.marker, x.after)
    else (0xD0 + x.n, Remaining(tabs, s, (x.n + 1) % 8, x.mcus, x.end, x.marker, x.after))
  }

  // The reader's state fits the course. Closed.
  ghost predicate Expected(tabs: Tables, s: Scan, x: Course, pending: Option<Tokens>, ending: Option<(byte, seq<byte>)>)
    requires TablesOk(tabs) && CourseOk(s, x)
  {
    forall k :: Focus(3, k) ==>
      && pending == Some(Awaited(s, x)) && ending == Some(Behind(tabs, s, x))
      && (x.end < |x.mcus| ==> ScanCoded(tabs, s, x.mcus, x.end) && ScanAccepted(s, x.mcus, x.end))
  }

  // ---- segments ----

  predicate AtSegment(s: Scan, x: Course) {
    x.i == x.seg && x.run == 0 && x.last == NoCarry(s).lastDc
  }

  // The bytes at the start of a segment.
  function Input(tabs: Tables, s: Scan, x: Course): seq<byte>
    requires TablesOk(tabs) && CourseOk(s, x)
  {
    Remaining(tabs, s, x.n, x.mcus, x.i, x.marker, x.after)
  }

  lemma FirstSegment(tabs: Tables, s: Scan, x: Course)
    requires TablesOk(tabs) && CourseOk(s, x) && AtSegment(s, x)
    ensures var b := Behind(tabs, s, x); Input(tabs, s, x) == Stuff(Data(tabs, Awaited(s, x))) + [0xFF, b.0] + b.1
  {
    var data := Stuff(Data(tabs, Awaited(s, x)));
    if x.end < |x.mcus| {
      Regroup(data, RestartMarker(x.n), ScanBytes(tabs, s, (x.n + 1) % 8, x.mcus, x.end), [0xFF, x.marker], x.after);
    }
  }

  lemma Regroup(a: seq<byte>, b: seq<byte>, c: seq<byte>, d: seq<byte>, e: seq<byte>)
    ensures (a + b + c) + d + e == a + b + (c + d + e)
  {
  }

  // At the start of a segment the data up to the marker are the bits of its tokens.
  lemma CourseStarts(tabs: Tables, s: Scan, x: Course)
    requires TablesOk(tabs) && CourseOk(s, x) && AtSegment(s, x) && ScanCoded(tabs, s, x.mcus, x.i)
    requires ScanAccepted(s, x.mcus, x.i)
    ensures Expected(tabs, s, x, Some(Awaited(s, x)), DataEnd(Input(tabs, s, x)))
    ensures Claims(tabs, 0, BytesBits(DataBytes(Input(tabs, s, x))), Awaited(s, x))
  {
    var b, ts := Behind(tabs, s, x), Awaited(s, x);
    FirstSegment(tabs, s, x);
    DataOfStream(Data(tabs, ts), b.0, b.1);
    LayLength(tabs, 0, ts);
    BytesRoundTrip(Lay(tabs, 0, ts));
  }

  // At the end of a segment that is not the last one nothing is expected any more, and
  // the bytes behind the marker are those of the scan that remain.
  lemma CourseTurns(tabs: Tables, s: Scan, x: Course, pending: Option<Tokens>, ending: Option<(byte, seq<byte>)>,
                    y: Course)
    requires TablesOk(tabs) && CourseOk(s, x) && Expected(tabs, s, x, pending, ending) && x.i == x.end < |x.mcus|
    requires y == x.(seg := x.i, end := SegmentEnd(s, x.i, |x.mcus|), last := NoCarry(s).lastDc, run := 0,
                     n := (x.n + 1) % 8)
    ensures CourseOk(s, y) && AtSegment(s, y) && y.i < y.end && pending == Some(Nil)
    ensures ScanCoded(tabs, s, y.mcus, y.i) && ScanAccepted(s, y.mcus, y.i)
    ensures ending == Some((0xD0 + x.n, Input(tabs, s, y)))
  {
    assert Focus(3, 0);
  }

  // ---- MCUs ----

  // The next MCU: the tokens at the end of its band, if that is not exhausted, begin
  // with the length m of a run; rest is what follows the MCU.
  datatype Plan = Plan(end: Tokens, m: nat, rest: Tokens)

  function RunAfter(run: nat, m: nat): nat {
    if run > 0 then run - 1 else if m > 0 then m - 1 else 0
  }

  // How the decoder meets the MCU.
  ghost predicate McuReady(s: Scan, last: seq<Coef>, run: nat, mcu: Mcu, p: Plan, pending: Tokens)
    requires HuffScanOk(s) && |last| == |s.comps| && McuOk(s, mcu)
  {
    match KindOf(s)
    case AcFirst =>
      var z := BandOf(s, mcu);
      if run > 0 then pending == p.rest && NextNonzero(z, s.se, s.ss) > s.se
      else
        && pending == Band(AcNo(s), z, s.se, s.ss, p.end, p.end) && CoefsFit(z, s.ss, s.se)
        && EndsWith(AcNo(s), EndsOpen(z, s.se, s.ss), p.end, p.m, p.rest)
    case AcRefine =>
      var z := BandOf(s, mcu);
      if run > 0 then pending == OldTokens(z, s.ss, s.se + 1, p.rest) && NextNew(z, s.se, s.ss) > s.se
      else
        var t := Tail(z, s.se, s.ss);
        && pending == Seen(AcNo(s), z, s.se, s.ss, p.end)
        && EndsWith(AcNo(s), t <= s.se, p.end, p.m, OldTokens(z, t, s.se + 1, p.rest))
    case _ => run == p.m == 0 && pending == BlocksTokens(s, last, 0, mcu, p.rest) && McuAccepted(s, last, 0, mcu)
  }

  // A band of an AC scan that is not inside of a run: behind it comes the run that it
  // leaves, which extends over the MCUs behind.
  lemma RunBehind(s: Scan, c: Carry, mcus: seq<Mcu>, i: nat, end: nat) returns (m: nat, rest: Tokens)
    requires HuffScanOk(s) && AcScan(s) && CarryOk(s, c) && McusOk(s, mcus) && i <= end <= |mcus| && c.run <= 1
    ensures m == 0 <==> c.run == 0
    ensures var n := RunAfter(0, m);
            && i + n <= end && (forall k :: i <= k < i + n ==> Ended(s, mcus[k]))
            && rest == JoinTokens(s, mcus, i, n, SegTokens(s, Settle(c.lastDc), mcus, i + n, end))
    ensures var seg := SegTokens(s, c, mcus, i, end);
            if c.run == 0 then seg == rest else 0 < m <= 0x7FFF && seg == EobHead(AcNo(s), m, CorrTokens(c.corr, rest))
  {
    if c.run == 0 {
      m, rest := 0, SegTokens(s, c, mcus, i, end);
    } else {
      var n := RunExtends(s, c, mcus, i, end);
      m, rest := n + 1, JoinTokens(s, mcus, i, n, SegTokens(s, Settle(c.lastDc), mcus, i + n, end));
    }
  }

  // What a band outside of a run leaves.
  lemma BandLeaves(s: Scan, last: seq<Coef>, mcu: Mcu, rest: Tokens)
    requires HuffScanOk(s) && AcScan(s) && |last| == |s.comps| && McuOk(s, mcu)
    ensures var z, c := BandOf(s, mcu), AfterMcu(s, Settle(last), mcu);
            && c.lastDc == last && c.run <= 1
            && (KindOf(s) == AcFirst ==>
                  && McuTokens(s, Settle(last), mcu, rest) == Band(AcNo(s), z, s.se, s.ss, rest, rest)
                  && (c.run == 1 <==> EndsOpen(z, s.se, s.ss)) && c.corr == [])
            && (KindOf(s) == AcRefine ==>
                  && McuTokens(s, Settle(last), mcu, rest) == Seen(AcNo(s), z, s.se, s.ss, rest)
                  && (c.run == 1 <==> Tail(z, s.se, s.ss) <= s.se)
                  && c.corr == if c.run == 1 then OldBits(z, Tail(z, s.se, s.ss), s.se + 1) else [])
  {
    var z := BandOf(s, mcu);
    if KindOf(s) == AcFirst {
      FirstView(AcNo(s), z, s.se, s.ss, 0, rest);
    } else {
      SeenView(AcNo(s), z, s.se, LastNew(z, s.ss, s.se), s.ss, s.ss, 0, [], rest);
    }
  }

  // The MCU in an AC scan.
  lemma PlanAc(s: Scan, x: Course) returns (p: Plan)
    requires CourseOk(s, x) && AcScan(s) && x.i < x.end
    ensures McuReady(s, x.last, x.run, x.mcus[x.i], p, Awaited(s, x))
    ensures var y := x.(i := x.i + 1, run := RunAfter(x.run, p.m)); CourseOk(s, y) && p.rest == Awaited(s, y)
  {
    var mcu := x.mcus[x.i];
    AcKeepsLast(s, x.last, 0, mcu);
    if x.run > 0 {
      var y := x.(i := x.i + 1, run := x.run - 1);
      p := Plan(Nil, 0, Awaited(s, y));
      assert Ended(s, mcu);
    } else {
      p := PlanOutside(s, x);
    }
  }

  lemma PlanOutside(s: Scan, x: Course) returns (p: Plan)
    requires CourseOk(s, x) && AcScan(s) && x.i < x.end && x.run == 0
    ensures McuReady(s, x.last, 0, x.mcus[x.i], p, Awaited(s, x))
    ensures var y := x.(i := x.i + 1, run := RunAfter(0, p.m)); CourseOk(s, y) && p.rest == Awaited(s, y)
  {
    var mcu := x.mcus[x.i];
    var c := AfterMcu(s, Settle(x.last), mcu);
    var end := SegTokens(s, c, x.mcus, x.i + 1, x.end);
    BandLeaves(s, x.last, mcu, end);
    var m, rest := RunBehind(s, c, x.mcus, x.i + 1, x.end);
    p := Plan(end, m, rest);
    OnCourse(s, x, RunAfter(0, m));
    BandReady(s, x.last, mcu, p);
  }

  // Behind the MCU, in front of n MCUs whose bands are ended.
  lemma OnCourse(s: Scan, x: Course, n: nat)
    requires CourseOk(s, x) && AcScan(s) && x.i < x.end && x.run == 0 && x.i + 1 + n <= x.end
    requires forall k :: x.i + 1 <= k < x.i + 1 + n ==> Ended(s, x.mcus[k])
    ensures CourseOk(s, x.(i := x.i + 1, run := n)) && BlockAccepted(s, x.last, 0, x.mcus[x.i][0])
  {
    AcKeepsLast(s, x.last, 0, x.mcus[x.i]);
  }

  // The run behind a band is the one that the band ends with.
  lemma BandReady(s: Scan, last: seq<Coef>, mcu: Mcu, p: Plan)
    requires HuffScanOk(s) && AcScan(s) && |last| == |s.comps| && McuOk(s, mcu) && BlockAccepted(s, last, 0, mcu[0])
    requires var c := AfterMcu(s, Settle(last), mcu);
             if c.run == 0 then p.m == 0 && p.end == p.rest
             else 0 < p.m <= 0x7FFF && p.end == EobHead(AcNo(s), p.m, CorrTokens(c.corr, p.rest))
    ensures McuReady(s, last, 0, mcu, p, McuTokens(s, Settle(last), mcu, p.end))
  {
    BandLeaves(s, last, mcu, p.end);
    if KindOf(s) == AcRefine {
      var z := BandOf(s, mcu);
      CorrOld(z, Tail(z, s.se, s.ss), s.se + 1, p.rest);
      if Tail(z, s.se, s.ss) > s.se {
        assert OldTokens(z, s.se + 1, s.se + 1, p.rest) == p.rest;
      }
    }
  }

  // The MCU in a scan with DC coefficients.
  lemma PlanDc(s: Scan, x: Course) returns (p: Plan)
    requires CourseOk(s, x) && !AcScan(s) && x.i < x.end
    ensures McuReady(s, x.last, x.run, x.mcus[x.i], p, Awaited(s, x))
    ensures var y := x.(i := x.i + 1, last := AfterBlocks(s, x.last, 0, x.mcus[x.i]), run := RunAfter(x.run, p.m));
            CourseOk(s, y) && p.rest == Awaited(s, y)
  {
    var last := AfterBlocks(s, x.last, 0, x.mcus[x.i]);
    p := Plan(Nil, 0, SegTokens(s, Settle(last), x.mcus, x.i + 1, x.end));
  }

  // The course behind the next MCU.
  function NextLast(s: Scan, x: Course): seq<Coef>
    requires CourseOk(s, x) && x.i < x.end
  {
    if AcScan(s) then x.last else AfterBlocks(s, x.last, 0, x.mcus[x.i])
  }

  lemma CourseMcu(tabs: Tables, s: Scan, x: Course, pending: Option<Tokens>, ending: Option<(byte, seq<byte>)>)
    returns (p: Plan, y: Course)
    requires TablesOk(tabs) && CourseOk(s, x) && Expected(tabs, s, x, pending, ending) && x.i < x.end
    ensures pending.Some? && McuReady(s, x.last, x.run, x.mcus[x.i], p, pending.value)
    ensures y == x.(i := x.i + 1, last := NextLast(s, x), run := RunAfter(x.run, p.m))
    ensures CourseOk(s, y) && Expected(tabs, s, y, Some(p.rest), ending)
  {
    p, y := PlanMcu(s, x);
    SamePlace(tabs, s, x, pending, ending, y);
  }

  lemma PlanMcu(s: Scan, x: Course) returns (p: Plan, y: Course)
    requires CourseOk(s, x) && x.i < x.end
    ensures McuReady(s, x.last, x.run, x.mcus[x.i], p, Awaited(s, x))
    ensures y == x.(i := x.i + 1, last := NextLast(s, x), run := RunAfter(x.run, p.m))
    ensures CourseOk(s, y) && p.rest == Awaited(s, y)
  {
    if AcScan(s) {
      p := PlanAc(s, x);
    } else {
      p := PlanDc(s, x);
    }
    y := x.(i := x.i + 1, last := NextLast(s, x), run := RunAfter(x.run, p.m));
  }

  // Within a segment what comes behind it stays the same.
  lemma SamePlace(tabs: Tables, s: Scan, x: Course, pending: Option<Tokens>, ending: Option<(byte, seq<byte>)>,
                  y: Course)
    requires TablesOk(tabs) && CourseOk(s, x) && Expected(tabs, s, x, pending, ending) && CourseOk(s, y)
    requires y == x.(i := y.i, last := y.last, run := y.run)
    ensures pending == Some(Awaited(s, x)) && Expected(tabs, s, y, Some(Awaited(s, y)), ending)
  {
    assert Focus(3, 0);
  }
}

// The Huffman entropy encoder for a whole scan (jchuff.c): MCU routines with restart
// markers and termination, for output or for gathering statistics.

module HuffScanEncoder {
  import opened Prelude
  import opened ByteStream
  import opened Coefficients
  import opened Scans
  import opened HuffBits
  import opened HuffBinarisation
  import opened HuffScan
  import opened HuffEncoder
  import opened HuffMcuEncoder

  // Where the encoder of a scan stands: segment seg to end - 1 is being coded up to MCU
  // i with carry c; n numbers the next restart marker.
  datatype Position = Position(
    seg: nat, end: nat, i: nat, c: Carry, n: nat, plan: Tokens, goal: seq<byte>, tally: seq<seq<nat>>, sound: bool)

  predicate PositionOk(s: Scan, mcus: seq<Mcu>, x: Position) {
    && HuffScanOk(s) && McusOk(s, mcus) && CarryOk(s, x.c) && x.n < 8
    && x.seg <= x.i <= x.end <= |mcus| && x.end == SegmentEnd(s, x.seg, |mcus|)
    && |x.tally| == 8 && forall t :: 0 <= t < 8 ==> |x.tally[t]| == 256
  }

  // What is promised: the bytes of the scan behind what was written before, the counts
  // of its symbols, and whether all its symbols have codes and all its coefficients are
  // accepted: then nothing fails.
  datatype Promise = Promise(bytes: seq<byte>, counts: seq<seq<nat>>, coded: bool, accepted: bool)

  // The bytes behind the present segment.
  function Later(tabs: Tables, s: Scan, mcus: seq<Mcu>, n: nat, end: nat): seq<byte>
    requires TablesOk(tabs) && HuffScanOk(s) && McusOk(s, mcus) && n < 8 && end <= |mcus|
  {
    if end == |mcus| then [] else RestartMarker(n) + ScanBytes(tabs, s, (n + 1) % 8, mcus, end)
  }

  function LaterTally(s: Scan, mcus: seq<Mcu>, end: nat, t: nat, sym: nat): nat
    requires HuffScanOk(s) && McusOk(s, mcus) && end <= |mcus|
  {
    if end == |mcus| then 0 else ScanTally(s, mcus, end, t, sym)
  }

  predicate Adds(a: seq<seq<nat>>, b: seq<seq<nat>>, s: Scan, mcus: seq<Mcu>, end: nat)
    requires HuffScanOk(s) && McusOk(s, mcus) && end <= |mcus|
  {
    && |a| == |b| == 8 && (forall t :: 0 <= t < 8 ==> |a[t]| == |b[t]| == 256)
    && forall t, sym :: 0 <= t < 8 && 0 <= sym < 256 ==> a[t][sym] + LaterTally(s, mcus, end, t, sym) == b[t][sym]
  }

  // Closed.
  ghost predicate Promised(tabs: Tables, gather: bool, s: Scan, mcus: seq<Mcu>, x: Position, p: Promise)
    requires TablesOk(tabs) && PositionOk(s, mcus, x)
  {
    forall k :: Focus(3, k) ==>
      && x.plan == SegTokens(s, x.c, mcus, x.i, x.end)
      && (if gather then Adds(x.tally, p.counts, s, mcus, x.end)
          else x.goal + Later(tabs, s, mcus, x.n, x.end) == p.bytes)
      && (p.coded ==> x.sound && (!gather && x.end < |mcus| ==> ScanCoded(tabs, s, mcus, x.end)))
      && p.accepted == RestAccepted(s, mcus, x)
  }

  // The coefficients that are still to come are accepted.
  predicate RestAccepted(s: Scan, mcus: seq<Mcu>, x: Position)
    requires PositionOk(s, mcus, x)
  {
    SegAccepted(s, x.c.lastDc, mcus, x.i, x.end) && (x.end < |mcus| ==> ScanAccepted(s, mcus, x.end))
  }

  // The counts of all symbols of a scan.
  function ScanCounts(s: Scan, mcus: seq<Mcu>): seq<seq<nat>>
    requires HuffScanOk(s) && McusOk(s, mcus)
  {
    seq(8, (t: nat) => seq(256, (sym: nat) => ScanTally(s, mcus, 0, t, sym)))
  }

  function WholePromise(tabs: Tables, s: Scan, mcus: seq<Mcu>, destination: seq<byte>, coded: bool): Promise
    requires TablesOk(tabs) && HuffScanOk(s) && McusOk(s, mcus)
  {
    Promise(destination + ScanBytes(tabs, s, 0, mcus, 0), ScanCounts(s, mcus), coded, ScanAccepted(s, mcus, 0))
  }

  lemma PromiseStarts(tabs: Tables, gather: bool, s: Scan, mcus: seq<Mcu>, x: Position, destination: seq<byte>,
                      coded: bool)
    requires TablesOk(tabs) && PositionOk(s, mcus, x) && x.seg == x.i == x.n == 0 && x.c == NoCarry(s)
    requires x.plan == SegTokens(s, x.c, mcus, 0, x.end) && x.sound == (gather || Coded(tabs, x.plan))
    requires !gather ==> x.goal == destination + Stuff(Data(tabs, x.plan))
    requires gather ==> forall t, sym :: 0 <= t < 8 && 0 <= sym < 256 ==> x.tally[t][sym] == Tally(x.plan, t, sym)
    requires coded ==> gather || ScanCoded(tabs, s, mcus, 0)
    ensures Promised(tabs, gather, s, mcus, x, WholePromise(tabs, s, mcus, destination, coded))
  {
    var data := Stuff(Data(tabs, x.plan));
    if x.end < |mcus| {
      Associate3(destination, data, Later(tabs, s, mcus, 0, x.end));
      Associate3(data, RestartMarker(0), ScanBytes(tabs, s, 1, mcus, x.end));
    } else {
      assert destination + data + [] == destination + data;
    }
  }

  // Inside a segment the plan begins with the tokens of MCU i.
  lemma PromisePlan(tabs: Tables, gather: bool, s: Scan, mcus: seq<Mcu>, x: Position, p: Promise)
    requires TablesOk(tabs) && PositionOk(s, mcus, x) && Promised(tabs, gather, s, mcus, x, p)
    ensures x.i == x.end ==> x.plan == EobTokens(AcNo(s), x.c.run, x.c.corr, Nil)
    ensures x.i < x.end ==>
              x.plan == McuTokens(s, x.c, mcus[x.i], SegTokens(s, AfterMcu(s, x.c, mcus[x.i]), mcus, x.i + 1, x.end))
    ensures p.coded ==> x.sound
    ensures x.i < x.end && p.accepted ==> McuAccepted(s, x.c.lastDc, 0, mcus[x.i])
  {
    assert Focus(3, 0);
  }

  // The tokens behind MCU i.
  lemma PlannedMcu(tabs: Tables, gather: bool, s: Scan, mcus: seq<Mcu>, x: Position, p: Promise) returns (rest: Tokens)
    requires TablesOk(tabs) && PositionOk(s, mcus, x) && Promised(tabs, gather, s, mcus, x, p) && x.i < x.end
    ensures rest == SegTokens(s, AfterMcu(s, x.c, mcus[x.i]), mcus, x.i + 1, x.end)
    ensures x.plan == McuTokens(s, x.c, mcus[x.i], rest)
    ensures KindOf(s) == Sequential && rest.Cons? ==> rest.head.Sym?
    ensures p.coded ==> x.sound
    ensures p.accepted ==> McuAccepted(s, x.c.lastDc, 0, mcus[x.i])
  {
    PromisePlan(tabs, gather, s, mcus, x, p);
    rest := SegTokens(s, AfterMcu(s, x.c, mcus[x.i]), mcus, x.i + 1, x.end);
    SegBeginsWithSymbol(s, AfterMcu(s, x.c, mcus[x.i]), mcus, x.i + 1, x.end);
  }

  lemma PromiseAdvances(tabs: Tables, gather: bool, s: Scan, mcus: seq<Mcu>, x: Position, p: Promise, y: Position)
    requires TablesOk(tabs) && PositionOk(s, mcus, x) && Promised(tabs, gather, s, mcus, x, p) && x.i < x.end
    requires y == x.(i := x.i + 1, c := AfterMcu(s, x.c, mcus[x.i]), plan := y.plan)
    requires y.plan == SegTokens(s, y.c, mcus, y.i, y.end) && McuAccepted(s, x.c.lastDc, 0, mcus[x.i])
    ensures PositionOk(s, mcus, y) && Promised(tabs, gather, s, mcus, y, p)
  {
    assert Focus(3, 0);
    AfterLast(s, x.c, mcus[x.i]);
  }

  // The segment is full and another one follows.
  lemma PromiseTurns(tabs: Tables, gather: bool, s: Scan, mcus: seq<Mcu>, x: Position, p: Promise, y: Position)
    requires TablesOk(tabs) && PositionOk(s, mcus, x) && Promised(tabs, gather, s, mcus, x, p) && x.i == x.end < |mcus|
    requires y.seg == y.i == x.i && y.end == SegmentEnd(s, x.i, |mcus|) && y.c == NoCarry(s) && y.n == (x.n + 1) % 8
    requires PositionOk(s, mcus, y) && y.plan == SegTokens(s, y.c, mcus, y.i, y.end)
    requires y.sound == (gather || Coded(tabs, y.plan))
    requires !gather ==> y.goal == x.goal + RestartMarker(x.n) + Stuff(Data(tabs, y.plan))
    requires gather ==> forall t, sym :: 0 <= t < 8 && 0 <= sym < 256 ==>
               y.tally[t][sym] == x.tally[t][sym] + Tally(y.plan, t, sym)
    ensures Promised(tabs, gather, s, mcus, y, p)
  {
    assert Focus(3, 0);
    if gather {
      TallyTurns(s, mcus, x, y, p.counts);
    } else {
      BytesTurn(tabs, s, mcus, x, y);
    }
  }

  lemma TallyTurns(s: Scan, mcus: seq<Mcu>, x: Position, y: Position, counts: seq<seq<nat>>)
    requires PositionOk(s, mcus, x) && PositionOk(s, mcus, y) && x.end < |mcus| && Adds(x.tally, counts, s, mcus, x.end)
    requires y.i == x.end && y.end == SegmentEnd(s, y.i, |mcus|) && y.plan == SegTokens(s, NoCarry(s), mcus, y.i, y.end)
    requires forall t, sym :: 0 <= t < 8 && 0 <= sym < 256 ==>
               y.tally[t][sym] == x.tally[t][sym] + Tally(y.plan, t, sym)
    ensures Adds(y.tally, counts, s, mcus, y.end)
  {
    forall t, sym | 0 <= t < 8 && 0 <= sym < 256
      ensures y.tally[t][sym] + LaterTally(s, mcus, y.end, t, sym) == counts[t][sym]
    {
      assert LaterTally(s, mcus, x.end, t, sym) == Tally(y.plan, t, sym) + LaterTally(s, mcus, y.end, t, sym);
    }
  }

  lemma BytesTurn(tabs: Tables, s: Scan, mcus: seq<Mcu>, x: Position, y: Position)
    requires TablesOk(tabs) && PositionOk(s, mcus, x) && PositionOk(s, mcus, y) && x.end < |mcus|
    requires y.n == (x.n + 1) % 8
    requires y.i == x.end && y.end == SegmentEnd(s, y.i, |mcus|) && y.plan == SegTokens(s, NoCarry(s), mcus, y.i, y.end)
    requires y.goal == x.goal + RestartMarker(x.n) + Stuff(Data(tabs, y.plan))
    ensures y.goal + Later(tabs, s, mcus, y.n, y.end) == x.goal + Later(tabs, s, mcus, x.n, x.end)
  {
    LaterStep(tabs, s, mcus, x.n, x.end, y.end);
    Associate(x.goal, RestartMarker(x.n), Stuff(Data(tabs, y.plan)), Later(tabs, s, mcus, y.n, y.end));
  }

  lemma LaterStep(tabs: Tables, s: Scan, mcus: seq<Mcu>, n: nat, i: nat, j: nat)
    requires TablesOk(tabs) && HuffScanOk(s) && McusOk(s, mcus) && n < 8 && i < |mcus| && j == SegmentEnd(s, i, |mcus|)
    ensures Later(tabs, s, mcus, n, i) ==
              RestartMarker(n) + (Stuff(Data(tabs, SegTokens(s, NoCarry(s), mcus, i, j)))
                                  + Later(tabs, s, mcus, (n + 1) % 8, j))
  {
    var data := Stuff(Data(tabs, SegTokens(s, NoCarry(s), mcus, i, j)));
    assert data + [] == data;
    if j < |mcus| {
      Associate3(data, RestartMarker((n + 1) % 8), ScanBytes(tabs, s, ((n + 1) % 8 + 1) % 8, mcus, j));
    }
  }

  lemma Associate3(a: seq<byte>, b: seq<byte>, c: seq<byte>)
    ensures a + b + c == a + (b + c)
  {
  }

  lemma Associate(a: seq<byte>, b: seq<byte>, c: seq<byte>, d: seq<byte>)
    ensures a + b + c + d == a + (b + (c + d))
  {
  }

  class ScanEncoder {
    const scan: Scan
    const enc: HuffEncoder
    const lastDc: array<Coef>
    // EOBRUN, and the BE buffered correction bits.
    var eobRun: nat
    var corrBits: seq<Bit>
    var restartsToGo: nat
    var nextRestartNum: nat

    // For specification only: the MCUs of the scan, how many are coded, the present
    // segment and the promise.
    ghost var script: seq<Mcu>
    ghost var done: nat
    ghost var seg: nat
    ghost var end: nat
    ghost var promise: Promise

    constructor (s: Scan, tabs: Tables, statistics: bool, destination: seq<byte>, ghost mcus: seq<Mcu>)
      requires HuffScanOk(s) && McusOk(s, mcus) && SizesOk(tabs)
      ensures Valid() && scan == s && script == mcus && done == 0 && enc.tables == tabs && enc.gather == statistics
      ensures promise == WholePromise(tabs, s, mcus, destination, statistics || ScanCoded(tabs, s, mcus, 0))
      ensures fresh(enc) && fresh(enc.counts) && fresh(lastDc)
    {
      scan := s;
      enc := new HuffEncoder(tabs, statistics, destination);
      lastDc := new Coef[|s.comps|](_ => 0);
      eobRun, corrBits := 0, [];
      restartsToGo, nextRestartNum := s.restartInterval, 0;
      script, done, seg, end := mcus, 0, 0, SegmentEnd(s, 0, |mcus|);
      promise := WholePromise(tabs, s, mcus, destination, statistics || ScanCoded(tabs, s, mcus, 0));
      new;
      assert lastDc[..] == NoCarry(s).lastDc;
      enc.Announce(SegTokens(s, NoCarry(s), mcus, 0, end));
      PromiseStarts(tabs, statistics, s, mcus, Where(), destination, statistics || ScanCoded(tabs, s, mcus, 0));
    }

    ghost predicate Ready()
      reads this, enc, enc.counts, lastDc
    {
      && HuffScanOk(scan) && enc.Valid() && lastDc.Length == |scan.comps| && nextRestartNum < 8 && CarryOk(scan, Now())
      && (scan.ss != 0 ==> lastDc[..] == NoCarry(scan).lastDc)
    }

    ghost function Now(): Carry
      reads this, lastDc
    {
      Carry(lastDc[..], eobRun, corrBits)
    }

    ghost function Where(): Position
      reads this, enc, lastDc
    {
      Position(seg, end, done, Now(), nextRestartNum, enc.plan, enc.goal, enc.tally, enc.sound)
    }

    ghost predicate Valid()
      reads this, enc, enc.counts, lastDc
    {
      && Ready() && PositionOk(scan, script, Where())
      && (scan.restartInterval != 0 ==> restartsToGo == scan.restartInterval - (done - seg))
      && (!enc.gather && done == 0 ==> enc.putBits == 0)
      && Promised(enc.tables, enc.gather, scan, script, Where(), promise)
    }

    // The DC coefficient of component ci, after the point transform.
    method EncodeDc(ci: nat, value: Coef, ghost rest: Tokens) returns (ok: bool)
      requires Ready() && !AcScan(scan) && ci < |scan.comps|
      requires enc.plan == DcTokens(scan.comps[ci].dcTbl, DcDiff(lastDc[ci], value), rest)
      modifies enc, enc.counts, lastDc
      ensures ok ==>
                enc.Emitted(rest) && lastDc[..] == old(lastDc[..])[ci := value] && DcAccepted(old(lastDc[ci]), value)
      ensures old(enc.sound) && DcAccepted(old(lastDc[ci]), value) ==> ok
      ensures ok ==> Ready()
    {
      var diff: int := DcDiff(lastDc[ci], value);
      ok := EmitDc(enc, scan.comps[ci].dcTbl, diff, rest);
      if ok {
        lastDc[ci] := value;
      }
    }

    // Block i of an MCU with DC coefficients (encode_one_block, encode_mcu_DC_first,
    // encode_mcu_DC_refine).
    method EncodeBlock(i: nat, b: Block, ghost rest: Tokens) returns (ok: bool)
      requires Ready() && !AcScan(scan) && i < |scan.membership|
      requires enc.plan == BlockTokens(scan, lastDc[..], i, b, rest)
      modifies enc, enc.counts, lastDc
      ensures ok ==> enc.Emitted(rest) && lastDc[..] == AfterBlock(scan, old(lastDc[..]), i, b)
      ensures ok ==> BlockAccepted(scan, old(lastDc[..]), i, b)
      ensures old(enc.sound) && BlockAccepted(scan, old(lastDc[..]), i, b) ==> ok
      ensures ok ==> Ready()
    {
      var ci := scan.membership[i];
      if KindOf(scan) == Sequential {
        var tbl := 4 + scan.comps[ci].acTbl;
        ok := EncodeDc(ci, b[0], AcTokens(tbl, Ordered(scan, b, 0), scan.limSe, 1, 0, rest));
        if ok {
          ok := EncodeAc(enc, scan, tbl, b, rest);
        }
      } else if KindOf(scan) == DcFirst {
        ok := EncodeDc(ci, DcShifted(b[0], scan.al), rest);
      } else {
        ok := true;
        enc.EmitValue(Shr(b[0], scan.al), 1);
      }
    }

    // Count the symbols of a sequential block instead (htest_one_block).
    method GatherBlock(i: nat, b: Block, ghost rest: Tokens) returns (ok: bool)
      requires Ready() && enc.gather && KindOf(scan) == Sequential && i < |scan.membership|
      requires enc.plan == BlockTokens(scan, lastDc[..], i, b, rest) && (rest.Cons? ==> rest.head.Sym?)
      modifies enc, enc.counts, lastDc
      ensures ok ==> Ready() && enc.Emitted(rest) && lastDc[..] == AfterBlock(scan, old(lastDc[..]), i, b)
      ensures ok == BlockAccepted(scan, old(lastDc[..]), i, b)
    {
      var ci := scan.membership[i];
      var tbl := 4 + scan.comps[ci].acTbl;
      ghost var band := AcTokens(tbl, Ordered(scan, b, 0), scan.limSe, 1, 0, rest);
      AcBeginsWithSymbol(tbl, Ordered(scan, b, 0), scan.limSe, 1, 0, rest);
      ok := CountDc(enc, scan.comps[ci].dcTbl, DcDiff(lastDc[ci], b[0]), band);
      if ok {
        ok := CountAc(enc, scan, tbl, b, rest);
        lastDc[ci] := b[0];
      }
    }

    // encode_mcu_gather.
    method GatherBlocks(mcu: Mcu, ghost rest: Tokens) returns (ok: bool)
      requires Ready() && enc.gather && KindOf(scan) == Sequential && McuOk(scan, mcu)
      requires enc.plan == BlocksTokens(scan, lastDc[..], 0, mcu, rest) && (rest.Cons? ==> rest.head.Sym?)
      modifies enc, enc.counts, lastDc
      ensures ok ==> Ready() && enc.Emitted(rest) && lastDc[..] == AfterBlocks(scan, old(lastDc[..]), 0, mcu)
      ensures ok == McuAccepted(scan, old(lastDc[..]), 0, mcu)
    {
      var i := 0;
      while i < |mcu|
        invariant i <= |mcu| && Ready() && enc.Emitted(BlocksTokens(scan, lastDc[..], i, mcu, rest))
        invariant AfterBlocks(scan, lastDc[..], i, mcu) == AfterBlocks(scan, old(lastDc[..]), 0, mcu)
        invariant McuAccepted(scan, lastDc[..], i, mcu) == McuAccepted(scan, old(lastDc[..]), 0, mcu)
      {
        ghost var last := AfterBlock(scan, lastDc[..], i, mcu[i]);
        ok := GatherBlock(i, mcu[i], BlocksTokens(scan, last, i + 1, mcu, rest));
        if !ok {
          return;
        }
        i := i + 1;
      }
      ok := true;
    }

    method EncodeBlocks(mcu: Mcu, ghost rest: Tokens) returns (ok: bool)
      requires Ready() && !AcScan(scan) && McuOk(scan, mcu)
      requires enc.plan == BlocksTokens(scan, lastDc[..], 0, mcu, rest)
      modifies enc, enc.counts, lastDc
      ensures ok ==> Ready() && enc.Emitted(rest) && lastDc[..] == AfterBlocks(scan, old(lastDc[..]), 0, mcu)
      ensures ok ==> McuAccepted(scan, old(lastDc[..]), 0, mcu)
      ensures old(enc.sound) && McuAccepted(scan, old(lastDc[..]), 0, mcu) ==> ok
    {
      var i := 0;
      while i < |mcu|
        invariant i <= |mcu| && Ready() && enc.Emitted(BlocksTokens(scan, lastDc[..], i, mcu, rest))
        invariant AfterBlocks(scan, lastDc[..], i, mcu) == AfterBlocks(scan, old(lastDc[..]), 0, mcu)
        invariant McuAccepted(scan, lastDc[..], i, mcu) == McuAccepted(scan, old(lastDc[..]), 0, mcu)
      {
        ok := EncodeBlock(i, mcu[i], BlocksTokens(scan, AfterBlock(scan, lastDc[..], i, mcu[i]), i + 1, mcu, rest));
        if !ok {
          return;
        }
        i := i + 1;
      }
      ok := true;
    }

    // The band of an AC scan (encode_mcu_AC_first, encode_mcu_AC_refine).
    method EncodeBand(mcu: Mcu, ghost rest: Tokens) returns (ok: bool)
      requires Ready() && AcScan(scan) && McuOk(scan, mcu)
      requires enc.plan == McuTokens(scan, Now(), mcu, rest)
      modifies enc, enc.counts, this`eobRun, this`corrBits
      ensures ok ==> Ready() && enc.Emitted(rest) && Now() == old(AfterMcu(scan, Now(), mcu))
      ensures ok ==> McuAccepted(scan, lastDc[..], 0, mcu)
      ensures old(enc.sound) && McuAccepted(scan, lastDc[..], 0, mcu) ==> ok
    {
      var tbl := AcNo(scan);
      if KindOf(scan) == AcFirst {
        ok, eobRun := EncodeFirst(enc, scan, tbl, mcu[0], eobRun, rest);
      } else {
        ok, eobRun, corrBits := EncodeRefine(enc, scan, tbl, mcu[0], eobRun, corrBits, rest);
      }
    }

    // All blocks of an MCU.
    method EncodeBody(mcu: Mcu, ghost rest: Tokens) returns (ok: bool)
      requires Ready() && McuOk(scan, mcu)
      requires enc.plan == McuTokens(scan, Now(), mcu, rest)
      requires KindOf(scan) == Sequential ==> (rest.Cons? ==> rest.head.Sym?)
      modifies enc, enc.counts, lastDc, this`eobRun, this`corrBits
      ensures ok ==> Ready() && enc.Emitted(rest) && Now() == old(AfterMcu(scan, Now(), mcu))
      ensures ok ==> McuAccepted(scan, old(lastDc[..]), 0, mcu)
      ensures old(enc.sound) && McuAccepted(scan, old(lastDc[..]), 0, mcu) ==> ok
    {
      if AcScan(scan) {
        ok := EncodeBand(mcu, rest);
      } else if KindOf(scan) == Sequential && enc.gather {
        ok := GatherBlocks(mcu, rest);
      } else {
        ok := EncodeBlocks(mcu, rest);
      }
    }

    // Re-initialise the predictions, or the fields for AC coefficients.
    method ResetCarry()
      requires Ready()
      modifies lastDc, this`eobRun, this`corrBits
      ensures Ready() && Now() == NoCarry(scan)
    {
      if scan.ss == 0 {
        forall ci | 0 <= ci < |scan.comps| {
          lastDc[ci] := 0;
        }
        assert lastDc[..] == NoCarry(scan).lastDc;
      } else {
        eobRun, corrBits := 0, [];
      }
    }

    // Finish the segment, put out a restart marker and begin the next segment.
    method EmitRestart(ghost next: Tokens) returns (ok: bool)
      requires Ready() && enc.plan == EobTokens(AcNo(scan), eobRun, corrBits, Nil)
      modifies enc, enc.counts, lastDc, this`eobRun, this`corrBits
      ensures old(enc.sound) ==> ok
      ensures ok ==>
                Ready() && Now() == NoCarry(scan) && enc.plan == next
                && enc.sound == (enc.gather || Coded(enc.tables, next))
      ensures ok && !enc.gather ==>
                enc.goal == old(enc.goal) + RestartMarker(nextRestartNum) + Stuff(Data(enc.tables, next))
      ensures ok ==> |enc.tally| == 8 && forall t :: 0 <= t < 8 ==> |enc.tally[t]| == 256
      ensures ok && enc.gather && |old(enc.tally)| == 8 && (forall t :: 0 <= t < 8 ==> |old(enc.tally)[t]| == 256) ==>
                forall t, sym :: 0 <= t < 8 && 0 <= sym < 256 ==>
                  enc.tally[t][sym] == old(enc.tally)[t][sym] + Tally(next, t, sym)
    {
      ok := EmitEobrun(enc, AcNo(scan), eobRun, corrBits, Nil);
      if !ok {
        return;
      }
      if !enc.gather {
        enc.FlushBits();
        enc.EmitMarker(0xD0 + nextRestartNum);
      } else {
        enc.AllCounted();
      }
      eobRun, corrBits := 0, [];
      ResetCarry();
      enc.Announce(next);
    }

    // Emit a restart marker if one is due.
    method HandleRestart() returns (ok: bool)
      requires Valid() && done < |script|
      modifies this, enc, enc.counts, lastDc
      ensures promise == old(promise) && script == old(script) && done == old(done)
      ensures ok ==> Valid() && done < end
      ensures promise.coded ==> ok
    {
      ok := true;
      if scan.restartInterval != 0 {
        if restartsToGo == 0 {
          ok := TurnSegment();
        }
      }
    }

    method TurnSegment() returns (ok: bool)
      requires Valid() && done < |script| && scan.restartInterval != 0 && restartsToGo == 0
      modifies this, enc, enc.counts, lastDc
      ensures promise == old(promise) && script == old(script) && done == old(done)
      ensures ok ==> Valid() && done < end
      ensures promise.coded ==> ok
    {
      ghost var x := Where();
      PromisePlan(enc.tables, enc.gather, scan, script, x, promise);
      ghost var next := SegmentEnd(scan, done, |script|);
      ok := EmitRestart(SegTokens(scan, NoCarry(scan), script, done, next));
      if ok {
        BeginSegment(x, next);
      }
    }

    // The segment at position x is complete, and the tokens of the next one are announced.
    method BeginSegment(ghost x: Position, ghost next: nat)
      requires Ready() && PositionOk(scan, script, x) && Promised(enc.tables, enc.gather, scan, script, x, promise)
      requires x.i == x.end < |script| && done == x.i && next == SegmentEnd(scan, done, |script|)
      requires nextRestartNum == x.n
      requires Now() == NoCarry(scan) && enc.plan == SegTokens(scan, NoCarry(scan), script, done, next)
      requires enc.sound == (enc.gather || Coded(enc.tables, enc.plan))
      requires !enc.gather ==> enc.goal == x.goal + RestartMarker(x.n) + Stuff(Data(enc.tables, enc.plan))
      requires |enc.tally| == 8 && forall t :: 0 <= t < 8 ==> |enc.tally[t]| == 256
      requires enc.gather ==> forall t, sym :: 0 <= t < 8 && 0 <= sym < 256 ==>
                 enc.tally[t][sym] == x.tally[t][sym] + Tally(enc.plan, t, sym)
      modifies this`restartsToGo, this`nextRestartNum, this`seg, this`end
      ensures Valid() && done < end
    {
      restartsToGo := scan.restartInterval;
      nextRestartNum := (nextRestartNum + 1) % 8;
      seg, end := done, next;
      PromiseTurns(enc.tables, enc.gather, scan, script, x, promise, Where());
    }

    // The next MCU of the scan. It fails on coefficients out of range and on symbols
    // without a code.
    method EncodeMcu(mcu: Mcu) returns (ok: bool)
      requires Valid() && done < |script| && mcu == script[done]
      modifies this, enc, enc.counts, lastDc
      ensures promise == old(promise) && script == old(script)
      ensures ok ==> Valid() && done == old(done) + 1
      ensures promise.coded && promise.accepted ==> ok
    {
      ok := HandleRestart();
      if ok {
        ok := EncodeNext(mcu);
      }
    }

    // The MCU itself.
    method EncodeNext(mcu: Mcu) returns (ok: bool)
      requires Valid() && done < end && mcu == script[done]
      modifies this, enc, enc.counts, lastDc
      ensures promise == old(promise) && script == old(script)
      ensures ok ==> Valid() && done == old(done) + 1
      ensures promise.coded && promise.accepted ==> ok
    {
      ghost var x := Where();
      ok := EncodePlanned(mcu);
      if ok {
        CountMcu(x);
      }
    }

    method EncodePlanned(mcu: Mcu) returns (ok: bool)
      requires Valid() && done < end && mcu == script[done]
      modifies enc, enc.counts, lastDc, this`eobRun, this`corrBits
      ensures ok ==> Ready() && Where() == old(Where()).(c := old(AfterMcu(scan, Now(), mcu)), plan := enc.plan)
      ensures ok ==> enc.plan == SegTokens(scan, Now(), script, done + 1, end)
      ensures ok ==> McuAccepted(scan, old(lastDc[..]), 0, mcu)
      ensures promise.coded && promise.accepted ==> ok
    {
      ghost var rest := PlannedMcu(enc.tables, enc.gather, scan, script, Where(), promise);
      ok := EncodeBody(mcu, rest);
    }

    // The MCU at position x is coded.
    method CountMcu(ghost x: Position)
      requires Ready() && PositionOk(scan, script, x) && Promised(enc.tables, enc.gather, scan, script, x, promise)
      requires x.i < x.end && done == x.i && McuAccepted(scan, x.c.lastDc, 0, script[done])
      requires Where() == x.(c := AfterMcu(scan, x.c, script[done]), plan := enc.plan)
      requires enc.plan == SegTokens(scan, Now(), script, done + 1, end)
      requires scan.restartInterval != 0 ==> restartsToGo == scan.restartInterval - (done - seg)
      modifies this`restartsToGo, this`done
      ensures Valid() && done == old(done) + 1
    {
      if scan.restartInterval != 0 {
        restartsToGo := restartsToGo - 1;
      }
      done := done + 1;
      PromiseAdvances(enc.tables, enc.gather, scan, script, x, promise, Where());
    }

    // Finish up at the end of the scan (finish_pass_huff, finish_pass_gather).
    method FinishScan() returns (ok: bool)
      requires Valid() && done == |script|
      modifies this, enc, enc.counts
      ensures promise == old(promise) && promise.accepted && (promise.coded ==> ok)
      ensures ok && !enc.gather ==> enc.out == promise.bytes
      ensures ok && enc.gather ==> Totals(promise.counts)
    {
      PromisePlan(enc.tables, enc.gather, scan, script, Where(), promise);
      PromiseMet(enc.tables, enc.gather, scan, script, Where(), promise);
      ok := EmitEobrun(enc, AcNo(scan), eobRun, corrBits, Nil);
      if !ok {
        return;
      }
      eobRun, corrBits := 0, [];
      if !enc.gather {
        enc.FlushBits();
      } else {
        enc.AllCounted();
      }
    }

    ghost predicate Totals(counts: seq<seq<nat>>)
      reads enc.counts
    {
      && enc.counts.Length0 == 8 && enc.counts.Length1 == 257 && |counts| == 8
      && (forall t :: 0 <= t < 8 ==> |counts[t]| == 256)
      && forall t, sym :: 0 <= t < 8 && 0 <= sym < 256 ==> enc.counts[t, sym] == counts[t][sym]
    }
  }

  lemma PromiseMet(tabs: Tables, gather: bool, s: Scan, mcus: seq<Mcu>, x: Position, p: Promise)
    requires TablesOk(tabs) && PositionOk(s, mcus, x) && Promised(tabs, gather, s, mcus, x, p) && x.i == |mcus|
    ensures p.accepted && if gather then x.tally == p.counts else x.goal == p.bytes
  {
    assert Focus(3, 0);
    if gather {
      forall t | 0 <= t < 8
        ensures x.tally[t] == p.counts[t]
      {
        forall sym | 0 <= sym < 256
          ensures x.tally[t][sym] == p.counts[t][sym]
        {
          assert LaterTally(s, mcus, x.end, t, sym) == 0;
        }
      }
    } else {
      assert x.goal + [] == x.goal;
    }
  }

  // Sequential segments begin with a symbol.
  lemma SegBeginsWithSymbol(s: Scan, c: Carry, mcus: seq<Mcu>, i: nat, j: nat)
    requires HuffScanOk(s) && CarryOk(s, c) && McusOk(s, mcus) && i <= j <= |mcus|
    ensures KindOf(s) == Sequential && SegTokens(s, c, mcus, i, j).Cons? ==> SegTokens(s, c, mcus, i, j).head.Sym?
  {
  }

  // A whole scan, as the coefficient controller drives it: every MCU in turn, then the
  // end of the pass.
  method RunScan(s: Scan, mcus: seq<Mcu>, tabs: Tables, statistics: bool, destination: seq<byte>)
    returns (ok: bool, e: ScanEncoder)
    requires HuffScanOk(s) && McusOk(s, mcus) && HuffBits.SizesOk(tabs)
    ensures ok ==> ScanAccepted(s, mcus, 0)
    ensures ScanAccepted(s, mcus, 0) && (statistics || ScanCoded(tabs, s, mcus, 0)) ==> ok
    ensures ok && !statistics ==> e.enc.out == destination + ScanBytes(tabs, s, 0, mcus, 0)
    ensures ok && statistics ==> e.Totals(ScanCounts(s, mcus))
    ensures e.enc.gather == statistics
  {
    e := new ScanEncoder(s, tabs, statistics, destination, mcus);
    ghost var p := e.promise;
    var i := 0;
    while i < |mcus|
      invariant i <= |mcus| && i == e.done && e.script == mcus && e.Valid() && e.promise == p
      invariant fresh(e) && fresh(e.enc) && fresh(e.enc.counts) && fresh(e.lastDc)
    {
      ok := e.EncodeMcu(mcus[i]);
      if !ok {
        return;
      }
      i := i + 1;
    }
    ok := e.FinishScan();
  }
}

// The Huffman entropy decoder for a whole scan (jdhuff.c): MCU routines with restart
// markers and resynchronisation (jdmarker.c), for a source that may run dry anywhere.

module HuffScanDecoder {
  import opened Prelude
  import opened ByteStream
  import opened Coefficients
  import opened Scans
  import opened HuffBits
  import opened HuffReader
  import opened HuffBinarisation
  import opened HuffViews
  import opened HuffScan
  import opened HuffTokenReader
  import opened HuffMcuDecoder
  import opened HuffRefinement
  import opened HuffStates
  import opened HuffCourse

  // The tables that start_pass derives are there.
  predicate Equipped(s: Scan, pairs: seq<Option<Pair>>)
    requires HuffScanOk(s)
  {
    && |pairs| == 8
    && (KindOf(s) == Sequential || KindOf(s) == DcFirst ==> forall ci :: 0 <= ci < |s.comps| ==>
        pairs[s.comps[ci].dcTbl].Some?)
    && (KindOf(s) == Sequential && s.limSe > 0 ==> forall ci :: 0 <= ci < |s.comps| ==>
        pairs[4 + s.comps[ci].acTbl].Some?)
    && (AcScan(s) ==> pairs[AcNo(s)].Some?)
  }

  // The same scan, and the same bytes behind it.
  ghost predicate Same(x: Course, y: Course) {
    y.mcus == x.mcus && y.marker == x.marker && y.after == x.after
  }

  class ScanDecoder {
    const scan: Scan
    // coef_limit, by component.
    const limits: seq<nat>
    const tr: TokenReader
    // The saved state: last_dc_val and EOBRUN.
    var lastDc: seq<int>
    var eobRun: nat
    var restartsToGo: nat
    var nextRestartNum: nat
    // For specification only: where decoding stands if the source is known to hold a scan.
    ghost var course: Option<Course>

    constructor (s: Scan, tables: seq<Option<Pair>>, wanted: seq<nat>, source: seq<byte>,
                 ghost later: seq<byte>, ghost tabs: Tables, ghost plan: Option<Course>)
      requires HuffScanOk(s) && LimitsOk(s, wanted) && Equipped(s, tables) && TablesOk(tabs) && PairsOk(tables, tabs)
      requires plan.Some? ==>
                 var x := plan.value;
                 && CourseOk(s, x) && AtSegment(s, x) && x.i == x.n == 0 && ScanCoded(tabs, s, x.mcus, 0)
                 && ScanAccepted(s, x.mcus, 0)
                 && source + later == Input(tabs, s, x)
      ensures Valid() && scan == s && limits == wanted && course == plan && tr.enc == tabs
      ensures tr.br.input == source && tr.br.future == later && fresh(tr) && fresh(tr.br)
    {
      scan, limits := s, wanted;
      tr := new TokenReader(source, later, tables, tabs);
      lastDc, eobRun := NoCarry(s).lastDc, 0;
      restartsToGo, nextRestartNum := s.restartInterval, 0;
      course := plan;
      new;
      Begin(plan);
    }

    // At the start of a segment the reader awaits its tokens.
    method Begin(ghost plan: Option<Course>)
      requires Ready() && tr.br.Valid() && tr.br.bitsLeft == 0 && TablesOk(tr.enc) && PairsOk(tr.pairs, tr.enc)
      requires plan.Some? ==>
                 var x := plan.value;
                 && tr.br.unreadMarker == 0 && CourseOk(scan, x) && AtSegment(scan, x)
                 && ScanCoded(tr.enc, scan, x.mcus, x.i) && ScanAccepted(scan, x.mcus, x.i)
                 && tr.br.input + tr.br.future == Input(tr.enc, scan, x)
      modifies tr
      ensures tr.Valid() && (plan.Some? ==> Expected(tr.enc, scan, plan.value, tr.pending, tr.ending))
    {
      ghost var ts := None;
      if plan.Some? {
        CourseStarts(tr.enc, scan, plan.value);
        ts := Some(Awaited(scan, plan.value));
      }
      tr.Await(ts);
    }

    ghost predicate Ready()
      reads this, tr
    {
      && HuffScanOk(scan) && LimitsOk(scan, limits) && Equipped(scan, tr.pairs) && |lastDc| == |scan.comps|
      && nextRestartNum < 8
    }

    ghost predicate Valid()
      reads this, tr, tr.br
    {
      Ready() && tr.Valid() && (course.Some? ==> OnCourse(course.value))
    }

    ghost predicate OnCourse(x: Course)
      requires HuffScanOk(scan) && TablesOk(tr.enc) && LimitsOk(scan, limits)
      reads this, tr, tr.br
    {
      && CourseOk(scan, x) && x.n == nextRestartNum && Predicts(scan, limits, lastDc, x.last) && eobRun == x.run
      && (scan.restartInterval != 0 ==> restartsToGo == scan.restartInterval - (x.i - x.seg))
      && Expected(tr.enc, scan, x, tr.pending, tr.ending) && !tr.br.insufficientData
    }

    // ---- blocks ----

    // The DC coefficient of block i of a sequential MCU.
    method DecodeSequentialDc(data: array<Coef>, off: nat, i: nat, state: seq<int>,
                              ghost on: bool, ghost last: seq<Coef>, ghost b: Block, ghost band: Tokens)
      returns (ok: bool, after: seq<int>)
      requires Ready() && tr.Valid() && KindOf(scan) == Sequential && i < |scan.membership| && off + 64 <= data.Length
      requires |state| == |scan.comps|
      requires on ==>
                 |last| == |scan.comps| && DcAccepted(last[scan.membership[i]], b[0])
                 && Predicts(scan, limits, state, last)
      requires on ==>
                 tr.pending == Some(DcTokens(scan.comps[scan.membership[i]].dcTbl,
                                             HuffScan.DcDiff(last[scan.membership[i]], b[0]), band))
      modifies tr, tr.br, data
      ensures Went(tr, ok) && |after| == |scan.comps|
      ensures on && ok ==> Reached(tr, band) && Predicts(scan, limits, after, last[scan.membership[i] := b[0]])
      ensures on && ok && limits[scan.membership[i]] > 0 ==> data[off] == b[0]
      ensures forall i :: 0 <= i < data.Length && i != off ==> data[i] == old(data[i])
    {
      var ci := scan.membership[i];
      var diff;
      after := state;
      ok, diff := DecodeDc(tr, scan.comps[ci].dcTbl, on, if on then HuffScan.DcDiff(last[ci], b[0]) else 0, band);
      if ok && limits[ci] > 0 {
        after := after[ci := after[ci] + diff];
        data[off] := ToCoef(after[ci]);
      }
    }

    // Block i of a sequential MCU.
    method DecodeSequential(data: array<Coef>, off: nat, i: nat, state: seq<int>,
                            ghost on: bool, ghost last: seq<Coef>, ghost b: Block, ghost rest: Tokens)
      returns (ok: bool, after: seq<int>)
      requires Ready() && tr.Valid() && KindOf(scan) == Sequential && i < |scan.membership| && off + 64 <= data.Length
      requires |state| == |scan.comps|
      requires on ==> |last| == |scan.comps| && BlockAccepted(scan, last, i, b) && Predicts(scan, limits, state, last)
      requires on ==> tr.pending == Some(BlockTokens(scan, last, i, b, rest))
      requires on ==> BandSoFar(scan, data[..], off, 1, 1, scan.limSe, limits[scan.membership[i]], Ordered(scan, b, 0))
      modifies tr, tr.br, data
      ensures Went(tr, ok) && |after| == |scan.comps|
      ensures on && ok ==> Reached(tr, rest) && Predicts(scan, limits, after, last[scan.membership[i] := b[0]])
      ensures on && ok && limits[scan.membership[i]] > 0 ==> data[off] == b[0]
      ensures on ==>
                BandSoFar(scan, data[..], off, 1, if ok then scan.limSe + 1
                          else 1, scan.limSe, limits[scan.membership[i]], Ordered(scan, b, 0))
      ensures Framed(scan, on, off, old(data[..]), data[..])
    {
      var limit, tbl := limits[scan.membership[i]], 4 + scan.comps[scan.membership[i]].acTbl;
      ghost var was := data[..];
      ghost var z, band := Ordered(scan, b, 0), Nil;
      if on {
        band := AcTokens(tbl, z, scan.limSe, 1, 0, rest);
      }
      ok, after := DecodeSequentialDc(data, off, i, state, on, last, b, band);
      ghost var mid := data[..];
      StoredDc(scan, on, off, 1, scan.limSe, limit, z, was, mid);
      if ok {
        ok := DecodeAc(tr, scan, tbl, data, off, limit, on, z, rest);
        FramedBlock(scan, on, off, was, mid, data[..]);
      }
    }

    // The DC coefficient of a first scan.
    method DecodeDcFirst(data: array<Coef>, off: nat, i: nat, state: seq<int>,
                         ghost on: bool, ghost last: seq<Coef>, ghost b: Block, ghost rest: Tokens)
      returns (ok: bool, after: seq<int>)
      requires Ready() && tr.Valid() && KindOf(scan) == DcFirst && i < |scan.membership| && off + 64 <= data.Length
      requires |state| == |scan.comps|
      requires on ==> |last| == |scan.comps| && BlockAccepted(scan, last, i, b) && Predicts(scan, limits, state, last)
      requires on ==> tr.pending == Some(BlockTokens(scan, last, i, b, rest))
      modifies tr, tr.br, data
      ensures Went(tr, ok) && |after| == |scan.comps|
      ensures on && ok ==>
                Reached(tr, rest) && Predicts(scan, limits, after, last[scan.membership[i] := DcShifted(b[0], scan.al)])
      ensures on && ok ==> data[off] == DcFloor(b[0], scan.al)
      ensures Framed(scan, on, off, old(data[..]), data[..])
    {
      var ci := scan.membership[i];
      var diff;
      after := state;
      ok, diff := DecodeDc(tr, scan.comps[ci].dcTbl, on, if on then DcDiff(last[ci], DcShifted(b[0], scan.al))
                           else 0, rest);
      if ok {
        ghost var was := data[..];
        after := after[ci := after[ci] + diff];
        data[off] := ToCoef(Shl(after[ci], scan.al));
        if on {
          var _ := DcFloor(b[0], scan.al);
        }
        DcFramed(scan, on, off, was, data[..]);
      }
    }

    // The next bit of a DC coefficient; setting it again does no harm.
    method DecodeDcBit(data: array<Coef>, off: nat, ghost on: bool, ghost was: seq<Coef>, ghost b: Block,
                       ghost rest: Tokens) returns (ok: bool)
      requires Ready() && tr.Valid() && KindOf(scan) == DcRefine && off + 64 <= data.Length == |was|
      requires on ==>
                 tr.pending == Some(Cons(Val(Low(Shr(b[0], scan.al), 1), 1), rest))
                 && Tried(scan, 0, was, data[..], off, b)
      modifies tr, tr.br, data
      ensures Went(tr, ok) && (on && ok ==> Reached(tr, rest))
      ensures on ==> if ok then Decoded(scan, 0, was, data[..], off, b) else Tried(scan, 0, was, data[..], off, b)
      ensures Framed(scan, on, off, old(data[..]), data[..])
    {
      var bit := tr.ReceiveValue(1);
      if bit == None {
        return false;
      }
      ghost var start := data[..];
      if on && scan.al < 13 {
        LowLow(Shr(b[0], scan.al), 1);
        SetTwice(b[0], scan.al);
      }
      if bit != Some(0) {
        data[off] := WithBit(data[off], scan.al);
      }
      DcFramed(scan, on, off, start, data[..]);
      ok := true;
    }

    method DecodeBlock(data: array<Coef>, off: nat, i: nat, state: seq<int>,
                       ghost on: bool, ghost was: seq<Coef>, ghost last: seq<Coef>, ghost b: Block, ghost rest: Tokens)
      returns (ok: bool, after: seq<int>)
      requires Ready() && tr.Valid() && !AcScan(scan) && i < |scan.membership| && off + 64 <= data.Length == |was|
      requires |state| == |scan.comps|
      requires on ==> |last| == |scan.comps| && BlockAccepted(scan, last, i, b) && Predicts(scan, limits, state, last)
      requires on ==>
                 tr.pending == Some(BlockTokens(scan, last, i, b, rest))
                 && BlockIs(scan, limits, was, data[..], off, i, b, false)
      modifies tr, tr.br, data
      ensures Went(tr, ok) && |after| == |scan.comps|
      ensures on && ok ==> Reached(tr, rest) && Predicts(scan, limits, after, AfterBlock(scan, last, i, b))
      ensures on ==> BlockIs(scan, limits, was, data[..], off, i, b, ok)
      ensures Framed(scan, on, off, old(data[..]), data[..])
    {
      if KindOf(scan) == Sequential {
        ok, after := DecodeSequential(data, off, i, state, on, last, b, rest);
      } else if KindOf(scan) == DcFirst {
        ok, after := DecodeDcFirst(data, off, i, state, on, last, b, rest);
      } else {
        ok := DecodeDcBit(data, off, on, was, b, rest);
        after := state;
      }
    }

    // Block i of an MCU that is decoded up to it; if that fails, the MCU can be tried again.
    method DecodeNext(data: array<Coef>, place: seq<nat>, i: nat, state: seq<int>, ghost on: bool, ghost was: seq<Coef>,
                      ghost last: seq<Coef>, ghost mcu: Mcu, ghost rest: Tokens)
      returns (ok: bool, after: seq<int>)
      requires Ready() && tr.Valid() && !AcScan(scan) && PlaceOk(scan, place, data.Length) && McuOk(scan, mcu)
      requires |was| == data.Length && i < |place| && |state| == |last| == |scan.comps|
      requires on ==> McuAccepted(scan, last, i, mcu) && Predicts(scan, limits, state, last)
      requires on ==>
                 && tr.pending == Some(BlockTokens(scan, last, i, mcu[i], rest))
                 && McuIs(scan, limits, was, data[..], place, mcu, i)
      modifies tr, tr.br, data
      ensures Went(tr, ok) && |after| == |scan.comps|
      ensures on && ok ==> Reached(tr, rest) && Predicts(scan, limits, after, AfterBlock(scan, last, i, mcu[i]))
      ensures on && ok ==> McuAccepted(scan, AfterBlock(scan, last, i, mcu[i]), i + 1, mcu)
      ensures on ==> McuIs(scan, limits, was, data[..], place, mcu, if ok then i + 1 else 0)
      ensures Framed(scan, on, 64 * place[i], old(data[..]), data[..])
    {
      ghost var before := data[..];
      if on {
        BlockReady(scan, limits, was, before, place, mcu, i, last);
      }
      ok, after := DecodeBlock(data, 64 * place[i], i, state, on, was, last, mcu[i], rest);
      if on {
        McuIsStep(scan, limits, on, was, before, data[..], place, mcu, i, ok);
        if !ok {
          McuAgain(scan, limits, was, data[..], place, mcu, i);
        }
      }
    }

    // The blocks of an MCU in scans with DC coefficients.
    method DecodeBlocks(data: array<Coef>, place: seq<nat>, ghost on: bool, ghost was: seq<Coef>, ghost last: seq<Coef>,
                        ghost mcu: Mcu, ghost rest: Tokens)
      returns (ok: bool, state: seq<int>)
      requires Ready() && tr.Valid() && !AcScan(scan) && PlaceOk(scan, place, data.Length) && McuOk(scan, mcu)
      requires |was| == data.Length
      requires |last| == |scan.comps|
      requires on ==> McuAccepted(scan, last, 0, mcu) && Predicts(scan, limits, lastDc, last)
      requires on ==>
                 tr.pending == Some(BlocksTokens(scan, last, 0, mcu, rest))
                 && McuIs(scan, limits, was, data[..], place, mcu, 0)
      modifies tr, tr.br, data
      ensures Went(tr, ok) && |state| == |scan.comps|
      ensures on && ok ==> Reached(tr, rest) && Predicts(scan, limits, state, AfterBlocks(scan, last, 0, mcu))
      ensures on ==> McuIs(scan, limits, was, data[..], place, mcu, if ok then |place| else 0)
      ensures FramedMcu(scan, on, old(data[..]), data[..], place)
    {
      var i := 0;
      state := lastDc;
      ghost var q := last;
      while i < |place|
        invariant i <= |place| && Went(tr, true) && |state| == |q| == |scan.comps|
        invariant on ==>
                    tr.br.insufficientData == old(tr.br.insufficientData) && McuAccepted(scan, q, i, mcu)
                    && Predicts(scan, limits, state, q)
        invariant on ==>
                    tr.pending == Some(BlocksTokens(scan, q, i, mcu, rest))
                    && McuIs(scan, limits, was, data[..], place, mcu, i)
        invariant AfterBlocks(scan, q, i, mcu) == AfterBlocks(scan, last, 0, mcu)
        invariant FramedMcu(scan, on, old(data[..]), data[..], place)
      {
        ghost var before, q' := data[..], AfterBlock(scan, q, i, mcu[i]);
        ok, state := DecodeNext(data, place, i, state, on, was, q, mcu, BlocksTokens(scan, q', i + 1, mcu, rest));
        FramedMcuStep(scan, on, old(data[..]), before, data[..], place, i);
        if !ok {
          return;
        }
        i, q := i + 1, q';
      }
      ok := true;
    }

    // The band of an AC scan.
    method DecodeBand(data: array<Coef>, off: nat, ghost on: bool, ghost was: seq<Coef>, ghost p: Plan,
                      ghost last: seq<Coef>, ghost mcu: Mcu)
      returns (ok: bool, run: nat)
      requires Ready() && tr.Valid() && AcScan(scan) && off + 64 <= data.Length == |was| && McuOk(scan, mcu)
      requires |last| == |scan.comps|
      requires on ==> tr.pending.Some? && McuReady(scan, last, eobRun, mcu, p, tr.pending.value)
      requires on ==> BlockIs(scan, limits, was, data[..], off, 0, mcu[0], false)
      modifies tr, tr.br, data
      ensures Went(tr, ok)
      ensures on && ok ==> Reached(tr, p.rest) && run == RunAfter(eobRun, p.m)
      ensures on ==> BlockIs(scan, limits, was, data[..], off, 0, mcu[0], ok)
      ensures Framed(scan, on, off, old(data[..]), data[..])
    {
      if KindOf(scan) == AcRefine {
        ok, run := DecodeRefine(tr, scan, AcNo(scan), data, off, eobRun, on, mcu[0], p.end, p.m, p.rest);
      } else if eobRun > 0 {
        // A band of zeros.
        if on {
          ZeroBandDone(scan, data[..], off, mcu[0]);
        }
        ok, run := true, eobRun - 1;
      } else {
        ok, run := ReadFirst(tr, scan, AcNo(scan), data, off, on, mcu[0], p.end, p.m, p.rest);
      }
    }

    // All blocks of an MCU. The state is saved when they are complete.
    method DecodeBody(data: array<Coef>, place: seq<nat>, ghost on: bool, ghost was: seq<Coef>, ghost p: Plan,
                      ghost last: seq<Coef>, ghost mcu: Mcu)
      returns (ok: bool)
      requires Ready() && tr.Valid() && PlaceOk(scan, place, data.Length) && McuOk(scan, mcu) && |was| == data.Length
      requires |last| == |scan.comps|
      requires on ==>
                 tr.pending.Some? && McuReady(scan, last, eobRun, mcu, p, tr.pending.value)
                 && Predicts(scan, limits, lastDc, last)
      requires on ==> McuIs(scan, limits, was, data[..], place, mcu, 0)
      modifies this`lastDc, this`eobRun, tr, tr.br, data
      ensures Went(tr, ok) && Ready() && (!ok ==> lastDc == old(lastDc) && eobRun == old(eobRun))
      ensures on && ok ==> Reached(tr, p.rest) && eobRun == RunAfter(old(eobRun), p.m)
      ensures on && ok ==>
                Predicts(scan, limits, lastDc, if AcScan(scan) then last else AfterBlocks(scan, last, 0, mcu))
      ensures on ==> McuIs(scan, limits, was, data[..], place, mcu, if ok then |place| else 0)
      ensures FramedMcu(scan, on, old(data[..]), data[..], place)
    {
      if AcScan(scan) {
        ghost var before := data[..];
        if on {
          assert BlockIs(scan, limits, was, before, 64 * place[0], 0, mcu[0], false);
        }
        var run;
        ok, run := DecodeBand(data, 64 * place[0], on, was, p, last, mcu);
        eobRun := if ok then run else eobRun;
        FramedMcuStep(scan, on, before, before, data[..], place, 0);
        if on {
          McuIsStep(scan, limits, on, was, before, data[..], place, mcu, 0, ok);
        }
      } else {
        var state;
        ok, state := DecodeBlocks(data, place, on, was, last, mcu, p.rest);
        lastDc := if ok then state else lastDc;
      }
    }

    // One attempt at the next MCU. If the source runs dry, everything but the block is as
    // before, and the block can be tried again.
    method Attempt(data: array<Coef>, place: seq<nat>, ghost was: seq<Coef>) returns (ok: bool)
      requires Valid() && PlaceOk(scan, place, data.Length) && |was| == data.Length
               && (scan.restartInterval != 0 ==> restartsToGo > 0)
      requires course.Some? ==>
                 course.value.i < course.value.end
                 && McuIs(scan, limits, was, data[..], place, course.value.mcus[course.value.i], 0)
      modifies this, tr, tr.br, data
      ensures Valid() && tr.br.future == old(tr.br.future)
      ensures FramedMcu(scan, old(course.Some?), old(data[..]), data[..], place)
      ensures Moved(old(course), ok, data[..], place, was)
    {
      ghost var x, on, p, y := course, course.Some?, Plan(Nil, 0, Nil), course;
      if on {
        var next;
        p, next := CourseMcu(tr.enc, scan, x.value, tr.pending, tr.ending);
        y := Some(next);
      }
      var buffer, left, position := tr.br.getBuffer, tr.br.bitsLeft, tr.br.input;
      ghost var awaited, used := tr.pending, tr.phase;
      ok := DecodeBody(data, place, on, was, p, if on then x.value.last
                       else NoCarry(scan).lastDc, if on then x.value.mcus[x.value.i] else AnyMcu());
      if !ok {
        if on {
          NotOver(tr.enc, scan, x.value, awaited, old(tr.ending));
        }
        tr.Restore(buffer, left, position, awaited, used);
        tr.Restored();
        return;
      }
      if scan.restartInterval != 0 {
        restartsToGo := restartsToGo - 1;
      }
      course := y;
    }

    ghost function AnyMcu(): (mcu: Mcu)
      ensures McuOk(scan, mcu)
    {
      seq(|scan.membership|, _ => seq(64, _ => 0))
    }

    // On course an MCU was decoded, or the source has more to deliver.
    ghost predicate Moved(before: Option<Course>, ok: bool, data: seq<Coef>, place: seq<nat>, was: seq<Coef>)
      requires HuffScanOk(scan) && LimitsOk(scan, limits) && |was| == |data| && PlaceOk(scan, place, |data|)
      reads this, tr, tr.br
    {
      && course.Some? == before.Some?
      && (before.Some? ==>
            var x, y := before.value, course.value;
            && Same(x, y) && y.i == (if ok then x.i + 1 else x.i) && x.i < |x.mcus| && McuOk(scan, x.mcus[x.i])
            && McuIs(scan, limits, was, data, place, x.mcus[x.i], if ok then |place| else 0)
            && (!ok ==> tr.br.future != []))
    }

    // ---- restarts ----

    // The marker ahead, if it has arrived, and the bytes behind it that have arrived.
    ghost function MarkerSeen(): Option<(byte, seq<byte>)>
      reads tr, tr.br
    {
      if tr.br.unreadMarker != 0 then Some((tr.br.unreadMarker, tr.br.input)) else FindMarker(tr.br.input)
    }

    // read_restart_marker of jdmarker.c.
    method ReadRestartMarker() returns (ok: bool)
      requires nextRestartNum < 8 && tr.br.Valid()
      modifies this`nextRestartNum, tr.br`input, tr.br`unreadMarker
      ensures tr.br.Valid() && nextRestartNum == if ok then (old(nextRestartNum) + 1) % 8 else old(nextRestartNum)
      ensures match old(MarkerSeen())
              case None => !ok && tr.br.input == Held(old(tr.br.input)) && tr.br.unreadMarker == 0
              case Some((marker, after)) =>
                marker == 0xD0 + old(nextRestartNum) ==> ok && tr.br.unreadMarker == 0 && tr.br.input == after
    {
      if tr.br.unreadMarker == 0 {
        ok := tr.br.NextMarker();
        if !ok {
          return;
        }
      }
      if tr.br.unreadMarker == 0xD0 + nextRestartNum {
        tr.br.unreadMarker := 0;
      } else {
        ok := ResyncToRestart(nextRestartNum);
        if !ok {
          return;
        }
      }
      nextRestartNum := (nextRestartNum + 1) % 8;
      ok := true;
    }

    // Restart markers may have been lost or damaged. Afterwards the decoder either goes
    // on with the data, or it is left in front of a marker that belongs to a later place:
    // one of the next two restarts or no restart marker at all.
    method ResyncToRestart(desired: nat) returns (ok: bool)
      requires desired < 8 && tr.br.unreadMarker != 0 && tr.br.Valid()
      modifies tr.br`input, tr.br`unreadMarker
      ensures tr.br.Valid()
      ensures ok && tr.br.unreadMarker != 0 ==>
                || tr.br.unreadMarker == 0xD0 + (desired + 1) % 8 || tr.br.unreadMarker == 0xD0 + (desired + 2) % 8
                || (tr.br.unreadMarker >= 0xC0 && !(0xD0 <= tr.br.unreadMarker <= 0xD7))
    {
      while true
        invariant tr.br.unreadMarker != 0 && tr.br.Valid()
        decreases |tr.br.input|
      {
        var marker := tr.br.unreadMarker;
        if marker < 0xC0 || marker == 0xD0 + (desired + 7) % 8 || marker == 0xD0 + (desired + 6) % 8 {
          var found := tr.br.NextMarker();
          if !found {
            return false;
          }
        } else if || marker < 0xD0 || marker > 0xD7
                  || marker == 0xD0 + (desired + 1) % 8 || marker == 0xD0 + (desired + 2) % 8 {
          return true;
        } else {
          tr.br.unreadMarker := 0;
          return true;
        }
      }
    }

    // The course behind the restart marker that ends the present segment.
    ghost function NextCourse(x: Course): Course
      requires HuffScanOk(scan)
    {
      x.(seg := x.i, end := SegmentEnd(scan, if x.i <= |x.mcus| then x.i else 0, |x.mcus|),
         last := NoCarry(scan).lastDc, run := 0, n := (x.n + 1) % 8)
    }

    // At the end of a segment the marker is next: either it was met already, or it is
    // found once it has arrived.
    lemma SegmentDone(x: Course)
      requires Ready() && TablesOk(tr.enc) && CourseOk(scan, x) && x.i == x.end < |x.mcus| && tr.br.bitsLeft == 0
      requires tr.br.Ahead() == Nil && tr.ending == tr.br.Ending()
      requires Expected(tr.enc, scan, x, tr.pending, tr.ending)
      ensures Turned(x, NextCourse(x))
    {
      var y := NextCourse(x);
      CourseTurns(tr.enc, scan, x, tr.pending, tr.br.Ending(), y);
      if tr.br.unreadMarker == 0 {
        NoBits(DataBytes(tr.br.input + tr.br.future));
        MarkerNext(tr.br.input, tr.br.future, 0xD0 + x.n, Input(tr.enc, scan, y));
      }
    }

    // The padding at the end of a segment is dropped, and y is the course behind the marker.
    method ReachEnd() returns (ghost y: Option<Course>)
      requires Valid() && (course.Some? ==> course.value.i == course.value.end < |course.value.mcus|)
      modifies tr`pending, tr`phase, tr.br`bitsLeft
      ensures Ready() && tr.Valid() && tr.br.bitsLeft == 0 && y.Some? == course.Some?
      ensures tr.pending == (if course.Some? then Some(Nil) else None) && tr.ending == tr.br.Ending()
      ensures y.Some? ==> tr.br.Ahead() == Nil && Turned(course.value, y.value)
    {
      y := if course.Some? then Some(NextCourse(course.value)) else None;
      if course.Some? {
        AtEnd(tr.enc, scan, course.value, tr.pending, tr.ending);
      }
      tr.Align(course.Some?);
      if course.Some? {
        SegmentDone(course.value);
      }
    }

    // Course y is the one behind the marker that ends the segment of course x, where the decoder stands.
    ghost predicate Turned(x: Course, y: Course)
      reads this, tr, tr.br
    {
      && HuffScanOk(scan) && TablesOk(tr.enc) && tr.br.Valid() && CourseOk(scan, y) && AtSegment(scan, y)
      && Same(x, y) && y.i == x.i && x.n < 8 && y.n == (x.n + 1) % 8
      && y.i < y.end && ScanCoded(tr.enc, scan, y.mcus, y.i) && ScanAccepted(scan, y.mcus, y.i)
      && match MarkerSeen()
         case None => Held(tr.br.input) == tr.br.input && tr.br.future != []
         case Some((marker, after)) => marker == 0xD0 + x.n && after + tr.br.future == Input(tr.enc, scan, y)
    }

    // Check for a restart marker and begin the next segment.
    method ProcessRestart() returns (ok: bool)
      requires Valid() && (course.Some? ==> course.value.i == course.value.end < |course.value.mcus|)
      modifies this, tr, tr.br
      ensures Valid() && tr.br.future == old(tr.br.future) && course.Some? == old(course.Some?)
      ensures ok ==> restartsToGo == scan.restartInterval
      ensures old(course.Some?) ==>
                var x, y := old(course).value, course.value;
                && Same(x, y) && y.i == x.i && (if ok then y.i < y.end else tr.br.future != [])
    {
      ghost var x := course;
      ghost var y := ReachEnd();
      label aligned:
      ok := ReadRestartMarker();
      if !ok {
        if x.Some? {
          tr.Restored@aligned();
        }
        tr.Await(if x.Some? then Some(Nil) else None);
        return;
      }
      Resume(y);
    }

    // Behind a restart marker: reset the state and begin the segment.
    method Resume(ghost y: Option<Course>)
      requires Ready() && tr.br.Valid() && tr.br.bitsLeft == 0 && TablesOk(tr.enc) && PairsOk(tr.pairs, tr.enc)
      requires y.Some? ==>
                 var x := y.value;
                 && tr.br.unreadMarker == 0 && CourseOk(scan, x) && AtSegment(scan, x) && x.n == nextRestartNum
                 && ScanCoded(tr.enc, scan, x.mcus, x.i) && ScanAccepted(scan, x.mcus, x.i)
                 && tr.br.input + tr.br.future == Input(tr.enc, scan, x)
      modifies this, tr, tr.br`insufficientData
      ensures Valid() && course == y && restartsToGo == scan.restartInterval
    {
      lastDc, eobRun := NoCarry(scan).lastDc, 0;
      restartsToGo := scan.restartInterval;
      if tr.br.unreadMarker == 0 {
        tr.br.insufficientData := false;
      }
      Begin(y);
      course := y;
    }

    // ---- MCUs ----

    // The next MCU, whose blocks lie at place in the buffer. It fails only when the source
    // runs dry, and then it can be called again.
    method DecodeMcu(data: array<Coef>, place: seq<nat>, ghost was: seq<Coef>) returns (ok: bool)
      requires Valid() && PlaceOk(scan, place, data.Length) && |was| == data.Length
      requires course.Some? ==> course.value.i < |course.value.mcus|
      requires course.Some? ==> McuIs(scan, limits, was, data[..], place, course.value.mcus[course.value.i], 0)
      modifies this, tr, tr.br, data
      ensures Valid() && tr.br.future == old(tr.br.future)
      ensures FramedMcu(scan, old(course.Some?), old(data[..]), data[..], place)
      ensures Moved(old(course), ok, data[..], place, was)
    {
      if scan.restartInterval != 0 && restartsToGo == 0 {
        ok := ProcessRestart();
        if !ok {
          return;
        }
      }
      if tr.br.insufficientData && KindOf(scan) != DcRefine {
        // Out of data: leave the MCU as it is.
        if scan.restartInterval != 0 {
          restartsToGo := restartsToGo - 1;
        }
        return true;
      }
      ok := Attempt(data, place, was);
    }
  }

  lemma NoBits(data: seq<byte>)
    requires BytesBits(data) == Nil
    ensures data == []
  {
    if data != [] {
      PutLength(data[0], 8, BytesBits(data[1..]));
    }
  }

  lemma AtEnd(tabs: Tables, s: Scan, x: Course, pending: Option<Tokens>, ending: Option<(byte, seq<byte>)>)
    requires TablesOk(tabs) && CourseOk(s, x) && Expected(tabs, s, x, pending, ending) && x.i == x.end < |x.mcus|
    ensures pending == Some(Nil)
  {
    assert Focus(3, 0);
  }

  lemma NotOver(tabs: Tables, s: Scan, x: Course, pending: Option<Tokens>, ending: Option<(byte, seq<byte>)>)
    requires TablesOk(tabs) && CourseOk(s, x) && Expected(tabs, s, x, pending, ending)
    ensures ending.Some?
  {
    assert Focus(3, 0);
  }

  lemma ZeroBandDone(s: Scan, data: seq<Coef>, off: nat, b: Block)
    requires ScanOk(s) && off + 64 <= |data| && NextNonzero(Ordered(s, b, s.al), s.se, s.ss) > s.se
    requires BandSoFar(s, data, off, s.ss, s.ss, s.se, 64, Target(s, b, s.al))
    ensures BandSoFar(s, data, off, s.ss, s.se + 1, s.se, 64, Target(s, b, s.al))
  {
    FirstFacts(s, b, s.ss, NextNonzero(Ordered(s, b, s.al), s.se, s.ss));
    BandSkips(s, data, off, s.ss, s.ss, s.se + 1, s.se, 64, Target(s, b, s.al));
  }

  lemma BlockReady(s: Scan, limits: seq<nat>, was: seq<Coef>, data: seq<Coef>, place: seq<nat>, mcu: Mcu, i: nat,
                   last: seq<Coef>)
    requires HuffScanOk(s) && LimitsOk(s, limits) && McuOk(s, mcu) && |was| == |data| && PlaceOk(s, place, |data|)
    requires i < |place|
    requires McuIs(s, limits, was, data, place, mcu, i) && |last| == |s.comps| && McuAccepted(s, last, i, mcu)
    ensures BlockIs(s, limits, was, data, 64 * place[i], i, mcu[i], false) && BlockAccepted(s, last, i, mcu[i])
    ensures McuAccepted(s, AfterBlock(s, last, i, mcu[i]), i + 1, mcu)
  {
    assert BlockIs(s, limits, was, data, 64 * place[i], i, mcu[i], false);
  }

  // The working copy of the DC predictions agrees with the encoder's where values are
  // wanted.
  predicate Predicts(s: Scan, limits: seq<nat>, state: seq<int>, last: seq<Coef>)
    requires LimitsOk(s, limits)
  {
    |state| == |last| == |s.comps| &&
    forall ci :: 0 <= ci < |state| ==> (KindOf(s) == DcFirst || (KindOf(s) == Sequential && limits[ci] > 0)) ==>
      state[ci] == last[ci]
  }

  lemma SetTwice(x: Coef, al: nat)
    requires al < 13
    ensures Low(Low(Shr(x, al), 1), 1) == Shr(x, al) % 2
    ensures var y, z := DcFloor(x, al + 1), DcFloor(x, al);
            if Shr(x, al) % 2 == 1 then WithBit(y, al) == z && WithBit(z, al) == z else y == z
  {
    LowLow(Shr(x, al), 1);
    DcBitSet(x, al);
    ShrOfShl(Shr(x, al), al);
  }

  // The DC coefficient is in the band of sequential scans and of DC scans, and in no other.
  lemma DcFramed(s: Scan, on: bool, off: nat, was: seq<Coef>, now: seq<Coef>)
    requires ScanOk(s) && s.ss == 0 && |was| == |now| && forall i :: 0 <= i < |was| && i != off ==> now[i] == was[i]
    ensures Framed(s, on, off, was, now)
  {
    assert off == off + s.order[0];
    assert InBand(s, off, s.ss - 1, s.se, off);
  }

  lemma StoredDc(s: Scan, on: bool, off: nat, k: nat, se: nat, limit: nat, t: Coefs, was: seq<Coef>, now: seq<Coef>)
    requires ScanOk(s) && KindOf(s) == Sequential && |was| == |now| && off + 64 <= |was| && se < 64
    requires forall i :: 0 <= i < |was| && i != off ==> now[i] == was[i]
    ensures Framed(s, on, off, was, now)
    ensures BandSoFar(s, was, off, 1, k, se, limit, t) ==> BandSoFar(s, now, off, 1, k, se, limit, t)
  {
    DcFramed(s, on, off, was, now);
  }

  // The AC coefficients lie within the block and leave the DC coefficient alone.
  lemma FramedBlock(s: Scan, on: bool, off: nat, was: seq<Coef>, mid: seq<Coef>, now: seq<Coef>)
    requires ScanOk(s) && KindOf(s) == Sequential && off + 64 <= |was| == |mid| == |now| && Framed(s, on, off, was, mid)
    requires forall i :: 0 <= i < |mid| && !Touches(s, on, off, 1, s.limSe, i) ==> now[i] == mid[i]
    ensures Framed(s, on, off, was, now) && (on ==> now[off] == mid[off])
  {
    SequentialWrites(s, off);
  }
}

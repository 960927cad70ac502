// Lossless coding: whatever decisions are encoded, the decoder that is asked for
// the same statistics bins in the same order returns the same decisions.

module ArithRoundTrip {
  import opened Prelude
  import opened ByteStream
  import opened ArithTable
  import opened ArithCoder
  import opened ArithInterval

  datatype Decision = Decision(bin: BinNo, val: Bit)
  type Decisions = List<Decision>

  lemma StartIsNormal()
    ensures Normal(EncStart)
  {
  }

  type NormalEnc = e: Enc | Normal(e) witness EncStart
  type DecState = d: Dec | DecRegs(d) witness Dec(0, 0, -16, Source([], 0))

  // The registers and bins after coding the decisions ds.
  function Encode(m: Machine, e: NormalEnc, bins: Bins, ds: Decisions): (NormalEnc, Bins)
    decreases ds
  {
    match ds
    case Nil => (e, bins)
    case Cons(d, rest) =>
      var (e', s) := EncodeBit(m, e, bins[d.bin], d.val);
      Encode(m, e', bins[d.bin := s], rest)
  }

  // Coding ds leads to goal; closed, for proofs that only carry it along.
  ghost predicate Leads(m: Machine, e: NormalEnc, bins: Bins, ds: Decisions, goal: (NormalEnc, Bins)) {
    forall k :: Focus(3, k) ==> goal == Encode(m, e, bins, ds)
  }

  // The decoder, asked for the bins of ds one after the other, returns the values
  // of ds and leaves the bins as in last.
  ghost predicate Follows(m: Machine, d: DecState, bins: Bins, ds: Decisions, last: Bins)
    decreases ds
  {
    match ds
    case Nil => bins == last
    case Cons(x, rest) =>
      var r := DecodeBit(m, d, bins[x.bin]);
      r.Some? && r.value.val == x.val && Follows(m, r.value.dec, bins[x.bin := r.value.bin], rest, last)
  }

  // ---- the encoder's side ----

  ghost function Unshift(a: int, r: real): real
    requires a > 0
    decreases 0x8000 - a
  {
    if a >= 0x8000 then r else Unshift(2 * a, r) / 2.0
  }

  ghost function NormalWidth(a: int): (w: int)
    requires a > 0
    decreases 0x8000 - a
  {
    if a >= 0x8000 then a else NormalWidth(2 * a)
  }

  lemma {:induction false} UnshiftBounds(a: int, r: real)
    requires a > 0 && 0.0 <= r < NormalWidth(a) as real
    ensures 0.0 <= Unshift(a, r) < a as real
    decreases 0x8000 - a
  {
    if a < 0x8000 {
      UnshiftBounds(2 * a, r);
    }
  }

  lemma {:induction false} RenormKeepsPoint(e: Enc, r: real)
    requires Sound(e)
    ensures Sound(Renorm(e)) && Renorm(e).a == NormalWidth(e.a)
    ensures Point(Renorm(e), r) == Point(e, Unshift(e.a, r))
    decreases 0x10000 - e.a
  {
    if e.a < 0x8000 {
      RenormStepKeepsPoint(e, Unshift(2 * e.a, r) / 2.0);
      RenormKeepsPoint(RenormStep(e), r);
    }
  }

  // Where the finished code lies above the base of the present interval.
  ghost function Remainder(m: Machine, e: NormalEnc, bins: Bins, ds: Decisions): real
    decreases ds
  {
    match ds
    case Nil => (FinalC(e) - e.c) as real
    case Cons(d, rest) =>
      var ch := EncodeChoice(m, e.a, bins[d.bin], d.val);
      var e' := Renorm(Select(e, ch));
      ch.offset as real + Unshift(ch.width, Remainder(m, e', bins[d.bin := ch.bin], rest))
  }

  lemma {:induction false} RemainderFacts(m: Machine, e: NormalEnc, bins: Bins, ds: Decisions)
    requires Sound(e)
    ensures 0.0 <= Remainder(m, e, bins, ds) < e.a as real
    ensures Point(e, Remainder(m, e, bins, ds)) == Radix(Finish(Encode(m, e, bins, ds).0), 0.0)
    decreases ds
  {
    match ds
    case Nil =>
      FinishDenotes(e);
    case Cons(d, rest) =>
      var ch := EncodeChoice(m, e.a, bins[d.bin], d.val);
      var s := Select(e, ch);
      var e' := Renorm(s);
      var bins' := bins[d.bin := ch.bin];
      SelectKeepsPoint(e, ch, 0.0);
      RenormKeepsPoint(s, Remainder(m, e', bins', rest));
      RemainderFacts(m, e', bins', rest);
      UnshiftBounds(ch.width, Remainder(m, e', bins', rest));
      SelectKeepsPoint(e, ch, Unshift(ch.width, Remainder(m, e', bins', rest)));
  }

  // ---- the decoder's side ----

  lemma NextDataFeeds(src: Source, t: seq<byte>, marker: byte, after: seq<byte>) returns (t': seq<byte>)
    requires IsMarker(marker) && Feeds(src, t, marker, after)
    ensures NextData(src).Some? && Feeds(NextData(src).value.1, t', marker, after)
    ensures Radix(t, 0.0) == (NextData(src).value.0 as real + Radix(t', 0.0)) / 256.0
  {
    if t == [] {
      t' := [];
      NextDataAtMarker(src, marker, after);
    } else {
      t' := t[1..];
      var tail := Stuff(t') + [0xFF, marker] + after;
      assert src.bytes == Stuffed(t[0]) + tail;
      NextDataByte(src, t[0], tail);
    }
  }

  // The decoder's C register, continued by the unread bytes, is the distance r of
  // the code from the base of the interval, scaled to the cut-point.
  ghost predicate Aligned(d: Dec, r: real, t: seq<byte>, marker: byte, after: seq<byte>) {
    && DecRegs(d) && d.a > 0
    && Feeds(d.src, t, marker, after)
    && d.c as real + Radix(t, 0.0) == Scale(r, d.ct)
  }

  lemma RefillAligned(d: Dec, x: real, t: seq<byte>, marker: byte, after: seq<byte>) returns (t': seq<byte>)
    requires IsMarker(marker) && d.a < 0x8000 && Aligned(d, x, t, marker, after)
    ensures Refill(d).Some? && Aligned(Refill(d).value, 2.0 * x, t', marker, after)
  {
    if d.ct > 0 {
      t' := t;
    } else {
      t' := NextDataFeeds(d.src, t, marker, after);
      ScaleByte(2.0 * x);
    }
  }

  lemma {:induction false} ReadyAligned(d: Dec, r: real, t: seq<byte>, marker: byte, after: seq<byte>)
    returns (t': seq<byte>)
    requires IsMarker(marker) && d.a > 0 && Aligned(d, Unshift(d.a, r), t, marker, after)
    ensures Ready(d).Some? && Ready(d).value.a == NormalWidth(d.a)
    ensures Aligned(Ready(d).value, r, t', marker, after)
    decreases 0x8000 - d.a
  {
    t' := t;
    if d.a < 0x8000 {
      var t1 := RefillAligned(d, Unshift(d.a, r), t, marker, after);
      t' := ReadyAligned(Refill(d).value, r, t1, marker, after);
    }
  }

  // Comparing C with the shifted cut takes the branch the encoder took.
  lemma BranchRecovered(c: int, frac: real, offset: int, cut: int, width: int, r: real, ct: nat)
    requires 0.0 <= frac < 1.0 && 0.0 <= r < width as real
    requires c as real + frac == Scale(offset as real + r, ct)
    requires offset == cut || (offset == 0 && width == cut)
    ensures c >= Shl(cut, ct) <==> offset == cut
    ensures offset == cut ==> (c - Shl(cut, ct)) as real + frac == Scale(r, ct)
  {
    ScaleInteger(cut, ct);
    if offset == cut {
      ScaleAdd(cut as real, r, ct);
      ScaleMonotone(0.0, r, ct);
      ScaleInteger(0, ct);
      ShlAdd(0, 0, ct);
    } else {
      ScaleMonotone(r, cut as real, ct);
    }
  }

  // The decoder makes the encoder's choice and stays aligned.
  lemma DecisionRecovered(m: Machine, n: Dec, s: BinState, val: Bit, r: real, t: seq<byte>, marker: byte,
                          after: seq<byte>)
    requires DecRegs(n) && n.a >= 0x8000
    requires 0.0 <= r < EncodeChoice(m, n.a, s, val).width as real
    requires Aligned(n, EncodeChoice(m, n.a, s, val).offset as real + r, t, marker, after)
    ensures DecodeReady(m, n, s).val == val && DecodeReady(m, n, s).bin == EncodeChoice(m, n.a, s, val).bin
    ensures DecodeReady(m, n, s).dec.a == EncodeChoice(m, n.a, s, val).width
    ensures Aligned(DecodeReady(m, n, s).dec, r, t, marker, after)
  {
    var ch, cut := EncodeChoice(m, n.a, s, val), n.a - m[s % 128].qe;
    DecodeChoiceInverts(m, n.a, s, val);
    RadixBounds(t, 0.0);
    BranchRecovered(n.c, Radix(t, 0.0), ch.offset, cut, ch.width, r, n.ct);
  }

  lemma {:induction false} InStep(m: Machine, e: NormalEnc, d: DecState, bins: Bins, ds: Decisions,
                                  t: seq<byte>, marker: byte, after: seq<byte>)
    requires Sound(e) && IsMarker(marker)
    requires Ready(d).Some? && Ready(d).value.a == e.a
    requires Aligned(Ready(d).value, Remainder(m, e, bins, ds), t, marker, after)
    ensures Follows(m, d, bins, ds, Encode(m, e, bins, ds).1)
    decreases ds
  {
    match ds
    case Nil =>
    case Cons(x, rest) =>
      var e', t' := OneInStep(m, e, d, bins, x, rest, t, marker, after);
      var (_, s) := EncodeBit(m, e, bins[x.bin], x.val);
      InStep(m, e', DecodeBit(m, d, bins[x.bin]).value.dec, bins[x.bin := s], rest, t', marker, after);
  }

  // One decision is recovered, and encoder and decoder stay in step.
  lemma OneInStep(m: Machine, e: NormalEnc, d: DecState, bins: Bins, x: Decision, rest: Decisions,
                  t: seq<byte>, marker: byte, after: seq<byte>)
    returns (e': NormalEnc, t': seq<byte>)
    requires Sound(e) && IsMarker(marker)
    requires Ready(d).Some? && Ready(d).value.a == e.a
    requires Aligned(Ready(d).value, Remainder(m, e, bins, Cons(x, rest)), t, marker, after)
    ensures e' == EncodeBit(m, e, bins[x.bin], x.val).0 && Sound(e')
    ensures var r := DecodeBit(m, d, bins[x.bin]);
            && r.Some? && r.value.val == x.val && r.value.bin == EncodeBit(m, e, bins[x.bin], x.val).1
            && Ready(r.value.dec).Some? && Ready(r.value.dec).value.a == e'.a
            && Aligned(Ready(r.value.dec).value, Remainder(m, e', bins[x.bin := r.value.bin], rest), t', marker, after)
  {
    var r;
    e', r := ChosenPart(m, e, bins, x, rest);
    t' := StepRecovered(m, d, e.a, bins[x.bin], x.val, EncodeChoice(m, e.a, bins[x.bin], x.val), r, t, marker, after);
  }

  // The decoder makes the same choice, and is ready for the next decision.
  lemma StepRecovered(m: Machine, d: DecState, a: Width, s: BinState, val: Bit, ch: Choice, r: real,
                      t: seq<byte>, marker: byte, after: seq<byte>)
    returns (t': seq<byte>)
    requires IsMarker(marker) && Ready(d).Some? && Ready(d).value.a == a && ch == EncodeChoice(m, a, s, val)
    requires 0.0 <= Unshift(ch.width, r) < ch.width as real
    requires Aligned(Ready(d).value, ch.offset as real + Unshift(ch.width, r), t, marker, after)
    ensures var q := DecodeBit(m, d, s);
            && q.Some? && q.value.val == val && q.value.bin == ch.bin
            && Ready(q.value.dec).Some? && Ready(q.value.dec).value.a == NormalWidth(ch.width)
            && Aligned(Ready(q.value.dec).value, r, t', marker, after)
  {
    DecisionRecovered(m, Ready(d).value, s, val, Unshift(ch.width, r), t, marker, after);
    t' := ReadyAligned(DecodeBit(m, d, s).value.dec, r, t, marker, after);
  }

  // The final code lies in the part of the interval that a decision chooses.
  lemma ChosenPart(m: Machine, e: NormalEnc, bins: Bins, x: Decision, rest: Decisions) returns (e': NormalEnc, r: real)
    requires Sound(e)
    ensures e' == EncodeBit(m, e, bins[x.bin], x.val).0 && Sound(e')
    ensures var ch := EncodeChoice(m, e.a, bins[x.bin], x.val);
            && e'.a == NormalWidth(ch.width) && r == Remainder(m, e', bins[x.bin := ch.bin], rest)
            && 0.0 <= r < e'.a as real && 0.0 <= Unshift(ch.width, r) < ch.width as real
            && Remainder(m, e, bins, Cons(x, rest)) == ch.offset as real + Unshift(ch.width, r)
  {
    var ch := EncodeChoice(m, e.a, bins[x.bin], x.val);
    var sel := Select(e, ch);
    e' := Renorm(sel);
    r := Remainder(m, e', bins[x.bin := ch.bin], rest);
    SelectKeepsPoint(e, ch, 0.0);
    RenormKeepsPoint(sel, r);
    RemainderFacts(m, e', bins[x.bin := ch.bin], rest);
    UnshiftBounds(ch.width, r);
  }

  lemma StartSound()
    ensures Sound(EncStart)
    ensures forall r: real :: Point(EncStart, r) == r / 65536.0
  {
    forall r: real
      ensures Point(EncStart, r) == r / 65536.0
    {
      ScaleByte(0.0 + r);
    }
    assert Digits(EncStart) == [];
  }

  lemma StartAligned(data: seq<byte>, marker: byte, after: seq<byte>) returns (t: seq<byte>)
    requires IsMarker(marker)
    ensures var n := Ready(DecStart(Source(Stuff(data) + [0xFF, marker] + after, 0)));
            n.Some? && n.value.a == 0x10000 && Aligned(n.value, 65536.0 * Radix(data, 0.0), t, marker, after)
  {
    var d0 := DecStart(Source(Stuff(data) + [0xFF, marker] + after, 0));
    var t1 := NextDataFeeds(d0.src, data, marker, after);
    var d1 := Refill(d0).value;
    t := NextDataFeeds(d1.src, t1, marker, after);
    var d2 := Refill(d1).value;
    assert Ready(d1) == Some(d2);
    assert Ready(d0) == Some(d2);
  }

  // The data bytes of a finished segment.
  function Segment(m: Machine, bins: Bins, ds: Decisions): seq<byte> {
    Finish(Encode(m, EncStart, bins, ds).0)
  }

  // The lossless theorem: for every probability table, every array of bins, every
  // sequence of decisions and any marker and bytes after the finished data, the
  // decoder returns the decisions and ends with the encoder's bins.
  lemma Lossless(m: Machine, bins: Bins, ds: Decisions, marker: byte, after: seq<byte>)
    requires IsMarker(marker)
    ensures Follows(m, DecStart(Source(Stuff(Segment(m, bins, ds)) + [0xFF, marker] + after, 0)), bins, ds,
                    Encode(m, EncStart, bins, ds).1)
  {
    StartSound();
    RemainderFacts(m, EncStart, bins, ds);
    var data := Segment(m, bins, ds);
    var t := StartAligned(data, marker, after);
    InStep(m, EncStart, DecStart(Source(Stuff(data) + [0xFF, marker] + after, 0)), bins, ds, t, marker, after);
  }

  // ---- reaching the marker ----

  lemma {:induction false} ReadyStaysBefore(d: DecState, marker: byte, after: seq<byte>)
    requires IsMarker(marker) && Before(d.src, marker, after)
    ensures Ready(d).Some? && Before(Ready(d).value.src, marker, after)
    decreases 0x10000 - d.a, -d.ct
  {
    if d.a < 0x8000 {
      var t :| Feeds(d.src, t, marker, after);
      var t' := NextDataFeeds(d.src, t, marker, after);
      ReadyStaysBefore(Refill(d).value, marker, after);
    }
  }

  lemma DecodeStaysBefore(m: Machine, d: DecState, s: BinState, marker: byte, after: seq<byte>)
    requires IsMarker(marker) && Before(d.src, marker, after)
    ensures DecodeBit(m, d, s).Some? && Before(DecodeBit(m, d, s).value.dec.src, marker, after)
  {
    ReadyStaysBefore(d, marker, after);
  }

}

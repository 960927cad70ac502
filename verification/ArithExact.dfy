// Coding with exact real numbers, as a reference: after any decisions the registers and
// pending bytes of the encoder denote the interval of the exact coder, and the finished
// bytes a point of it.

module ArithExact {
  import opened Prelude
  import opened ArithTable
  import opened ArithCoder
  import opened ArithInterval
  import opened ArithRoundTrip

  // The interval starts at base and has a units of width.
  datatype Exact = Exact(base: real, unit: real, a: int)

  const ExactStart := Exact(0.0, 1.0 / 65536.0, 0x10000)

  // Halve the unit until there are 2^15 units.
  ghost function Rescaled(x: Exact): (r: Exact)
    requires 0 < x.a <= 0x10000
    ensures 0x8000 <= r.a <= 0x10000
    decreases 0x10000 - x.a
  {
    if x.a >= 0x8000 then x else Rescaled(Exact(x.base, x.unit / 2.0, 2 * x.a))
  }

  // Coding chooses a part of the interval (section D.1 of T.81).
  ghost function ExactBit(m: Machine, x: Exact, s: BinState, val: Bit): (r: (Exact, BinState))
    requires 0x8000 <= x.a <= 0x10000
    ensures 0x8000 <= r.0.a <= 0x10000
  {
    var ch := EncodeChoice(m, x.a, s, val);
    (Rescaled(Exact(At(x, ch.offset as real), x.unit, ch.width)), ch.bin)
  }

  // The point r units above the base.
  ghost function At(x: Exact, r: real): real {
    x.base + x.unit * r
  }

  ghost function ExactCode(m: Machine, x: Exact, bins: Bins, ds: Decisions): (r: (Exact, Bins))
    requires 0x8000 <= x.a <= 0x10000
    ensures 0x8000 <= r.0.a <= 0x10000
    decreases ds
  {
    match ds
    case Nil => (x, bins)
    case Cons(d, rest) =>
      var (x', s) := ExactBit(m, x, bins[d.bin], d.val);
      ExactCode(m, x', bins[d.bin := s], rest)
  }

  // The encoder's state denotes the exact interval.
  ghost predicate Denotes(e: Enc, x: Exact) {
    Sound(e) && e.a == x.a && forall r: real :: Point(e, r) == At(x, r)
  }

  lemma HalfUnit(x: Exact, r: real)
    ensures At(Exact(x.base, x.unit / 2.0, 2 * x.a), r) == At(x, r / 2.0)
  {
  }

  lemma Moved(x: Exact, o: real, a: int, r: real)
    ensures At(Exact(At(x, o), x.unit, a), r) == At(x, o + r)
  {
  }

  lemma {:induction false} RenormDenotes(e: Enc, x: Exact)
    requires Denotes(e, x)
    ensures Denotes(Renorm(e), Rescaled(x))
    decreases 0x10000 - e.a
  {
    if e.a < 0x8000 {
      var e', x' := RenormStep(e), Exact(x.base, x.unit / 2.0, 2 * x.a);
      RenormStepKeepsPoint(e, 0.0);
      forall r: real
        ensures Point(e', r) == At(x', r)
      {
        RenormStepKeepsPoint(e, r / 2.0);
        HalfUnit(x, r);
        assert 2.0 * (r / 2.0) == r;
      }
      RenormDenotes(e', x');
    }
  }

  lemma SelectDenotes(m: Machine, e: Enc, x: Exact, s: BinState, val: Bit)
    requires Normal(e) && Denotes(e, x)
    ensures var ch := EncodeChoice(m, e.a, s, val);
            Denotes(Select(e, ch), Exact(At(x, ch.offset as real), x.unit, ch.width))
  {
    var ch := EncodeChoice(m, e.a, s, val);
    var x' := Exact(At(x, ch.offset as real), x.unit, ch.width);
    SelectKeepsPoint(e, ch, 0.0);
    forall r: real
      ensures Point(Select(e, ch), r) == At(x', r)
    {
      SelectKeepsPoint(e, ch, r);
      Moved(x, ch.offset as real, ch.width, r);
    }
  }

  // ---- carries ----

  // One step of the renormalisation: when eight bits are complete and a carry comes out
  // of them, there is a held byte to take it, and it is not 0xFF, so the carry goes no
  // further; the byte held next is not 0xFF either.
  ghost predicate CarrySafe(e: Enc)
    requires Regs(e) && e.a < 0x8000
  {
    e.ct == 1 && 2 * e.c >= 0x8000000 ==> 0 <= e.buffer < 0xFF && 0 <= RenormStep(e).buffer < 0xFF
  }

  ghost predicate RenormSafe(e: Enc)
    requires Regs(e)
    decreases 0x10000 - e.a
  {
    e.a < 0x8000 ==> CarrySafe(e) && RenormSafe(RenormStep(e))
  }

  // The same for all decisions, and for the last carry when the coding ends.
  ghost predicate CarriesSafe(m: Machine, e: NormalEnc, bins: Bins, ds: Decisions)
    decreases ds
  {
    match ds
    case Nil => Shl(FinalC(e), e.ct) >= 0x8000000 ==> 0 <= e.buffer < 0xFF
    case Cons(d, rest) =>
      var (e', s) := EncodeBit(m, e, bins[d.bin], d.val);
      RenormSafe(Select(e, EncodeChoice(m, e.a, bins[d.bin], d.val))) && CarriesSafe(m, e', bins[d.bin := s], rest)
  }

  lemma {:induction false} SoundRenormSafe(e: Enc)
    requires Sound(e)
    ensures RenormSafe(e)
    decreases 0x10000 - e.a
  {
    if e.a < 0x8000 {
      SoundCarrySafe(e);
      RenormStepKeepsPoint(e, 0.0);
      SoundRenormSafe(RenormStep(e));
    }
  }

  lemma SoundCarrySafe(e: Enc)
    requires Sound(e) && e.a < 0x8000
    ensures CarrySafe(e)
  {
    if e.ct == 1 && 2 * e.c >= 0x8000000 {
      ShiftKeepsSpacing(e.c, e.a, e.ct);
      var s := e.(c := 2 * e.c, a := 2 * e.a, ct := 0);
      assert Digits(s) == Digits(e);
      assert s.c as real + s.a as real == 2.0 * (e.c as real + e.a as real);
      assert Point(s, s.a as real) == Point(e, e.a as real);
      CarryHasHeldByte(s, Scaled(s.c as real + s.a as real, 0));
    }
  }

  lemma LastCarrySafe(e: NormalEnc)
    requires Sound(e)
    ensures Shl(FinalC(e), e.ct) >= 0x8000000 ==> 0 <= e.buffer < 0xFF
  {
    if Shl(FinalC(e), e.ct) >= 0x8000000 {
      ScaleInteger(FinalC(e), e.ct);
      ScaleMonotone(FinalC(e) as real, e.c as real + e.a as real, e.ct);
      CarryHasHeldByte(e, Scaled(e.c as real + e.a as real, e.ct));
    }
  }

  // ---- whole runs ----

  lemma {:induction false} CodeDenotes(m: Machine, e: NormalEnc, x: Exact, bins: Bins, ds: Decisions)
    requires Denotes(e, x) && Trimmed(e.emitted)
    ensures var e', x' := Encode(m, e, bins, ds), ExactCode(m, x, bins, ds);
            Denotes(e'.0, x'.0) && Trimmed(e'.0.emitted) && e'.1 == x'.1
    ensures CarriesSafe(m, e, bins, ds)
    decreases ds
  {
    match ds
    case Nil =>
      LastCarrySafe(e);
    case Cons(d, rest) =>
      var ch := EncodeChoice(m, e.a, bins[d.bin], d.val);
      var chosen := Exact(At(x, ch.offset as real), x.unit, ch.width);
      SelectDenotes(m, e, x, bins[d.bin], d.val);
      RenormDenotes(Select(e, ch), chosen);
      RenormKeepsTrimmed(Select(e, ch));
      SoundRenormSafe(Select(e, ch));
      CodeDenotes(m, Renorm(Select(e, ch)), Rescaled(chosen), bins[d.bin := ch.bin], rest);
  }

  // In every reachable state the registers and pending bytes denote the interval of the
  // exact coder, which lies below 1; the bytes that were sent do not end in zeros; and no
  // carry was ever lost on the way there.
  lemma EveryState(m: Machine, bins: Bins, ds: Decisions)
    ensures var e := Encode(m, EncStart, bins, ds).0;
            Normal(e) && Sound(e) && Trimmed(e.emitted) && Denotes(e, ExactCode(m, ExactStart, bins, ds).0)
    ensures CarriesSafe(m, EncStart, bins, ds)
  {
    StartSound();
    CodeDenotes(m, EncStart, ExactStart, bins, ds);
  }

  // The finished bytes, as a fraction, are a point of the exact interval, and the last
  // of them is not zero.
  lemma Finished(m: Machine, bins: Bins, ds: Decisions)
    ensures var x, v := ExactCode(m, ExactStart, bins, ds).0, Radix(Segment(m, bins, ds), 0.0);
            x.base <= v < At(x, x.a as real)
    ensures Trimmed(Segment(m, bins, ds))
  {
    EveryState(m, bins, ds);
    var e, x := Encode(m, EncStart, bins, ds).0, ExactCode(m, ExactStart, bins, ds).0;
    FinishDenotes(e);
    FinishTrimmed(e);
    var r := (FinalC(e) - e.c) as real;
    PointMonotone(e, 0.0, r);
    StrictlyBelow(e, r);
    assert Point(e, 0.0) == At(x, 0.0) == x.base;
  }

  lemma StrictlyBelow(e: Enc, r: real)
    requires Stack(e) && e.ct >= 0 && r < e.a as real
    ensures Point(e, r) < Point(e, e.a as real)
  {
    ScaleMonotone(e.c as real + r, e.c as real + e.a as real, e.ct);
    RadixMonotone(Digits(e), Scaled(e.c as real + r, e.ct), Scaled(e.c as real + e.a as real, e.ct));
  }
}

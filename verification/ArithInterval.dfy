// What the encoder's registers and pending bytes denote: a point of the coding
// interval, as an exact real number. Every register operation of the encoder
// keeps the number that a given point denotes.

module ArithInterval {
  import opened Prelude
  import opened ArithCoder

  // The base-256 fraction 0.p0 p1 p2 ... continued by t after the last digit.
  ghost function Radix(p: seq<byte>, t: real): real
  {
    if p == [] then t else (p[0] as real + Radix(p[1..], t)) / 256.0
  }

  lemma {:induction false} RadixAppend(p: seq<byte>, q: seq<byte>, t: real)
    ensures Radix(p + q, t) == Radix(p, Radix(q, t))
  {
    if p == [] {
      assert p + q == q;
    } else {
      assert (p + q)[1..] == p[1..] + q;
      RadixAppend(p[1..], q, t);
    }
  }

  lemma {:induction false} RadixMonotone(p: seq<byte>, t: real, u: real)
    requires t <= u
    ensures Radix(p, t) <= Radix(p, u)
    ensures t < u ==> Radix(p, t) < Radix(p, u)
  {
    if p != [] {
      RadixMonotone(p[1..], t, u);
    }
  }

  lemma {:induction false} RadixBounds(p: seq<byte>, t: real)
    requires 0.0 <= t < 1.0
    ensures 0.0 <= Radix(p, t) < 1.0
  {
    if p != [] {
      RadixBounds(p[1..], t);
    }
  }

  lemma {:induction false} RadixZeros(n: nat)
    ensures Radix(Zeros(n), 0.0) == 0.0
  {
    if n > 0 {
      assert Zeros(n)[1..] == Zeros(n - 1);
      RadixZeros(n - 1);
    }
  }

  // A carry into a stack of 0xFF bytes turns them into zeros and comes out on top.
  lemma {:induction false} RadixCarry(n: nat, t: real)
    ensures Radix(Ones(n), 1.0 + t) == 1.0 + Radix(Zeros(n), t)
  {
    if n > 0 {
      assert Zeros(n)[1..] == Zeros(n - 1) && Ones(n)[1..] == Ones(n - 1);
      RadixCarry(n - 1, t);
    }
  }

  lemma {:induction false} ZerosAppend(m: nat, n: nat)
    ensures Zeros(m) + Zeros(n) == Zeros(m + n)
  {
    if m > 0 {
      ZerosAppend(m - 1, n);
    }
  }

  lemma {:induction false} OnesSnoc(n: nat)
    ensures Ones(n) + [0xFF] == Ones(n + 1)
  {
    if n > 0 {
      OnesSnoc(n - 1);
    }
  }

  ghost function Held(buffer: int): seq<byte>
    requires -1 <= buffer <= 0xFE
  {
    if buffer == -1 then [] else [buffer]
  }

  // All bytes produced so far, decided or still open to a carry.
  ghost function Digits(e: Enc): seq<byte>
    requires Stack(e)
  {
    e.emitted + Zeros(e.zc) + Held(e.buffer) + Ones(e.sc)
  }

  ghost function Scaled(x: real, ct: nat): real {
    Scale(x, ct) / 134217728.0
  }

  // The real number denoted by the point r above the base of the interval.
  ghost function Point(e: Enc, r: real): real
    requires Stack(e) && e.ct >= 0
  {
    Radix(Digits(e), Scaled(e.c as real + r, e.ct))
  }

  // The interval lies below 1, so no carry can leave the first byte.
  ghost predicate Sound(e: Enc) {
    Regs(e) && Point(e, e.a as real) <= 1.0
  }

  lemma PointMonotone(e: Enc, r: real, q: real)
    requires Stack(e) && e.ct >= 0 && r <= q
    ensures Point(e, r) <= Point(e, q)
  {
    ScaleMonotone(e.c as real + r, e.c as real + q, e.ct);
    RadixMonotone(Digits(e), Scaled(e.c as real + r, e.ct), Scaled(e.c as real + q, e.ct));
  }

  lemma FlushHeldDigits(e: Enc, b: byte)
    requires Stack(e) && b < 0xFF
    ensures var e1 := FlushHeld(e).(buffer := b); Stack(e1) && Digits(e1) == Digits(e) + [b]
  {
    var e1 := FlushHeld(e).(buffer := b);
    if e.buffer == 0 {
      ZerosAppend(e.zc, 1);
      assert Zeros(1) == [0];
      assert Zeros(e.zc + 1) == Zeros(e.zc) + [0];
    }
    var x := e.emitted + Zeros(e.zc) + Held(e.buffer);
    assert Zeros(0) == [] && Ones(0) == [];
    if e.sc > 0 {
      assert Digits(e1) == e1.emitted + [b];
      assert e1.emitted == x + Ones(e.sc);
    } else {
      assert Digits(e1) == x + [b];
    }
  }

  lemma CarryOutPoint(e: Enc, b: byte, t: real)
    requires Stack(e) && b < 0xFF && e.buffer >= 0
    ensures var e1 := CarryOut(e).(buffer := b);
            Stack(e1) && Radix(Digits(e1), t) == Radix(Digits(e), 1.0 + (b as real + t) / 256.0)
  {
    var e1 := CarryOut(e).(buffer := b);
    var x := e.emitted + Zeros(e.zc);
    var u := (b as real + t) / 256.0;
    assert Digits(e1) == x + ([e.buffer + 1] + (Zeros(e.sc) + [b]));
    assert Digits(e) == x + ([e.buffer] + Ones(e.sc));
    RadixAppend(x, [e.buffer + 1] + (Zeros(e.sc) + [b]), t);
    RadixAppend(x, [e.buffer] + Ones(e.sc), 1.0 + u);
    RadixAppend([e.buffer + 1], Zeros(e.sc) + [b], t);
    RadixAppend([e.buffer], Ones(e.sc), 1.0 + u);
    RadixAppend(Zeros(e.sc), [b], t);
    RadixDigit(b, t);
    RadixDigit(e.buffer, Radix(Ones(e.sc), 1.0 + u));
    RadixDigit(e.buffer + 1, Radix(Zeros(e.sc), u));
    RadixCarry(e.sc, u);
  }

  lemma RadixDigit(b: byte, t: real)
    ensures Radix([b], t) == (b as real + t) / 256.0
  {
    assert [b][1..] == [];
  }

  // With no held byte a carry would push the interval above 1.
  lemma CarryHasHeldByte(e: Enc, t: real)
    requires Stack(e) && t > 1.0 && Radix(Digits(e), t) <= 1.0
    ensures e.buffer >= 0
  {
    if e.buffer == -1 {
      assert Digits(e) == Ones(e.sc);
      RadixCarry(e.sc, t - 1.0);
      RadixMonotone(Zeros(e.sc), 0.0, t - 1.0);
      RadixZeros(e.sc);
    }
  }

  lemma ByteOutKeepsPoint(e: Enc, r: real)
    requires Stack(e) && e.ct == 0 && 0 <= e.c <= 0x9000000 && e.a > 0
    requires Point(e, e.a as real) <= 1.0
    ensures Point(ByteOut(e), r) == Point(e, r)
  {
    var e1 := ByteOut(e);
    var temp := e.c / 0x80000;
    var t := Scaled(e1.c as real + r, 8);
    ScaleByte(e1.c as real + r);
    assert e.c as real == temp as real * 524288.0 + e1.c as real;
    assert Scaled(e.c as real + r, 0) == (temp as real + t) / 256.0;
    if temp > 0xFF {
      CarryHasHeldByte(e, Scaled(e.c as real + e.a as real, 0));
      CarryOutPoint(e, temp % 256, t);
      assert Digits(e1) == Digits(CarryOut(e).(buffer := temp % 256));
      assert temp as real == 256.0 + (temp % 256) as real;
      assert (temp as real + t) / 256.0 == 1.0 + ((temp % 256) as real + t) / 256.0;
    } else {
      if temp == 0xFF {
        OnesSnoc(e.sc);
        assert Digits(e1) == Digits(e) + [temp];
      } else {
        FlushHeldDigits(e, temp);
        assert Digits(e1) == Digits(e) + [temp];
      }
      RadixAppend(Digits(e), [temp], t);
      RadixDigit(temp, t);
    }
  }

  lemma RenormStepKeepsPoint(e: Enc, r: real)
    requires Sound(e) && e.a < 0x8000
    ensures Point(RenormStep(e), 2.0 * r) == Point(e, r)
    ensures Sound(RenormStep(e))
  {
    ShiftKeepsSpacing(e.c, e.a, e.ct);
    var s := e.(c := 2 * e.c, a := 2 * e.a, ct := e.ct - 1);
    assert s.c as real + 2.0 * r == 2.0 * (e.c as real + r);
    assert s.c as real + s.a as real == 2.0 * (e.c as real + e.a as real);
    assert Digits(s) == Digits(e);
    assert Point(s, 2.0 * r) == Point(e, r);
    assert Point(s, s.a as real) == Point(e, e.a as real);
    if s.ct == 0 {
      ByteOutKeepsPoint(s, 2.0 * r);
      ByteOutKeepsPoint(s, s.a as real);
    }
  }

  lemma SelectKeepsPoint(e: Enc, ch: Choice, r: real)
    requires Sound(e) && 0 < ch.width && ch.offset + ch.width <= e.a
    ensures Point(Select(e, ch), r) == Point(e, ch.offset as real + r)
    ensures Sound(Select(e, ch))
  {
    var s := Select(e, ch);
    assert Digits(s) == Digits(e);
    assert s.c as real + r == e.c as real + (ch.offset as real + r);
    assert s.c as real + s.a as real == e.c as real + (ch.offset as real + ch.width as real);
    PointMonotone(e, ch.offset as real + ch.width as real, e.a as real);
  }

  // ---- termination of the encoding ----

  // The final C register: bit 27 is the last carry and the two bytes below it
  // hold everything else.
  lemma {:induction false} ShlMultiple(k: nat, ct: nat)
    ensures Shl(0x8000 * k, ct + 1) == 0x10000 * Shl(k, ct)
    decreases ct
  {
    if ct > 0 {
      ShlMultiple(2 * k, ct - 1);
      assert 2 * (0x8000 * k) == 0x8000 * (2 * k);
    }
  }

  lemma FinalMultiple(f: nat, x: nat, ct: nat) returns (j: nat)
    requires f < x && f % 0x8000 == 0 && ct >= 1 && Shl(x, ct) <= 0x9000000
    ensures j < 0x900 && Shl(f, ct) == 0x10000 * j
  {
    ShlNonNegative(f / 0x8000, ct - 1);
    j := Shl(f / 0x8000, ct - 1);
    ShlMultiple(f / 0x8000, ct - 1);
    ShlMonotone(f, x, ct);
  }

  lemma FinalBits(c: nat, j: nat)
    requires j < 0x900 && c == 0x10000 * j
    ensures c / 0x80000 % 256 == j / 8 % 256 && c / 0x800 % 256 == j % 8 * 32
    ensures c >= 0x8000000 <==> j >= 0x800
    ensures c % 0x8000000 / 0x800 == 0 <==> c / 0x80000 % 256 == 0 && c / 0x800 % 256 == 0
    ensures c >= 0x8000000 ==> c / 0x80000 % 256 < 0xFF
    ensures c as real / 134217728.0
         == (if c >= 0x8000000 then 1.0 else 0.0)
            + ((c / 0x80000 % 256) as real + (c / 0x800 % 256) as real / 256.0) / 256.0
  {
    FinalBytesOf(c, j);
    FinalFraction(c, j);
  }

  lemma FinalBytesOf(c: nat, j: nat)
    requires j < 0x900 && c == 0x10000 * j
    ensures c / 0x80000 % 256 == j / 8 % 256 && c / 0x800 % 256 == j % 8 * 32
    ensures c % 0x8000000 / 0x800 == 0 <==> c / 0x80000 % 256 == 0 && c / 0x800 % 256 == 0
  {
    assert c / 0x80000 == j / 8 && c / 0x800 == 32 * j;
  }

  lemma FinalFraction(c: nat, j: nat)
    requires j < 0x900 && c == 0x10000 * j
    ensures c as real / 134217728.0
         == (if j >= 0x800 then 1.0 else 0.0) + ((j / 8 % 256) as real + (j % 8 * 32) as real / 256.0) / 256.0
  {
    assert j == (if j >= 0x800 then 0x800 else 0) + j / 8 % 256 * 8 + j % 8;
  }

  lemma DropZeroTail(q: seq<byte>, first: byte, second: byte)
    ensures second == 0 ==> Radix(q + [first, second], 0.0) == Radix(q + [first], 0.0)
    ensures first == 0 && second == 0 ==> Radix(q + [first, second], 0.0) == Radix(q, 0.0)
    ensures Radix(q + [first, second], 0.0) == Radix(q, (first as real + second as real / 256.0) / 256.0)
  {
    RadixAppend(q, [first, second], 0.0);
    RadixAppend(q, [first], 0.0);
    RadixAppend([first], [second], 0.0);
    assert [first, second] == [first] + [second];
    RadixDigit(second, 0.0);
    RadixDigit(first, second as real / 256.0);
    RadixDigit(first, 0.0);
  }

  // What is left to send before the final two bytes.
  ghost function Remaining(e: Enc, carry: bool): seq<byte>
    requires Stack(e)
  {
    var e1 := if carry then CarryOut(e) else FlushHeld(e);
    e1.emitted + Zeros(e1.zc)
  }

  lemma RemainingAfterCarry(e: Enc, first: byte, second: byte)
    requires Stack(e) && e.buffer >= 0 && first < 0xFF
    ensures var t := (first as real + second as real / 256.0) / 256.0;
            Radix(Remaining(e, true), t) == Radix(Digits(e), 1.0 + t)
  {
    CarryOutPoint(e, first, second as real / 256.0);
    assert Digits(CarryOut(e).(buffer := first)) == Remaining(e, true) + [first];
    RadixAppend(Remaining(e, true), [first], second as real / 256.0);
    RadixDigit(first, second as real / 256.0);
  }

  lemma RemainingWithoutCarry(e: Enc)
    requires Stack(e)
    ensures Remaining(e, false) == Digits(e)
  {
    FlushHeldDigits(e, 0);
    var q := Remaining(e, false);
    assert q + [0] == Digits(e) + [0];
    assert q == (q + [0])[..|q|];
    assert Digits(e) == (Digits(e) + [0])[..|Digits(e)|];
  }

  lemma FinalBytesDenote(e: Enc)
    requires e.c >= 0 && e.zc >= 0
    ensures Radix(FinalBytes(e), 0.0) ==
              Radix(e.emitted + Zeros(e.zc),
                    ((e.c / 0x80000 % 256) as real + (e.c / 0x800 % 256) as real / 256.0) / 256.0)
  {
    var q, first, second := e.emitted + Zeros(e.zc), e.c / 0x80000 % 256, e.c / 0x800 % 256;
    DropZeroTail(q, first, second);
    if first == 0 && second == 0 {
      RadixAppend(e.emitted, Zeros(e.zc), 0.0);
      RadixZeros(e.zc);
    } else {
      assert FinalBytes(e) == q + (if second == 0 then [first] else [first, second]);
    }
  }

  // The finished byte string is the fraction at the point FinalC of the interval.
  lemma FinishDenotes(e: Enc)
    requires Normal(e) && Sound(e)
    ensures Radix(Finish(e), 0.0) == Point(e, (FinalC(e) - e.c) as real)
  {
    var e0 := LastRegister(e);
    FinishedBytes(e0);
  }

  // The shifted final code as a register: its carry bit and the two bytes below it are
  // the fraction.
  lemma LastRegister(e: Enc) returns (e0: Enc)
    requires Normal(e) && Sound(e)
    ensures e0 == e.(c := Shl(FinalC(e), e.ct)) && e0.c >= 0 && Digits(e0) == Digits(e)
    ensures e0.c >= 0x8000000 ==> e.buffer >= 0 && e0.c / 0x80000 % 256 < 0xFF
    ensures Scaled(FinalC(e) as real, e.ct)
         == (if e0.c >= 0x8000000 then 1.0 else 0.0)
            + ((e0.c / 0x80000 % 256) as real + (e0.c / 0x800 % 256) as real / 256.0) / 256.0
  {
    var c := Shl(FinalC(e), e.ct);
    var j := FinalMultiple(FinalC(e), e.c + e.a, e.ct);
    FinalBits(c, j);
    ScaleInteger(FinalC(e), e.ct);
    ScaleMonotone(FinalC(e) as real, e.c as real + e.a as real, e.ct);
    e0 := e.(c := c);
    if c >= 0x8000000 {
      CarryHasHeldByte(e0, Scaled(e.c as real + e.a as real, e.ct));
    }
  }

  lemma FinishedBytes(e: Enc)
    requires Stack(e) && e.c >= 0 && (e.c >= 0x8000000 ==> e.buffer >= 0 && e.c / 0x80000 % 256 < 0xFF)
    ensures var t := ((e.c / 0x80000 % 256) as real + (e.c / 0x800 % 256) as real / 256.0) / 256.0;
            if e.c >= 0x8000000 then Radix(FinalBytes(CarryOut(e)), 0.0) == Radix(Digits(e), 1.0 + t)
            else Radix(FinalBytes(FlushHeld(e)), 0.0) == Radix(Digits(e), t)
  {
    if e.c >= 0x8000000 {
      FinalBytesDenote(CarryOut(e));
      RemainingAfterCarry(e, e.c / 0x80000 % 256, e.c / 0x800 % 256);
    } else {
      FinalBytesDenote(FlushHeld(e));
      RemainingWithoutCarry(e);
    }
  }

  // ---- no trailing zero byte ("Pacman" termination) ----

  predicate Trimmed(s: seq<byte>) {
    s == [] || s[|s| - 1] != 0
  }

  lemma OnesTrimmed(n: nat)
    ensures Trimmed(Ones(n))
  {
    if n > 0 {
      OnesSnoc(n - 1);
    }
  }

  lemma RenormKeepsTrimmed(e: Enc)
    requires Regs(e) && Trimmed(e.emitted)
    ensures Trimmed(Renorm(e).emitted)
    decreases 0x10000 - e.a
  {
    if e.a < 0x8000 {
      OnesTrimmed(e.sc);
      RenormKeepsTrimmed(RenormStep(e));
    }
  }

  lemma FinishTrimmed(e: Enc)
    requires Normal(e) && Trimmed(e.emitted)
    ensures Trimmed(Finish(e))
  {
    OnesTrimmed(e.sc);
  }
}

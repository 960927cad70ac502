// DCT coefficients and the precision at which a scan knows them.

module Coefficients {
  import opened Prelude

  // The range of a 16-bit JCOEF.
  type Coef = x: int | -32768 <= x <= 32767

  function Abs(x: int): nat { if x < 0 then -x else x }

  // A value stored into a 16-bit coefficient.
  function ToCoef(x: int): Coef {
    (x + 32768) % 65536 - 32768
  }

  lemma StoredExactly(x: Coef)
    ensures ToCoef(Shl(x, 0)) == x
  {
  }

  // A block in natural order.
  type Block = b: seq<Coef> | |b| == 64 witness seq(64, _ => 0)

  // An AC coefficient divided by 2^al, rounding towards zero.
  function PointTransform(x: Coef, al: nat): (r: Coef)
    ensures al == 0 ==> r == x
    ensures Abs(r) <= Abs(x)
  {
    ShrShrinks(Abs(x), al);
    var y: int := Shr(Abs(x), al);
    if x >= 0 then y else -y
  }

  lemma {:induction false} ShrShrinks(x: nat, n: nat)
    ensures 0 <= Shr(x, n) <= x
    decreases n
  {
    if n > 0 {
      ShrShrinks(x / 2, n - 1);
    }
  }

  // A coefficient with the bits below al cleared, towards zero: what a decoder that
  // knows it at precision al holds.
  function Trunc(x: Coef, al: nat): (r: Coef)
    ensures Abs(r) <= Abs(x) && (al == 0 ==> r == x)
  {
    ShrShl(Abs(x), al);
    var y: int := Shl(Shr(Abs(x), al), al);
    if x >= 0 then y else -y
  }

  lemma {:induction false} ShrShl(a: nat, n: nat)
    ensures 0 <= Shl(Shr(a, n), n) <= a
    decreases n
  {
    if n > 0 {
      ShrShl(a / 2, n - 1);
      ShlDouble(Shr(a / 2, n - 1), n - 1);
    }
  }

  lemma {:induction false} ShlNegates(x: int, n: nat)
    ensures Shl(-x, n) == -Shl(x, n)
    decreases n
  {
    if n > 0 {
      ShlNegates(2 * x, n - 1);
    }
  }

  lemma ScaledBack(x: Coef, al: nat)
    ensures Shl(PointTransform(x, al), al) == Trunc(x, al)
  {
    ShlNegates(Shr(Abs(x), al), al);
  }

  // One more bit of precision: a coefficient that is nonzero already gets its next
  // magnitude bit, one that becomes nonzero gets magnitude 1 and its sign.
  lemma RefineOne(x: Coef, al: nat)
    ensures var y, q, p1 := Trunc(x, al + 1), PointTransform(x, al), Shl(1, al);
            && (y != 0 <==> Abs(q) > 1)
            && (Abs(q) > 1 ==> Trunc(x, al) == y + (if Abs(q) % 2 == 0 then 0 else if y < 0 then -p1 else p1))
            && (Abs(q) == 1 ==> Trunc(x, al) == if q < 0 then -p1 else p1)
            && (q == 0 ==> Trunc(x, al) == 0)
  {
    var a := Shr(Abs(x), al);
    ShrShrinks(Abs(x), al);
    ShrHalves(Abs(x), al);
    ShlAdd(a / 2 * 2, a % 2, al);
    ShlAdd(0, 0, al);
    ShlNonNegative(a / 2 * 2, al);
  }

  lemma TruncZero(x: Coef, al: nat)
    ensures Trunc(x, al) == 0 <==> PointTransform(x, al) == 0
  {
    ShrShrinks(Abs(x), al);
    ShlNonNegative(Shr(Abs(x), al), al);
    ShlAdd(0, 0, al);
  }

  // ---- DC ----

  // A DC coefficient divided by 2^al, rounding down.
  function DcShifted(x: Coef, al: nat): (r: Coef)
    ensures al == 0 ==> r == x
  {
    ShrRange(x, al);
    Shr(x, al)
  }

  lemma {:induction false} ShrRange(x: int, n: nat)
    requires -32768 <= x <= 32767
    ensures -32768 <= Shr(x, n) <= 32767
    decreases n
  {
    if n > 0 {
      ShrRange(x / 2, n - 1);
    }
  }

  // A DC coefficient with the bits below al cleared, downwards.
  function DcFloor(x: Coef, al: nat): (r: Coef)
    requires al <= 13
    ensures al == 0 ==> r == x
  {
    assert Shl(1, 15) == 32768 by {
      ShlFour(1, 11);
      ShlFour(16, 7);
      ShlByte(256);
    }
    FloorRange(x, al, 15);
    Shl(Shr(x, al), al)
  }

  lemma {:induction false} FloorRange(x: int, n: nat, m: nat)
    requires n <= m && x >= -Shl(1, m)
    ensures -Shl(1, m) <= Shl(Shr(x, n), n) <= x
    decreases n
  {
    if n > 0 {
      ShlDouble(1, m - 1);
      FloorRange(x / 2, n - 1, m - 1);
      ShlDouble(Shr(x / 2, n - 1), n - 1);
    }
  }

  // Setting bit al, as |= does.
  function WithBit(x: Coef, al: nat): Coef {
    if Shr(x, al) % 2 == 0 then ToCoef(x + Shl(1, al)) else x
  }

  // The next bit of a DC coefficient.
  lemma DcRefineOne(x: Coef, al: nat)
    requires al < 13
    ensures DcFloor(x, al) == DcFloor(x, al + 1) + Shr(x, al) % 2 * Shl(1, al)
    ensures Shr(DcFloor(x, al + 1), al) % 2 == 0
  {
    ShrHalves(x, al);
    var y := Shr(x, al);
    ShlAdd(y / 2 * 2, y % 2, al);
    ShlAdd(0, 0, al);
    ShrOfShl(y / 2 * 2, al);
  }

  lemma DcBitSet(x: Coef, al: nat)
    requires al < 13
    ensures DcFloor(x, al) == if Shr(x, al) % 2 == 1 then WithBit(DcFloor(x, al + 1), al) else DcFloor(x, al + 1)
  {
    DcRefineOne(x, al);
  }
}

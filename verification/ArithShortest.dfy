// The end of a segment: the final code has as many trailing zero bits as any value of the
// interval, and no shorter byte string lies in the final interval.

module ArithShortest {
  import opened Prelude
  import opened ArithTable
  import opened ArithCoder
  import opened ArithInterval
  import opened ArithRoundTrip
  import opened ArithExact

  // Whatever power of two divides some value of the interval divides the final code.
  lemma MostZeros(e: Enc, q: int, k: nat) returns (f: int)
    requires Normal(e) && e.c <= Shl(q, k) < e.c + e.a
    ensures FinalC(e) == Shl(f, k)
  {
    if k <= 15 {
      f := Shl(FinalC(e) / 0x8000, 15 - k);
      ShlWord(FinalC(e) / 0x8000);
      ShlShl(FinalC(e) / 0x8000, 15 - k, k);
    } else {
      f := q;
      ShlShl(q, k - 16, 16);
      ShlWord(Shl(q, k - 16));
      OnlyMultiple(e, Shl(q, k - 16));
    }
  }

  lemma ShlWord(x: int)
    ensures Shl(x, 15) == 0x8000 * x && Shl(x, 16) == 0x10000 * x
  {
    ShlShl(x, 8, 7);
    ShlShl(x, 8, 8);
    ShlByte(x);
    ShlByte(256 * x);
  }

  // The interval is not wider than 2^16, so it holds at most one multiple of that.
  lemma OnlyMultiple(e: Enc, p: int)
    requires Normal(e) && e.c <= 0x10000 * p < e.c + e.a
    ensures FinalC(e) == 0x10000 * p
  {
    var t := (e.a - 1 + e.c) / 0x10000;
    assert t >= p && t <= p;
  }

  // ---- fractions of a given length ----

  // 256^n * x
  ghost function Up(x: real, n: nat): real
    decreases n
  {
    if n == 0 then x else Up(256.0 * x, n - 1)
  }

  ghost predicate Whole(x: real) {
    x == x.Floor as real
  }

  lemma {:induction false} UpAdd(x: real, y: real, n: nat)
    ensures Up(x + y, n) == Up(x, n) + Up(y, n)
    decreases n
  {
    if n > 0 {
      UpAdd(256.0 * x, 256.0 * y, n - 1);
    }
  }

  lemma {:induction false} UpWhole(k: int, n: nat)
    ensures Whole(Up(k as real, n))
    decreases n
  {
    if n > 0 {
      assert 256.0 * k as real == (256 * k) as real;
      UpWhole(256 * k, n - 1);
    }
  }

  lemma {:induction false} UpUp(x: real, m: nat, n: nat)
    ensures Up(Up(x, m), n) == Up(x, m + n)
    decreases m
  {
    if m > 0 {
      UpUp(256.0 * x, m - 1, n);
    }
  }

  lemma WholeAdd(x: real, y: real)
    requires Whole(x)
    ensures Whole(x + y) <==> Whole(y)
  {
    var k := x.Floor;
    assert (x + y).Floor == k + y.Floor;
  }

  // The digits in p do not count for whether a fraction has at most n digits.
  lemma {:induction false} WholeTail(p: seq<byte>, t: real, n: nat)
    requires |p| <= n
    ensures Whole(Up(Radix(p, t), n)) <==> Whole(Up(t, n - |p|))
    decreases n
  {
    if p != [] {
      var y := Radix(p[1..], t);
      assert 256.0 * Radix(p, t) == p[0] as real + y;
      UpAdd(p[0] as real, y, n - 1);
      UpWhole(p[0], n - 1);
      WholeAdd(Up(p[0] as real, n - 1), Up(y, n - 1));
      WholeTail(p[1..], t, n - 1);
    }
  }

  lemma {:induction false} PositiveFraction(p: seq<byte>)
    requires p != [] && p[|p| - 1] != 0
    ensures 0.0 < Radix(p, 0.0) < 1.0
  {
    if |p| > 1 {
      PositiveFraction(p[1..]);
    } else {
      assert p == [p[0]];
      RadixDigit(p[0], 0.0);
    }
  }

  // A byte string without a zero at its end has as many digits as it needs.
  lemma TrimmedLength(s: seq<byte>, n: nat)
    requires Trimmed(s) && Whole(Up(Radix(s, 0.0), n))
    ensures |s| <= n
  {
    if |s| > n {
      assert s == s[..n] + s[n..];
      RadixAppend(s[..n], s[n..], 0.0);
      WholeTail(s[..n], Radix(s[n..], 0.0), n);
      PositiveFraction(s[n..]);
    }
  }

  // ---- the digits of the encoder ----

  // What follows the digits p in the fraction x.
  ghost function Tail(p: seq<byte>, x: real): (t: real)
    ensures Radix(p, t) == x
  {
    if p == [] then x else Tail(p[1..], 256.0 * x - p[0] as real)
  }

  lemma {:induction false} ScaleScale(x: real, a: nat, b: nat)
    ensures Scale(Scale(x, a), b) == Scale(x, a + b)
    decreases a
  {
    if a > 0 {
      ScaleScale(2.0 * x, a - 1, b);
    }
  }

  lemma ScaleWords(x: real)
    ensures Scale(x, 19) == 524288.0 * x && Scale(x, 27) == 134217728.0 * x
  {
    ScaleScale(x, 8, 11);
    ScaleScale(x, 8, 19);
    ScaleScale(256.0 * x, 8, 11);
    ScaleByte(x);
    ScaleByte(256.0 * x);
    ScaleByte(65536.0 * x);
  }

  // A whole number of units of 2^w, seen through the shift ct, is a value of the interval
  // with w - ct trailing zeros; so the final code has as many.
  lemma UnitsInside(e: Enc, y: int, w: nat) returns (f: int)
    requires Normal(e) && e.ct <= w
    requires Scale(e.c as real, e.ct) <= Scale(y as real, w) < Scale((e.c + e.a) as real, e.ct)
    ensures e.c <= Shl(y, w - e.ct) < e.c + e.a
    ensures FinalC(e) == Shl(f, w - e.ct) && Scale(FinalC(e) as real, e.ct) == Scale(f as real, w)
  {
    var x := Shl(y, w - e.ct);
    ScaleScale(y as real, w - e.ct, e.ct);
    ScaleInteger(y, w - e.ct);
    ScaleMonotone(x as real, e.c as real, e.ct);
    ScaleMonotone((e.c + e.a) as real, x as real, e.ct);
    f := MostZeros(e, y, w - e.ct);
    ScaleScale(f as real, w - e.ct, e.ct);
    ScaleInteger(f, w - e.ct);
  }

  // The rest of the fraction lies in the interval.
  ghost predicate Inside(e: Enc, y: real)
    requires Normal(e)
  {
    Scaled(e.c as real, e.ct) <= y < Scaled((e.c + e.a) as real, e.ct)
  }

  ghost function FinalFraction(e: Enc): real
    requires Normal(e)
  {
    Scaled(FinalC(e) as real, e.ct)
  }

  lemma NoDigit(e: Enc, y: real) returns (f: int)
    requires Normal(e) && Inside(e, y) && Whole(y)
    ensures FinalFraction(e) == f as real == y
  {
    ScaleWords(y);
    f := UnitsInside(e, y.Floor, 27);
    var k := 27 - e.ct;
    ShlShl(y.Floor, k - 16, 16);
    ShlWord(Shl(y.Floor, k - 16));
    OnlyMultiple(e, Shl(y.Floor, k - 16));
    SameShift(y.Floor, f, k);
    ScaleWords(f as real);
  }

  lemma {:induction false} SameShift(x: int, y: int, k: nat)
    requires Shl(x, k) == Shl(y, k)
    ensures x == y
  {
    ShrOfShl(x, k);
    ShrOfShl(y, k);
  }

  lemma OneDigit(e: Enc, y: real)
    requires Normal(e) && Inside(e, y) && Whole(256.0 * y)
    ensures Whole(256.0 * FinalFraction(e))
  {
    ScaleWords(256.0 * y);
    var f := UnitsInside(e, (256.0 * y).Floor, 19);
    ScaleWords(f as real);
  }

  lemma TwoDigits(e: Enc)
    requires Normal(e)
    ensures Whole(256.0 * (256.0 * FinalFraction(e)))
  {
    var g := FinalC(e) / 0x8000;
    ShlWord(g);
    ShlShl(g, 15, e.ct);
    ShlShl(g, e.ct, 15);
    ShlWord(Shl(g, e.ct));
    ScaleInteger(FinalC(e), e.ct);
    SixteenUnits(FinalFraction(e), Scale(FinalC(e) as real, e.ct), Shl(g, e.ct));
  }

  lemma SixteenUnits(x: real, y: real, g: int)
    requires x == y / 134217728.0 && y == (0x8000 * g) as real
    ensures Whole(256.0 * (256.0 * x))
  {
    assert y == 32768.0 * g as real;
    assert 256.0 * (256.0 * x) == (16 * g) as real;
  }

  lemma DigitsEnough(e: Enc, y: real, n: nat)
    requires Normal(e) && Inside(e, y) && Whole(Up(y, n))
    ensures Whole(Up(FinalFraction(e), n))
  {
    if n == 0 {
      var f := NoDigit(e, y);
    } else if n == 1 {
      assert Up(y, 1) == 256.0 * y && Up(FinalFraction(e), 1) == 256.0 * FinalFraction(e);
      OneDigit(e, y);
    } else {
      TwoDigits(e);
      var t := 256.0 * (256.0 * FinalFraction(e));
      assert Up(FinalFraction(e), n) == Up(t, n - 2);
      UpWhole(t.Floor, n - 2);
    }
  }

  // A fraction of n digits in the interval leaves the final code within n digits.
  lemma CodeFits(e: Enc, x: real, n: nat)
    requires Normal(e) && Point(e, 0.0) <= x < Point(e, e.a as real) && Whole(Up(x, n))
    ensures Whole(Up(Point(e, (FinalC(e) - e.c) as real), n))
  {
    var p, y := Digits(e), Tail(Digits(e), x);
    TailInside(e, x);
    assert e.c as real + (FinalC(e) - e.c) as real == FinalC(e) as real;
    if n >= |p| {
      WholeTail(p, y, n);
      DigitsEnough(e, y, n - |p|);
      WholeTail(p, FinalFraction(e), n);
    } else {
      UpUp(x, n, |p| - n);
      UpWhole(Up(x, n).Floor, |p| - n);
      WholeTail(p, y, |p|);
      var f := NoDigit(e, y);
    }
  }

  lemma TailInside(e: Enc, x: real)
    requires Normal(e) && Point(e, 0.0) <= x < Point(e, e.a as real)
    ensures Inside(e, Tail(Digits(e), x))
  {
    var p, y := Digits(e), Tail(Digits(e), x);
    var low, high := Scaled(e.c as real + 0.0, e.ct), Scaled(e.c as real + e.a as real, e.ct);
    if y < low {
      RadixMonotone(p, y, low);
    }
    if high <= y {
      RadixMonotone(p, high, y);
    }
    assert (e.c + e.a) as real == e.c as real + e.a as real;
  }

  // ---- whole segments ----

  // No shorter byte string denotes a number in the final interval.
  lemma Shortest(m: Machine, bins: Bins, ds: Decisions, t: seq<byte>)
    requires var x := ExactCode(m, ExactStart, bins, ds).0;
             x.base <= Radix(t, 0.0) < At(x, x.a as real)
    ensures |Segment(m, bins, ds)| <= |t|
  {
    var e, x := Encode(m, EncStart, bins, ds).0, ExactCode(m, ExactStart, bins, ds).0;
    EveryState(m, bins, ds);
    Finished(m, bins, ds);
    FinishDenotes(e);
    assert Point(e, 0.0) == At(x, 0.0) == x.base;
    FewDigits(t);
    CodeFits(e, Radix(t, 0.0), |t|);
    TrimmedLength(Segment(m, bins, ds), |t|);
  }

  lemma FewDigits(t: seq<byte>)
    ensures Whole(Up(Radix(t, 0.0), |t|))
  {
    WholeTail(t, 0.0, |t|);
  }
}

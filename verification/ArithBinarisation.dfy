// How coefficients become binary decisions (sections F.1.4 and G.1.3 of T.81):
// for every MCU routine of jcarith.c, the decisions it codes, as a function of
// the coefficients. ArithMcuEncoder.dfy proves the routines against these
// functions, ArithMcuDecoder.dfy proves that the decoder's routines invert them.

module ArithBinarisation {
  import opened Prelude
  import opened Coefficients
  import opened Scans
  import opened ArithCoder
  import opened ArithRoundTrip

  function DcArea(tbl: TableNo): nat { 64 * tbl }

  function AcArea(tbl: TableNo): nat { 1024 + 256 * tbl }

  function SignBit(x: int): Bit { if x < 0 then 1 else 0 }

  // ---- magnitudes ----

  // Every function below lists the decisions of one piece of a routine, followed
  // by the decisions `rest` that come after it.

  function Log2(v: nat): nat
  {
    if v / 2 == 0 then 0 else 1 + Log2(v / 2)
  }

  lemma {:induction false} Log2Bound(v: nat, n: nat)
    requires v < Shl(1, n + 1)
    ensures Log2(v) <= n
    decreases n
  {
    if v / 2 != 0 {
      ShlDouble(1, n);
      Log2Bound(v / 2, n - 1);
    }
  }

  lemma Log2Below16(v: nat)
    requires v < 65536
    ensures Log2(v) <= 15
    ensures v < 32768 ==> Log2(v) <= 14
  {
    ShlFour(1, 12);
    ShlFour(16, 8);
    ShlByte(256);
    Log2Bound(v, 15);
    if v < 32768 {
      ShlFour(1, 11);
      ShlFour(16, 7);
      ShlByte(256);
      Log2Bound(v, 14);
    }
  }

  // The top bit of v as a mask; 0 for v = 0.
  function TopBit(v: nat): nat
  {
    if v <= 1 then v else 2 * TopBit(v / 2)
  }

  // Whether v has the bit that the one-bit mask m selects.
  function MaskBit(v: nat, m: nat): Bit
    decreases m
  {
    if m <= 1 then v % 2 else MaskBit(v / 2, m / 2)
  }

  // Figure F.9: the bits of w below the mask m.
  function Pattern(st: BinNo, m: nat, w: nat, rest: Decisions): Decisions
    decreases m
  {
    if m / 2 == 0 then rest
    else Cons(Decision(st, MaskBit(w, m / 2)), Pattern(st, m / 2, w, rest))
  }

  // The number that the next n decisions add to the digits of x, the first one on top.
  function Digits(ds: Decisions, n: nat, x: nat): nat
    decreases n
  {
    if n == 0 || ds == Nil then x else Digits(ds.tail, n - 1, 2 * x + ds.head.val)
  }

  // The pattern lists the bits of w below the mask 2^n, from the top.
  lemma {:induction false} PatternDigits(st: BinNo, n: nat, m: nat, x: nat, w: nat, rest: Decisions)
    requires m == Shl(1, n) && x == Shr(w, n)
    ensures Digits(Pattern(st, m, w, rest), n, x) == w
    decreases n
  {
    if n > 0 {
      var m' := HalfMask(n, m);
      var x' := NextDigit(n, x, w);
      PatternDigits(st, n - 1, m', x', w, rest);
    }
  }

  lemma HalfMask(n: nat, m: nat) returns (m': nat)
    requires n > 0 && m == Shl(1, n)
    ensures m' == Shl(1, n - 1) && m == 2 * m' && m' > 0
  {
    ShlNonNegative(1, n - 1);
    ShlDouble(1, n - 1);
    m' := Shl(1, n - 1);
  }

  lemma NextDigit(n: nat, x: nat, w: nat) returns (x': nat)
    requires n > 0 && x == Shr(w, n)
    ensures x' == Shr(w, n - 1) && Shl(1, n - 1) >= 0 && x' == 2 * x + MaskBit(w, Shl(1, n - 1))
  {
    ShrNonNegative(w, n - 1);
    ShrHalves(w, n - 1);
    MaskIsDigit(w, n - 1);
    x' := Shr(w, n - 1);
  }

  lemma {:induction false} ShrNonNegative(w: nat, n: nat)
    ensures Shr(w, n) >= 0
    decreases n
  {
    if n > 0 {
      ShrNonNegative(w / 2, n - 1);
    }
  }

  lemma {:induction false} MaskIsDigit(w: nat, n: nat)
    ensures Shl(1, n) >= 0 && MaskBit(w, Shl(1, n)) == Shr(w, n) % 2
    decreases n
  {
    ShlNonNegative(1, n);
    if n > 0 {
      ShlNonNegative(1, n - 1);
      ShlDouble(1, n - 1);
      MaskIsDigit(w / 2, n - 1);
    }
  }

  // Figure F.8: one decision per doubling of the magnitude category, starting with
  // mask m, then the bit pattern of w.
  function Category(st: nat, v2: nat, m: nat, w: nat, rest: Decisions): Decisions
    requires st + Log2(v2) + 14 < BIN_COUNT
    decreases v2
  {
    if v2 / 2 == 0 then Cons(Decision(st, 0), Pattern(st + 14, m, w, rest))
    else Cons(Decision(st, 1), Category(st + 1, v2 / 2, 2 * m, w, rest))
  }

  // Differences of 16-bit values.
  type Difference = x: int | -65535 <= x <= 65535

  type Context = c: nat | c <= 16

  // A DC magnitude of w + 1 whose first decision uses bin st.
  function DcMagnitude(tbl: TableNo, st: BinNo, w: nat, rest: Decisions): Decisions
    requires w < 65536
  {
    Log2Below16(w);
    if w == 0 then Cons(Decision(st, 0), rest)
    else Cons(Decision(st, 1), Category(DcArea(tbl) + 20, w, 1, w, rest))
  }

  function DcDecisions(tbl: TableNo, context: Context, diff: Difference, rest: Decisions): Decisions
  {
    var st := DcArea(tbl) + context;
    if diff == 0 then Cons(Decision(st, 0), rest)
    else
      Cons(Decision(st, 1), Cons(Decision(st + 1, SignBit(diff)),
        DcMagnitude(tbl, st + 2 + SignBit(diff), Abs(diff) - 1, rest)))
  }

  // Section F.1.4.4.1.2: the conditioning category left by a difference.
  function DcCategory(diff: int, lower: nat, upper: nat): Context
  {
    if diff == 0 then 0
    else
      var m := TopBit(Abs(diff) - 1);
      if m < Shl(1, lower) / 2 then 0
      else if m > Shl(1, upper) / 2 then 12 + 4 * SignBit(diff)
      else 4 + 4 * SignBit(diff)
  }

  // What the category means: small and large differences are told apart by the bounds
  // 2^(lower - 1), or 0 for lower = 0, and 2^upper.
  lemma CategoryMeaning(diff: int, lower: nat, upper: nat)
    ensures var c, low, high := DcCategory(diff, lower, upper), Shl(1, lower) / 2, Shl(1, upper);
            && (c == 0 <==> diff == 0 || Abs(diff) <= low)
            && (c != 0 ==> c == (if Abs(diff) > high then 12 else 4) + if diff < 0 then 4 else 0)
  {
    if diff != 0 {
      BelowLower(Abs(diff) - 1, lower);
      AboveUpper(Abs(diff) - 1, upper);
    }
  }

  lemma BelowLower(v: nat, lower: nat)
    ensures TopBit(v) < Shl(1, lower) / 2 <==> v < Shl(1, lower) / 2
  {
    if lower > 0 {
      ShlDouble(1, lower - 1);
      TopBitBelow(v, lower - 1);
    }
  }

  lemma AboveUpper(v: nat, upper: nat)
    ensures TopBit(v) > Shl(1, upper) / 2 <==> v >= Shl(1, upper)
  {
    TopBitBelow(v, upper);
    if upper > 0 {
      ShlDouble(1, upper - 1);
      TopBitIsPower(v, upper - 1);
    }
  }

  lemma {:induction false} TopBitBelow(v: nat, n: nat)
    ensures TopBit(v) < Shl(1, n) <==> v < Shl(1, n)
    decreases v
  {
    if n > 0 {
      ShlNonNegative(1, n - 1);
      ShlDouble(1, n - 1);
      if v > 1 {
        TopBitBelow(v / 2, n - 1);
      }
    } else if v > 1 {
      TopBitBelow(v / 2, n);
    }
  }

  // There is no power of two between two neighbouring ones.
  lemma {:induction false} TopBitIsPower(v: nat, n: nat)
    ensures TopBit(v) > Shl(1, n) <==> TopBit(v) >= Shl(1, n + 1)
    decreases n
  {
    ShlDouble(1, n);
    if n > 0 {
      ShlNonNegative(1, n - 1);
      ShlDouble(1, n - 1);
      TopBitIsPower(v / 2, n - 1);
    }
  }

  // The first bin for large AC magnitudes, below and above the conditioning value.
  function AcHigh(tbl: TableNo, low: bool): nat {
    AcArea(tbl) + if low then 189 else 217
  }

  // An AC magnitude of w + 1.
  function AcMagnitude(tbl: TableNo, st: BinNo, w: nat, low: bool, rest: Decisions): Decisions
    requires w < 32768
  {
    if w == 0 then Cons(Decision(st, 0), rest)
    else if w == 1 then Cons(Decision(st, 1), Cons(Decision(st, 0), rest))
    else
      Log2Below16(w / 2);
      Cons(Decision(st, 1), Cons(Decision(st, 1), Category(AcHigh(tbl, low), w / 2, 2, w, rest)))
  }

  // ---- AC coefficients ----

  // Figure F.5 after coefficient k, where se is the last index of the band and kx
  // the conditioning value.
  function AcAfter(tbl: TableNo, kx: nat, z: Coefs, se: nat, k: nat, rest: Decisions): Decisions
    requires k <= se < 64
    decreases se - k, 1
  {
    if k < LastNonzero(z, se) then Cons(Decision(AcArea(tbl) + 3 * k, 0), AcRun(tbl, kx, z, se, k, rest))
    else if k < se then Cons(Decision(AcArea(tbl) + 3 * k, 1), rest)
    else rest
  }

  function AcRun(tbl: TableNo, kx: nat, z: Coefs, se: nat, k: nat, rest: Decisions): Decisions
    requires se < 64 && k < LastNonzero(z, se)
    decreases se - k, 0
  {
    var st := AcArea(tbl) + 3 * k;
    if z[k + 1] == 0 then Cons(Decision(st + 1, 0), AcRun(tbl, kx, z, se, k + 1, rest))
    else
      Cons(Decision(st + 1, 1), Cons(Decision(FIXED_BIN, SignBit(z[k + 1])),
        AcMagnitude(tbl, st + 2, Abs(z[k + 1]) - 1, k + 1 <= kx, AcAfter(tbl, kx, z, se, k + 1, rest))))
  }

  // Figure G.10 after coefficient k: z lists the coefficients at the new precision,
  // kex is the last index that was nonzero at the old precision.
  function RefineAfter(tbl: TableNo, z: Coefs, se: nat, kex: nat, k: nat, rest: Decisions): Decisions
    requires k <= se < 64
    decreases se - k, 1
  {
    if k < LastNonzero(z, se) then
      var run := RefineRun(tbl, z, se, kex, k, rest);
      if k + 1 > kex then Cons(Decision(AcArea(tbl) + 3 * k, 0), run) else run
    else if k < se then Cons(Decision(AcArea(tbl) + 3 * k, 1), rest)
    else rest
  }

  function RefineRun(tbl: TableNo, z: Coefs, se: nat, kex: nat, k: nat, rest: Decisions): Decisions
    requires se < 64 && k < LastNonzero(z, se)
    decreases se - k, 0
  {
    var st := AcArea(tbl) + 3 * k;
    if z[k + 1] == 0 then
      Cons(Decision(st + 1, 0), RefineRun(tbl, z, se, kex, k + 1, rest))
    else
      RefineNonzero(st, z[k + 1], RefineAfter(tbl, z, se, kex, k + 1, rest))
  }

  // The next magnitude bit of a coefficient that was nonzero before, or the sign of
  // one that is newly nonzero.
  function RefineNonzero(st: nat, q: Coef, after: Decisions): Decisions
    requires st + 2 < BIN_COUNT
  {
    if Abs(q) > 1 then Cons(Decision(st + 2, Abs(q) % 2), after)
    else Cons(Decision(st + 1, 1), Cons(Decision(FIXED_BIN, SignBit(q)), after))
  }
}

// How coefficients become Huffman tokens (sections F.1.2 and G.1.2 of T.81): for every
// MCU routine of jchuff.c, the tokens it emits, as a function of the coefficients.

module HuffBinarisation {
  import opened Prelude
  import opened HuffBits
  import opened Coefficients
  import opened Scans

  type HuffNo = t: nat | t < 8

  // The number of bits of a magnitude.
  function NBits(a: nat): nat {
    if a == 0 then 0 else 1 + NBits(a / 2)
  }

  lemma {:induction false} NBitsBound(a: nat, n: nat)
    ensures NBits(a) <= n <==> a < Shl(1, n)
    decreases n
  {
    ShlNonNegative(1, n);
    if n > 0 && a > 0 {
      ShlDouble(1, n - 1);
      NBitsBound(a / 2, n - 1);
    }
  }

  // What is emitted for a value: itself, or the complement of its magnitude.
  function Vli(v: int): int {
    if v < 0 then v - 1 else v
  }

  // Figure F.12: extend the sign bit.
  function HuffExtend(x: nat, s: nat): int
    requires s > 0
  {
    if x < Shl(1, s - 1) then x - (Shl(1, s) - 1) else x
  }

  lemma {:induction false} LowNegative(x: int, n: nat)
    requires -Shl(1, n) <= x < 0
    ensures Low(x, n) == x + Shl(1, n)
    decreases n
  {
    if n > 0 {
      ShlDouble(1, n - 1);
      LowNegative(x / 2, n - 1);
    }
  }

  // The decoder recovers a value from its bits.
  lemma ExtendInverts(v: int)
    requires v != 0
    ensures NBits(Abs(v)) > 0 && HuffExtend(Low(Vli(v), NBits(Abs(v))), NBits(Abs(v))) == v
  {
    var n := NBits(Abs(v));
    NBitsBound(Abs(v), n);
    NBitsBound(Abs(v), n - 1);
    ShlDouble(1, n - 1);
    if v > 0 {
      LowSmall(v, n);
    } else {
      LowNegative(v - 1, n);
    }
  }

  // A nonzero value of n bits.
  function ValueToken(v: int): Token {
    Val(Low(Vli(v), NBits(Abs(v))), NBits(Abs(v)))
  }

  // Section F.1.2.1: a positive value is sent as it is, a negative one as the value that
  // lies as far below the largest one of n bits. So the first bit is the sign, and larger
  // values of the same length have larger codes.
  lemma ValueBits(v: int)
    requires v != 0
    ensures var n := NBits(Abs(v));
            && n > 0 && Shl(1, n - 1) <= Abs(v) < Shl(1, n)
            && ValueToken(v) == Val(if v > 0 then v else Shl(1, n) - 1 - Abs(v), n)
            && (v > 0 <==> ValueToken(v).v >= Shl(1, n - 1))
  {
    var n := NBits(Abs(v));
    NBitsBound(Abs(v), n);
    NBitsBound(Abs(v), n - 1);
    ShlDouble(1, n - 1);
    if v > 0 {
      LowSmall(v, n);
    } else {
      LowNegative(v - 1, n);
    }
  }

  // Symbols of accepted values are below 256.
  function DcTokens(tbl: HuffNo, diff: int, rest: Tokens): Tokens {
    Cons(Sym(tbl, NBits(Abs(diff)) % 256), if diff == 0 then rest else Cons(ValueToken(diff), rest))
  }

  // n symbols that stand for 16 zeros each.
  function Zrls(tbl: HuffNo, n: nat, rest: Tokens): Tokens {
    if n == 0 then rest else Cons(Sym(tbl, 0xF0), Zrls(tbl, n - 1, rest))
  }

  // A nonzero coefficient after r zeros.
  function CoefTokens(tbl: HuffNo, r: nat, v: int, rest: Tokens): Tokens {
    Zrls(tbl, r / 16, Cons(Sym(tbl, (r % 16 * 16 + NBits(Abs(v))) % 256), Cons(ValueToken(v), rest)))
  }

  // The largest coefficients that are accepted: 10 bits, for 8-bit samples.
  const MAX_COEF_BITS := 10

  predicate CoefsFit(z: Coefs, lo: nat, hi: nat) {
    forall k :: lo <= k <= hi && k < 64 ==> NBits(Abs(z[k])) <= MAX_COEF_BITS
  }

  // ---- sequential ----

  // The coefficients from index k on, when r zeros precede.
  function AcTokens(tbl: HuffNo, z: Coefs, se: nat, k: nat, r: nat, rest: Tokens): Tokens
    requires se < 64 && k <= se + 1
    decreases se + 1 - k
  {
    if k > se then (if r > 0 then Cons(Sym(tbl, 0), rest) else rest)
    else if z[k] == 0 then AcTokens(tbl, z, se, k + 1, r + 1, rest)
    else CoefTokens(tbl, r, z[k], AcTokens(tbl, z, se, k + 1, 0, rest))
  }

  // ---- runs of end-of-bands ----

  // Correction bits one by one.
  function CorrTokens(corr: seq<Bit>, rest: Tokens): Tokens {
    if corr == [] then rest else CorrTokens(corr[..|corr| - 1], Cons(Val(corr[|corr| - 1], 1), rest))
  }

  // A run of `run` bands that end, with the correction bits buffered for it.
  function EobTokens(tbl: HuffNo, run: nat, corr: seq<Bit>, rest: Tokens): Tokens
    requires run <= 0x7FFF
  {
    if run == 0 then rest
    else
      EobBits(run);
      var n := NBits(run) - 1;
      Cons(Sym(tbl, 16 * n),
           if n == 0 then CorrTokens(corr, rest) else Cons(Val(Low(run, n), n), CorrTokens(corr, rest)))
  }

  lemma EobBits(run: nat)
    requires 0 < run <= 0x7FFF
    ensures 1 <= NBits(run) <= 15 && Shl(1, NBits(run) - 1) + Low(run, NBits(run) - 1) == run
  {
    ShlFour(1, 11); ShlFour(16, 7); ShlByte(256);
    NBitsBound(run, 15);
    TopAndLow(run);
  }

  lemma {:induction false} TopAndLow(a: nat)
    requires a > 0
    ensures NBits(a) > 0 && Shl(1, NBits(a) - 1) + Low(a, NBits(a) - 1) == a
    decreases a
  {
    if a > 1 {
      TopAndLow(a / 2);
      ShlDouble(1, NBits(a / 2) - 1);
    }
  }

  // ---- first AC scan ----

  // The band from index k on, when r zeros precede and `run` ended bands are pending.
  // A pending run is emitted before the first symbol of the band, or when it is full.
  function FirstTokens(tbl: HuffNo, z: Coefs, se: nat, k: nat, r: nat, run: nat, rest: Tokens): Tokens
    requires se < 64 && k <= se + 1 && run < 0x7FFF
    decreases se + 1 - k
  {
    if k > se then (if r > 0 && run + 1 == 0x7FFF then EobTokens(tbl, run + 1, [], rest) else rest)
    else if z[k] == 0 then FirstTokens(tbl, z, se, k + 1, r + 1, run, rest)
    else EobTokens(tbl, run, [], CoefTokens(tbl, r, z[k], FirstTokens(tbl, z, se, k + 1, 0, 0, rest)))
  }

  // The pending run after the band.
  function FirstRun(z: Coefs, se: nat, k: nat, r: nat, run: nat): (n: nat)
    requires se < 64 && k <= se + 1 && run < 0x7FFF
    ensures n < 0x7FFF
    decreases se + 1 - k
  {
    if k > se then (if r == 0 then run else if run + 1 == 0x7FFF then 0 else run + 1)
    else if z[k] == 0 then FirstRun(z, se, k + 1, r + 1, run)
    else FirstRun(z, se, k + 1, 0, 0)
  }

  // ---- AC refinement ----

  // The band before k has no coefficient that becomes nonzero behind eob.
  predicate NewUpTo(z: Coefs, k: nat, se: nat, eob: nat)
    requires se < 64
  {
    forall j :: k <= j <= se && Abs(z[j]) == 1 ==> j <= eob
  }

  function SignToken(v: int): Token {
    Val(if v < 0 then 0 else 1, 1)
  }

  function NextBit(v: int): Bit { Abs(v) % 2 }

  // The size of the correction-bit buffer, and the level above which it is emptied so
  // that the bits of one more block fit.
  const MAX_CORR_BITS := 1000
  const CORR_LIMIT := 937

  // The band from index k on, when r zeros precede, `run` ended bands with correction
  // bits corr are pending, and br are the correction bits since the last symbol.
  function RefineTokens(tbl: HuffNo, z: Coefs, se: nat, eob: nat, k: nat, r: nat, run: nat, corr: seq<Bit>,
                        br: seq<Bit>, rest: Tokens): Tokens
    requires se < 64 && k <= se + 1 && run < 0x7FFF && NewUpTo(z, k, se, eob)
    decreases se + 1 - k, r
  {
    if k > se then
      if (r > 0 || br != []) && (run + 1 == 0x7FFF || |corr| + |br| > CORR_LIMIT)
      then EobTokens(tbl, run + 1, corr + br, rest) else rest
    else if z[k] == 0 then RefineTokens(tbl, z, se, eob, k + 1, r + 1, run, corr, br, rest)
    else if r > 15 && k <= eob then
      EobTokens(tbl, run, corr,
                Cons(Sym(tbl, 0xF0), CorrTokens(br, RefineTokens(tbl, z, se, eob, k, r - 16, 0, [], [], rest))))
    else if Abs(z[k]) > 1 then RefineTokens(tbl, z, se, eob, k + 1, r, run, corr, br + [NextBit(z[k])], rest)
    else
      EobTokens(tbl, run, corr, Cons(Sym(tbl, 16 * r + 1), Cons(SignToken(z[k]),
        CorrTokens(br, RefineTokens(tbl, z, se, eob, k + 1, 0, 0, [], [], rest)))))
  }

  // The pending run and its correction bits after the band.
  function RefineRun(z: Coefs, se: nat, eob: nat, k: nat, r: nat, run: nat, corr: seq<Bit>,
                     br: seq<Bit>): (n: (nat, seq<Bit>))
    requires se < 64 && k <= se + 1 && run < 0x7FFF
    ensures n.0 < 0x7FFF
    decreases se + 1 - k, r
  {
    if k > se then
      if r == 0 && br == [] then (run, corr)
      else if run + 1 == 0x7FFF || |corr| + |br| > CORR_LIMIT then (0, [])
      else (run + 1, corr + br)
    else if z[k] == 0 then RefineRun(z, se, eob, k + 1, r + 1, run, corr, br)
    else if r > 15 && k <= eob then RefineRun(z, se, eob, k, r - 16, 0, [], [])
    else if Abs(z[k]) > 1 then RefineRun(z, se, eob, k + 1, r, run, corr, br + [NextBit(z[k])])
    else RefineRun(z, se, eob, k + 1, 0, 0, [], [])
  }

  // The last index from start to k whose coefficient becomes nonzero, or 0.
  function LastNew(z: Coefs, start: nat, k: nat): (r: nat)
    requires k < 64
    ensures r == 0 || (start <= r <= k && Abs(z[r]) == 1)
    ensures forall j :: start <= j <= k && Abs(z[j]) == 1 ==> j <= r
    decreases k
  {
    if k < start then 0
    else if Abs(z[k]) == 1 then k
    else if k == 0 then 0
    else LastNew(z, start, k - 1)
  }
}

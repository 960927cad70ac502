// The beginning of the test sequence for the arithmetic coder in section K.4.1 of T.81.

module ArithExample {
  import opened Prelude
  import opened ArithTable
  import opened ArithCoder
  import opened ArithRoundTrip
  import opened ArithEstimation

  // Decisions that all use the bin st.
  function OneBin(st: BinNo, vals: seq<Bit>): Decisions {
    if vals == [] then Nil else Cons(Decision(st, vals[0]), OneBin(st, vals[1..]))
  }

  // Registers before the first byte.
  function Early(c: int, a: int, ct: int): Enc {
    Enc(c, a, ct, 0, 0, -1, [])
  }

  // n * qe
  function Spent(n: nat, qe: nat): nat {
    if n == 0 then 0 else qe + Spent(n - 1, qe)
  }

  lemma {:induction false} SpentIs(n: nat, qe: nat)
    ensures Spent(n, qe) == n * qe
  {
    if n > 0 {
      SpentIs(n - 1, qe);
      assert n * qe == (n - 1) * qe + qe;
    }
  }

  // n decisions for the more probable symbol that leave the interval wide enough.
  lemma {:induction false} Quiet(m: Machine, c: nat, a: Width, ct: nat, bins: Bins, st: BinNo, n: nat, vals: seq<Bit>,
                                 low: Width)
    requires Normal(Early(c, a, ct)) && n <= |vals| && forall i :: 0 <= i < n ==> vals[i] == Sense(bins[st])
    requires low == a - Spent(n, m[bins[st] % 128].qe)
    ensures Normal(Early(c, low, ct))
    ensures Encode(m, Early(c, a, ct), bins, OneBin(st, vals)) ==
            Encode(m, Early(c, low, ct), bins, OneBin(st, vals[n..]))
    decreases n
  {
    if n == 0 {
      assert vals[n..] == vals;
    } else {
      QuietOne(m, c, a, ct, bins, st, vals);
      Quiet(m, c, a - m[bins[st] % 128].qe, ct, bins, st, n - 1, vals[1..], low);
      assert vals[1..][n - 1..] == vals[n..];
    }
  }

  lemma QuietOne(m: Machine, c: nat, a: Width, ct: nat, bins: Bins, st: BinNo, vals: seq<Bit>)
    requires Normal(Early(c, a, ct)) && vals != [] && vals[0] == Sense(bins[st])
    requires a - m[bins[st] % 128].qe >= 0x8000
    ensures Normal(Early(c, a - m[bins[st] % 128].qe, ct))
    ensures Encode(m, Early(c, a, ct), bins, OneBin(st, vals)) ==
            Encode(m, Early(c, a - m[bins[st] % 128].qe, ct), bins, OneBin(st, vals[1..]))
  {
    var qe := m[bins[st] % 128].qe;
    ShlMonotone(c + a - qe, c + a, ct);
    assert bins[st := bins[st]] == bins;
    assert EncodeBit(m, Early(c, a, ct), bins[st], vals[0]) == (Early(c, a - qe, ct), bins[st]);
  }

  lemma {:induction false} Renormed(c: nat, a: nat, ct: nat, k: nat)
    requires Regs(Early(c, a, ct)) && k < ct && Shl(a, k) >= 0x8000 && (k > 0 ==> Shl(a, k - 1) < 0x8000)
    ensures Shl(c, k) >= 0 && Renorm(Early(c, a, ct)) == Early(Shl(c, k), Shl(a, k), ct - k)
    decreases k
  {
    ShlNonNegative(c, k);
    if k > 0 {
      ShlNonNegative(a, k - 1);
      ShiftKeepsSpacing(c, a, ct);
      assert RenormStep(Early(c, a, ct)) == Early(2 * c, 2 * a, ct - 1);
      Renormed(2 * c, 2 * a, ct - 1, k - 1);
    }
  }

  // A decision that is followed by k shifts, on registers before the first byte.
  lemma Shifted(m: Machine, c: nat, a: Width, ct: nat, bins: Bins, st: BinNo, vals: seq<Bit>, k: nat)
    requires Normal(Early(c, a, ct)) && vals != [] && 0 < k < ct
    requires var ch := EncodeChoice(m, a, bins[st], vals[0]);
             Shl(ch.width, k - 1) < 0x8000 <= Shl(ch.width, k)
    ensures var ch := EncodeChoice(m, a, bins[st], vals[0]);
            var next := Early(Shl(c + ch.offset, k), Shl(ch.width, k), ct - k);
            && Normal(next)
            && Encode(m, Early(c, a, ct), bins, OneBin(st, vals)) ==
               Encode(m, next, bins[st := ch.bin], OneBin(st, vals[1..]))
  {
    var ch := EncodeChoice(m, a, bins[st], vals[0]);
    ShlNonNegative(ch.width, k - 1);
    ShlMonotone(c + ch.offset + ch.width, c + a, ct);
    Renormed(c + ch.offset, ch.width, ct, k);
  }

  // The rows of the table that the example uses.
  predicate Rows(m: Machine) {
    && m[0] == V(0x5a1d, 1, 1, 1) && m[1] == V(0x2586, 14, 2, 0) && m[2] == V(0x1114, 16, 3, 0)
    && m[3] == V(0x080b, 18, 4, 0) && m[18] == V(0x17b9, 40, 19, 0)
  }

  lemma RowsOf(m: Machine)
    requires m == JpegAritab()
    ensures Rows(m)
  {
    assert m[0] == Aritab(0) && m[1] == Aritab(1) && m[2] == Aritab(2) && m[3] == Aritab(3) && m[18] == Aritab(18);
  }

  // n decisions that leave the interval wide enough, and one that does not.
  lemma Round(m: Machine, c: nat, a: Width, ct: nat, bins: Bins, st: BinNo, vals: seq<Bit>, n: nat, k: nat,
              ch: Choice)
    requires Normal(Early(c, a, ct)) && n < |vals| && 0 < k < ct
    requires forall i :: 0 <= i < n ==> vals[i] == Sense(bins[st])
    requires a - n * m[bins[st] % 128].qe >= 0x8000
    requires ch == EncodeChoice(m, a - n * m[bins[st] % 128].qe, bins[st], vals[n])
    requires Shl(ch.width, k - 1) < 0x8000 <= Shl(ch.width, k)
    ensures Normal(Early(Shl(c + ch.offset, k), Shl(ch.width, k), ct - k))
    ensures Encode(m, Early(c, a, ct), bins, OneBin(st, vals)) ==
            Encode(m, Early(Shl(c + ch.offset, k), Shl(ch.width, k), ct - k), bins[st := ch.bin],
                   OneBin(st, vals[n + 1..]))
  {
    SpentIs(n, m[bins[st] % 128].qe);
    Quiet(m, c, a, ct, bins, st, n, vals, a - n * m[bins[st] % 128].qe);
    ShiftedAt(m, c, a - n * m[bins[st] % 128].qe, ct, bins, st, vals, n, k);
  }

  lemma ShiftedAt(m: Machine, c: nat, a: Width, ct: nat, bins: Bins, st: BinNo, vals: seq<Bit>, n: nat, k: nat)
    requires Normal(Early(c, a, ct)) && n < |vals| && 0 < k < ct
    requires var ch := EncodeChoice(m, a, bins[st], vals[n]);
             Shl(ch.width, k - 1) < 0x8000 <= Shl(ch.width, k)
    ensures var ch := EncodeChoice(m, a, bins[st], vals[n]);
            var next := Early(Shl(c + ch.offset, k), Shl(ch.width, k), ct - k);
            && Normal(next)
            && Encode(m, Early(c, a, ct), bins, OneBin(st, vals[n..])) ==
               Encode(m, next, bins[st := ch.bin], OneBin(st, vals[n + 1..]))
  {
    Shifted(m, c, a, ct, bins, st, vals[n..], k);
    assert vals[n..][1..] == vals[n + 1..];
  }

  lemma Round1(m: Machine, bins: Bins, st: BinNo, vals: seq<Bit>, n: nat, c: nat, a: Width, ct: nat)
    requires Rows(m) && bins[st] == 0 && n == 1 && (c, a, ct) == (0x0, 0x10000, 11)
    requires Normal(Early(c, a, ct)) && n < |vals| && vals[n] == 0 && forall i :: 0 <= i < n ==> vals[i] == 0
    ensures Normal(Early(0x978c, 0xb43a, 10))
    ensures Encode(m, Early(c, a, ct), bins, OneBin(st, vals)) ==
            Encode(m, Early(0x978c, 0xb43a, 10), bins[st := 1], OneBin(st, vals[n + 1..]))
  {
    Round(m, c, a, ct, bins, st, vals, n, 1, Choice(0x4bc6, 0x5a1d, 1));
  }

  lemma Round2(m: Machine, bins: Bins, st: BinNo, vals: seq<Bit>, n: nat, c: nat, a: Width, ct: nat)
    requires Rows(m) && bins[st] == 1 && n == 1 && (c, a, ct) == (0x978c, 0xb43a, 10)
    requires Normal(Early(c, a, ct)) && n < |vals| && vals[n] == 0 && forall i :: 0 <= i < n ==> vals[i] == 0
    ensures Normal(Early(0x12f18, 0xd25c, 9))
    ensures Encode(m, Early(c, a, ct), bins, OneBin(st, vals)) ==
            Encode(m, Early(0x12f18, 0xd25c, 9), bins[st := 2], OneBin(st, vals[n + 1..]))
  {
    Round(m, c, a, ct, bins, st, vals, n, 1, Choice(0x0, 0x692e, 2));
  }

  lemma Round3(m: Machine, bins: Bins, st: BinNo, vals: seq<Bit>, n: nat, c: nat, a: Width, ct: nat)
    requires Rows(m) && bins[st] == 2 && n == 4 && (c, a, ct) == (0x12f18, 0xd25c, 9)
    requires Normal(Early(c, a, ct)) && n < |vals| && vals[n] == 0 && forall i :: 0 <= i < n ==> vals[i] == 0
    ensures Normal(Early(0x25e30, 0xf9f0, 8))
    ensures Encode(m, Early(c, a, ct), bins, OneBin(st, vals)) ==
            Encode(m, Early(0x25e30, 0xf9f0, 8), bins[st := 3], OneBin(st, vals[n + 1..]))
  {
    Round(m, c, a, ct, bins, st, vals, n, 1, Choice(0x0, 0x7cf8, 3));
  }

  lemma Round4(m: Machine, bins: Bins, st: BinNo, vals: seq<Bit>, n: nat, c: nat, a: Width, ct: nat)
    requires Rows(m) && bins[st] == 3 && n == 5 && (c, a, ct) == (0x25e30, 0xf9f0, 8)
    requires Normal(Early(c, a, ct)) && n < |vals| && vals[n] == 1 && forall i :: 0 <= i < n ==> vals[i] == 0
    ensures Normal(Early(0x327de0, 0x80b0, 4))
    ensures Encode(m, Early(c, a, ct), bins, OneBin(st, vals)) ==
            Encode(m, Early(0x327de0, 0x80b0, 4), bins[st := 18], OneBin(st, vals[n + 1..]))
  {
    Round(m, c, a, ct, bins, st, vals, n, 4, Choice(0xc9ae, 0x80b, 18));
  }

  lemma Round5(m: Machine, bins: Bins, st: BinNo, vals: seq<Bit>, c: nat, a: Width, ct: nat)
    requires Rows(m) && bins[st] == 18 && (c, a, ct) == (0x327de0, 0x80b0, 4) && vals == [0]
    requires Normal(Early(c, a, ct))
    ensures Normal(Early(0x64fbc0, 0xd1ee, 3))
    ensures Encode(m, Early(c, a, ct), bins, OneBin(st, vals)) == (Early(0x64fbc0, 0xd1ee, 3), bins[st := 19])
  {
    Shifted(m, c, a, ct, bins, st, vals, 1);
  }

  // The first two bytes of the test sequence in section K.4.1 of T.81: fourteen decisions
  // for the more probable symbol, one for the other, and one more. They lead through the
  // states 1, 2 and 3 to 18 and 19, and the segment is the first byte of its code.
  lemma FirstBytes(m: Machine, bins: Bins, st: BinNo, vals: seq<Bit>)
    requires m == JpegAritab() && bins[st] == 0 && |vals| == 16
    requires forall i :: 0 <= i < |vals| ==> vals[i] == if i == 14 then 1 else 0
    ensures Encode(m, EncStart, bins, OneBin(st, vals)).1[st] == 19 && Segment(m, bins, OneBin(st, vals)) == [0x65]
  {
    RowsOf(m);
    StartIsNormal();
    FirstRounds(m, bins, st, vals, 16);
    LastByte();
  }

  lemma FirstRounds(m: Machine, bins: Bins, st: BinNo, vals: seq<Bit>, n: nat)
    requires Rows(m) && bins[st] == 0 && Normal(EncStart) && n == |vals| == 16
    requires forall i :: 0 <= i < n ==> vals[i] == if i == 14 then 1 else 0
    ensures Normal(Early(0x64fbc0, 0xd1ee, 3))
    ensures Encode(m, EncStart, bins, OneBin(st, vals)) == (Early(0x64fbc0, 0xd1ee, 3), bins[st := 19])
  {
    Round1(m, bins, st, vals, 1, 0, 0x10000, 11);
    var x, b := vals[2..], bins[st := 1];
    Round2(m, b, st, x, 1, 0x978c, 0xb43a, 10);
    LastRounds(m, b[st := 2], st, x[2..], 12);
    assert b[st := 2][st := 19] == bins[st := 19];
  }

  lemma LastRounds(m: Machine, bins: Bins, st: BinNo, vals: seq<Bit>, n: nat)
    requires Rows(m) && bins[st] == 2 && Normal(Early(0x12f18, 0xd25c, 9)) && n == |vals| == 12
    requires forall i :: 0 <= i < n ==> vals[i] == if i == 10 then 1 else 0
    ensures Normal(Early(0x64fbc0, 0xd1ee, 3))
    ensures Encode(m, Early(0x12f18, 0xd25c, 9), bins, OneBin(st, vals)) ==
            (Early(0x64fbc0, 0xd1ee, 3), bins[st := 19])
  {
    Round3(m, bins, st, vals, 4, 0x12f18, 0xd25c, 9);
    var x, b := vals[5..], bins[st := 3];
    Round4(m, b, st, x, 5, 0x25e30, 0xf9f0, 8);
    Round5(m, b[st := 18], st, x[6..], 0x327de0, 0x80b0, 4);
    assert b[st := 18][st := 19] == bins[st := 19];
  }

  lemma LastByte()
    requires Normal(Early(0x64fbc0, 0xd1ee, 3))
    ensures Finish(Early(0x64fbc0, 0xd1ee, 3)) == [0x65]
  {
  }
}

// The adaptive binary arithmetic coder on values: one decision at a time
// (jcarith.c arith_encode and finish_pass, jdarith.c arith_decode).
// The classes in ArithEncoder.dfy and ArithDecoder.dfy are proved against these
// functions; the lossless theorem about them is in ArithRoundTrip.dfy.

module ArithCoder {
  import opened Prelude
  import opened ByteStream
  import opened ArithTable

  // One statistics byte: the sense of the more probable symbol in the top bit,
  // the state index below it.
  type BinState = s: nat | s < 256 && s % 128 <= 113

  // The statistics areas side by side: 16 DC areas of 64 bins, 16 AC areas of 256
  // bins and the fixed bin.
  const BIN_COUNT: nat := 5121
  const FIXED_BIN: BinNo := 5120
  type BinNo = n: nat | n < 5121
  type Bins = s: seq<BinState> | |s| == 5121 witness seq(5121, _ => 0)

  // The bins before anything was coded; the fixed bin sits in the fixed state.
  function StartBins(): Bins {
    seq(BIN_COUNT, (i: nat) requires i < BIN_COUNT => InitialBin(i))
  }

  function InitialBin(i: nat): BinState {
    if i == FIXED_BIN then FIXED_STATE else 0
  }

  function AfterMps(m: Machine, s: BinState): BinState {
    s / 128 * 128 + m[s % 128].nextMps
  }

  // The switch flag is stored as the top bit of the LPS successor, so that one
  // exclusive-or both moves the index and exchanges the symbol senses.
  function AfterLps(m: Machine, s: BinState): BinState {
    (s / 128 + m[s % 128].switchMps) % 2 * 128 + m[s % 128].nextLps
  }

  // What coding one decision does to the interval: how far the base moves, the
  // new width (before renormalisation) and the new state of the bin.
  datatype Choice = Choice(offset: nat, width: nat, bin: BinState)

  type Width = a: nat | 0x8000 <= a <= 0x10000 witness 0x8000

  function EncodeChoice(m: Machine, a: Width, s: BinState, val: Bit): (r: Choice)
    ensures 0 < r.width && r.offset + r.width <= a
    ensures r.width < 0x8000 || r.bin == s
  {
    var qe := m[s % 128].qe;
    var rest := a - qe;
    if val != s / 128 then
      if rest >= qe then Choice(rest, qe, AfterLps(m, s)) else Choice(0, rest, AfterLps(m, s))
    else if rest >= 0x8000 then
      Choice(0, rest, s)
    else
      if rest < qe then Choice(rest, qe, AfterMps(m, s)) else Choice(0, rest, AfterMps(m, s))
  }

  // The decoder only learns whether the code point lies in the upper part.
  function DecodeChoice(m: Machine, a: Width, s: BinState, upper: bool): (Choice, Bit)
  {
    var qe := m[s % 128].qe;
    var rest := a - qe;
    if upper then
      if rest < qe then (Choice(rest, qe, AfterMps(m, s)), s / 128)
      else (Choice(rest, qe, AfterLps(m, s)), 1 - s / 128)
    else if rest < 0x8000 then
      if rest < qe then (Choice(0, rest, AfterLps(m, s)), 1 - s / 128)
      else (Choice(0, rest, AfterMps(m, s)), s / 128)
    else
      (Choice(0, rest, s), s / 128)
  }

  lemma DecodeChoiceInverts(m: Machine, a: Width, s: BinState, val: Bit)
    ensures var r := EncodeChoice(m, a, s, val);
            && DecodeChoice(m, a, s, r.offset > 0) == (r, val)
            && (r.offset > 0 ==> r.offset == a - m[s % 128].qe)
            && (r.offset == 0 ==> r.width == a - m[s % 128].qe)
  {
  }

  // ---- byte strings ----

  function Zeros(n: nat): (z: seq<byte>)
    ensures |z| == n
  {
    if n == 0 then [] else [0] + Zeros(n - 1)
  }

  function Ones(n: nat): (z: seq<byte>)
    ensures |z| == n
  {
    if n == 0 then [] else [0xFF] + Ones(n - 1)
  }

  // ---- encoder ----

  // The encoder's registers. `emitted` is the list of data bytes sent so far;
  // Stuff(emitted) is what actually went to the destination.
  datatype Enc = Enc(c: int, a: int, ct: int, sc: int, zc: int, buffer: int, emitted: seq<byte>)

  const EncStart := Enc(0, 0x10000, 11, 0, 0, -1, [])

  // The bytes that are decided up to a carry: a counted run of zeros, the held
  // byte and a stack of 0xFF bytes. With no held byte nothing precedes the stack.
  predicate Stack(e: Enc) {
    && 0 <= e.sc && 0 <= e.zc && -1 <= e.buffer <= 0xFE
    && (e.buffer == -1 ==> e.zc == 0 && e.emitted == [])
  }

  // The interval never reaches above bit 27 by more than the spacer bits allow,
  // whatever the shift count.
  predicate Spaced(c: int, a: int, ct: nat) {
    Shl(c + a, ct) <= 0x9000000
  }

  predicate Regs(e: Enc) {
    && Stack(e)
    && 0 <= e.c && 0 < e.a <= 0x10000 && 1 <= e.ct <= 11
    && Spaced(e.c, e.a, e.ct)
  }

  predicate Normal(e: Enc) {
    Regs(e) && e.a >= 0x8000
  }

  function EmitZeros(e: Enc): Enc
    requires e.zc >= 0
  {
    e.(emitted := e.emitted + Zeros(e.zc), zc := 0)
  }

  // A carry reached the held byte: it goes out incremented, and the stacked
  // 0xFF bytes behind it become zeros.
  function CarryOut(e: Enc): Enc
    requires Stack(e)
  {
    var e1 := if e.buffer >= 0
              then var z := EmitZeros(e); z.(emitted := z.emitted + [e.buffer + 1])
              else e;
    e1.(zc := e1.zc + e.sc, sc := 0)
  }

  // No carry can reach the held byte any more: it and the stacked bytes go out,
  // except that a zero byte is only counted.
  function FlushHeld(e: Enc): Enc
    requires Stack(e)
  {
    var e1 := if e.buffer == 0 then e.(zc := e.zc + 1)
              else if e.buffer > 0 then var z := EmitZeros(e); z.(emitted := z.emitted + [e.buffer])
              else e;
    if e.sc > 0 then
      var z := EmitZeros(e1);
      z.(emitted := z.emitted + Ones(e.sc), sc := 0)
    else e1
  }

  // Eight more bits of C are complete.
  function ByteOut(e: Enc): (r: Enc)
    requires Stack(e) && 0 <= e.c
    ensures r.a == e.a && r.c == e.c % 0x80000 && r.ct == e.ct + 8
    ensures e.c <= 0x9000000 ==> Stack(r)
  {
    var temp := e.c / 0x80000;
    var e1 := if temp > 0xFF then CarryOut(e).(buffer := temp % 256)
              else if temp == 0xFF then e.(sc := e.sc + 1)
              else FlushHeld(e).(buffer := temp);
    e1.(c := e.c % 0x80000, ct := e.ct + 8)
  }

  lemma ShiftKeepsSpacing(c: int, a: int, ct: nat)
    requires 0 <= c && 0 < a < 0x8000 && 1 <= ct && Spaced(c, a, ct)
    ensures Spaced(2 * c, 2 * a, ct - 1)
    ensures ct == 1 ==> 2 * c <= 0x9000000 && Spaced(2 * c % 0x80000, 2 * a, 8)
  {
    assert 2 * (c + a) == 2 * c + 2 * a;
    if ct == 1 {
      ShlByte(2 * c % 0x80000 + 2 * a);
    }
  }

  function RenormStep(e: Enc): (r: Enc)
    requires Regs(e) && e.a < 0x8000
    ensures Regs(r) && r.a == 2 * e.a
  {
    ShiftKeepsSpacing(e.c, e.a, e.ct);
    var s := e.(c := 2 * e.c, a := 2 * e.a, ct := e.ct - 1);
    if s.ct == 0 then ByteOut(s) else s
  }

  function Renorm(e: Enc): (r: Enc)
    requires Regs(e)
    ensures Normal(r)
    decreases 0x10000 - e.a
  {
    if e.a >= 0x8000 then e else Renorm(RenormStep(e))
  }

  function Select(e: Enc, ch: Choice): (r: Enc)
    requires Regs(e) && 0 < ch.width && ch.offset + ch.width <= e.a
    ensures Regs(r)
  {
    ShlMonotone(e.c + ch.offset + ch.width, e.c + e.a, e.ct);
    e.(c := e.c + ch.offset, a := ch.width)
  }

  function EncodeBit(m: Machine, e: Enc, s: BinState, val: Bit): (r: (Enc, BinState))
    requires Normal(e)
    ensures Normal(r.0)
  {
    var ch := EncodeChoice(m, e.a, s, val);
    (Renorm(Select(e, ch)), ch.bin)
  }

  lemma HalfMultiple(lo: int, a: int)
    requires 0x8000 <= a <= 0x10000
    ensures var t := (a - 1 + lo) / 0x10000 * 0x10000;
            t < lo + a && t % 0x8000 == 0
            && (t < lo ==> t + 0x8000 < lo + a && lo <= t + 0x8000 && (t + 0x8000) % 0x8000 == 0)
  {
    var q := (a - 1 + lo) / 0x10000;
    assert q * 0x10000 == 0x8000 * (2 * q) && q * 0x10000 + 0x8000 == 0x8000 * (2 * q + 1);
  }

  // Figure D.1.8: the value in the interval with the most trailing zero bits.
  function FinalC(e: Enc): (c: int)
    requires Normal(e)
    ensures e.c <= c < e.c + e.a && c % 0x8000 == 0
  {
    HalfMultiple(e.c, e.a);
    var temp := (e.a - 1 + e.c) / 0x10000 * 0x10000;
    if temp < e.c then temp + 0x8000 else temp
  }

  // The last two bytes, after the pending zeros, unless they are zero.
  function FinalBytes(e: Enc): seq<byte>
    requires e.c >= 0 && e.zc >= 0
  {
    var first := e.c / 0x80000 % 256;
    var second := e.c / 0x800 % 256;
    if first == 0 && second == 0 then e.emitted
    else EmitZeros(e).emitted + [first] + (if second == 0 then [] else [second])
  }

  function Finish(e: Enc): seq<byte>
    requires Normal(e)
  {
    var c := Shl(FinalC(e), e.ct);
    ShlNonNegative(FinalC(e), e.ct);
    FinalBytes(if c >= 0x8000000 then CarryOut(e.(c := c)) else FlushHeld(e.(c := c)))
  }

  // ---- decoder ----

  datatype Dec = Dec(c: int, a: int, ct: int, src: Source)

  function DecStart(src: Source): Dec {
    Dec(0, 0, -16, src)
  }

  // Before the first decision the two initial bytes are still missing and A is 0.
  predicate DecRegs(d: Dec) {
    || (0 < d.a <= 0x10000 && 0 <= d.ct <= 7)
    || (d.a == 0 && d.c == 0 && d.ct == -16)
    || (d.a == 0 && 0 <= d.c < 256 && d.ct == -8)
  }

  // One round of the renormalisation loop.
  function Refill(d: Dec): (r: Option<Dec>)
    requires DecRegs(d) && d.a < 0x8000
    ensures r.Some? ==> DecRegs(r.value)
    ensures r.Some? && d.a > 0 ==> r.value.a == 2 * d.a
    ensures r.Some? && d.a == 0 ==> (r.value.a == 0 && r.value.ct > d.ct) || r.value.a == 0x10000
  {
    var ct := d.ct - 1;
    if ct >= 0 then Some(d.(ct := ct, a := 2 * d.a))
    else match NextData(d.src)
      case None => None
      case Some((data, src)) =>
        var c := d.c * 256 + data;
        if ct + 8 >= 0 then Some(Dec(c, 2 * d.a, ct + 8, src))
        else if ct + 9 == 0 then Some(Dec(c, 0x10000, 0, src))
        else Some(Dec(c, 2 * d.a, ct + 9, src))
  }

  function Ready(d: Dec): (r: Option<Dec>)
    requires DecRegs(d)
    ensures r.Some? ==> DecRegs(r.value) && r.value.a >= 0x8000
    decreases 0x10000 - d.a, -d.ct
  {
    if d.a >= 0x8000 then Some(d)
    else match Refill(d)
      case None => None
      case Some(d') => Ready(d')
  }

  datatype Decoded = Decoded(dec: Dec, bin: BinState, val: Bit)

  function DecodeReady(m: Machine, n: Dec, s: BinState): (r: Decoded)
    requires DecRegs(n) && n.a >= 0x8000
    ensures DecRegs(r.dec) && r.dec.a > 0
  {
    var rest := n.a - m[s % 128].qe;
    var cut := Shl(rest, n.ct);
    var (ch, val) := DecodeChoice(m, n.a, s, n.c >= cut);
    Decoded(n.(c := if n.c >= cut then n.c - cut else n.c, a := ch.width), ch.bin, val)
  }

  function DecodeBit(m: Machine, d: Dec, s: BinState): (r: Option<Decoded>)
    requires DecRegs(d)
    ensures r.Some? ==> DecRegs(r.value.dec) && r.value.dec.a > 0
  {
    match Ready(d)
    case None => None
    case Some(n) => Some(DecodeReady(m, n, s))
  }

  // ---- register ranges of the decoder, on any data ----

  // C stays below A shifted to the floating cut-point, hence below 2^23: the
  // 32-bit register cannot overflow, even on corrupt data.
  predicate Below(d: Dec) {
    d.a > 0 ==> 0 <= d.ct <= 7 && 0 <= d.c < Shl(d.a, d.ct)
  }

  lemma RefillKeepsBelow(d: Dec)
    requires DecRegs(d) && Below(d) && d.a < 0x8000 && Refill(d).Some?
    ensures Below(Refill(d).value)
  {
    ShlByte(2 * d.a);
  }

  lemma {:induction false} ReadyKeepsBelow(d: Dec)
    requires DecRegs(d) && Below(d) && Ready(d).Some?
    ensures Below(Ready(d).value)
    decreases 0x10000 - d.a, -d.ct
  {
    if d.a < 0x8000 {
      RefillKeepsBelow(d);
      ReadyKeepsBelow(Refill(d).value);
    }
  }

  lemma DecodeBitKeepsBelow(m: Machine, d: Dec, s: BinState)
    requires DecRegs(d) && Below(d) && DecodeBit(m, d, s).Some?
    ensures Below(DecodeBit(m, d, s).value.dec) && DecodeBit(m, d, s).value.dec.c < 0x800000
  {
    ReadyKeepsBelow(d);
    var n := Ready(d).value;
    var rest := n.a - m[s % 128].qe;
    ShlAdd(rest, n.a - rest, n.ct);
    var r := DecodeReady(m, n, s).dec;
    ShlMonotone(r.a, 0x10000, r.ct);
    ShlGrows(0x10000, r.ct, 7);
    ShlByte(0x10000);
  }
}

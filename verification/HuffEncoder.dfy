// The bit output of the Huffman encoder, and its statistics pass (jchuff.c).

module HuffEncoder {
  import opened Prelude
  import opened ByteStream
  import opened HuffBits

  // ---- the bit buffer ----

  // The left-justified 24 bits of put_buffer hold n bits, the low bits of q; above
  // them there may be up to 8 bits that no longer matter.
  predicate Holds(putBuffer: nat, n: nat, q: nat) {
    n <= 24 && putBuffer == Shl(q, 24 - n) && q < Shl(1, 8 + n)
  }

  // Merging size new bits.
  lemma MergeBits(putBuffer: nat, n: nat, q: nat, code: int, size: nat)
    requires Holds(putBuffer, n, q) && n + size <= 24
    ensures Low(code, size) < Shl(1, size) && Shl(q, size) >= 0
    ensures Shl(Low(code, size), 24 - (n + size)) + putBuffer == Shl(Shl(q, size) + Low(code, size), 24 - (n + size))
    ensures 0 <= Shl(Low(code, size), 24 - (n + size)) < Shl(1, 24 - n)
    ensures Shl(q, size) + Low(code, size) < Shl(1, 8 + (n + size))
  {
    var m := 24 - (n + size);
    ShlNonNegative(q, size);
    LowBound(code, size);
    ShlShl(q, size, m);
    ShlAdd(Shl(q, size), Low(code, size), m);
    ShlNonNegative(Low(code, size), m);
    ShlShl(1, size, m);
    ShlMonotone(Low(code, size), Shl(1, size), m);
    ShlMonotone(q + 1, Shl(1, 8 + n), size);
    ShlAdd(q, 1, size);
    ShlShl(1, 8 + n, size);
  }

  // The first 8 of n bits: (x >> (n - 8)) & 0xFF.
  function TopByte(x: nat, n: nat): byte
    requires n >= 8
  {
    LowBound(Shr(x, n - 8), 8);
    ShlByte(1);
    Low(Shr(x, n - 8), 8)
  }

  // x << 8 in 32 bits.
  function Shifted(x: nat): nat {
    Low(Shl(x, 8), 32)
  }

  // Shifting out the first 8 bits.
  lemma ShiftOut(putBuffer: nat, n: nat, q: nat)
    requires Holds(putBuffer, n, q) && n >= 8
    ensures TopByte(putBuffer, 24) == TopByte(q, n)
    ensures Holds(Shifted(putBuffer), n - 8, Low(q, n))
  {
    ShrShl24(q, n);
    ShlShl(q, 24 - n, 8);
    LowShl(q, 32 - n, n);
    LowBound(q, n);
  }

  lemma ShrShl24(q: nat, n: nat)
    requires 8 <= n <= 24
    ensures Shr(Shl(q, 24 - n), 16) == Shr(q, n - 8)
  {
    ShrOfShl(q, 24 - n);
    ShrShr(Shl(q, 24 - n), 24 - n, n - 8);
  }

  lemma {:induction false} LowShl(x: int, a: nat, b: nat)
    ensures Low(Shl(x, a), a + b) == Shl(Low(x, b), a)
    decreases a
  {
    if a > 0 {
      ShlDouble(x, a - 1);
      LowShl(x, a - 1, b);
      ShlDouble(Low(x, b), a - 1);
    }
  }

  // The first byte of held bits.
  lemma FirstByte(q: nat, n: nat, rest: Bits)
    requires n >= 8
    ensures Bytes(PutBits(q, n, rest)) == [TopByte(q, n)] + Bytes(PutBits(Low(q, n), n - 8, rest))
  {
    TakePut(q, n, rest, 8);
    DropPut(q, n, rest, 8);
    PutLowOnly(q, n, n - 8, rest);
    BytesStep(PutBits(q, n, rest));
  }

  lemma BytesStep(bits: Bits)
    requires Length(bits) >= 8
    ensures Take(bits, 8) < 256 && Bytes(bits) == [Take(bits, 8)] + Bytes(Drop(bits, 8))
  {
    TakeBound(bits, 8);
  }

  // The output so far, the n held bits q and the bits behind them make up goal. Closed.
  ghost predicate Coming(out: seq<byte>, q: nat, n: nat, lay: Bits, goal: seq<byte>) {
    forall k :: Focus(2, k) ==> out + Stuff(Bytes(PutBits(q, n, lay))) == goal
  }

  lemma ComingStep(out: seq<byte>, q: nat, n: nat, lay: Bits, goal: seq<byte>)
    requires n >= 8 && Coming(out, q, n, lay, goal)
    ensures Coming(out + Stuffed(TopByte(q, n)), Low(q, n), n - 8, lay, goal)
  {
    assert Focus(2, 0);
    FirstByte(q, n, lay);
    StuffedOut(out, TopByte(q, n), Bytes(PutBits(Low(q, n), n - 8, lay)));
  }

  lemma StuffedOut(out: seq<byte>, b: byte, rest: seq<byte>)
    ensures out + Stuff([b] + rest) == out + Stuffed(b) + Stuff(rest)
  {
    StuffFirst(b, rest);
  }

  lemma EightLess(n: nat)
    requires n >= 8
    ensures (n - 8) % 8 == n % 8
  {
  }

  lemma StuffFirst(b: byte, data: seq<byte>)
    ensures Stuff([b] + data) == Stuffed(b) + Stuff(data)
  {
    assert ([b] + data)[1..] == data;
  }

  class HuffEncoder {
    const tables: Tables
    // Statistics only: symbols are counted and nothing is put out.
    const gather: bool
    const counts: array2<nat>
    var putBuffer: nat
    var putBits: nat
    var out: seq<byte>

    // A forecast, for specification only: the tokens still to be emitted in the present
    // segment, the bits held back, and the resulting output or counts.
    ghost var plan: Tokens
    ghost var held: nat
    ghost var goal: seq<byte>
    ghost var tally: seq<seq<nat>>
    // Whether nothing in the plan lacks a code.
    ghost var sound: bool

    ghost predicate Valid()
      reads this, counts
    {
      && HuffBits.SizesOk(tables) && counts.Length0 == 8 && counts.Length1 == 257
      && forall k :: Focus(1, k) ==>
           (if gather then Counting() else Writing()) && (sound && !gather ==> Coded(tables, plan))
    }

    ghost predicate Counting()
      reads this, counts
      requires counts.Length0 == 8 && counts.Length1 == 257
    {
      && |tally| == 8 && (forall i :: 0 <= i < 8 ==> |tally[i]| == 256)
      && forall i, s :: 0 <= i < 8 && 0 <= s < 256 ==> counts[i, s] + Tally(plan, i, s) == tally[i][s]
    }

    ghost predicate Writing()
      reads this
      requires TablesOk(tables)
    {
      putBits < 8 && Holds(putBuffer, putBits, held) && Coming(out, held, putBits, Lay(tables, putBits, plan), goal)
    }

    // What emitting does apart from its effect on the output.
    twostate predicate Emitted(new rest: Tokens)
      reads this, counts
    {
      Valid() && plan == rest && goal == old(goal) && tally == old(tally) && sound == old(sound)
    }

    constructor (tabs: Tables, statistics: bool, destination: seq<byte>)
      requires SizesOk(tabs)
      ensures Valid() && tables == tabs && gather == statistics && fresh(counts)
      ensures plan == Nil && out == destination && putBits == 0
      ensures forall i, s :: 0 <= i < 8 && 0 <= s < 257 ==> counts[i, s] == 0
    {
      tables, gather := tabs, statistics;
      counts := new nat[8, 257]((_, _) => 0);
      putBuffer, putBits, out := 0, 0, destination;
      plan, held, goal, sound := Nil, 0, destination, true;
      tally := seq(8, _ => seq(256, _ => 0));
      new;
      ShlAdd(0, 0, 24);
    }

    method EmitByte(b: byte)
      modifies this`out
      ensures out == old(out) + [b]
    {
      out := out + [b];
    }

    // Emit some bits, unless in gather mode; fails on size 0, which an unused symbol has.
    method EmitBits(code: int, size: nat, ghost t: Token) returns (ok: bool)
      requires Valid() && size <= 16 && plan.Cons? && plan.head == t
      requires !gather ==> TokenSize(tables, t) == size && Low(TokenCode(tables, t), size) == Low(code, size)
      requires gather ==> t.Val?
      modifies this
      ensures ok == (size != 0) && (ok ==> Emitted(old(plan).tail))
    {
      if size == 0 {
        return false;
      }
      assert Focus(1, 0);
      ok := true;
      if gather {
        plan := plan.tail;
        return;
      }
      ghost var rest := plan.tail;
      ghost var lay := LayFirst(tables, putBits, t, rest, code, size);
      AppendBits(code, size, lay);
      plan := rest;
    }

    // Merge bits into the buffer and put out whole bytes.
    method AppendBits(code: int, size: nat, ghost lay: Bits)
      requires size <= 16 && putBits < 8 && Holds(putBuffer, putBits, held)
      requires Coming(out, held, putBits, PutBits(code, size, lay), goal)
      modifies this`putBuffer, this`putBits, this`out, this`held
      ensures putBits == (old(putBits) + size) % 8 && Holds(putBuffer, putBits, held)
      ensures Coming(out, held, putBits, lay, goal)
    {
      MergeBits(putBuffer, putBits, held, code, size);
      PutJoined(held, putBits, code, size, lay);
      var buffer: nat := Low(code, size);
      var bits := putBits + size;
      // The old bits and the new ones do not overlap, so adding is or-ing.
      buffer := Shl(buffer, 24 - bits) + putBuffer;
      held := Shl(held, size) + Low(code, size);
      WriteBytes(buffer, bits, lay);
    }

    // Emit a symbol, or count it. Fails when the symbol has no code.
    method EmitSymbol(tbl: nat, symbol: byte) returns (ok: bool)
      requires Valid() && tbl < 8 && plan.Cons? && plan.head == Sym(tbl, symbol)
      modifies this, counts
      ensures ok == (gather || tables[tbl].ehufsi[symbol] != 0) && (ok ==> Emitted(old(plan).tail))
              && (old(sound) ==> ok)
    {
      if sound {
        assert Focus(1, 0);
      }
      if gather {
        assert Focus(1, 0);
        counts[tbl, symbol] := counts[tbl, symbol] + 1;
        plan := plan.tail;
        ok := true;
      } else {
        ok := EmitBits(tables[tbl].ehufco[symbol], tables[tbl].ehufsi[symbol], plan.head);
      }
    }

    // Count a symbol, and the value bits behind it if there are any.
    method Count(tbl: nat, symbol: byte)
      requires Valid() && gather && tbl < 8 && plan.Cons? && plan.head == Sym(tbl, symbol)
      modifies this`plan, counts
      ensures Emitted(if old(plan).tail.Cons? && old(plan).tail.head.Val? then old(plan).tail.tail else old(plan).tail)
    {
      assert Focus(1, 0);
      counts[tbl, symbol] := counts[tbl, symbol] + 1;
      plan := plan.tail;
      assert Counting();
      if plan.Cons? && plan.head.Val? {
        assert forall i, s :: Tally(plan, i, s) == Tally(plan.tail, i, s);
        plan := plan.tail;
      }
    }

    // The size low bits of a value.
    method EmitValue(code: int, size: nat)
      requires Valid() && 1 <= size <= 16 && plan.Cons? && plan.head == Val(Low(code, size), size)
      modifies this
      ensures Emitted(old(plan).tail)
    {
      LowLow(code, size);
      var ok := EmitBits(code, size, plan.head);
    }

    // Fill any partial byte with ones: this completes the output of the segment.
    method FlushBits()
      requires Valid() && !gather && plan == Nil
      modifies this
      ensures Valid() && plan == Nil && out == goal == old(goal) && putBits == 0 && sound == old(sound)
    {
      assert Focus(1, 0);
      FlushSame(out, held, putBits, tables, goal);
      AppendBits(0x7F, 7, Nil);
      ComingDone(out, held, putBits, goal);
      putBuffer, putBits := 0, 0;
      held := 0;
      ShlAdd(0, 0, 24);
    }

    // A marker between segments.
    method EmitMarker(code: byte)
      requires Valid() && !gather && plan == Nil && putBits == 0 && out == goal
      modifies this`out, this`goal
      ensures Valid() && out == goal == old(out) + [0xFF, code]
    {
      assert Focus(1, 0) && Focus(2, 0);
      EmitByte(0xFF);
      EmitByte(code);
      goal := out;
    }

    // With nothing left to count the counts are the forecast ones.
    lemma AllCounted()
      requires Valid() && gather && plan == Nil
      ensures |tally| == 8 && forall i :: 0 <= i < 8 ==> |tally[i]| == 256
      ensures forall i, s :: 0 <= i < 8 && 0 <= s < 256 ==> counts[i, s] == tally[i][s]
    {
      assert Focus(1, 0);
    }

    // Begin a segment that codes ts.
    method Announce(ghost ts: Tokens)
      requires Valid() && (!gather ==> putBits == 0) && plan == Nil
      modifies this`plan, this`goal, this`tally, this`sound
      ensures Valid() && plan == ts && sound == (gather || Coded(tables, ts))
      ensures !gather ==> goal == out + Stuff(Data(tables, ts))
      ensures |tally| == 8 && forall i :: 0 <= i < 8 ==> |tally[i]| == 256
      ensures gather ==> forall i, s :: 0 <= i < 8 && 0 <= s < 256 ==> tally[i][s] == counts[i, s] + Tally(ts, i, s)
    {
      assert Focus(1, 0);
      plan, sound := ts, gather || Coded(tables, ts);
      goal := out + Stuff(Data(tables, ts));
      tally := seq(8, (i: nat) requires i < 8 && counts.Length0 == 8 && counts.Length1 == 257 reads this, counts =>
                   TallyRow(ts, i));
    }

    // The counts of table i once ts is counted too.
    ghost function TallyRow(ts: Tokens, i: nat): (r: seq<nat>)
      requires i < 8 && counts.Length0 == 8 && counts.Length1 == 257
      reads this, counts
      ensures |r| == 256 && forall s :: 0 <= s < 256 ==> r[s] == counts[i, s] + Tally(ts, i, s)
    {
      seq(256, (s: nat) requires s < 256 reads this, counts requires counts.Length0 == 8 && counts.Length1 == 257 =>
        counts[i, s] + Tally(ts, i, s))
    }

    // Put out whole bytes, with stuffed zeros.
    method WriteBytes(buffer: nat, bits: nat, ghost lay: Bits)
      requires bits <= 23 && Holds(buffer, bits, held) && Coming(out, held, bits, lay, goal)
      modifies this`putBuffer, this`putBits, this`out, this`held
      ensures putBits == bits % 8 && Holds(putBuffer, putBits, held) && Coming(out, held, putBits, lay, goal)
    {
      putBuffer, putBits := buffer, bits;
      while putBits >= 8
        invariant putBits <= bits <= 23 && putBits % 8 == bits % 8
        invariant Holds(putBuffer, putBits, held) && Coming(out, held, putBits, lay, goal)
      {
        ShiftOut(putBuffer, putBits, held);
        ComingStep(out, held, putBits, lay, goal);
        EightLess(putBits);
        var c := TopByte(putBuffer, 24);
        EmitData(c);
        held := Low(held, putBits);
        putBuffer := Shifted(putBuffer);
        putBits := putBits - 8;
      }
    }

    // A data byte, and a stuffed zero behind 0xFF.
    method EmitData(c: byte)
      modifies this`out
      ensures out == old(out) + Stuffed(c)
    {
      EmitByte(c);
      if c == 0xFF {
        EmitByte(0);
      }
    }
  }

  // Seven ones fill up a partial byte, as the padding of Lay does; more is dropped.
  lemma FlushSame(out: seq<byte>, q: nat, n: nat, tabs: Tables, goal: seq<byte>)
    requires TablesOk(tabs) && n < 8 && Coming(out, q, n, Lay(tabs, n, Nil), goal)
    ensures Coming(out, q, n, PutBits(0x7F, 7, Nil), goal)
  {
    assert Focus(2, 0);
    if n == 0 {
      PutLength(0x7F, 7, Nil);
    } else {
      PutOnes(8 - n, n - 1, Nil);
      OneByte(q, n, PutBits(0x7F, n - 1, Nil));
      OneByte(q, n, Nil);
      PutLength(0x7F, n - 1, Nil);
    }
  }

  lemma OneByte(q: nat, n: nat, rest: Bits)
    requires 1 <= n < 8 && Length(rest) < 8
    ensures Shl(q, 8 - n) >= 0
    ensures Bytes(PutBits(q, n, PutBits(0x7F, 8 - n, rest))) == [TopByte(Shl(q, 8 - n) + Low(0x7F, 8 - n), 8)]
  {
    ByteOf(q, n, 0x7F, 8 - n, rest);
  }

  lemma ByteOf(q: nat, n: nat, v: nat, m: nat, rest: Bits)
    requires n + m == 8 && Length(rest) < 8
    ensures Shl(q, m) >= 0
    ensures Bytes(PutBits(q, n, PutBits(v, m, rest))) == [TopByte(Shl(q, m) + Low(v, m), n + m)]
  {
    ShlNonNegative(q, m);
    PutJoined(q, n, v, m, rest);
    SameByte(PutBits(q, n, PutBits(v, m, rest)), Shl(q, m) + Low(v, m), n + m, rest);
  }

  lemma SameByte(bits: Bits, q: nat, n: nat, rest: Bits)
    requires n == 8 && Length(rest) < 8 && bits == PutBits(q, n, rest)
    ensures Bytes(bits) == [TopByte(q, n)]
  {
    WholeByte(q, n, rest);
  }

  lemma WholeByte(q: nat, n: nat, rest: Bits)
    requires n == 8 && Length(rest) < 8
    ensures Bytes(PutBits(q, n, rest)) == [TopByte(q, n)]
  {
    FirstByte(q, n, rest);
    assert PutBits(Low(q, n), n - 8, rest) == rest;
  }

  lemma {:induction false} PutOnes(a: nat, b: nat, rest: Bits)
    requires a + b <= 7
    ensures PutBits(0x7F, a, PutBits(0x7F, b, rest)) == PutBits(0x7F, a + b, rest)
    decreases a
  {
    if a > 0 {
      PutOnes(a - 1, b, rest);
      BitOfOnes(a - 1);
      BitOfOnes(a + b - 1);
    }
  }

  function AllOnes(n: nat): nat {
    if n == 0 then 0 else 2 * AllOnes(n - 1) + 1
  }

  lemma {:induction false} OnesShifted(n: nat, i: nat)
    requires i < n
    ensures Shr(AllOnes(n), i) % 2 == 1
    decreases i
  {
    if i > 0 {
      assert AllOnes(n) / 2 == AllOnes(n - 1);
      OnesShifted(n - 1, i - 1);
    }
  }

  lemma BitOfOnes(i: nat)
    requires i < 7
    ensures Shr(0x7F, i) % 2 == 1
  {
    OnesShifted(7, i);
    assert AllOnes(7) == 0x7F;
  }

  lemma ComingDone(out: seq<byte>, q: nat, n: nat, goal: seq<byte>)
    requires n < 8 && Coming(out, q, n, Nil, goal)
    ensures out == goal
  {
    assert Focus(2, 0);
    PutLength(q, n, Nil);
  }

  lemma LayFirst(tabs: Tables, k: nat, t: Token, rest: Tokens, code: int, size: nat) returns (lay: Bits)
    requires TablesOk(tabs) && k < 8 && TokenSize(tabs, t) == size && Low(TokenCode(tabs, t), size) == Low(code, size)
    ensures lay == Lay(tabs, (k + size) % 8, rest) && Lay(tabs, k, Cons(t, rest)) == PutBits(code, size, lay)
  {
    lay := Lay(tabs, (k + size) % 8, rest);
    PutSame(TokenCode(tabs, t), code, size, lay);
  }

  // Values that agree in the low n bits put the same bits.
  lemma PutSame(a: int, b: int, n: nat, rest: Bits)
    requires Low(a, n) == Low(b, n)
    ensures PutBits(a, n, rest) == PutBits(b, n, rest)
  {
    ShlAdd(0, 0, n);
    PutLow(0, a, n, n, rest);
    PutLow(0, b, n, n, rest);
  }
}

// Bit fetching and symbol decoding of the Huffman decoder (jdhuff.c), with a data
// source that may run dry at any byte.

module HuffReader {
  import opened Prelude
  import opened ByteStream
  import opened HuffBits

  // ---- what a source holds ----

  // The data bytes up to the next marker, or up to the end.
  function DataBytes(bytes: seq<byte>): seq<byte>
    decreases |bytes|
  {
    match NextData(Source(bytes, 0))
    case None => []
    case Some((b, src)) =>
      NextDataShrinks(bytes);
      if src.marker != 0 then [] else [b] + DataBytes(src.bytes)
  }

  // That marker and what follows it.
  function DataEnd(bytes: seq<byte>): Option<(byte, seq<byte>)>
    decreases |bytes|
  {
    match NextData(Source(bytes, 0))
    case None => None
    case Some((b, src)) =>
      NextDataShrinks(bytes);
      if src.marker != 0 then Some((src.marker, src.bytes)) else DataEnd(src.bytes)
  }

  lemma NextDataShrinks(bytes: seq<byte>)
    ensures NextData(Source(bytes, 0)).Some? ==> |NextData(Source(bytes, 0)).value.1.bytes| < |bytes|
    ensures NextData(Source(bytes, 0)).Some? ==> NextData(Source(bytes, 0)).value.1.marker != 0xFF
  {
  }

  // A stream in front of a marker holds its data.
  lemma {:induction false} DataOfStream(t: seq<byte>, marker: byte, after: seq<byte>)
    requires IsMarker(marker)
    ensures DataBytes(Stuff(t) + [0xFF, marker] + after) == t
    ensures DataEnd(Stuff(t) + [0xFF, marker] + after) == Some((marker, after))
  {
    var bytes := Stuff(t) + [0xFF, marker] + after;
    if t == [] {
      NextDataAtMarker(Source(bytes, 0), marker, after);
    } else {
      var tail := Stuff(t[1..]) + [0xFF, marker] + after;
      assert bytes == Stuffed(t[0]) + tail;
      NextDataByte(Source(bytes, 0), t[0], tail);
      DataOfStream(t[1..], marker, after);
    }
  }

  // More bytes behind do not change the next one.
  lemma {:induction false} SkipFillExtends(x: seq<byte>, y: seq<byte>)
    requires SkipFill(x).Some?
    ensures SkipFill(x + y) == Some((SkipFill(x).value.0, SkipFill(x).value.1 + y))
    decreases |x|
  {
    assert (x + y)[1..] == x[1..] + y;
    if x[0] == 0xFF {
      SkipFillExtends(x[1..], y);
    }
  }

  lemma NextDataExtends(x: seq<byte>, y: seq<byte>)
    requires NextData(Source(x, 0)).Some?
    ensures var r := NextData(Source(x, 0)).value;
            NextData(Source(x + y, 0)) == Some((r.0, Source(r.1.bytes + y, r.1.marker)))
  {
    assert (x + y)[1..] == x[1..] + y;
    if x[0] == 0xFF {
      SkipFillExtends(x[1..], y);
    }
  }

  // What next_marker keeps for the next attempt when it has to suspend: garbage that it
  // has skipped is gone.
  function Held(bytes: seq<byte>): (r: seq<byte>)
    ensures |r| <= |bytes|
    decreases |bytes|
  {
    if bytes == [] then []
    else if bytes[0] != 0xFF then Held(bytes[1..])
    else match SkipFill(bytes[1..])
      case None => bytes
      case Some((b, rest)) => if b == 0 then Held(rest) else bytes
  }

  // Suspending does not change which marker is found.
  lemma {:induction false} HeldFinds(x: seq<byte>, y: seq<byte>)
    requires FindMarker(x) == None
    ensures FindMarker(x + y) == FindMarker(Held(x) + y)
    decreases |x|
  {
    if x == [] {
      assert x + y == y;
    } else if x[0] != 0xFF {
      assert (x + y)[1..] == x[1..] + y;
      AfterOther(x);
      AfterOther(x + y);
      HeldFinds(x[1..], y);
    } else {
      match SkipFill(x[1..])
      case None =>
      case Some((b, rest)) =>
        assert (x + y)[1..] == x[1..] + y;
        SkipFillExtends(x[1..], y);
        if b == 0 {
          HeldFinds(rest, y);
        }
    }
  }

  lemma AfterOther(x: seq<byte>)
    requires x != [] && x[0] != 0xFF
    ensures FindMarker(x) == FindMarker(x[1..])
  {
  }

  // With all data read, the next marker is the one at the end.
  lemma MarkerNext(x: seq<byte>, y: seq<byte>, marker: byte, after: seq<byte>)
    requires DataBytes(x + y) == [] && DataEnd(x + y) == Some((marker, after))
    ensures FindMarker(x) == None ==> Held(x) == x && y != []
    ensures FindMarker(x).Some? ==> FindMarker(x).value.0 == marker && FindMarker(x).value.1 + y == after
  {
    assert y == [] ==> x + y == x;
    if x != [] {
      assert (x + y)[1..] == x[1..] + y;
      if SkipFill(x[1..]).Some? {
        SkipFillExtends(x[1..], y);
      }
    } else {
      assert x + y == y;
    }
  }

  // How the data of x + y begins, if its first byte has arrived in x; tail is the rest.
  ghost predicate Begins(x: seq<byte>, y: seq<byte>, tail: seq<byte>) {
    match NextData(Source(x, 0))
    case None => true
    case Some((b, src)) =>
      if src.marker != 0 then
        && DataBytes(x + y) == [] && DataEnd(x + y) == Some((src.marker, src.bytes + y)) && src.marker != 0xFF
      else
        && DataBytes(x + y) == [b] + tail && tail == DataBytes(src.bytes + y)
        && DataEnd(x + y) == DataEnd(src.bytes + y)
  }

  // Reading one byte of what has arrived.
  lemma NextByte(x: seq<byte>, y: seq<byte>) returns (tail: seq<byte>)
    ensures Begins(x, y, tail)
  {
    tail := [];
    NextDataShrinks(x);
    if NextData(Source(x, 0)).Some? {
      NextDataExtends(x, y);
      tail := DataBytes(NextData(Source(x, 0)).value.1.bytes + y);
    }
  }

  // ---- bits of the buffer ----

  // More bits at the end.
  ghost predicate Prefix(old': Bits, new': Bits) {
    Length(old') <= Length(new') && forall k :: 0 <= k <= Length(old') ==> Take(new', k) == Take(old', k)
  }

  // w bits enter a buffer of m bits.
  lemma LoadBits(g: nat, n: nat, c: nat, w: nat, m: nat, rest: Bits)
    requires n + w <= m && c < Shl(1, w)
    ensures Shl(g, w) >= 0
    ensures PutBits(Low(Shl(g, w) + c, m), n + w, rest) == PutBits(g, n, PutBits(c, w, rest))
  {
    ShlNonNegative(g, w);
    LowSmall(c, w);
    PutJoined(g, n, c, w, rest);
    PutLowOnly(Shl(g, w) + c, m, n + w, rest);
  }

  lemma LoadByte(g: nat, n: nat, c: byte, rest: Bits)
    requires n <= 24
    ensures PutBits(In32(256 * g + c), n + 8, rest) == PutBits(g, n, ByteBits(c, rest))
  {
    LoadEight(g, n, c, 8, 32, rest);
  }

  lemma LoadEight(g: nat, n: nat, c: byte, w: nat, m: nat, rest: Bits)
    requires n + w <= m && w == 8
    ensures PutBits(Low(256 * g + c, m), n + w, rest) == PutBits(g, n, PutBits(c, w, rest))
  {
    ShlByte(g);
    ShlByte(1);
    LoadBits(g, n, c, w, m, rest);
  }

  function ZeroBits(n: nat): Bits {
    if n == 0 then Nil else Cons(0, ZeroBits(n - 1))
  }

  // The bits, and n zeros behind them.
  function ZerosBehind(bits: Bits, n: nat): Bits {
    match bits
    case Nil => ZeroBits(n)
    case Cons(b, rest) => Cons(b, ZerosBehind(rest, n))
  }

  lemma {:induction false} ZerosShifted(g: nat, n: nat, d: nat)
    requires n + d <= 32
    ensures Shl(g, d) >= 0 && PutBits(In32(Shl(g, d)), n + d, Nil) == ZerosBehind(PutBits(g, n, Nil), d)
  {
    ShlNonNegative(g, d);
    ShlNonNegative(1, d);
    LoadBits(g, n, 0, d, 32, Nil);
    PutZeros(d);
    PutBehind(g, n, d);
  }

  lemma {:induction false} PutBehind(g: nat, n: nat, d: nat)
    ensures PutBits(g, n, ZeroBits(d)) == ZerosBehind(PutBits(g, n, Nil), d)
    decreases n
  {
    if n > 0 {
      PutBehind(g, n - 1, d);
    }
  }

  lemma {:induction false} PutZeros(d: nat)
    ensures PutBits(0, d, Nil) == ZeroBits(d)
    decreases d
  {
    if d > 0 {
      PutZeros(d - 1);
      ShrZero(d - 1);
    }
  }

  lemma {:induction false} ShrZero(n: nat)
    ensures Shr(0, n) == 0
    decreases n
  {
    if n > 0 {
      ShrZero(n - 1);
    }
  }

  // Zero bits enter the buffer.
  lemma LoadZeros(g: nat, n: nat, d: nat)
    requires n + d <= 32
    ensures Shl(g, d) >= 0
    ensures Prefix(PutBits(g, n, Nil), PutBits(In32(Shl(g, d)), n + d, Nil))
    ensures Length(PutBits(In32(Shl(g, d)), n + d, Nil)) == n + d
  {
    ShlNonNegative(g, d);
    PutLowOnly(Shl(g, d), 32, n + d, Nil);
    PutLength(g, n, Nil);
    PutLength(Shl(g, d), n + d, Nil);
    forall k | 0 <= k <= n
      ensures Take(PutBits(Shl(g, d), n + d, Nil), k) == Take(PutBits(g, n, Nil), k)
    {
      TakePut(g, n, Nil, k);
      TakePut(Shl(g, d), n + d, Nil, k);
      ShrOfShl(g, d);
      ShrShr(Shl(g, d), d, n - k);
    }
  }

  lemma ZerosLoaded(g: nat, n: nat, d: nat, m: nat)
    requires n + d == m <= 32
    ensures Shl(g, d) >= 0
    ensures var old', new' := PutBits(g, n, Nil), PutBits(In32(Shl(g, d)), m, Nil);
            Prefix(old', new') && Length(new') == m && new' == ZerosBehind(old', d)
  {
    LoadZeros(g, n, d);
    ZerosShifted(g, n, d);
  }

  datatype Fetched = Starved | DataByte(b: byte) | AtMarker

  class BitReader {
    var getBuffer: nat
    var bitsLeft: nat
    var input: seq<byte>
    var unreadMarker: byte
    var insufficientData: bool
    // For specification only: what the source will deliver once input is used up.
    ghost var future: seq<byte>

    ghost predicate Valid()
      reads this
    {
      bitsLeft <= 32 && unreadMarker != 0xFF
    }

    // All bits up to the marker, and the marker with what follows it.
    ghost function Ahead(): Bits
      reads this
    {
      PutBits(getBuffer, bitsLeft, BytesBits(if unreadMarker != 0 then [] else DataBytes(input + future)))
    }

    ghost function Ending(): Option<(byte, seq<byte>)>
      reads this
    {
      if unreadMarker != 0 then Some((unreadMarker, input + future)) else DataEnd(input + future)
    }

    constructor (source: seq<byte>, ghost later: seq<byte>)
      ensures Valid() && input == source && future == later && getBuffer == bitsLeft == 0 && unreadMarker == 0
      ensures !insufficientData
    {
      getBuffer, bitsLeft, input, unreadMarker, insufficientData := 0, 0, source, 0, false;
      future := later;
    }

    // The next byte of the source; None makes the caller suspend.
    method GetByte() returns (r: Option<byte>)
      modifies this`input
      ensures r.Some? <==> old(input) != []
      ensures r.Some? ==> r.value == old(input)[0] && input == old(input)[1..]
      ensures r == None ==> input == old(input)
    {
      if input == [] {
        return None;
      }
      r := Some(input[0]);
      input := input[1..];
    }

    // The first byte after any 0xFF fill bytes.
    method SkipFillBytes() returns (r: Option<byte>)
      modifies this`input
      ensures match SkipFill(old(input))
              case None => r == None
              case Some((b, rest)) => r == Some(b) && input == rest
    {
      ghost var target := SkipFill(input);
      while true
        invariant SkipFill(input) == target
        decreases |input|
      {
        r := GetByte();
        if r != Some(0xFF) {
          return;
        }
      }
    }

    // A data byte, or the marker that ends the data.
    method FetchByte() returns (f: Fetched)
      requires unreadMarker == 0
      modifies this`input, this`unreadMarker
      ensures match NextData(Source(old(input), 0))
              case None => f == Starved && unreadMarker == 0
              case Some((b, src)) =>
                && input == src.bytes && unreadMarker == src.marker
                && f == if src.marker != 0 then AtMarker else DataByte(b)
    {
      var c := GetByte();
      if c == None {
        return Starved;
      }
      if c == Some(0xFF) {
        c := SkipFillBytes();
        if c == None {
          return Starved;
        }
        if c == Some(0) {
          return DataByte(0xFF);
        }
        unreadMarker := c.value;
        return AtMarker;
      }
      return DataByte(c.value);
    }

    // What reading ahead leaves unchanged. A marker stays in the way, and no bits are
    // made up before there is one.
    twostate predicate Steady()
      reads this
    {
      && Valid() && future == old(future) && Ending() == old(Ending())
      && (old(unreadMarker) != 0 ==> unreadMarker == old(unreadMarker))
      && (unreadMarker == 0 ==> insufficientData == old(insufficientData))
    }

    // One byte more in the buffer, if there is one.
    method LoadOne() returns (f: Fetched)
      requires Valid() && unreadMarker == 0 && bitsLeft <= 24
      modifies this
      ensures Steady() && Ahead() == old(Ahead()) && insufficientData == old(insufficientData)
      ensures f == Starved ==> unreadMarker == 0 && NextData(Source(input, 0)) == None
      ensures f == AtMarker ==> unreadMarker != 0 && bitsLeft == old(bitsLeft)
      ensures f.DataByte? ==> unreadMarker == 0 && bitsLeft == old(bitsLeft) + 8
    {
      ghost var tail := NextByte(input, future);
      var position := input;
      f := FetchByte();
      if f == Starved {
        // The read position is not saved.
        input := position;
      } else if f.DataByte? {
        Append(f.b, BytesBits(tail));
      }
    }

    method Append(b: byte, ghost rest: Bits)
      requires bitsLeft <= 24
      modifies this`getBuffer, this`bitsLeft
      ensures bitsLeft == old(bitsLeft) + 8
      ensures PutBits(getBuffer, bitsLeft, rest) == PutBits(old(getBuffer), old(bitsLeft), ByteBits(b, rest))
    {
      LoadByte(getBuffer, bitsLeft, b, rest);
      getBuffer := In32(256 * getBuffer + b);
      bitsLeft := bitsLeft + 8;
    }

    // Load up the bit buffer to a depth of at least nbits (jpeg_fill_bit_buffer): it
    // fetches as much as it can. Zeros stand in for missing bits at a marker, with a
    // warning. It fails when the source runs dry.
    method Fill(nbits: nat) returns (ok: bool)
      requires Valid() && nbits <= 25
      modifies this
      ensures Steady() && (!ok ==> unreadMarker == 0 && (future == [] ==> Ending() == None))
      ensures !ok || nbits <= Length(old(Ahead())) ==>
                Ahead() == old(Ahead()) && insufficientData == old(insufficientData)
      ensures ok ==>
                Prefix(old(Ahead()), Ahead()) && bitsLeft >= nbits && (bitsLeft >= 25 || bitsLeft == Length(Ahead()))
      ensures ok && nbits > Length(old(Ahead())) ==>
                insufficientData && Ahead() == ZerosBehind(old(Ahead()), 25 - Length(old(Ahead())))
    {
      if unreadMarker == 0 {
        ok := LoadAll();
        if !ok {
          return;
        }
      }
      ok := true;
      PutLength(getBuffer, bitsLeft, BytesBits(if unreadMarker != 0 then [] else DataBytes(input + future)));
      if unreadMarker != 0 && nbits > bitsLeft {
        ZeroFill();
      }
    }

    // Load bytes until the buffer is full or a marker turns up.
    method LoadAll() returns (ok: bool)
      requires Valid() && unreadMarker == 0
      modifies this
      ensures Steady() && Ahead() == old(Ahead()) && insufficientData == old(insufficientData)
      ensures if ok then bitsLeft >= 25 || unreadMarker != 0
              else unreadMarker == 0 && (future == [] ==> Ending() == None)
    {
      while bitsLeft < 25
        invariant Steady() && Ahead() == old(Ahead()) && insufficientData == old(insufficientData) && unreadMarker == 0
        decreases 25 - bitsLeft
      {
        var f := LoadOne();
        if f == Starved {
          StarvedEnd();
          return false;
        }
        if f == AtMarker {
          return true;
        }
      }
      ok := true;
    }

    // No more bytes: fill the buffer with zero bits.
    method ZeroFill()
      requires Valid() && unreadMarker != 0 && bitsLeft < 25
      modifies this`getBuffer, this`bitsLeft, this`insufficientData
      ensures Steady() && Prefix(old(Ahead()), Ahead()) && bitsLeft == 25
      ensures insufficientData && Ahead() == ZerosBehind(old(Ahead()), 25 - old(bitsLeft))
    {
      insufficientData := true;
      ZerosLoaded(getBuffer, bitsLeft, 25 - bitsLeft, 25);
      getBuffer := In32(Shl(getBuffer, 25 - bitsLeft));
      bitsLeft := 25;
    }

    lemma StarvedEnd()
      requires unreadMarker == 0 && NextData(Source(input, 0)) == None
      ensures future == [] ==> Ending() == None
    {
      if future == [] {
        assert input + future == input;
      }
    }

    // Ensure there are n bits in the buffer (CHECK_BIT_BUFFER).
    method Check(n: nat) returns (ok: bool)
      requires Valid() && n <= 25
      modifies this
      ensures Steady() && (!ok ==> unreadMarker == 0 && (future == [] ==> Ending() == None))
      ensures !ok || n <= Length(old(Ahead())) ==> Ahead() == old(Ahead()) && insufficientData == old(insufficientData)
      ensures ok ==> Prefix(old(Ahead()), Ahead()) && bitsLeft >= n
    {
      ok := true;
      if bitsLeft < n {
        ok := Fill(n);
      }
    }

    // The next n bits without removing them (PEEK_BITS).
    method Peek(n: nat) returns (v: nat)
      requires n <= bitsLeft
      ensures n <= Length(Ahead()) && v == Take(Ahead(), n)
    {
      TakePut(getBuffer, bitsLeft, BytesBits(if unreadMarker != 0 then [] else DataBytes(input + future)), n);
      v := Low(Shr(getBuffer, bitsLeft - n), n);
    }

    // Discard the next n bits (DROP_BITS).
    method Discard(n: nat)
      requires Valid() && n <= bitsLeft
      modifies this`bitsLeft
      ensures Steady() && n <= Length(old(Ahead())) && Ahead() == Drop(old(Ahead()), n)
      ensures bitsLeft == old(bitsLeft) - n
    {
      DropPut(getBuffer, bitsLeft, BytesBits(if unreadMarker != 0 then [] else DataBytes(input + future)), n);
      bitsLeft := bitsLeft - n;
    }

    // Fetch the next n bits; None makes the caller suspend.
    method Receive(n: nat) returns (r: Option<nat>)
      requires Valid() && n <= 25
      modifies this
      ensures Steady() && (r == None ==> unreadMarker == 0 && (future == [] ==> Ending() == None))
      ensures r == None ==> insufficientData == old(insufficientData)
      ensures r.Some? && n <= Length(old(Ahead())) ==>
                && r == Some(Take(old(Ahead()), n)) && Ahead() == Drop(old(Ahead()), n)
                && insufficientData == old(insufficientData)
      ensures r.Some? ==> r.value < Shl(1, n) && forall k :: 0 <= k <= n && k <= Length(old(Ahead())) ==>
                Shr(r.value, n - k) == Take(old(Ahead()), k)
    {
      ghost var before := Ahead();
      var ok := Check(n);
      if !ok {
        return None;
      }
      var v := Peek(n);
      TakeBound(Ahead(), n);
      forall k | 0 <= k <= n && k <= Length(before)
        ensures Shr(v, n - k) == Take(before, k)
      {
        TakePrefix(Ahead(), n, k);
      }
      Discard(n);
      r := Some(v);
    }

    // The bits that fill up the last byte are not needed.
    method DropPadding()
      requires Valid()
      modifies this`bitsLeft
      ensures Valid() && bitsLeft == 0 && Ending() == old(Ending())
      ensures Length(old(Ahead())) < 8 ==> Ahead() == Nil
    {
      ghost var data := if unreadMarker != 0 then [] else DataBytes(input + future);
      PutLength(getBuffer, bitsLeft, BytesBits(data));
      if data != [] {
        PutLength(data[0], 8, BytesBits(data[1..]));
      }
      bitsLeft := 0;
    }

    // next_marker of jdmarker.c, for a source that may run dry.
    method NextMarker() returns (ok: bool)
      modifies this`input, this`unreadMarker
      ensures ok == FindMarker(old(input)).Some?
      ensures ok ==> (unreadMarker, input) == FindMarker(old(input)).value
      ensures !ok ==> unreadMarker == old(unreadMarker) && input == Held(old(input))
    {
      ghost var start := input;
      while true
        invariant FindMarker(input) == FindMarker(start) && Held(input) == Held(start)
        invariant unreadMarker == old(unreadMarker)
        decreases |input|
      {
        var position := input;
        var c := GetByte();
        if c == None {
          return false;
        }
        if c == Some(0xFF) {
          c := SkipFillBytes();
          if c == None {
            input := position;
            return false;
          }
          if c != Some(0) {
            unreadMarker := c.value;
            return true;
          }
        }
      }
    }

    // More bytes arrive from the source.
    method Supply(more: seq<byte>)
      requires more <= future
      modifies this`input, this`future
      ensures input == old(input) + more && future == old(future)[|more|..]
      ensures Ahead() == old(Ahead()) && Ending() == old(Ending())
    {
      assert input + future == (input + more) + future[|more|..];
      input, future := input + more, future[|more|..];
    }

    // A broken attempt has saved nothing.
    method Restore(buffer: nat, left: nat, source: seq<byte>)
      modifies this`getBuffer, this`bitsLeft, this`input
      ensures getBuffer == buffer && bitsLeft == left && input == source
    {
      getBuffer, bitsLeft, input := buffer, left, source;
    }
  }
}

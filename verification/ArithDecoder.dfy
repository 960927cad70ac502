// The arithmetic decoder object (jdarith.c).

module ArithDecoder {
  import opened Prelude
  import opened ByteStream
  import opened ArithTable
  import opened ArithCoder
  import opened ArithRoundTrip

  class BinaryDecoder {
    const table: Machine
    var c: int
    var a: int
    var ct: int
    // The unread bytes of the data source, and cinfo->unread_marker.
    var input: seq<byte>
    var unreadMarker: byte
    var bins: array<BinState>

    // A claim, for specification only: asked for the bins of pending, the decoder
    // answers with the values of pending and ends with the bins in last. Making
    // the claim is justified by the lossless theorem.
    ghost var pending: Decisions
    ghost var last: Bins
    // Another claim: the data ends with this marker, followed by these bytes.
    ghost var ending: Option<(byte, seq<byte>)>

    ghost function State(): Dec
      reads this
    {
      Dec(c, a, ct, Source(input, unreadMarker))
    }

    ghost predicate Valid()
      reads this, bins
    {
      && bins.Length == BIN_COUNT
      && forall k :: Focus(1, k) ==> Consistent()
    }

    ghost predicate Consistent()
      reads this, bins
      requires bins.Length == BIN_COUNT
    {
      && DecRegs(State()) && Below(State())
      && Follows(table, State(), bins[..], pending, last)
      && (ending.Some? ==> IsMarker(ending.value.0) && Before(State().src, ending.value.0, ending.value.1))
    }

    // What every decoding step keeps, unless it ended in a fatal error.
    twostate predicate Kept(ok: bool)
      reads this, bins
    {
      bins == old(bins) && (ok ==> Valid() && ending == old(ending))
    }

    constructor (source: seq<byte>)
      ensures Valid() && fresh(bins) && table == JpegAritab() && bins[..] == StartBins()
      ensures State() == DecStart(Source(source, 0)) && pending == Nil && ending == None
    {
      table := JpegAritab();
      c, a, ct := 0, 0, -16;
      input, unreadMarker := source, 0;
      bins := new BinState[BIN_COUNT](i => InitialBin(i));
      pending, last, ending := Nil, StartBins(), None;
      new;
      assert bins[..] == StartBins();
    }

    // None: the data source cannot supply a byte, a fatal error in this module.
    method GetByte() returns (r: Option<byte>)
      modifies this`input
      ensures r.Some? <==> old(input) != []
      ensures r.Some? ==> r.value == old(input)[0] && input == old(input)[1..]
    {
      if input == [] {
        return None;
      }
      r := Some(input[0]);
      input := input[1..];
    }

    // The first byte after any 0xFF fill bytes.
    method SkipFillBytes() returns (r: Option<byte>)
      modifies this`input
      ensures match SkipFill(old(input))
              case None => r == None
              case Some((b, rest)) => r == Some(b) && input == rest
    {
      ghost var target := SkipFill(input);
      while true
        invariant SkipFill(input) == target
        decreases |input|
      {
        r := GetByte();
        if r != Some(0xFF) {
          return;
        }
      }
    }

    // Fetch the next data byte, with zero data from a marker on.
    method FetchData() returns (r: Option<byte>)
      modifies this`input, this`unreadMarker
      ensures match NextData(old(State()).src)
              case None => r == None
              case Some((data, src)) => r == Some(data) && State().src == src
    {
      if unreadMarker != 0 {
        return Some(0);
      }
      r := GetByte();
      if r == Some(0xFF) {
        r := SkipFillBytes();
        if r == None {
          return;
        }
        if r == Some(0) {
          r := Some(0xFF);
        } else {
          unreadMarker := r.value;
          r := Some(0);
        }
      }
    }

    // Renormalization and data input per section D.2.6 of T.81.
    method Renormalize() returns (ok: bool)
      requires DecRegs(State())
      modifies this`c, this`a, this`ct, this`input, this`unreadMarker
      ensures match Ready(old(State()))
              case None => !ok
              case Some(d) => ok && State() == d
    {
      ghost var target := Ready(State());
      while a < 0x8000
        invariant DecRegs(State()) && Ready(State()) == target
        decreases 0x10000 - a, -ct
      {
        ghost var next := Refill(State());
        ct := ct - 1;
        if ct < 0 {
          var data := FetchData();
          if data == None {
            return false;
          }
          c := c * 256 + data.value;
          ct := ct + 8;
          if ct < 0 {
            ct := ct + 1;
            if ct == 0 {
              a := 0x8000;
            }
          }
        }
        a := 2 * a;
        assert next == Some(State());
      }
      return true;
    }

    // Decode & estimation procedures per sections D.2.4 and D.2.5 of T.81.
    method Decide(st: BinNo) returns (val: Bit)
      requires DecRegs(State()) && a >= 0x8000 && bins.Length == BIN_COUNT
      modifies this`c, this`a, bins
      ensures var x := DecodeReady(table, old(State()), old(bins[st]));
              val == x.val && State() == x.dec && bins[..] == old(bins[..])[st := x.bin]
    {
      var sv := bins[st];
      var row := table[sv % 128];
      val := sv / 128;
      var temp := a - row.qe;
      a := temp;
      temp := Shl(temp, ct);
      if c >= temp {
        c := c - temp;
        if a < row.qe {
          a := row.qe;
          bins[st] := AfterMps(table, sv);
        } else {
          a := row.qe;
          bins[st] := AfterLps(table, sv);
          val := 1 - val;
        }
      } else if a < 0x8000 {
        if a < row.qe {
          bins[st] := AfterLps(table, sv);
          val := 1 - val;
        } else {
          bins[st] := AfterMps(table, sv);
        }
      }
    }

    // The decision coded with bin st; None if the data source had to suspend.
    method ArithDecode(st: BinNo) returns (r: Option<Bit>)
      requires DecRegs(State()) && bins.Length == BIN_COUNT
      modifies this`c, this`a, this`ct, this`input, this`unreadMarker, bins
      ensures match DecodeBit(table, old(State()), old(bins[st]))
              case None => r == None
              case Some(x) => r == Some(x.val) && State() == x.dec && bins[..] == old(bins[..])[st := x.bin]
    {
      var ok := Renormalize();
      if !ok {
        return None;
      }
      var val := Decide(st);
      return Some(val);
    }

    // The same call with its effect on the claims.
    method Decode(st: BinNo) returns (r: Option<Bit>)
      requires Valid()
      modifies this, bins
      ensures Kept(r.Some?)
      ensures old(ending).Some? ==> r.Some?
      ensures old(pending).Cons? && old(pending).head.bin == st ==>
                r == Some(old(pending).head.val) && pending == old(pending).tail && last == old(last)
    {
      assert Focus(1, 0);
      ghost var d, s := State(), bins[st];
      if ending.Some? {
        DecodeStaysBefore(table, d, s, ending.value.0, ending.value.1);
      }
      r := ArithDecode(st);
      if r.Some? {
        DecodeBitKeepsBelow(table, d, s);
        if pending.Cons? && pending.head.bin == st {
          pending := pending.tail;
        } else {
          pending, last := Nil, bins[..];
        }
      }
    }

    // Skip to the byte after the next 0xFF.
    method SkipData() returns (ok: bool)
      modifies this`input
      ensures match AfterFF(old(input))
              case None => !ok
              case Some(rest) => ok && input == rest
    {
      ghost var target := AfterFF(input);
      while true
        invariant AfterFF(input) == target
        decreases |input|
      {
        var c := GetByte();
        if c == None {
          return false;
        }
        if c == Some(0xFF) {
          return true;
        }
      }
    }

    // Scan forward to the next marker, skipping data (next_marker of jdmarker.c).
    method NextMarker() returns (ok: bool)
      modifies this`input, this`unreadMarker
      ensures match FindMarker(old(input))
              case None => !ok
              case Some((marker, rest)) => ok && unreadMarker == marker && input == rest
    {
      ghost var target := FindMarker(input);
      while true
        invariant FindMarker(input) == target
        decreases |input|
      {
        var found := SkipData();
        if !found {
          return false;
        }
        var c := SkipFillBytes();
        if c == None {
          return false;
        }
        if c != Some(0) {
          unreadMarker := c.value;
          return true;
        }
      }
    }

    // Reset the registers at the start of a segment, claiming what is coming.
    method Restart(ghost ds: Decisions, ghost target: Bins, ghost tail: Option<(byte, seq<byte>)>)
      requires bins.Length == BIN_COUNT && Follows(table, DecStart(Source(input, unreadMarker)), bins[..], ds, target)
      requires tail.Some? ==> IsMarker(tail.value.0) && Before(Source(input, unreadMarker), tail.value.0, tail.value.1)
      modifies this`c, this`a, this`ct, this`pending, this`last, this`ending
      ensures Valid() && pending == ds && last == target && ending == tail
    {
      c, a, ct := 0, 0, -16;
      pending, last, ending := ds, target, tail;
    }

    // With nothing left of its claims the decoder is just before the marker.
    lemma ClaimsMet()
      requires Valid() && pending == Nil
      ensures bins[..] == last
      ensures ending.Some? ==> MarkerAhead(State().src) == ending
    {
      assert Focus(1, 0);
      if ending.Some? {
        MarkerBehind(State().src, ending.value.0, ending.value.1);
      }
    }

    lemma NotDisabled()
      requires Valid()
      ensures ct != -1
    {
      assert Focus(1, 0);
    }
  }
}

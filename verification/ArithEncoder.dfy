// The arithmetic encoder object (jcarith.c): registers updated in place, bytes
// appended to the destination.

module ArithEncoder {
  import opened Prelude
  import opened ByteStream
  import opened ArithTable
  import opened ArithCoder
  import opened ArithInterval
  import opened ArithRoundTrip

  class BinaryEncoder {
    const table: Machine
    var c: int
    var a: int
    var sc: int
    var zc: int
    var ct: int
    var buffer: int
    var bins: array<BinState>
    // Everything written to the destination.
    var out: seq<byte>

    // What the destination held before this segment, and the data bytes of the
    // segment before stuffing.
    ghost var before: seq<byte>
    ghost var emitted: seq<byte>
    // A forecast, for specification only: the decisions about to be coded, and the
    // registers and bins they lead to. Announce replaces it at any time.
    ghost var plan: Decisions
    ghost var goal: (NormalEnc, Bins)

    ghost function Registers(): Enc
      reads this
    {
      Enc(c, a, ct, sc, zc, buffer, emitted)
    }

    ghost predicate Written()
      reads this
    {
      out == before + Stuff(emitted)
    }

    ghost predicate Valid()
      reads this, bins
    {
      bins.Length == BIN_COUNT && forall k :: Focus(1, k) ==> Consistent()
    }

    ghost predicate Consistent()
      reads this, bins
      requires bins.Length == BIN_COUNT
    {
      && Written() && Normal(Registers())
      && Encode(table, Registers(), bins[..], plan) == goal
    }

    // Since the old state only forecast decisions were coded; rest is left.
    twostate predicate Coded(new rest: Decisions)
      reads this, bins
    {
      Valid() && bins == old(bins) && before == old(before) && goal == old(goal) && plan == rest
    }

    constructor (destination: seq<byte>)
      ensures Valid() && fresh(bins) && table == JpegAritab() && before == destination
      ensures plan == Nil && goal == (EncStart, StartBins())
    {
      table := JpegAritab();
      c, a, sc, zc, ct, buffer := 0, 0x10000, 0, 0, 11, -1;
      bins := new BinState[BIN_COUNT](i => InitialBin(i));
      out := destination;
      before, emitted := destination, [];
      plan, goal := Nil, (EncStart, StartBins());
      new;
      assert bins[..] == StartBins();
    }

    // A data or marker byte goes to the destination, which never suspends.
    method EmitByte(val: byte)
      modifies this`out
      ensures out == old(out) + [val]
    {
      out := out + [val];
    }

    method EmitPendingZeros()
      requires Written() && zc >= 0
      modifies this`out, this`zc, this`emitted
      ensures Written() && Registers() == EmitZeros(old(Registers()))
    {
      ghost var e := Registers();
      while zc > 0
        invariant Written() && zc >= 0
        invariant EmitZeros(Registers()) == EmitZeros(e)
        decreases zc
      {
        assert emitted + Zeros(zc) == (emitted + [0]) + Zeros(zc - 1);
        StuffAppend(emitted, [0]);
        EmitByte(0x00);
        emitted := emitted + [0];
        zc := zc - 1;
      }
    }

    // Stacked 0xFF bytes that will not overflow any more.
    method EmitStacked()
      requires Written() && sc > 0
      modifies this`out, this`sc, this`emitted
      ensures Written()
      ensures Registers() == old(Registers()).(emitted := old(emitted) + Ones(old(sc)), sc := 0)
    {
      ghost var start, n := emitted, sc;
      while sc > 0
        invariant Written() && 0 <= sc <= n
        invariant emitted + Ones(sc) == start + Ones(n)
        decreases sc
      {
        assert emitted + Ones(sc) == (emitted + [0xFF]) + Ones(sc - 1);
        EmitData(0xFF);
        sc := sc - 1;
      }
    }

    // A data byte goes out, with a stuffed zero after 0xFF.
    method EmitData(val: byte)
      requires Written()
      modifies this`out, this`emitted
      ensures Written() && emitted == old(emitted) + [val]
    {
      StuffAppend(emitted, [val]);
      assert Stuff([val]) == Stuffed(val) by {
        assert [val][1..] == [];
      }
      emitted := emitted + [val];
      EmitByte(val);
      if val == 0xFF {
        EmitByte(0x00);
      }
    }

    // One carry over all stacked 0xFF bytes.
    method PropagateCarry()
      requires Written() && Stack(Registers())
      modifies this`out, this`zc, this`sc, this`emitted
      ensures Written() && Registers() == CarryOut(old(Registers()))
    {
      if buffer >= 0 {
        EmitPendingZeros();
        EmitData(buffer + 1);
      }
      zc := zc + sc;
      sc := 0;
    }

    // No carry can come any more.
    method FlushPending()
      requires Written() && Stack(Registers())
      modifies this`out, this`zc, this`sc, this`emitted
      ensures Written() && Registers() == FlushHeld(old(Registers()))
    {
      if buffer == 0 {
        zc := zc + 1;
      } else if buffer >= 0 {
        EmitPendingZeros();
        EmitData(buffer);
      }
      if sc > 0 {
        EmitPendingZeros();
        EmitStacked();
      }
    }

    method OutputByte()
      requires Written() && Stack(Registers()) && 0 <= c <= 0x9000000
      modifies this
      ensures Written() && Registers() == ByteOut(old(Registers()))
      ensures bins == old(bins)
      ensures plan == old(plan) && goal == old(goal) && before == old(before)
    {
      var temp := c / 0x80000;
      if temp > 0xFF {
        PropagateCarry();
        buffer := temp % 256;
      } else if temp == 0xFF {
        sc := sc + 1;
      } else {
        FlushPending();
        buffer := temp % 256;
      }
      c := c % 0x80000;
      ct := ct + 8;
    }

    method Renormalize()
      requires Written() && Regs(Registers()) && a < 0x8000
      modifies this
      ensures Written() && Registers() == Renorm(old(Registers()))
      ensures bins == old(bins)
      ensures plan == old(plan) && goal == old(goal) && before == old(before)
    {
      ghost var target := Renorm(Registers());
      while true
        invariant Written() && Regs(Registers()) && a < 0x8000
        invariant Renorm(Registers()) == target
        invariant bins == old(bins)
        invariant plan == old(plan) && goal == old(goal) && before == old(before)
        decreases 0x10000 - a
      {
        ghost var next := RenormStep(Registers());
        ShiftKeepsSpacing(c, a, ct);
        a := 2 * a;
        c := 2 * c;
        ct := ct - 1;
        if ct == 0 {
          OutputByte();
        }
        assert Registers() == next;
        if a >= 0x8000 {
          break;
        }
      }
    }

    // Choose the subinterval for val; true if no renormalisation is required.
    method SelectInterval(st: nat, val: Bit) returns (ready: bool)
      requires Written() && Normal(Registers()) && st < bins.Length
      modifies this`a, this`c, bins
      ensures var ch := EncodeChoice(table, old(a), old(bins[st]), val);
              && Registers() == Select(old(Registers()), ch)
              && bins[..] == old(bins[..])[st := ch.bin]
              && ready == (ch.width >= 0x8000)
      ensures Written()
    {
      var sv := bins[st];
      var row := table[sv % 128];
      a := a - row.qe;
      if val != sv / 128 {
        if a >= row.qe {
          c := c + a;
          a := row.qe;
        }
        bins[st] := AfterLps(table, sv);
      } else {
        if a >= 0x8000 {
          return true;
        }
        if a < row.qe {
          c := c + a;
          a := row.qe;
        }
        bins[st] := AfterMps(table, sv);
      }
      return false;
    }

    // Code the decision val with the statistics bin st.
    method ArithEncode(st: BinNo, val: Bit)
      requires Valid() && plan.Cons? && plan.head == Decision(st, val)
      modifies this, bins
      ensures Coded(old(plan).tail)
    {
      assert Focus(1, 0);
      plan := plan.tail;
      var ready := SelectInterval(st, val);
      if ready {
        return;
      }
      Renormalize();
    }

    // The value in the interval with the most trailing zero bits, shifted out.
    method ChooseFinalCode()
      requires Normal(Registers())
      modifies this`c
      ensures c == Shl(FinalC(old(Registers())), ct)
    {
      var temp := (a - 1 + c) / 0x10000 * 0x10000;
      if temp < c {
        c := temp + 0x8000;
      } else {
        c := temp;
      }
      c := Shl(c, ct);
    }

    // Terminate the segment (section D.1.8 of T.81).
    method FinishPass()
      requires Valid() && plan == Nil
      modifies this
      ensures bins == old(bins) && before == old(before)
      ensures out == before + Stuff(Finish(old(goal).0)) && bins[..] == old(goal).1
    {
      assert Focus(1, 0);
      FinalShape(Registers());
      ChooseFinalCode();
      if c >= 0x8000000 {
        PropagateCarry();
      } else {
        FlushPending();
      }
      EmitFinalBytes();
    }

    method ResetRegisters()
      modifies this`c, this`a, this`sc, this`zc, this`ct, this`buffer, this`emitted, this`before
      ensures Registers() == EncStart && before == out
    {
      c, a, sc, zc, ct, buffer := 0, 0x10000, 0, 0, 11, -1;
      before, emitted := out, [];
    }

    // Begin a segment with the present bins, which will code ds.
    method Restart(ghost ds: Decisions)
      requires bins.Length == BIN_COUNT
      modifies this
      ensures Valid() && bins == old(bins) && before == out == old(out)
      ensures plan == ds && Leads(table, EncStart, bins[..], ds, goal)
    {
      ResetRegisters();
      plan, goal := ds, Encode(table, EncStart, bins[..], ds);
    }

    // Forecast the decisions ds.
    ghost method Announce(ds: Decisions)
      requires Valid()
      modifies this`plan, this`goal
      ensures Valid() && plan == ds
      ensures old(plan) == Nil ==> Leads(table, old(goal).0, old(goal).1, ds, goal)
    {
      assert Focus(1, 0);
      plan, goal := ds, Encode(table, Registers(), bins[..], ds);
    }

    // The last two bytes, unless they are zero.
    method EmitFinalBytes()
      requires Written() && zc >= 0 && c >= 0 && bins.Length == BIN_COUNT
      requires c % 0x8000000 / 0x800 == 0 <==> c / 0x80000 % 256 == 0 && c / 0x800 % 256 == 0
      modifies this
      ensures Written() && bins == old(bins) && before == old(before)
      ensures emitted == FinalBytes(old(Registers()))
    {
      if c % 0x8000000 / 0x800 != 0 {
        EmitPendingZeros();
        EmitData(c / 0x80000 % 256);
        if c / 0x800 % 256 != 0 {
          EmitData(c / 0x800 % 256);
        }
      }
    }
  }

  lemma FinalShape(e: Enc)
    requires Normal(e)
    ensures var c := Shl(FinalC(e), e.ct);
            && c >= 0
            && (c % 0x8000000 / 0x800 == 0 <==> c / 0x80000 % 256 == 0 && c / 0x800 % 256 == 0)
  {
    var j := FinalMultiple(FinalC(e), e.c + e.a, e.ct);
    FinalBits(Shl(FinalC(e), e.ct), j);
  }

  lemma {:induction false} StuffAppend(s: seq<byte>, t: seq<byte>)
    ensures Stuff(s + t) == Stuff(s) + Stuff(t)
  {
    if s == [] {
      assert s + t == t;
    } else {
      StuffAppend(s[1..], t);
      assert (s + t)[1..] == s[1..] + t;
    }
  }
}

// The decoder's view of tokens: symbols and values come out as the encoder put them in.

module HuffTokenReader {
  import opened Prelude
  import opened HuffBits
  import opened HuffCode
  import opened HuffReader
  import opened HuffSymbols

  // A table as both sides derive it.
  datatype Pair = Pair(table: HuffTable, dec: DecTable)

  predicate PairOk(p: Pair, e: EncTable) {
    && TableOk(p.table) && CodeTree(p.table) && SymbolsDistinct(p.table)
    && Decodes(p.table, p.dec) && Encodes(p.table, e.ehufco, e.ehufsi)
  }

  // Closed.
  ghost predicate PairsOk(pairs: seq<Option<Pair>>, tabs: Tables)
    requires |pairs| == 8 && TablesOk(tabs)
  {
    forall k :: Focus(2, k) ==> forall i :: 0 <= i < 8 && pairs[i].Some? ==>
      PairOk(pairs[i].value, tabs[i]) && (i < 4 ==> SymbolsInRange(pairs[i].value.table, true))
  }

  // Decoding a symbol from the bits gives s and leaves rest.
  ghost predicate Yields(t: HuffTable, bits: Bits, s: byte, rest: Bits)
    requires TableOk(t) && CodeTree(t)
  {
    Found(t, bits) && forall r, after :: Result(t, bits, r, after) ==> r == s && after == rest
  }

  // The code of a symbol is the one the decoder finds.
  lemma SymbolFound(p: Pair, e: EncTable, s: byte, bits: Bits, rest: Bits)
    requires PairOk(p, e) && e.ehufsi[s] > 0 && bits == PutBits(e.ehufco[s], e.ehufsi[s], rest)
    ensures Yields(p.table, bits, s, rest)
  {
    var t, lens := p.table, Lens(p.table);
    assert s in t.huffval[..|lens|];
    var q :| 0 <= q < |lens| && t.huffval[..|lens|][q] == s;
    assert t.huffval[q] == s;
    var n := lens[q];
    assert Room(lens, q);
    assert Codes(lens)[q] == Code(lens, q);
    TakePut(Code(lens, q), n, rest, n);
    DropPut(Code(lens, q), n, rest, n);
    LowSmall(Code(lens, q), n);
    assert StartsWith(lens, bits, q);
  }

  // The bits are those of ts when phase bits of the present byte are used up. Closed.
  ghost predicate Claims(tabs: Tables, phase: nat, bits: Bits, ts: Tokens)
    requires TablesOk(tabs)
  {
    forall k :: Focus(1, k) ==> phase < 8 && bits == Lay(tabs, phase, ts) && Coded(tabs, ts)
  }

  lemma OpenSymbol(tabs: Tables, phase: nat, tbl: nat, s: byte, rest: Tokens, bits: Bits) returns (after: Bits)
    requires TablesOk(tabs) && tbl < 8 && Claims(tabs, phase, bits, Cons(Sym(tbl, s), rest))
    ensures tabs[tbl].ehufsi[s] > 0 && bits == PutBits(tabs[tbl].ehufco[s], tabs[tbl].ehufsi[s], after)
    ensures Claims(tabs, (phase + tabs[tbl].ehufsi[s]) % 8, after, rest)
  {
    assert Focus(1, 0);
    assert TokenSize(tabs, Sym(tbl, s)) == tabs[tbl].ehufsi[s];
    after := Lay(tabs, (phase + tabs[tbl].ehufsi[s]) % 8, rest);
  }

  lemma ValueStep(tabs: Tables, phase: nat, v: nat, n: nat, rest: Tokens, bits: Bits)
    requires TablesOk(tabs) && Claims(tabs, phase, bits, Cons(Val(v, n), rest))
    ensures n <= Length(bits) && Take(bits, n) == Low(v, n) && Claims(tabs, (phase + n) % 8, Drop(bits, n), rest)
  {
    assert Focus(1, 0);
    TakePut(v, n, Lay(tabs, (phase + n) % 8, rest), n);
    DropPut(v, n, Lay(tabs, (phase + n) % 8, rest), n);
  }

  class TokenReader {
    const br: BitReader
    const pairs: seq<Option<Pair>>
    // For specification only: the encoder's tables; the tokens that the data holds up
    // to the marker, if that is known; the bits of the present byte that are used up;
    // the marker and what follows it.
    ghost const enc: Tables
    ghost var pending: Option<Tokens>
    ghost var phase: nat
    ghost var ending: Option<(byte, seq<byte>)>

    ghost predicate Valid()
      reads this, br
    {
      br.Valid() && |pairs| == 8 && TablesOk(enc) && PairsOk(pairs, enc) && Sound()
    }

    // The bits ahead are those of the pending tokens. Closed.
    ghost predicate Sound()
      requires TablesOk(enc)
      reads this, br
    {
      forall k :: Focus(4, k) ==>
        br.Ending() == ending && (pending.Some? ==> Claims(enc, phase, br.Ahead(), pending.value))
    }

    // What reading tokens leaves unchanged.
    twostate predicate Reads()
      reads this, br
    {
      && ending == old(ending) && br.future == old(br.future)
      && (old(br.unreadMarker) != 0 ==> br.unreadMarker == old(br.unreadMarker))
      && (br.unreadMarker == 0 ==> br.insufficientData == old(br.insufficientData))
    }

    // The data source ran dry before the end of the data; or there is no marker at all.
    ghost predicate Starving()
      reads this, br
    {
      br.unreadMarker == 0 && (br.future == [] ==> ending == None)
    }

    constructor (source: seq<byte>, ghost later: seq<byte>, tables: seq<Option<Pair>>, ghost tabs: Tables)
      requires |tables| == 8 && TablesOk(tabs) && PairsOk(tables, tabs)
      ensures Valid() && fresh(br) && pairs == tables && enc == tabs && pending == None
      ensures br.input == source && br.future == later && br.bitsLeft == 0 && br.unreadMarker == 0
      ensures !br.insufficientData
    {
      br := new BitReader(source, later);
      pairs, enc, pending, phase := tables, tabs, None, 0;
      new;
      ending := br.Ending();
    }

    // The next symbol, coded with table tbl; None makes the caller suspend.
    method DecodeSymbol(tbl: nat) returns (r: Option<byte>)
      requires Valid() && tbl < 8 && pairs[tbl].Some?
      modifies this, br
      ensures Reads() && Valid() && (r == None ==> Starving())
      ensures r.Some? ==> (tbl < 4 ==> r.value <= 15)
      ensures r.Some? && NextIsSymbol(old(pending), tbl) ==>
                && r == Some(old(pending).value.head.s) && pending == Some(old(pending).value.tail)
                && br.insufficientData == old(br.insufficientData)
    {
      assert Focus(4, 0);
      ghost var known, was, k, after := NextIsSymbol(pending, tbl), pending, phase, Nil;
      if known {
        after := OpenSymbol(enc, phase, tbl, was.value.head.s, was.value.tail, br.Ahead());
      }
      pending := None;
      r := RawSymbol(tbl, known, if known then was.value.head.s else 0, after);
      if r.Some? && known {
        pending, phase := Some(was.value.tail), (k + enc[tbl].ehufsi[was.value.head.s]) % 8;
      }
    }

    method RawSymbol(tbl: nat, ghost known: bool, ghost s: byte, ghost after: Bits) returns (r: Option<byte>)
      requires Valid() && tbl < 8 && pairs[tbl].Some?
      requires known ==> enc[tbl].ehufsi[s] > 0 && br.Ahead() == PutBits(enc[tbl].ehufco[s], enc[tbl].ehufsi[s], after)
      modifies br
      ensures br.Steady() && (r == None ==> br.unreadMarker == 0 && (br.future == [] ==> br.Ending() == None))
      ensures r.Some? && known ==>
                r == Some(s) && br.Ahead() == after && br.insufficientData == old(br.insufficientData)
      ensures r.Some? && tbl < 4 ==> r.value <= 15
    {
      var p := pairs[tbl].value;
      ghost var bits := br.Ahead();
      if known {
        Expect(tbl, s, after);
      }
      Usable(tbl);
      r := HuffDecode(br, p.dec, p.table);
      if r.Some? && known {
        assert Result(p.table, bits, r.value, br.Ahead());
      }
    }

    lemma Usable(tbl: nat)
      requires Valid() && tbl < 8 && pairs[tbl].Some?
      ensures var p := pairs[tbl].value; TableOk(p.table) && CodeTree(p.table) && Decodes(p.table, p.dec)
      ensures tbl < 4 ==> SymbolsInRange(pairs[tbl].value.table, true)
    {
      assert Focus(2, 0);
    }

    lemma Expect(tbl: nat, s: byte, after: Bits)
      requires Valid() && tbl < 8 && pairs[tbl].Some?
      requires enc[tbl].ehufsi[s] > 0 && br.Ahead() == PutBits(enc[tbl].ehufco[s], enc[tbl].ehufsi[s], after)
      ensures var t := pairs[tbl].value.table; TableOk(t) && CodeTree(t) && Yields(t, br.Ahead(), s, after)
    {
      assert Focus(2, 0);
      SymbolFound(pairs[tbl].value, enc[tbl], s, br.Ahead(), after);
    }

    // The next n bits as a number.
    method ReceiveValue(n: nat) returns (r: Option<nat>)
      requires Valid() && n <= 25
      modifies this, br
      ensures Reads() && Valid() && (r == None ==> Starving())
      ensures r.Some? ==> r.value < Shl(1, n)
      ensures r.Some? && NextIsValue(old(pending), n) ==>
                && r == Some(Low(old(pending).value.head.v, n)) && pending == Some(old(pending).value.tail)
                && br.insufficientData == old(br.insufficientData)
    {
      assert Focus(4, 0);
      ghost var bits, was, k := br.Ahead(), pending, phase;
      if NextIsValue(was, n) {
        ValueStep(enc, phase, was.value.head.v, n, was.value.tail, bits);
      }
      pending := None;
      r := br.Receive(n);
      if r.Some? && NextIsValue(was, n) {
        pending, phase := Some(was.value.tail), (k + n) % 8;
      }
    }

    // At the end of a segment: drop the padding.
    method Align(ghost keep: bool)
      requires Valid() && (keep ==> pending == Some(Nil))
      modifies this`pending, this`phase, br`bitsLeft
      ensures Valid() && br.bitsLeft == 0 && ending == br.Ending()
      ensures pending == (if keep then Some(Nil) else None) && (keep ==> br.Ahead() == Nil)
    {
      assert Focus(4, 0);
      if keep {
        OnlyPadding(enc, phase, br.Ahead());
      }
      br.DropPadding();
      pending, phase := if keep then Some(Nil) else None, 0;
      assert Lay(enc, 0, Nil) == Nil;
    }

    // What is awaited from here on.
    method Await(ghost ts: Option<Tokens>)
      requires br.Valid() && |pairs| == 8 && TablesOk(enc) && PairsOk(pairs, enc)
      requires ts.Some? ==> Claims(enc, 0, br.Ahead(), ts.value)
      modifies this`pending, this`phase, this`ending
      ensures Valid() && pending == ts && ending == br.Ending()
    {
      pending, phase, ending := ts, 0, br.Ending();
    }

    // More bytes arrive from the source.
    method Supply(more: seq<byte>)
      requires Valid() && more <= br.future
      modifies br`input, br`future
      ensures Valid() && br.future == old(br.future)[|more|..]
    {
      assert Focus(4, 0);
      br.Supply(more);
    }

    // Back to where an attempt began.
    method Restore(buffer: nat, left: nat, source: seq<byte>, ghost awaited: Option<Tokens>, ghost used: nat)
      modifies this`pending, this`phase, br`getBuffer, br`bitsLeft, br`input
      ensures br.getBuffer == buffer && br.bitsLeft == left && br.input == source && pending == awaited && phase == used
    {
      br.Restore(buffer, left, source);
      pending, phase := awaited, used;
    }

    twostate lemma Restored()
      requires old(Valid()) && pending == old(pending) && phase == old(phase) && ending == old(ending)
      requires br.getBuffer == old(br.getBuffer) && br.bitsLeft == old(br.bitsLeft) && br.input == old(br.input)
      requires br.future == old(br.future) && br.unreadMarker == old(br.unreadMarker)
      ensures Valid()
    {
      assert Focus(4, 0);
      assert br.Ahead() == old(br.Ahead()) && br.Ending() == old(br.Ending());
    }
  }

  lemma OnlyPadding(tabs: Tables, phase: nat, bits: Bits)
    requires TablesOk(tabs) && Claims(tabs, phase, bits, Nil)
    ensures Length(bits) < 8
  {
    assert Focus(1, 0);
    if phase != 0 {
      PutLength(0x7F, 8 - phase, Nil);
    }
  }

  predicate NextIsSymbol(pending: Option<Tokens>, tbl: nat) {
    pending.Some? && pending.value.Cons? && pending.value.head.Sym? && pending.value.head.tbl == tbl
  }

  predicate NextIsValue(pending: Option<Tokens>, n: nat) {
    pending.Some? && pending.value.Cons? && pending.value.head.Val? && pending.value.head.n == n
  }
}

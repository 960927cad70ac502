// Decoding Huffman symbols (HUFF_DECODE and jpeg_huff_decode of jdhuff.c): the fast
// path by lookahead and the slow path bit by bit find the same, unique code.

module HuffSymbols {
  import opened Prelude
  import opened HuffBits
  import opened HuffCode
  import opened HuffReader

  // The first l bits, with value v, begin with code q.
  predicate Matches(lens: seq<nat>, q: nat, v: nat, l: nat)
    requires Lengths(lens) && q < |lens|
  {
    lens[q] <= l && Shr(v, l - lens[q]) == Code(lens, q)
  }

  // No code of fewer than m bits matches.
  predicate NoneBelow(lens: seq<nat>, v: nat, l: nat, m: nat)
    requires Lengths(lens)
  {
    forall q {:trigger Matches(lens, q, v, l)} :: 0 <= q < |lens| && lens[q] < m ==> !Matches(lens, q, v, l)
  }

  lemma {:induction false} ShrInterval(v: nat, c: nat, d: nat)
    ensures Shr(v, d) == c <==> Shl(c, d) <= v < Shl(c + 1, d)
    ensures Shr(v, d) >= c <==> v >= Shl(c, d)
    decreases d
  {
    if d > 0 {
      ShrInterval(v / 2, c, d - 1);
      ShlDouble(c, d - 1);
      ShlDouble(c + 1, d - 1);
    }
  }

  // Canonical codes leave no gaps: what matches none of the codes up to p lies behind
  // all of them.
  lemma {:induction false} Beyond(lens: seq<nat>, p: nat, v: nat, l: nat)
    requires Lengths(lens) && p < |lens| && lens[p] <= l
    requires forall q {:trigger Matches(lens, q, v, l)} :: 0 <= q <= p ==> !Matches(lens, q, v, l)
    ensures v >= Shl(Code(lens, p) + 1, l - lens[p])
    decreases p
  {
    ShrInterval(v, Code(lens, p), l - lens[p]);
    assert !Matches(lens, p, v, l);
    if p > 0 {
      Beyond(lens, p - 1, v, l);
      ShlShl(Code(lens, p - 1) + 1, lens[p] - lens[p - 1], l - lens[p]);
    } else {
      ShlAdd(0, 0, l - lens[p]);
    }
  }

  // At most one code matches.
  lemma OnlyOne(lens: seq<nat>, q: nat, p: nat, v: nat, l: nat)
    requires Lengths(lens) && q < p < |lens|
    ensures !(Matches(lens, q, v, l) && Matches(lens, p, v, l))
  {
    if Matches(lens, q, v, l) && Matches(lens, p, v, l) {
      Apart(lens, q, p);
      ShrShr(v, l - lens[p], lens[p] - lens[q]);
      ShrInterval(Code(lens, p), Code(lens, q), lens[p] - lens[q]);
    }
  }

  // ---- one length ----

  // The codes of length l from index a on are consecutive.
  lemma {:induction false} Consecutive(t: HuffTable, l: nat, a: nat, q: nat)
    requires TableOk(t) && 1 <= l <= 16 && a == LevelStart(t, l) <= q < |Lens(t)| && Lens(t)[q] == l
    ensures Lens(t)[a] == l && Code(Lens(t), q) == Code(Lens(t), a) + (q - a)
    decreases q
  {
    LevelIn(t, l, q);
    LevelIn(t, l, a);
    if q > a {
      LevelIn(t, l, q - 1);
      Consecutive(t, l, a, q - 1);
    }
  }

  lemma LevelFound(t: HuffTable, l: nat, a: nat, v: nat) returns (q: nat)
    requires TableOk(t) && 1 <= l <= 16 && NoneBelow(Lens(t), v, l, l) && a == LevelStart(t, l)
    requires a < LevelStart(t, l + 1) <= |Lens(t)| && v <= Code(Lens(t), LevelStart(t, l + 1) - 1)
    ensures q == a + (v - Code(Lens(t), a)) && a <= q < LevelStart(t, l + 1)
    ensures Lens(t)[q] == l && Code(Lens(t), q) == v
  {
    var lens, z := Lens(t), LevelStart(t, l + 1) - 1;
    LevelIn(t, l, z);
    Consecutive(t, l, a, z);
    if a > 0 {
      forall k | 0 <= k <= a - 1
        ensures !Matches(lens, k, v, l)
      {
        LevelIn(t, l, k);
      }
      LevelIn(t, l, a - 1);
      Beyond(lens, a - 1, v, l);
    }
    q := a + (v - Code(lens, a));
    LevelIn(t, l, q);
    Consecutive(t, l, a, q);
  }

  // Comparing with maxcode tells whether a code of length l matches, and valoffset
  // leads to it.
  lemma LevelTest(t: HuffTable, l: nat, maxcode: int, valoffset: int, v: nat)
    requires TableOk(t) && 1 <= l <= 16 && LevelAt(t, l, maxcode, valoffset) && NoneBelow(Lens(t), v, l, l)
    ensures v > maxcode ==> NoneBelow(Lens(t), v, l, l + 1)
    ensures v <= maxcode ==>
              0 <= v + valoffset < |Lens(t)| && Lens(t)[v + valoffset] == l && Matches(Lens(t), v + valoffset, v, l)
  {
    var lens, a, b := Lens(t), LevelStart(t, l), LevelStart(t, l + 1);
    if v <= maxcode {
      var q := LevelFound(t, l, a, v);
      assert Codes(lens)[a] == Code(lens, a);
    } else {
      forall q | 0 <= q < |lens| && lens[q] < l + 1
        ensures !Matches(lens, q, v, l)
      {
        if lens[q] == l {
          LevelIn(t, l, q);
          LevelIn(t, l, b - 1);
          Consecutive(t, l, a, q);
          Consecutive(t, l, a, b - 1);
          assert Codes(lens)[b - 1] == Code(lens, b - 1);
        }
      }
    }
  }

  // One bit more does not change what matched before.
  lemma NextBit(lens: seq<nat>, v: nat, l: nat, bit: Bit, m: nat)
    requires Lengths(lens) && m <= l + 1
    ensures NoneBelow(lens, 2 * v + bit, l + 1, m) == NoneBelow(lens, v, l, m)
  {
    forall q | 0 <= q < |lens| && lens[q] < m
      ensures Matches(lens, q, 2 * v + bit, l + 1) == Matches(lens, q, v, l)
    {
      assert Shr(2 * v + bit, l + 1 - lens[q]) == Shr(v, l - lens[q]);
    }
  }

  // ---- lookahead ----

  lemma LookDecides(t: HuffTable, d: DecTable, y: nat)
    requires TableOk(t) && CodeTree(t) && Decodes(t, d) && y < 256
    ensures if d.lookNbits[y] == 0 then NoneBelow(Lens(t), y, 8, 9)
            else exists q :: 0 <= q < |Lens(t)| && Looks(t, d, y, q)
  {
    var lens := Lens(t);
    var short :| 0 <= short <= |lens| && Short(lens, short)
                 && LookaheadUpTo(t.huffval, lens, Codes(lens), d.lookNbits, d.lookSym, short);
    if q {:trigger Matches(lens, q, y, 8)} :| 0 <= q < short && Matches(lens, q, y, 8) {
      LookHits(t, d, y, q, short);
    } else if short > 0 {
      Beyond(lens, short - 1, y, 8);
    }
  }

  // Entry y of the lookahead tables leads to code q.
  predicate Looks(t: HuffTable, d: DecTable, y: nat, q: nat)
    requires TableOk(t) && CodeTree(t) && y < |d.lookNbits| && y < |d.lookSym| && q < |Lens(t)|
  {
    Lens(t)[q] == d.lookNbits[y] <= 8 && Matches(Lens(t), q, y, 8) && d.lookSym[y] == t.huffval[q]
  }

  lemma LookHits(t: HuffTable, d: DecTable, y: nat, q: nat, short: nat)
    requires TableOk(t) && CodeTree(t) && |d.lookNbits| == |d.lookSym| == 256 && y < 256 && q < short <= |Lens(t)|
    requires LookaheadUpTo(t.huffval, Lens(t), Codes(Lens(t)), d.lookNbits, d.lookSym, short)
    requires Matches(Lens(t), q, y, 8)
    ensures Looks(t, d, y, q)
  {
    var lens := Lens(t);
    ShrInterval(y, Code(lens, q), 8 - lens[q]);
    assert Codes(lens)[q] == Code(lens, q);
    assert Extends(lens, Codes(lens), q, y);
  }

  // ---- the decoding procedures ----

  // The bits start with code q.
  predicate StartsWith(lens: seq<nat>, bits: Bits, q: nat)
    requires Lengths(lens) && q < |lens|
  {
    lens[q] <= Length(bits) && Take(bits, lens[q]) == Code(lens, q)
  }

  // The first 16 bits start with no code.
  predicate NoCode(lens: seq<nat>, bits: Bits)
    requires Lengths(lens)
  {
    17 <= Length(bits) && forall q :: 0 <= q < |lens| ==> !StartsWith(lens, bits, q)
  }

  // What decoding a symbol from the bits gives: the symbol of the code they start with,
  // or 0 after 17 bits if there is no such code.
  ghost predicate Result(t: HuffTable, bits: Bits, r: byte, rest: Bits)
    requires TableOk(t) && CodeTree(t)
  {
    && (forall q :: 0 <= q < |Lens(t)| && StartsWith(Lens(t), bits, q) ==>
        r == t.huffval[q] && rest == Drop(bits, Lens(t)[q]))
    && (NoCode(Lens(t), bits) ==> r == 0 && rest == Drop(bits, 17))
  }

  lemma StartUnique(lens: seq<nat>, bits: Bits, q: nat, p: nat)
    requires Lengths(lens) && q < |lens| && p < |lens| && StartsWith(lens, bits, q) && StartsWith(lens, bits, p)
    ensures q == p
  {
    if q < p {
      TakePrefix(bits, lens[p], lens[q]);
      OnlyOne(lens, q, p, Take(bits, lens[p]), lens[p]);
    } else if p < q {
      TakePrefix(bits, lens[q], lens[p]);
      OnlyOne(lens, p, q, Take(bits, lens[q]), lens[q]);
    }
  }

  // The value of the first l bits decides what shorter codes match.
  lemma MatchesStart(lens: seq<nat>, bits: Bits, q: nat, l: nat)
    requires Lengths(lens) && q < |lens| && lens[q] <= l <= Length(bits)
    ensures Matches(lens, q, Take(bits, l), l) <==> StartsWith(lens, bits, q)
  {
    TakePrefix(bits, l, lens[q]);
  }

  // What a code found, or found to be missing, means for the result.
  lemma FoundResult(t: HuffTable, bits: Bits, q: nat)
    requires TableOk(t) && CodeTree(t) && q < |Lens(t)| && StartsWith(Lens(t), bits, q)
    ensures Result(t, bits, t.huffval[q], Drop(bits, Lens(t)[q]))
  {
    forall p | 0 <= p < |Lens(t)| && StartsWith(Lens(t), bits, p)
      ensures p == q
    {
      StartUnique(Lens(t), bits, q, p);
    }
  }

  lemma MissedResult(t: HuffTable, bits: Bits)
    requires TableOk(t) && CodeTree(t) && 17 <= Length(bits) && NoneBelow(Lens(t), Take(bits, 17), 17, 17)
    ensures Result(t, bits, 0, Drop(bits, 17))
  {
    forall q | 0 <= q < |Lens(t)|
      ensures !StartsWith(Lens(t), bits, q)
    {
      MatchesStart(Lens(t), bits, q, 17);
    }
  }

  // Having read l bits with value code, shorter codes are excluded; while there are
  // bits the reader is l bits further. Closed.
  ghost predicate Scanned(t: HuffTable, bits: Bits, ahead: Bits, code: nat, l: nat)
    requires TableOk(t)
  {
    forall k :: Focus(2, k) ==> ScannedTo(t, bits, ahead, code, l)
  }

  ghost predicate ScannedTo(t: HuffTable, bits: Bits, ahead: Bits, code: nat, l: nat)
    requires TableOk(t)
  {
    && 1 <= l <= 17 && code < Shl(1, l) && NoneBelow(Lens(t), code, l, l)
    && (l <= Length(bits) ==> code == Take(bits, l) && ahead == Drop(bits, l))
    && forall q :: 0 <= q < |Lens(t)| && StartsWith(Lens(t), bits, q) ==> l <= Lens(t)[q]
  }

  // The part of the decoder's table for the slow path.
  predicate LevelsOk(t: HuffTable, d: DecTable)
    requires TableOk(t)
  {
    && d.huffval == t.huffval && |d.maxcode| == |d.valoffset| == 18
    && (forall l :: 1 <= l <= 16 ==> LevelAt(t, l, d.maxcode[l], d.valoffset[l])) && d.maxcode[17] == 0xFFFFF
  }

  // The test of the loop: it goes on while no code of length l matches.
  lemma ScanTest(t: HuffTable, d: DecTable, bits: Bits, ahead: Bits, code: nat, l: nat)
    requires TableOk(t) && CodeTree(t) && LevelsOk(t, d) && 1 <= l <= 17 && Scanned(t, bits, ahead, code, l)
    ensures code > d.maxcode[l] ==> l <= 16 && NoneBelow(Lens(t), code, l, l + 1)
    ensures code > d.maxcode[l] && l <= Length(bits) ==> Length(ahead) == Length(bits) - l
    ensures code <= d.maxcode[l] && l <= 16 ==>
              0 <= code + d.valoffset[l] < |Lens(t)| && Result(t, bits, t.huffval[code + d.valoffset[l]], ahead)
    ensures code <= d.maxcode[l] && l == 17 ==> Result(t, bits, 0, ahead)
  {
    AheadLength(t, bits, ahead, code, l);
    if l == 17 {
      SlowMiss(t, bits, ahead, code);
    } else {
      LevelTest(t, l, d.maxcode[l], d.valoffset[l], code);
      if code <= d.maxcode[l] {
        SlowHit(t, bits, ahead, code, l, code + d.valoffset[l]);
      }
    }
  }

  lemma AheadLength(t: HuffTable, bits: Bits, ahead: Bits, code: nat, l: nat)
    requires TableOk(t) && Scanned(t, bits, ahead, code, l)
    ensures l <= Length(bits) ==> Length(ahead) == Length(bits) - l
    ensures ScannedTo(t, bits, ahead, code, l) && code <= 0xFFFFF
  {
    assert Focus(2, 0);
    SentinelStops(code, l);
    if l <= Length(bits) {
      DropLength(bits, l);
    }
  }

  lemma FoundLength(t: HuffTable, bits: Bits, ahead: Bits, code: nat, l: nat)
    requires TableOk(t) && Scanned(t, bits, ahead, code, l)
    ensures Found(t, bits) ==> l <= Length(bits)
  {
    assert Focus(2, 0);
  }

  lemma ScanStarts(t: HuffTable, bits: Bits, ahead: Bits, code: nat, l: nat)
    requires TableOk(t) && code < Shl(1, l)
    requires l == 1 || (l == 9 && 8 <= Length(bits) && NoneBelow(Lens(t), Take(bits, 8), 8, 9))
    requires forall k :: 0 <= k <= l && k <= Length(bits) ==> Shr(code, l - k) == Take(bits, k)
    requires l <= Length(bits) ==> ahead == Drop(bits, l)
    ensures Scanned(t, bits, ahead, code, l)
  {
    if l == 9 {
      var lens := Lens(t);
      assert Shr(code, 1) == Take(bits, 8);
      NextBit(lens, code / 2, 8, code % 2, 9);
      forall q | 0 <= q < |lens| && StartsWith(lens, bits, q)
        ensures lens[q] >= 9
      {
        if lens[q] <= 8 {
          MatchesStart(lens, bits, q, 8);
        }
      }
    }
  }

  lemma ScanNext(t: HuffTable, bits: Bits, ahead: Bits, code: nat, l: nat, bit: nat, ahead': Bits)
    requires TableOk(t) && Scanned(t, bits, ahead, code, l) && 1 <= l <= 16 && bit < 2
    requires NoneBelow(Lens(t), code, l, l + 1)
    requires 1 <= Length(ahead) ==> bit == Take(ahead, 1) && ahead' == Drop(ahead, 1)
    ensures Scanned(t, bits, ahead', 2 * code + bit, l + 1)
  {
    var lens := Lens(t);
    assert Focus(2, 0);
    NextBit(lens, code, l, bit, l + 1);
    ShlDouble(1, l);
    if l + 1 <= Length(bits) {
      DropDrop(bits, l, 1);
      assert Take(ahead, 1) == ahead.head;
    }
    forall q | 0 <= q < |lens| && StartsWith(lens, bits, q)
      ensures l + 1 <= lens[q]
    {
      if lens[q] == l {
        MatchesStart(lens, bits, q, l);
      }
    }
  }

  // Out-of-line code for Huffman code decoding (jpeg_huff_decode). The code is known to
  // have at least minBits bits.
  method SlowDecode(br: BitReader, d: DecTable, minBits: nat, ghost t: HuffTable) returns (r: Option<byte>)
    requires br.Valid() && TableOk(t) && CodeTree(t) && LevelsOk(t, d)
    requires minBits == 1 || (minBits == 9 && 8 <= Length(br.Ahead()) && NoneBelow(Lens(t), Take(br.Ahead(), 8), 8, 9))
    modifies br
    ensures br.Steady() && (r == None ==> br.unreadMarker == 0 && (br.future == [] ==> br.Ending() == None))
    ensures r.Some? ==> Result(t, old(br.Ahead()), r.value, br.Ahead()) && InTable(t, r.value)
    ensures Found(t, old(br.Ahead())) ==> br.insufficientData == old(br.insufficientData)
  {
    ghost var bits := br.Ahead();
    var l := minBits;
    var got := br.Receive(l);
    if got == None {
      return None;
    }
    var code: nat := got.value;
    ScanStarts(t, bits, br.Ahead(), code, l);
    FoundLength(t, bits, br.Ahead(), code, l);
    assert 1 <= l <= 17;
    while code > d.maxcode[l]
      invariant 1 <= l <= 17 && br.Steady() && Scanned(t, bits, br.Ahead(), code, l)
      invariant Found(t, bits) ==> br.insufficientData == old(br.insufficientData)
      decreases 17 - l
    {
      var ok;
      ok, code := NextCodeBit(br, d, code, l, t, bits);
      if !ok {
        return None;
      }
      l := l + 1;
    }
    ScanTest(t, d, bits, br.Ahead(), code, l);
    // On corrupt data no code matches at all.
    r := Some(if l > 16 then 0 else d.huffval[code + d.valoffset[l]]);
  }

  // The code is longer than l bits: fetch one more.
  method NextCodeBit(br: BitReader, d: DecTable, code: nat, l: nat, ghost t: HuffTable, ghost bits: Bits)
    returns (ok: bool, code': nat)
    requires br.Valid() && TableOk(t) && CodeTree(t) && LevelsOk(t, d) && 1 <= l <= 17
    requires Scanned(t, bits, br.Ahead(), code, l) && code > d.maxcode[l]
    modifies br
    ensures br.Steady() && (!ok ==> br.unreadMarker == 0 && (br.future == [] ==> br.Ending() == None))
    ensures ok ==> l <= 16 && Scanned(t, bits, br.Ahead(), code', l + 1)
    ensures ok && Found(t, bits) ==> br.insufficientData == old(br.insufficientData)
  {
    ghost var ahead := br.Ahead();
    ScanTest(t, d, bits, ahead, code, l);
    var bit;
    ok, bit := FetchBit(br);
    code' := 2 * code + bit;
    if ok {
      ScanNext(t, bits, ahead, code, l, bit, br.Ahead());
      FoundLength(t, bits, br.Ahead(), code', l + 1);
    }
  }

  method FetchBit(br: BitReader) returns (ok: bool, bit: nat)
    requires br.Valid()
    modifies br
    ensures br.Steady() && (!ok ==> br.unreadMarker == 0 && (br.future == [] ==> br.Ending() == None))
    ensures ok && 1 <= Length(old(br.Ahead())) ==>
              bit == Take(old(br.Ahead()), 1) && br.Ahead() == Drop(old(br.Ahead()), 1)
              && br.insufficientData == old(br.insufficientData)
    ensures bit < 2
  {
    var r := br.Receive(1);
    ok, bit := r.Some?, if r.Some? then r.value else 0;
  }

  // A symbol of the table, or the stand-in for a bad code.
  predicate InTable(t: HuffTable, r: byte)
    requires TableOk(t) && CodeTree(t)
  {
    r == 0 || exists q :: 0 <= q < |Lens(t)| && t.huffval[q] == r
  }

  // The bits start with some code.
  ghost predicate Found(t: HuffTable, bits: Bits)
    requires TableOk(t)
  {
    exists q :: 0 <= q < |Lens(t)| && StartsWith(Lens(t), bits, q)
  }

  lemma SentinelStops(code: nat, l: nat)
    requires code < Shl(1, l) && l <= 17
    ensures code <= 0xFFFFF
  {
    ShlGrows(1, l, 17);
    ShlFour(1, 13); ShlFour(16, 9); ShlFour(256, 5); ShlFour(4096, 1);
  }

  lemma SlowMiss(t: HuffTable, bits: Bits, ahead: Bits, code: nat)
    requires TableOk(t) && CodeTree(t) && ScannedTo(t, bits, ahead, code, 17)
    ensures Result(t, bits, 0, ahead)
  {
    if NoCode(Lens(t), bits) {
      MissedResult(t, bits);
    }
  }

  lemma SlowHit(t: HuffTable, bits: Bits, ahead: Bits, code: nat, l: nat, q: nat)
    requires TableOk(t) && CodeTree(t) && ScannedTo(t, bits, ahead, code, l) && q < |Lens(t)|
    requires Lens(t)[q] == l && Matches(Lens(t), q, code, l)
    ensures Result(t, bits, t.huffval[q], ahead)
  {
    if l <= Length(bits) {
      MatchesStart(Lens(t), bits, q, l);
      FoundResult(t, bits, q);
    }
  }

  // The next symbol (HUFF_DECODE): by lookahead where 8 bits are at hand, else slowly.
  method HuffDecode(br: BitReader, d: DecTable, ghost t: HuffTable) returns (r: Option<byte>)
    requires br.Valid() && TableOk(t) && CodeTree(t) && Decodes(t, d)
    modifies br
    ensures br.Steady() && (r == None ==> br.unreadMarker == 0 && (br.future == [] ==> br.Ending() == None))
    ensures r.Some? ==> Result(t, old(br.Ahead()), r.value, br.Ahead()) && InTable(t, r.value)
    ensures Found(t, old(br.Ahead())) ==> br.insufficientData == old(br.insufficientData)
  {
    ghost var bits := br.Ahead();
    if br.bitsLeft < 8 {
      var ok := br.Fill(0);
      if !ok {
        return None;
      }
      if br.bitsLeft < 8 {
        r := SlowDecode(br, d, 1, t);
        return;
      }
    }
    var look := br.Peek(8);
    TakeBound(bits, 8);
    LookDecides(t, d, look);
    var nb := d.lookNbits[look];
    if nb != 0 {
      ghost var q :| 0 <= q < |Lens(t)| && Looks(t, d, look, q);
      br.Discard(nb);
      r := Some(d.lookSym[look]);
      MatchesStart(Lens(t), bits, q, 8);
      FoundResult(t, bits, q);
    } else {
      r := SlowDecode(br, d, 9, t);
    }
  }
}

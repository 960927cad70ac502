// Huffman tables: canonical codes (Annex C of T.81) and the derived tables of the
// encoder (jchuff.c) and the decoder (jdhuff.c).

module HuffCode {
  import opened Prelude

  // BITS and HUFFVAL of a table: the number of codes of each length 1 to 16, and the
  // symbols in the order of their codes.
  datatype HuffTable = HuffTable(bits: seq<byte>, huffval: seq<byte>)

  predicate TableOk(t: HuffTable) {
    |t.bits| == 17 && |t.huffval| == 256
  }

  function Repeat(l: nat, n: nat): (r: seq<nat>)
    ensures |r| == n && forall i :: 0 <= i < n ==> r[i] == l
  {
    seq(n, _ => l)
  }

  // Figure C.1: the lengths of the codes up to length l, in order.
  function Sizes(bits: seq<byte>, l: nat): seq<nat>
    requires |bits| == 17 && l <= 16
  {
    if l == 0 then [] else Sizes(bits, l - 1) + Repeat(l, bits[l])
  }

  // Code lengths in the order of the codes.
  predicate Lengths(lens: seq<nat>) {
    && (forall p :: 0 <= p < |lens| ==> 1 <= lens[p] <= 16)
    && (forall q, p :: 0 <= q < p < |lens| ==> lens[q] <= lens[p])
  }

  // Figure C.2: the canonical codes.
  function Code(lens: seq<nat>, p: nat): nat
    requires Lengths(lens) && p < |lens|
  {
    if p == 0 then 0
    else
      ShlNonNegative(Code(lens, p - 1) + 1, lens[p] - lens[p - 1]);
      Shl(Code(lens, p - 1) + 1, lens[p] - lens[p - 1])
  }

  function Codes(lens: seq<nat>): seq<nat>
    requires Lengths(lens)
  {
    seq(|lens|, (p: nat) requires p < |lens| => Code(lens, p))
  }

  // No code is all ones.
  predicate Fits(lens: seq<nat>)
    requires Lengths(lens)
  {
    forall p :: 0 <= p < |lens| ==> Room(lens, p)
  }

  predicate Room(lens: seq<nat>, p: nat)
    requires Lengths(lens) && p < |lens|
  {
    Code(lens, p) + 1 < Shl(1, lens[p])
  }

  lemma {:induction false} SizesOk(bits: seq<byte>, l: nat)
    requires |bits| == 17 && l <= 16
    ensures Lengths(Sizes(bits, l)) && forall p :: 0 <= p < |Sizes(bits, l)| ==> Sizes(bits, l)[p] <= l
  {
    if l > 0 {
      SizesOk(bits, l - 1);
    }
  }

  // Canonical codes keep apart: code p lies behind all extensions of an earlier code
  // q to its length. So no code is a prefix of another.
  lemma {:induction false} Apart(lens: seq<nat>, q: nat, p: nat)
    requires Lengths(lens) && q < p < |lens|
    ensures lens[q] <= lens[p] && Shl(Code(lens, q) + 1, lens[p] - lens[q]) <= Code(lens, p)
    decreases p
  {
    if q < p - 1 {
      Apart(lens, q, p - 1);
      ShlMonotone(Shl(Code(lens, q) + 1, lens[p - 1] - lens[q]), Code(lens, p - 1) + 1, lens[p] - lens[p - 1]);
      ShlShl(Code(lens, q) + 1, lens[p - 1] - lens[q], lens[p] - lens[p - 1]);
    }
  }

  // ---- Kraft's inequality decides ----

  // The share of the code space that the codes of the first p lengths take, in units
  // of 2^-16.
  function Kraft(lens: seq<nat>, p: nat): nat
    requires Lengths(lens) && p <= |lens|
  {
    if p == 0 then 0
    else
      ShlNonNegative(1, 16 - lens[p - 1]);
      Kraft(lens, p - 1) + Shl(1, 16 - lens[p - 1])
  }

  // The code space in front of code p is what the earlier codes take.
  lemma {:induction false} CodeIsKraft(lens: seq<nat>, p: nat)
    requires Lengths(lens) && p < |lens|
    ensures Shl(Code(lens, p), 16 - lens[p]) == Kraft(lens, p)
    ensures Shl(Code(lens, p) + 1, 16 - lens[p]) == Kraft(lens, p + 1)
  {
    if p == 0 {
      ShlAdd(0, 0, 16 - lens[p]);
    } else {
      CodeIsKraft(lens, p - 1);
      ShlShl(Code(lens, p - 1) + 1, lens[p] - lens[p - 1], 16 - lens[p]);
    }
    ShlAdd(Code(lens, p), 1, 16 - lens[p]);
  }

  // A table is accepted exactly when at least one code of the longest length is left.
  lemma FitsIffKraft(lens: seq<nat>)
    requires Lengths(lens) && lens != []
    ensures Fits(lens) <==> Kraft(lens, |lens|) + Shl(1, 16 - lens[|lens| - 1]) <= 0x1_0000
  {
    var z := |lens| - 1;
    var n, m := lens[z], 16 - lens[z];
    CodeIsKraft(lens, z);
    ShlAdd(Code(lens, z) + 1, 1, m);
    ShlShl(1, n, m);
    ShlFour(1, 12); ShlFour(16, 8); ShlByte(256);
    ShlMonotone(Code(lens, z) + 2, Shl(1, n), m);
    ShlMonotone(Shl(1, n), Code(lens, z) + 2, m);
    ShlMonotone(Shl(1, n), Code(lens, z) + 1, m);
    if Room(lens, z) {
      LastFits(lens);
    }
  }

  // ---- figures C.1 and C.2 as the code computes them ----

  lemma SizesGrow(bits: seq<byte>, l: nat, m: nat)
    requires |bits| == 17 && l <= m <= 16
    ensures |Sizes(bits, l)| <= |Sizes(bits, m)|
    decreases m - l
  {
    if l < m {
      SizesGrow(bits, l + 1, m);
    }
  }

  // huffsize, with a zero behind the last entry; fails when the counts exceed 256.
  method FillSizes(bits: seq<byte>) returns (ok: bool, huffsize: array<nat>, count: nat)
    requires |bits| == 17
    ensures ok == (|Sizes(bits, |bits| - 1)| <= 256) && fresh(huffsize) && huffsize.Length == 257
    ensures ok ==>
              count == |Sizes(bits, |bits| - 1)| && huffsize[..count] == Sizes(bits, |bits| - 1) && huffsize[count] == 0
  {
    huffsize := new nat[257](_ => 0);
    var p, l := 0, 1;
    while l <= 16
      invariant 1 <= l <= 17 && p <= 256 && huffsize[..p] == Sizes(bits, l - 1)
    {
      var i: nat := bits[l];
      if p + i > 256 {
        SizesGrow(bits, l, 16);
        return false, huffsize, p;
      }
      ghost var start := p;
      while i > 0
        invariant start <= p && p + i == start + bits[l] <= 256
        invariant huffsize[..p] == Sizes(bits, l - 1) + Repeat(l, p - start)
      {
        huffsize[p] := l;
        p := p + 1;
        i := i - 1;
      }
      l := l + 1;
    }
    huffsize[p] := 0;
    ok, count := true, p;
  }

  // What the loop below knows before code p gets its turn: code is code p - 1 plus one,
  // brought to length si. The formula is closed.
  ghost predicate Counting(lens: seq<nat>, p: nat, si: nat, code: nat)
    requires Lengths(lens)
  {
    && p <= |lens| && (p < |lens| ==> si <= lens[p]) && (p == 0 < |lens| ==> si == lens[0])
    && forall k :: Focus(2, k) ==> CountingFormula(lens, p, si, code)
  }

  predicate CountingFormula(lens: seq<nat>, p: nat, si: nat, code: nat)
    requires Lengths(lens) && p <= |lens|
  {
    if p == 0 then code == 0 else lens[p - 1] <= si && code == Shl(Code(lens, p - 1) + 1, si - lens[p - 1])
  }

  lemma CountingOn(lens: seq<nat>, p: nat, si: nat, code: nat)
    requires Lengths(lens) && Counting(lens, p, si, code)
    ensures p < |lens| && lens[p] == si ==> Code(lens, p) == code && Counting(lens, p + 1, si, code + 1)
    ensures p > 0 && (p < |lens| ==> si < lens[p]) ==> Counting(lens, p, si + 1, 2 * code)
  {
    assert Focus(2, 0);
    if p > 0 {
      ShlShl(Code(lens, p - 1) + 1, si - lens[p - 1], 1);
    }
  }

  lemma CheckDecides(lens: seq<nat>, p: nat, si: nat, code: nat)
    requires Lengths(lens) && Counting(lens, p, si, code) && p > 0
    ensures if code >= Shl(1, si) then !Fits(lens) else Room(lens, p - 1)
  {
    assert Focus(2, 0);
    RoomLeft(lens, p - 1, si);
    assert Room(lens, p - 1) <==> code < Shl(1, si);
  }

  // The codes of length si.
  method GenerateGroup(huffsize: array<nat>, count: nat, huffcode: array<nat>, code0: nat, si: nat, p0: nat,
                       ghost lens: seq<nat>)
    returns (code: nat, p: nat)
    requires huffsize.Length == huffcode.Length == 257 && count <= 256 && huffsize[count] == 0
    requires lens == huffsize[..count] && Lengths(lens) && Counting(lens, p0, si, code0) && si > 0
    requires huffsize != huffcode
    requires forall q {:trigger huffcode[q]} :: 0 <= q < p0 ==> huffcode[q] == Code(lens, q)
    modifies huffcode
    ensures p0 <= p && Counting(lens, p, si, code) && (p < count ==> si < lens[p]) && (p0 == 0 < count ==> p > 0)
    ensures forall q {:trigger huffcode[q]} :: 0 <= q < p ==> huffcode[q] == Code(lens, q)
  {
    code, p := code0, p0;
    while huffsize[p] == si
      invariant p0 <= p && Counting(lens, p, si, code)
      invariant forall q {:trigger huffcode[q]} :: 0 <= q < p ==> huffcode[q] == Code(lens, q)
      decreases count - p
    {
      assert p < count && lens[p] == si;
      CountingOn(lens, p, si, code);
      assert Code(lens, p) == code;
      huffcode[p] := code;
      p := p + 1;
      code := code + 1;
    }
  }

  // huffcode; fails when a length has no room for its codes and one more.
  method GenerateCodes(huffsize: array<nat>, count: nat) returns (ok: bool, huffcode: array<nat>)
    requires huffsize.Length == 257 && count <= 256 && huffsize[count] == 0 && Lengths(huffsize[..count])
    ensures ok == Fits(huffsize[..count]) && fresh(huffcode) && huffcode.Length == 257
    ensures ok ==> huffcode[..count] == Codes(huffsize[..count])
  {
    ghost var lens := huffsize[..count];
    huffcode := new nat[257](_ => 0);
    var code: nat, si, p := 0, huffsize[0], 0;
    assert forall q :: 0 <= q < count ==> lens[q] == huffsize[q] >= 1;
    while huffsize[p] != 0
      invariant Counting(lens, p, si, code) && (count > 0 ==> si > 0)
      invariant p > 0 ==> Room(lens, p - 1)
      invariant forall q {:trigger huffcode[q]} :: 0 <= q < p ==> huffcode[q] == Code(lens, q)
      decreases count - p, if p < count then lens[p] - si else 0
    {
      code, p := GenerateGroup(huffsize, count, huffcode, code, si, p, lens);
      var room := Shl(1, si);
      CheckDecides(lens, p, si, code);
      if code >= room {
        return false, huffcode;
      }
      CountingOn(lens, p, si, code);
      code := 2 * code;
      si := si + 1;
    }
    if count > 0 {
      LastFits(lens);
    }
    ok := true;
  }

  // The check at a longer length si finds what a check at the code's own length would.
  lemma RoomLeft(lens: seq<nat>, p: nat, si: nat)
    requires Lengths(lens) && p < |lens| && lens[p] <= si
    ensures Shl(Code(lens, p) + 1, si - lens[p]) >= Shl(1, si) <==> Code(lens, p) + 1 >= Shl(1, lens[p])
  {
    ShlShl(1, lens[p], si - lens[p]);
    ShlMonotone(Shl(1, lens[p]), Code(lens, p) + 1, si - lens[p]);
    ShlMonotone(Code(lens, p) + 1, Shl(1, lens[p]), si - lens[p]);
  }

  lemma LastFits(lens: seq<nat>)
    requires Lengths(lens) && lens != [] && Room(lens, |lens| - 1)
    ensures Fits(lens)
  {
    var z := |lens| - 1;
    forall p | 0 <= p < z
      ensures Room(lens, p)
    {
      Apart(lens, p, z);
      RoomLeft(lens, p, lens[z]);
    }
  }

  // ---- the encoder's table ----

  function Lens(t: HuffTable): (r: seq<nat>)
    requires TableOk(t)
    ensures Lengths(r)
  {
    SizesOk(t.bits, |t.bits| - 1);
    Sizes(t.bits, |t.bits| - 1)
  }

  // The counts fit and describe a code tree with a code to spare.
  predicate CodeTree(t: HuffTable)
    requires TableOk(t)
  {
    |Lens(t)| <= 256 && Fits(Lens(t))
  }

  predicate SymbolsInRange(t: HuffTable, dc: bool)
    requires TableOk(t) && CodeTree(t)
  {
    dc ==> forall p :: 0 <= p < |Lens(t)| ==> t.huffval[p] <= 15
  }

  predicate SymbolsDistinct(t: HuffTable)
    requires TableOk(t) && CodeTree(t)
  {
    forall p, q :: 0 <= p < q < |Lens(t)| ==> t.huffval[p] != t.huffval[q]
  }

  // Code and size by symbol for the first p symbols; size 0 for other symbols.
  predicate Filled(huffval: seq<byte>, lens: seq<nat>, codes: seq<nat>, ehufco: seq<nat>, ehufsi: seq<nat>, p: nat)
    requires |huffval| == 256 && p <= |lens| == |codes| <= 256 && |ehufco| == |ehufsi| == 256
  {
    && (forall q {:trigger huffval[q]} :: 0 <= q < p ==>
        ehufsi[huffval[q]] == lens[q] && ehufco[huffval[q]] == codes[q])
    && (forall i :: 0 <= i < 256 && i !in huffval[..p] ==> ehufsi[i] == 0)
  }

  lemma FillStep(huffval: seq<byte>, lens: seq<nat>, codes: seq<nat>, ehufco: seq<nat>, ehufsi: seq<nat>, p: nat)
    requires |huffval| == 256 && p < |lens| == |codes| <= 256 && |ehufco| == |ehufsi| == 256 && lens[p] > 0
    requires Filled(huffval, lens, codes, ehufco, ehufsi, p) && forall q :: 0 <= q < p ==> lens[q] > 0
    ensures ehufsi[huffval[p]] == 0 <==> huffval[p] !in huffval[..p]
    ensures ehufsi[huffval[p]] == 0 ==>
              Filled(huffval, lens, codes, ehufco[huffval[p] := codes[p]], ehufsi[huffval[p] := lens[p]], p + 1)
  {
    assert huffval[..p + 1] == huffval[..p] + [huffval[p]];
    forall q | 0 <= q < p
      ensures huffval[q] in huffval[..p]
    {
      assert huffval[..p][q] == huffval[q];
    }
  }

  predicate Encodes(t: HuffTable, ehufco: seq<nat>, ehufsi: seq<nat>)
    requires TableOk(t) && CodeTree(t)
  {
    |ehufco| == |ehufsi| == 256 && Filled(t.huffval, Lens(t), Codes(Lens(t)), ehufco, ehufsi, |Lens(t)|)
  }

  method MakeCDerivedTbl(t: HuffTable, dc: bool) returns (ok: bool, ehufco: array<nat>, ehufsi: array<nat>)
    requires TableOk(t)
    ensures ok == (CodeTree(t) && SymbolsInRange(t, dc) && SymbolsDistinct(t))
    ensures ok ==> Encodes(t, ehufco[..], ehufsi[..])
    ensures fresh(ehufco) && fresh(ehufsi)
  {
    ehufco := new nat[256](_ => 0);
    ehufsi := new nat[256](_ => 0);
    var huffsize, huffcode, count;
    ok, huffsize, count := FillSizes(t.bits);
    if !ok {
      return;
    }
    ghost var lens := Lens(t);
    ok, huffcode := GenerateCodes(huffsize, count);
    if !ok {
      return;
    }
    assert huffsize[..count] == lens;
    assert forall q :: 0 <= q < count ==> lens[q] == huffsize[q];
    ok := FillByCode(t.huffval, huffsize, huffcode, count, if dc then 15 else 255, ehufco, ehufsi);
  }

  // Figure C.3: tables indexed by symbol; fails for symbols out of range or repeated.
  method FillByCode(huffval: seq<byte>, huffsize: array<nat>, huffcode: array<nat>, count: nat, maxsymbol: nat,
                    ehufco: array<nat>, ehufsi: array<nat>) returns (ok: bool)
    requires |huffval| == 256 && huffsize.Length == huffcode.Length == 257 && count <= 256
    requires ehufco.Length == ehufsi.Length == 256 && ehufco != ehufsi && ehufsi != huffsize && ehufco != huffsize
    requires huffcode != ehufco && huffcode != ehufsi
    requires forall q :: 0 <= q < count ==> huffsize[q] > 0
    requires forall i :: 0 <= i < 256 ==> ehufsi[i] == 0
    modifies ehufco, ehufsi
    ensures ok == ((forall q :: 0 <= q < count ==> huffval[q] <= maxsymbol) && forall q, r :: 0 <= q < r < count ==>
                   huffval[q] != huffval[r])
    ensures ok ==> Filled(huffval, huffsize[..count], huffcode[..count], ehufco[..], ehufsi[..], count)
  {
    ghost var lens, codes := huffsize[..count], huffcode[..count];
    var p := 0;
    while p < count
      invariant p <= count
      invariant forall q :: 0 <= q < p ==> huffval[q] <= maxsymbol
      invariant forall q, r :: 0 <= q < r < p ==> huffval[q] != huffval[r]
      invariant Filled(huffval, lens, codes, ehufco[..], ehufsi[..], p)
    {
      var i := huffval[p];
      FillStep(huffval, lens, codes, ehufco[..], ehufsi[..], p);
      if i > maxsymbol || ehufsi[i] != 0 {
        return false;
      }
      forall q | 0 <= q < p
        ensures huffval[q] != i
      {
        assert huffval[..p][q] == huffval[q];
      }
      ghost var co, si := ehufco[..], ehufsi[..];
      ehufco[i] := huffcode[p];
      ehufsi[i] := huffsize[p];
      assert ehufco[..] == co[i := codes[p]] && ehufsi[..] == si[i := lens[p]];
      p := p + 1;
    }
    ok := true;
  }

  // ---- the decoder's table ----

  // Codes of length l are consecutive: first to limit - 1 are their indices.
  predicate Level(lens: seq<nat>, codes: seq<nat>, first: nat, limit: nat, maxcode: int, valoffset: int)
    requires first <= limit <= |lens| == |codes|
  {
    if first == limit then maxcode == -1 else maxcode == codes[limit - 1] && valoffset == first - codes[first]
  }

  function LevelStart(t: HuffTable, l: nat): nat
    requires TableOk(t) && l <= 17
  {
    if l == 0 then 0 else |Sizes(t.bits, l - 1)|
  }

  lemma LevelIn(t: HuffTable, l: nat, q: nat)
    requires TableOk(t) && 1 <= l <= 16 && q < |Lens(t)|
    ensures LevelStart(t, l) <= LevelStart(t, l + 1) <= |Lens(t)|
    ensures Lens(t)[q] == l <==> LevelStart(t, l) <= q < LevelStart(t, l + 1)
    ensures Lens(t)[q] < l <==> q < LevelStart(t, l)
  {
    SizesGrow(t.bits, l - 1, l);
    SizesGrow(t.bits, l, 16);
    SizesPrefix(t.bits, l - 1, 16);
    SizesPrefix(t.bits, l, 16);
    SizesOk(t.bits, l - 1);
    SizesOk(t.bits, l);
    if q >= LevelStart(t, l) {
      SizesAbove(t.bits, l - 1, 16, q);
    }
    if q >= LevelStart(t, l + 1) {
      SizesAbove(t.bits, l, 16, q);
    }
  }

  lemma {:induction false} SizesPrefix(bits: seq<byte>, l: nat, m: nat)
    requires |bits| == 17 && l <= m <= 16
    ensures |Sizes(bits, l)| <= |Sizes(bits, m)| && Sizes(bits, m)[..|Sizes(bits, l)|] == Sizes(bits, l)
    decreases m
  {
    if l < m {
      SizesPrefix(bits, l, m - 1);
    }
  }

  lemma {:induction false} SizesAbove(bits: seq<byte>, l: nat, m: nat, q: nat)
    requires |bits| == 17 && l <= m <= 16 && |Sizes(bits, l)| <= q < |Sizes(bits, m)|
    ensures Sizes(bits, m)[q] > l
    decreases m
  {
    if l < m && q < |Sizes(bits, m - 1)| {
      SizesAbove(bits, l, m - 1, q);
    }
  }

  predicate LevelAt(t: HuffTable, l: nat, maxcode: int, valoffset: int)
    requires TableOk(t) && 1 <= l <= 16
  {
    && LevelStart(t, l) <= LevelStart(t, l + 1) <= |Lens(t)|
    && Level(Lens(t), Codes(Lens(t)), LevelStart(t, l), LevelStart(t, l + 1), maxcode, valoffset)
  }

  // maxcode and valoffset for length l.
  method FillLevel(t: HuffTable, huffcode: array<nat>, l: nat, p: nat) returns (maxcode: int, valoffset: int, next: nat)
    requires TableOk(t) && CodeTree(t) && huffcode.Length == 257 && huffcode[..|Lens(t)|] == Codes(Lens(t))
    requires 1 <= l <= 16 && p == LevelStart(t, l)
    ensures next == LevelStart(t, l + 1) <= |Lens(t)| && LevelAt(t, l, maxcode, valoffset)
  {
    ghost var codes := Codes(Lens(t));
    SizesGrow(t.bits, l, 16);
    maxcode, valoffset, next := -1, 0, p + t.bits[l];
    if t.bits[l] != 0 {
      assert codes[p] == huffcode[p] && codes[next - 1] == huffcode[next - 1];
      valoffset := p - huffcode[p];
      maxcode := huffcode[next - 1];
    }
  }

  // Figure F.15.
  method FillLevels(t: HuffTable, huffcode: array<nat>) returns (maxcode: array<int>, valoffset: array<int>)
    requires TableOk(t) && CodeTree(t) && huffcode.Length == 257 && huffcode[..|Lens(t)|] == Codes(Lens(t))
    ensures fresh(maxcode) && fresh(valoffset) && maxcode.Length == valoffset.Length == 18
    ensures (forall l :: 1 <= l <= 16 ==> LevelAt(t, l, maxcode[l], valoffset[l])) && maxcode[17] == 0xFFFFF
  {
    maxcode, valoffset := new int[18](_ => 0), new int[18](_ => 0);
    var p: nat, l := 0, 1;
    while l <= 16
      invariant 1 <= l <= 17 && p == LevelStart(t, l)
      invariant forall k :: 1 <= k < l ==> LevelAt(t, k, maxcode[k], valoffset[k])
    {
      maxcode[l], valoffset[l], p := FillLevel(t, huffcode, l, p);
      l := l + 1;
    }
    maxcode[17] := 0xFFFFF;
  }

  // Entry x of the lookahead tables: the code whose extensions to 8 bits include x.
  predicate Extends(lens: seq<nat>, codes: seq<nat>, q: nat, x: int)
    requires q < |lens| == |codes|
  {
    lens[q] <= 8 && Shl(codes[q], 8 - lens[q]) <= x < Shl(codes[q] + 1, 8 - lens[q])
  }

  predicate Behind(lens: seq<nat>, codes: seq<nat>, q: nat, x: int)
    requires q < |lens| == |codes|
  {
    lens[q] <= 8 && Shl(codes[q] + 1, 8 - lens[q]) <= x
  }

  // The entries of the first p codes are filled, up to x; no other entry is.
  predicate Looked(huffval: seq<byte>, lens: seq<nat>, codes: seq<nat>, nbits: seq<nat>, syms: seq<byte>, p: nat,
                   x: int)
    requires |huffval| == |nbits| == |syms| == 256 && p <= |lens| == |codes| <= 256
  {
    && (forall q, y {:trigger Extends(lens, codes, q, y)} ::
        0 <= q < p && 0 <= y < 256 && Extends(lens, codes, q, y) ==>
          nbits[y] == lens[q] && syms[y] == huffval[q])
    && (forall y :: 0 <= y < 256 && x <= y ==> nbits[y] == 0)
    && (forall q :: 0 <= q < p ==> Behind(lens, codes, q, x))
  }

  // The entries of one code: all 8-bit sequences that start with it.
  method FillEntries(sym: byte, l: nat, code: nat, look: nat, count: nat, lookNbits: array<nat>, lookSym: array<byte>)
    requires lookNbits.Length == lookSym.Length == 256 && look + count <= 256
    modifies lookNbits, lookSym
    ensures forall y :: 0 <= y < 256 ==>
              && lookNbits[y] == (if look <= y < look + count then l else old(lookNbits[y]))
              && lookSym[y] == (if look <= y < look + count then sym else old(lookSym[y]))
  {
    var lookbits, ctr := look, count;
    while ctr > 0
      invariant lookbits + ctr == look + count && look <= lookbits
      invariant forall y :: 0 <= y < 256 ==>
                  && lookNbits[y] == (if look <= y < lookbits then l else old(lookNbits[y]))
                  && lookSym[y] == (if look <= y < lookbits then sym else old(lookSym[y]))
    {
      lookNbits[lookbits] := l;
      lookSym[lookbits] := sym;
      lookbits := lookbits + 1;
      ctr := ctr - 1;
    }
  }

  lemma LookStep(huffval: seq<byte>, lens: seq<nat>, codes: seq<nat>, nbits: seq<nat>, syms: seq<byte>, p: nat,
                 nbits': seq<nat>, syms': seq<byte>)
    requires |huffval| == |nbits| == |syms| == |nbits'| == |syms'| == 256 && p < |lens| == |codes| <= 256
    requires lens[p] <= 8
    requires var look, limit := Shl(codes[p], 8 - lens[p]), Shl(codes[p] + 1, 8 - lens[p]);
             && 0 <= look <= limit <= 256 && Looked(huffval, lens, codes, nbits, syms, p, look)
             && (forall y :: 0 <= y < 256 ==> nbits'[y] == if look <= y < limit then lens[p] else nbits[y])
             && (forall y :: 0 <= y < 256 ==> syms'[y] == if look <= y < limit then huffval[p] else syms[y])
    ensures Looked(huffval, lens, codes, nbits', syms', p + 1, Shl(codes[p] + 1, 8 - lens[p]))
  {
    var look, limit := Shl(codes[p], 8 - lens[p]), Shl(codes[p] + 1, 8 - lens[p]);
    forall q | 0 <= q < p
      ensures Behind(lens, codes, q, limit)
    {
      assert Behind(lens, codes, q, look);
    }
    forall q, y | 0 <= q < p + 1 && 0 <= y < 256 && Extends(lens, codes, q, y)
      ensures nbits'[y] == lens[q] && syms'[y] == huffval[q]
    {
      if q < p {
        assert Behind(lens, codes, q, look);
      }
    }
  }

  // The entries of consecutive codes follow each other without gaps, from 0.
  lemma LookRange(lens: seq<nat>, p: nat)
    requires Lengths(lens) && Fits(lens) && p < |lens| && lens[p] <= 8
    ensures var look, limit := Shl(Code(lens, p), 8 - lens[p]), Shl(Code(lens, p) + 1, 8 - lens[p]);
            && 0 <= look <= limit <= 256 && limit == look + Shl(1, 8 - lens[p])
            && look == if p == 0 then 0 else Shl(Code(lens, p - 1) + 1, 8 - lens[p - 1])
  {
    var d := 8 - lens[p];
    assert Room(lens, p);
    ShlNonNegative(Code(lens, p), d);
    ShlAdd(Code(lens, p), 1, d);
    ShlNonNegative(1, d);
    ShlMonotone(Code(lens, p) + 1, Shl(1, lens[p]), d);
    ShlShl(1, lens[p], d);
    ShlByte(1);
    if p == 0 {
      ShlAdd(0, 0, d);
    } else {
      ShlShl(Code(lens, p - 1) + 1, lens[p] - lens[p - 1], d);
    }
  }

  // The end of the entries of the first p codes.
  function LookEnd(lens: seq<nat>, codes: seq<nat>, p: nat): int
    requires p <= |lens| == |codes|
  {
    if p == 0 || lens[p - 1] > 8 then 0 else Shl(codes[p - 1] + 1, 8 - lens[p - 1])
  }

  predicate LookaheadUpTo(huffval: seq<byte>, lens: seq<nat>, codes: seq<nat>, nbits: seq<nat>, syms: seq<byte>, p: nat)
    requires |huffval| == |nbits| == |syms| == 256 && p <= |lens| == |codes| <= 256
  {
    Looked(huffval, lens, codes, nbits, syms, p, LookEnd(lens, codes, p))
  }

  // Where the entries of code p go.
  predicate LookPlace(lens: seq<nat>, codes: seq<nat>, p: nat)
    requires p < |lens| == |codes|
  {
    lens[p] <= 8 &&
    var look, limit := Shl(codes[p], 8 - lens[p]), Shl(codes[p] + 1, 8 - lens[p]);
    0 <= look == LookEnd(lens, codes, p) <= limit == look + Shl(1, 8 - lens[p]) <= 256
  }

  lemma LookPlaced(lens: seq<nat>, p: nat)
    requires Lengths(lens) && Fits(lens) && p < |lens| && lens[p] <= 8
    ensures LookPlace(lens, Codes(lens), p)
  {
    LookRange(lens, p);
  }

  method FillLook(huffval: seq<byte>, ghost lens: seq<nat>, ghost codes: seq<nat>, huffcode: nat, l: nat,
                  lookNbits: array<nat>, lookSym: array<byte>, p: nat)
    requires |huffval| == 256 && p < |lens| == |codes| <= 256 && lookNbits.Length == lookSym.Length == 256
    requires huffcode == codes[p] && lens[p] == l <= 8
    requires LookaheadUpTo(huffval, lens, codes, lookNbits[..], lookSym[..], p)
    requires LookPlace(lens, codes, p)
    modifies lookNbits, lookSym
    ensures LookaheadUpTo(huffval, lens, codes, lookNbits[..], lookSym[..], p + 1)
  {
    ghost var nbits, syms := lookNbits[..], lookSym[..];
    FillEntries(huffval[p], l, huffcode, Shl(huffcode, 8 - l), Shl(1, 8 - l), lookNbits, lookSym);
    LookStep(huffval, lens, codes, nbits, syms, p, lookNbits[..], lookSym[..]);
  }

  // The codes of length l.
  method FillLookLevel(t: HuffTable, huffcode: array<nat>, l: nat, lookNbits: array<nat>, lookSym: array<byte>, p0: nat)
    returns (p: nat)
    requires TableOk(t) && CodeTree(t) && lookNbits.Length == lookSym.Length == 256
    requires huffcode.Length == 257 && huffcode != lookNbits && huffcode[..|Lens(t)|] == Codes(Lens(t))
    requires 1 <= l <= 8 && p0 == |Sizes(t.bits, l - 1)| <= |Lens(t)|
    requires LookaheadUpTo(t.huffval, Lens(t), Codes(Lens(t)), lookNbits[..], lookSym[..], p0)
    modifies lookNbits, lookSym
    ensures p == |Sizes(t.bits, l)| <= |Lens(t)|
    ensures LookaheadUpTo(t.huffval, Lens(t), Codes(Lens(t)), lookNbits[..], lookSym[..], p)
  {
    ghost var lens, codes := Lens(t), Codes(Lens(t));
    SizesGrow(t.bits, l, 16);
    p := p0;
    var i, n: nat := 1, t.bits[l];
    while i <= n
      invariant 1 <= i <= n + 1 && p == p0 + i - 1
      invariant LookaheadUpTo(t.huffval, lens, codes, lookNbits[..], lookSym[..], p) && huffcode[..|lens|] == codes
    {
      LevelIn(t, l, p);
      assert codes[p] == huffcode[p];
      LookPlaced(lens, p);
      FillLook(t.huffval, lens, codes, huffcode[p], l, lookNbits, lookSym, p);
      i := i + 1;
      p := p + 1;
    }
  }

  // The lookahead tables: the first `short` codes, which have up to 8 bits.
  method FillLookahead(t: HuffTable, huffcode: array<nat>)
    returns (lookNbits: array<nat>, lookSym: array<byte>, ghost short: nat)
    requires TableOk(t) && CodeTree(t) && huffcode.Length == 257 && huffcode[..|Lens(t)|] == Codes(Lens(t))
    ensures fresh(lookNbits) && fresh(lookSym) && lookNbits.Length == lookSym.Length == 256
    ensures Short(Lens(t), short)
    ensures LookaheadUpTo(t.huffval, Lens(t), Codes(Lens(t)), lookNbits[..], lookSym[..], short)
  {
    lookNbits := new nat[256](_ => 0);
    lookSym := new byte[256](_ => 0);
    ghost var lens, codes := Lens(t), Codes(Lens(t));
    var p: nat, l := 0, 1;
    while l <= 8
      invariant 1 <= l <= 9 && p == |Sizes(t.bits, l - 1)| <= |lens|
      invariant LookaheadUpTo(t.huffval, lens, codes, lookNbits[..], lookSym[..], p)
    {
      p := FillLookLevel(t, huffcode, l, lookNbits, lookSym, p);
      l := l + 1;
    }
    short := p;
    forall q | 0 <= q < |lens|
      ensures lens[q] <= 8 <==> q < short
    {
      LevelIn(t, l, q);
    }
  }

  // The decoder's table; as a value, the way jpeg_huff_decode and HUFF_DECODE read it.
  datatype DecTable = DecTable(huffval: seq<byte>, maxcode: seq<int>, valoffset: seq<int>, lookNbits: seq<nat>,
                               lookSym: seq<byte>)

  predicate Decodes(t: HuffTable, d: DecTable)
    requires TableOk(t) && CodeTree(t)
  {
    && d.huffval == t.huffval && |d.maxcode| == |d.valoffset| == 18 && |d.lookNbits| == |d.lookSym| == 256
    && (forall l :: 1 <= l <= 16 ==> LevelAt(t, l, d.maxcode[l], d.valoffset[l])) && d.maxcode[17] == 0xFFFFF
    && (exists short :: 0 <= short <= |Lens(t)| && Short(Lens(t), short)
                        && LookaheadUpTo(t.huffval, Lens(t), Codes(Lens(t)), d.lookNbits, d.lookSym, short))
  }

  predicate Short(lens: seq<nat>, n: nat) {
    n <= |lens| && forall q :: 0 <= q < |lens| ==> (lens[q] <= 8 <==> q < n)
  }

  method MakeDDerivedTbl(t: HuffTable, dc: bool) returns (ok: bool, d: DecTable)
    requires TableOk(t)
    ensures ok == (CodeTree(t) && SymbolsInRange(t, dc))
    ensures ok ==> Decodes(t, d)
  {
    d := DecTable([], [], [], [], []);
    var huffsize, huffcode, count;
    ok, huffsize, count := FillSizes(t.bits);
    if !ok {
      return;
    }
    assert huffsize[..count] == Lens(t);
    ok, huffcode := GenerateCodes(huffsize, count);
    if !ok {
      return;
    }
    var maxcode, valoffset := FillLevels(t, huffcode);
    var lookNbits, lookSym, short := FillLookahead(t, huffcode);
    d := DecTable(t.huffval, maxcode[..], valoffset[..], lookNbits[..], lookSym[..]);
    if dc {
      var i := 0;
      while i < count
        invariant i <= count && forall q :: 0 <= q < i ==> t.huffval[q] <= 15
      {
        if t.huffval[i] > 15 {
          return false, d;
        }
        i := i + 1;
      }
    }
  }
}

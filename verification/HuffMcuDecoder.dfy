// The MCU decoding routines of jdhuff.c. They run on any data and may have to suspend at
// any byte; on the tokens that HuffBinarisation.dfy lists for some coefficients they
// return those coefficients.

module HuffMcuDecoder {
  import opened Prelude
  import opened Coefficients
  import opened Scans
  import opened HuffBits
  import opened HuffBinarisation
  import opened HuffViews
  import opened HuffScan
  import opened HuffTokenReader

  // How reading goes: on success it goes on, else the source ran dry.
  twostate predicate Went(tr: TokenReader, new ok: bool)
    reads tr, tr.br
  {
    tr.Reads() && tr.Valid() && (!ok ==> tr.Starving())
  }

  // The reader has come to rest.
  twostate predicate Reached(tr: TokenReader, new rest: Tokens)
    reads tr, tr.br
  {
    tr.pending == Some(rest) && tr.br.insufficientData == old(tr.br.insufficientData)
  }

  // A DC difference (figures F.12 and F.13).
  method DecodeDc(tr: TokenReader, tbl: HuffNo, ghost on: bool, ghost diff: int, ghost rest: Tokens)
    returns (ok: bool, s: int)
    requires tr.Valid() && tbl < 4 && tr.pairs[tbl].Some?
    requires on ==> tr.pending == Some(DcTokens(tbl, diff, rest)) && NBits(Abs(diff)) <= 15
    modifies tr, tr.br
    ensures Went(tr, ok) && (on && ok ==> Reached(tr, rest) && s == diff)
  {
    s := 0;
    var symbol := tr.DecodeSymbol(tbl);
    if symbol == None {
      return false, s;
    }
    ok := true;
    if symbol != Some(0) {
      ok, s := DecodeValue(tr, symbol.value, on, diff, rest);
    }
  }

  // The value behind a symbol that announces n bits.
  method DecodeValue(tr: TokenReader, n: nat, ghost on: bool, ghost v: int, ghost rest: Tokens)
    returns (ok: bool, s: int)
    requires tr.Valid() && 1 <= n <= 15
    requires on ==> tr.pending == Some(Cons(ValueToken(v), rest)) && v != 0 && n == NBits(Abs(v))
    modifies tr, tr.br
    ensures Went(tr, ok) && (on && ok ==> Reached(tr, rest) && s == v)
  {
    var r := tr.ReceiveValue(n);
    if r == None {
      return false, 0;
    }
    if on {
      ExtendInverts(v);
      LowLow(Vli(v), n);
    }
    ok, s := true, HuffExtend(r.value, n);
  }

  // Where coefficient k of a block lies. The order has 16 extra entries, for corrupt
  // data, that point to the last coefficient.
  function Natural(s: Scan, k: nat): nat
    requires ScanOk(s)
  {
    if k < 64 then s.order[k] else 63
  }

  // Coefficients of the band from start up to k - 1 have the values of t below the limit;
  // all others have them, from an attempt before, or are zero.
  ghost predicate BandSoFar(s: Scan, data: seq<Coef>, off: nat, start: nat, k: nat, se: nat, limit: nat, t: Coefs)
    requires ScanOk(s) && se < 64 && off + 64 <= |data|
  {
    forall j :: start <= j <= se ==>
      && (data[off + s.order[j]] == t[j] || data[off + s.order[j]] == 0)
      && (j < k && j < limit ==> data[off + s.order[j]] == t[j])
  }

  // Coefficient p is reached behind zeros.
  lemma BandAdvances(s: Scan, data: seq<Coef>, off: nat, start: nat, k: nat, p: nat, se: nat, limit: nat, t: Coefs,
                     data': seq<Coef>)
    requires ScanOk(s) && start <= k <= p <= se < 64 && off + 64 <= |data|
    requires BandSoFar(s, data, off, start, k, se, limit, t) && forall j :: k <= j < p ==> t[j] == 0
    requires data' == (if k < limit then data[off + s.order[p] := t[p]] else data)
    ensures BandSoFar(s, data', off, start, p + 1, se, limit, t)
  {
  }

  // Only zeros follow up to m - 1.
  lemma BandSkips(s: Scan, data: seq<Coef>, off: nat, start: nat, k: nat, m: nat, se: nat, limit: nat, t: Coefs)
    requires ScanOk(s) && start <= k <= m && se < 64 && off + 64 <= |data|
    requires BandSoFar(s, data, off, start, k, se, limit, t) && forall j :: k <= j < m && j <= se ==> t[j] == 0
    ensures BandSoFar(s, data, off, start, m, se, limit, t)
  {
  }

  // The places that may be written: those of the band, or on unknown data any place of
  // the block.
  predicate Touches(s: Scan, known: bool, off: nat, start: nat, se: nat, i: int)
    requires ScanOk(s) && se < 64
  {
    if known then InBand(s, off, start - 1, se, i) else off <= i < off + 64
  }

  // Only what the band may touch has changed.
  ghost predicate Framed(s: Scan, on: bool, off: nat, was: seq<Coef>, now: seq<Coef>)
    requires ScanOk(s)
  {
    |was| == |now| && forall i :: 0 <= i < |was| && !Touches(s, on, off, s.ss, s.se, i) ==> now[i] == was[i]
  }

  lemma FramedAt(s: Scan, on: bool, off: nat, k: nat, was: seq<Coef>, now: seq<Coef>)
    requires ScanOk(s) && |was| == |now| && s.ss <= k <= s.se
    requires forall i :: 0 <= i < |was| && i != off + s.order[k] ==> now[i] == was[i]
    ensures Framed(s, on, off, was, now)
  {
    assert InBand(s, off, s.ss - 1, s.se, off + s.order[k]);
  }

  // The reader is where a symbol of the band begins, before coefficient k.
  ghost predicate AtSymbol(tr: TokenReader, on: bool, tbl: HuffNo, z: Coefs, se: nat, k: nat, end: Tokens, rest: Tokens)
    requires se < 64
    reads tr
  {
    on ==> k <= se + 1 && CoefsFit(z, k, se) && tr.pending == Some(Band(tbl, z, se, k, end, rest))
  }

  // What a symbol of an AC band says: 16 zeros, the end of bands, or r zeros and a value.
  datatype Event = Suspended | SixteenZeros | Eob(r: nat) | Coef(r: nat, v: int)

  method DecodeEvent(tr: TokenReader, tbl: HuffNo, ghost on: bool, ghost z: Coefs, ghost se: nat, ghost k: nat,
                     ghost end: Tokens, ghost rest: Tokens)
    returns (e: Event)
    requires tr.Valid() && tr.pairs[tbl].Some? && se < 64
    requires AtSymbol(tr, on, tbl, z, se, k, end, rest) && (on ==> k <= se)
    requires on && NextNonzero(z, se, k) > se ==>
               end.Cons? && end.head.Sym? && end.head.tbl == tbl && end.head.s % 16 == 0 && end.head.s < 240
    modifies tr, tr.br
    ensures Went(tr, e != Suspended) && (e.Eob? ==> e.r < 15) && (e.Coef? ==> e.r < 16)
    ensures on && e != Suspended ==>
              var p := NextNonzero(z, se, k);
              if p > se then e == Eob(end.head.s / 16) && Reached(tr, end.tail)
              else if p - k > 15 then e == SixteenZeros && Reached(tr, Band(tbl, z, se, k + 16, end, rest))
              else e == Coef(p - k, z[p]) && Reached(tr, Band(tbl, z, se, p + 1, end, rest))
  {
    ghost var p, hit, v, behind := k, false, 0, Nil;
    if on {
      p := NextNonzero(z, se, k);
      hit := p <= se && p - k <= 15;
      v, behind := if hit then z[p] else 0, if p > se then Nil
          else Band(tbl, z, se, if hit then p + 1 else k + 16, end, rest);
      BandStep(tbl, z, se, k, end, rest);
      SymbolParts(z, se, k);
    }
    e := ReadEvent(tr, tbl, on, hit, if hit then p - k else 0, v, if hit then 16 * (p - k) + NBits(Abs(v)) else 0, on
                   && p > se, end, behind);
  }

  // The symbol is that of a coefficient v behind r zeros, of the end of bands, or of 16
  // zeros.
  method ReadEvent(tr: TokenReader, tbl: HuffNo, ghost on: bool, ghost hit: bool, ghost r: nat, ghost v: int,
                   ghost sym: byte, ghost over: bool,
                   ghost end: Tokens, ghost behind: Tokens) returns (e: Event)
    requires tr.Valid() && tr.pairs[tbl].Some? && (hit ==> on && !over)
    requires hit ==> v != 0 && sym / 16 == r && sym % 16 == NBits(Abs(v)) > 0
    requires hit ==> tr.pending == Some(Cons(Sym(tbl, sym), Cons(ValueToken(v), behind)))
    requires on && over ==> tr.pending == Some(end) && end.Cons? && end.head.Sym? && end.head.tbl == tbl
                            && end.head.s % 16 == 0 && end.head.s < 240
    requires on && !over && !hit ==> tr.pending == Some(Cons(Sym(tbl, 0xF0), behind))
    modifies tr, tr.br
    ensures Went(tr, e != Suspended) && (e.Eob? ==> e.r < 15) && (e.Coef? ==> e.r < 16)
    ensures on && e != Suspended ==>
              if over then e == Eob(end.head.s / 16) && Reached(tr, end.tail)
              else e == (if hit then Coef(r, v) else SixteenZeros) && Reached(tr, behind)
  {
    var symbol := tr.DecodeSymbol(tbl);
    if symbol == None {
      return Suspended;
    }
    var zeros, s := symbol.value / 16, symbol.value % 16;
    if s != 0 {
      var ok, x := DecodeValue(tr, s, hit, v, behind);
      return if ok then Coef(zeros, x) else Suspended;
    }
    return if zeros == 15 then SixteenZeros else Eob(zeros);
  }

  lemma SymbolParts(z: Coefs, se: nat, k: nat)
    requires k <= se < 64 && CoefsFit(z, k, se)
    ensures var p := NextNonzero(z, se, k);
            p <= se && p - k <= 15 ==>
              && 1 <= NBits(Abs(z[p])) <= 10
              && (16 * (p - k) + NBits(Abs(z[p]))) / 16 == p - k
              && (16 * (p - k) + NBits(Abs(z[p]))) % 16 == NBits(Abs(z[p]))
  {
  }

  // One of the two loops over the AC coefficients of a sequential block: from
  // coefficient k0 on while k < stop, storing the coefficients or not.
  method ReadBand(tr: TokenReader, s: Scan, tbl: HuffNo, data: array<Coef>, off: nat, k0: nat, stop: nat, store: bool,
                  ghost on: bool, ghost limit: nat, ghost z: Coefs, ghost rest: Tokens)
    returns (ok: bool, k: nat, ended: bool)
    requires tr.Valid() && (k0 < stop ==> tr.pairs[tbl].Some?) && ScanOk(s) && off + 64 <= data.Length && 1 <= k0
             && stop <= s.limSe + 1
    requires if store then limit == stop else limit <= k0
    requires AtSymbol(tr, on, tbl, z, s.limSe, k0, Cons(Sym(tbl, 0), rest), rest)
    requires on ==> BandSoFar(s, data[..], off, 1, k0, s.limSe, limit, z)
    modifies tr, tr.br, data
    ensures Went(tr, ok) && k >= k0
    ensures ok && !ended ==> k >= stop && AtSymbol(tr, on, tbl, z, s.limSe, k, Cons(Sym(tbl, 0), rest), rest)
    ensures ok && ended && on ==> tr.pending == Some(rest)
    ensures on ==>
              BandSoFar(s, data[..], off, 1, if ok then (if ended then s.limSe + 1 else k) else k0, s.limSe, limit, z)
    ensures on && ok ==> tr.br.insufficientData == old(tr.br.insufficientData)
    ensures forall i :: 0 <= i < data.Length && !Touches(s, on, off, 1, s.limSe, i) ==> data[i] == old(data[i])
  {
    k, ended := k0, false;
    while k < stop
      invariant k0 <= k && Went(tr, true) && AtSymbol(tr, on, tbl, z, s.limSe, k, Cons(Sym(tbl, 0), rest), rest)
      invariant on ==> tr.br.insufficientData == old(tr.br.insufficientData)
      invariant on ==> BandSoFar(s, data[..], off, 1, k, s.limSe, limit, z)
      invariant forall i :: 0 <= i < data.Length && !Touches(s, on, off, 1, s.limSe, i) ==> data[i] == old(data[i])
      decreases stop - k
    {
      var e;
      e, k := ReadOne(tr, s, tbl, data, off, k, store, on, limit, z, rest);
      if e == Suspended {
        return false, k, false;
      } else if e.Eob? {
        return true, k, true;
      }
    }
    ok := true;
  }

  // One symbol, and its coefficient.
  method ReadOne(tr: TokenReader, s: Scan, tbl: HuffNo, data: array<Coef>, off: nat, k0: nat, store: bool,
                 ghost on: bool, ghost limit: nat, ghost z: Coefs, ghost rest: Tokens) returns (e: Event, k: nat)
    requires tr.Valid() && tr.pairs[tbl].Some? && ScanOk(s) && off + 64 <= data.Length && 1 <= k0 <= s.limSe
    requires if store then k0 < limit else limit <= k0
    requires AtSymbol(tr, on, tbl, z, s.limSe, k0, Cons(Sym(tbl, 0), rest), rest)
    requires on ==> BandSoFar(s, data[..], off, 1, k0, s.limSe, limit, z)
    modifies tr, tr.br, data
    ensures Went(tr, e != Suspended) && (e.SixteenZeros? || e.Coef? ==> k > k0)
    ensures e.SixteenZeros? || e.Coef? ==> AtSymbol(tr, on, tbl, z, s.limSe, k, Cons(Sym(tbl, 0), rest), rest)
    ensures on && e.Eob? ==> tr.pending == Some(rest)
    ensures on ==>
              BandSoFar(s, data[..], off, 1, if e == Suspended then k0 else if e.Eob? then s.limSe + 1
                        else k, s.limSe, limit, z)
    ensures on && e != Suspended ==> tr.br.insufficientData == old(tr.br.insufficientData)
    ensures e == Suspended || e.Eob? ==> k == k0
    ensures forall i :: 0 <= i < data.Length && !Touches(s, on, off, 1, s.limSe, i) ==> data[i] == old(data[i])
  {
    k := k0;
    e := AcEvent(tr, s, tbl, k, on, z, rest);
    if e.SixteenZeros? {
      if on {
        BandSkips(s, data[..], off, 1, k, k + 16, s.limSe, limit, z);
      }
      k := k + 16;
    } else if e.Coef? {
      KeepCoef(s, data, off, k, k + e.r, e.v, store, on, limit, z);
      k := k + e.r + 1;
    } else if on && e.Eob? {
      BandSkips(s, data[..], off, 1, k, s.limSe + 1, s.limSe, limit, z);
    }
  }

  // Store the coefficient v at index p, unless it is not wanted.
  method KeepCoef(s: Scan, data: array<Coef>, off: nat, ghost k: nat, p: nat, v: int, store: bool, ghost on: bool,
                  ghost limit: nat, ghost z: Coefs)
    requires ScanOk(s) && off + 64 <= data.Length && 1 <= k <= p && (if store then k < limit else limit <= k)
    requires on ==> p <= s.limSe && v == z[p] == ToCoef(Shl(v, 0)) && forall j :: k <= j < p ==> z[j] == 0
    requires on ==> BandSoFar(s, data[..], off, 1, k, s.limSe, limit, z)
    modifies data
    ensures on ==> BandSoFar(s, data[..], off, 1, p + 1, s.limSe, limit, z)
    ensures forall i :: 0 <= i < data.Length && !Touches(s, on, off, 1, s.limSe, i) ==> data[i] == old(data[i])
  {
    if store {
      StoreCoef(s, data, off, 1, k, p, s.limSe, limit, v, 0, on, z, z);
    } else if on {
      BandAdvances(s, data[..], off, 1, k, p, s.limSe, limit, z, data[..]);
    }
  }

  // What a symbol of a sequential band says.
  method AcEvent(tr: TokenReader, s: Scan, tbl: HuffNo, k: nat, ghost on: bool, ghost z: Coefs, ghost rest: Tokens)
    returns (e: Event)
    requires tr.Valid() && tr.pairs[tbl].Some? && ScanOk(s) && 1 <= k <= s.limSe
    requires AtSymbol(tr, on, tbl, z, s.limSe, k, Cons(Sym(tbl, 0), rest), rest)
    modifies tr, tr.br
    ensures Went(tr, e != Suspended)
    ensures on && e != Suspended ==> tr.br.insufficientData == old(tr.br.insufficientData)
    ensures on && e.SixteenZeros? ==> k + 16 <= s.limSe + 1 && forall j :: k <= j < k + 16 ==> z[j] == 0
    ensures e.SixteenZeros? ==> AtSymbol(tr, on, tbl, z, s.limSe, k + 16, Cons(Sym(tbl, 0), rest), rest)
    ensures on && e.Coef? ==>
              k + e.r <= s.limSe && (forall j :: k <= j < k + e.r ==> z[j] == 0)
              && z[k + e.r] == e.v == ToCoef(Shl(e.v, 0))
    ensures e.Coef? ==> AtSymbol(tr, on, tbl, z, s.limSe, k + e.r + 1, Cons(Sym(tbl, 0), rest), rest)
    ensures on && e.Eob? ==> tr.pending == Some(rest) && forall j :: k <= j <= s.limSe ==> z[j] == 0
  {
    ghost var p := if on then NextNonzero(z, s.limSe, k) else 0;
    e := DecodeEvent(tr, tbl, on, z, s.limSe, k, Cons(Sym(tbl, 0), rest), rest);
    if on && p <= s.limSe {
      StoredExactly(z[p]);
    }
  }

  // Scale and output the coefficient at index p, which is v behind zeros from k on; t is
  // the target for z.
  method StoreCoef(s: Scan, data: array<Coef>, off: nat, ghost start: nat, ghost k: nat, p: nat, ghost se: nat,
                   ghost limit: nat, v: int, al: nat,
                   ghost on: bool, ghost z: Coefs, ghost t: Coefs)
    requires ScanOk(s) && off + 64 <= data.Length && 1 <= start <= k <= p
    requires on ==> k < limit && p <= se < 64 && v == z[p] && ToCoef(Shl(v, al)) == t[p] && forall j :: k <= j < p ==>
               t[j] == 0
    requires se < 64 && (on ==> BandSoFar(s, data[..], off, start, k, se, limit, t))
    modifies data
    ensures on ==> BandSoFar(s, data[..], off, start, p + 1, se, limit, t)
    ensures forall i :: 0 <= i < data.Length && !Touches(s, on, off, start, se, i) ==> data[i] == old(data[i])
  {
    ghost var was := data[..];
    data[off + Natural(s, p)] := ToCoef(Shl(v, al));
    if on {
      BandAdvances(s, was, off, start, k, p, se, limit, t, data[..]);
    }
  }

  // The AC coefficients of a sequential block. Those below the limit are stored; the
  // others are read all the same.
  method DecodeAc(tr: TokenReader, s: Scan, tbl: HuffNo, data: array<Coef>, off: nat, limit: nat,
                  ghost on: bool, ghost z: Coefs, ghost rest: Tokens) returns (ok: bool)
    requires tr.Valid() && (s.limSe > 0 ==> tr.pairs[tbl].Some?) && ScanOk(s) && off + 64 <= data.Length
             && limit <= s.limSe + 1
    requires on ==> tr.pending == Some(AcTokens(tbl, z, s.limSe, 1, 0, rest)) && CoefsFit(z, 1, s.limSe)
    requires on ==> BandSoFar(s, data[..], off, 1, 1, s.limSe, limit, z)
    modifies tr, tr.br, data
    ensures Went(tr, ok) && (on && ok ==> Reached(tr, rest))
    ensures on ==> BandSoFar(s, data[..], off, 1, if ok then s.limSe + 1 else 1, s.limSe, limit, z)
    ensures forall i :: 0 <= i < data.Length && !Touches(s, on, off, 1, s.limSe, i) ==> data[i] == old(data[i])
  {
    if on {
      AcView(tbl, z, s.limSe, 1, 0, rest);
    }
    var k, ended;
    ok, k, ended := ReadBand(tr, s, tbl, data, off, 1, limit, true, on, limit, z, rest);
    if ok && !ended {
      ok, k, ended := ReadBand(tr, s, tbl, data, off, k, s.limSe + 1, false, on, limit, z, rest);
    }
  }

  // ---- progressive AC ----

  // The length of a run of ended bands, from its symbol on: 2^r plus r more bits.
  method ReadEobRun(tr: TokenReader, r: nat, ghost on: bool, ghost m: nat, ghost rest: Tokens)
    returns (ok: bool, run: nat)
    requires tr.Valid() && r <= 14
    requires on ==> 0 < m <= 0x7FFF && r == NBits(m) - 1
    requires on ==> tr.pending == Some(if r == 0 then rest else Cons(Val(Low(m, r), r), rest))
    modifies tr, tr.br
    ensures Went(tr, ok) && (ok ==> run > 0) && (on && ok ==> Reached(tr, rest) && run == m)
  {
    if on {
      RunBits(m, r);
    }
    ShlNonNegative(1, r);
    ok, run := true, Shl(1, r);
    if r != 0 {
      var bits := tr.ReceiveValue(r);
      if bits == None {
        return false, run;
      }
      run := run + bits.value;
    }
  }

  lemma RunBits(m: nat, r: nat)
    requires 0 < m <= 0x7FFF && r == NBits(m) - 1
    ensures Shl(1, r) + Low(Low(m, r), r) == m && (r == 0 ==> m == 1)
  {
    EobBits(m);
    LowLow(m, r);
  }

  // The tokens at the end of a band that is not exhausted: a run of m bands.
  ghost predicate EndsWith(tbl: HuffNo, open: bool, end: Tokens, m: nat, rest: Tokens) {
    if open then 0 < m <= 0x7FFF && end == EobHead(tbl, m, rest) else m == 0 && end == rest
  }

  lemma EobHeadParts(tbl: HuffNo, m: nat, rest: Tokens)
    requires 0 < m <= 0x7FFF
    ensures var e, n := EobHead(tbl, m, rest), NBits(m) - 1;
            && 0 <= n <= 14 && e.Cons? && e.head == Sym(tbl, 16 * n) && 16 * n < 240 && 16 * n % 16 == 0
            && 16 * n / 16 == n
            && e.tail == if n == 0 then rest else Cons(Val(Low(m, n), n), rest)
  {
    EobBits(m);
    HighPart(NBits(m) - 1);
  }

  lemma HighPart(n: nat)
    requires n <= 14
    ensures 16 * n < 240 && 16 * n % 16 == 0 && 16 * n / 16 == n
  {
  }

  // What the band of a first scan holds in the end.
  function Target(s: Scan, b: Block, al: nat): Coefs
    requires ScanOk(s)
  {
    seq(64, (j: nat) requires j < 64 => Trunc(b[s.order[j]], al))
  }

  // The tokens of the band of a first AC scan, before coefficient k.
  ghost predicate FirstTokensAt(tr: TokenReader, s: Scan, tbl: HuffNo, k: nat, b: Block, end: Tokens, m: nat,
                                rest: Tokens)
    requires ScanOk(s)
    reads tr
  {
    && AtSymbol(tr, true, tbl, Ordered(s, b, s.al), s.se, k, end, end)
    && EndsWith(tbl, EndsOpen(Ordered(s, b, s.al), s.se, k), end, m, rest)
  }

  ghost predicate FirstAt(tr: TokenReader, s: Scan, tbl: HuffNo, data: array<Coef>, off: nat, k: nat, b: Block,
                          end: Tokens, m: nat, rest: Tokens)
    requires ScanOk(s) && off + 64 <= data.Length
    reads tr, data
  {
    FirstTokensAt(tr, s, tbl, k, b, end, m, rest) && BandSoFar(s, data[..], off, s.ss, k, s.se, 64, Target(s, b, s.al))
  }

  // The coefficients from k to p - 1 are zero.
  ghost predicate ZerosUpTo(s: Scan, b: Block, k: nat, p: nat)
    requires ScanOk(s)
  {
    k <= p <= s.se + 1 && forall j :: k <= j < p ==> Target(s, b, s.al)[j] == 0
  }

  // One symbol of the band. The symbol that ends the band is left with its length bits to
  // follow.
  method FirstEvent(tr: TokenReader, s: Scan, tbl: HuffNo, k: nat, ghost on: bool, ghost b: Block, ghost end: Tokens,
                    ghost m: nat, ghost rest: Tokens)
    returns (e: Event)
    requires tr.Valid() && tr.pairs[tbl].Some? && ScanOk(s) && 0 < s.ss <= k <= s.se
    requires on ==> FirstTokensAt(tr, s, tbl, k, b, end, m, rest)
    modifies tr, tr.br
    ensures Went(tr, e != Suspended) && (e.Eob? ==> e.r < 15)
    ensures on && e != Suspended ==> tr.br.insufficientData == old(tr.br.insufficientData)
    ensures on && e.SixteenZeros? ==> ZerosUpTo(s, b, k, k + 16) && FirstTokensAt(tr, s, tbl, k + 16, b, end, m, rest)
    ensures on && e.Coef? ==>
              && ZerosUpTo(s, b, k, k + e.r) && k + e.r <= s.se
              && FirstTokensAt(tr, s, tbl, k + e.r + 1, b, end, m, rest)
              && ToCoef(Shl(e.v, s.al)) == Target(s, b, s.al)[k + e.r] && e.v == Ordered(s, b, s.al)[k + e.r]
    ensures on && e.Eob? ==>
              && ZerosUpTo(s, b, k, s.se + 1) && 0 < m <= 0x7FFF && e.r == NBits(m) - 1
              && tr.pending == Some(if e.r == 0 then rest else Cons(Val(Low(m, e.r), e.r), rest))
  {
    ghost var z := Ordered(s, b, s.al);
    if on {
      FirstFacts(s, b, k, NextNonzero(z, s.se, k));
      OpenStep(z, s.se, k);
      if NextNonzero(z, s.se, k) > s.se {
        EobHeadParts(tbl, m, rest);
      }
    }
    e := DecodeEvent(tr, tbl, on, z, s.se, k, end, end);
  }

  // The symbol and its coefficient.
  method FirstStep(tr: TokenReader, s: Scan, tbl: HuffNo, data: array<Coef>, off: nat, k0: nat,
                   ghost on: bool, ghost b: Block, ghost end: Tokens, ghost m: nat, ghost rest: Tokens)
    returns (e: Event, k: nat)
    requires tr.Valid() && tr.pairs[tbl].Some? && ScanOk(s) && off + 64 <= data.Length && 0 < s.ss <= k0 <= s.se
    requires on ==> FirstAt(tr, s, tbl, data, off, k0, b, end, m, rest)
    modifies tr, tr.br, data
    ensures Went(tr, e != Suspended) && (e.Eob? ==> e.r < 15) && (e.SixteenZeros? || e.Coef? ==> k > k0)
    ensures on && e != Suspended ==> tr.br.insufficientData == old(tr.br.insufficientData)
    ensures on && (e.SixteenZeros? || e.Coef?) ==> FirstAt(tr, s, tbl, data, off, k, b, end, m, rest)
    ensures on && e.Eob? ==>
              && 0 < m <= 0x7FFF && e.r == NBits(m) - 1
              && tr.pending == Some(if e.r == 0 then rest else Cons(Val(Low(m, e.r), e.r), rest))
              && BandSoFar(s, data[..], off, s.ss, s.se + 1, s.se, 64, Target(s, b, s.al))
    ensures on && e == Suspended ==> BandSoFar(s, data[..], off, s.ss, s.ss, s.se, 64, Target(s, b, s.al))
    ensures forall i :: 0 <= i < data.Length && !Touches(s, on, off, s.ss, s.se, i) ==> data[i] == old(data[i])
  {
    ghost var t := Target(s, b, s.al);
    k := k0;
    e := FirstEvent(tr, s, tbl, k0, on, b, end, m, rest);
    if e.SixteenZeros? {
      if on {
        BandSkips(s, data[..], off, s.ss, k, k + 16, s.se, 64, t);
      }
      k := k + 16;
    } else if e.Coef? {
      StoreCoef(s, data, off, s.ss, k, k + e.r, s.se, 64, e.v, s.al, on, Ordered(s, b, s.al), t);
      k := k + e.r + 1;
    } else if on && e.Eob? {
      BandSkips(s, data[..], off, s.ss, k, s.se + 1, s.se, 64, t);
    }
  }

  // The band of a first AC scan, outside of a run of ended bands.
  method ReadFirst(tr: TokenReader, s: Scan, tbl: HuffNo, data: array<Coef>, off: nat,
                   ghost on: bool, ghost b: Block, ghost end: Tokens, ghost m: nat, ghost rest: Tokens)
    returns (ok: bool, eobRun: nat)
    requires tr.Valid() && tr.pairs[tbl].Some? && ScanOk(s) && off + 64 <= data.Length && s.ss > 0
    requires on ==> FirstAt(tr, s, tbl, data, off, s.ss, b, end, m, rest)
    modifies tr, tr.br, data
    ensures Went(tr, ok) && (on && ok ==> Reached(tr, rest) && eobRun == if m == 0 then 0 else m - 1)
    ensures on ==> BandSoFar(s, data[..], off, s.ss, if ok then s.se + 1 else s.ss, s.se, 64, Target(s, b, s.al))
    ensures forall i :: 0 <= i < data.Length && !Touches(s, on, off, s.ss, s.se, i) ==> data[i] == old(data[i])
  {
    eobRun := 0;
    var k := s.ss;
    while k <= s.se
      invariant s.ss <= k && Went(tr, true)
      invariant on ==>
                  FirstAt(tr, s, tbl, data, off, k, b, end, m, rest)
                  && tr.br.insufficientData == old(tr.br.insufficientData)
      invariant forall i :: 0 <= i < data.Length && !Touches(s, on, off, s.ss, s.se, i) ==> data[i] == old(data[i])
      decreases 64 - k
    {
      var e;
      e, k := FirstStep(tr, s, tbl, data, off, k, on, b, end, m, rest);
      if e == Suspended {
        return false, 0;
      } else if e.Eob? {
        ok, eobRun := ReadEobRun(tr, e.r, on, m, rest);
        eobRun := if ok then eobRun - 1 else 0;
        return;
      }
    }
    ok := true;
  }

  // How the target relates to the coded coefficients.
  lemma FirstFacts(s: Scan, b: Block, k: nat, p: nat)
    requires ScanOk(s) && k <= s.se && p == NextNonzero(Ordered(s, b, s.al), s.se, k)
    ensures forall j :: k <= j < p ==> Target(s, b, s.al)[j] == 0
    ensures p <= s.se ==> ToCoef(Shl(Ordered(s, b, s.al)[p], s.al)) == Target(s, b, s.al)[p]
  {
    forall j | k <= j < p
      ensures Target(s, b, s.al)[j] == 0
    {
      assert Ordered(s, b, s.al)[j] == 0;
      TruncZero(b[s.order[j]], s.al);
    }
    if p <= s.se {
      ScaledBack(b[s.order[p]], s.al);
    }
  }
}

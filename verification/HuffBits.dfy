// Bit strings, and the tokens of Huffman-coded data: symbols and plain bits.

module HuffBits {
  import opened Prelude

  type Bits = List<Bit>

  // The n low bits of x, the way & with a mask gives them, also for negative x.
  function Low(x: int, n: nat): nat
    decreases n
  {
    if n == 0 then 0 else 2 * Low(x / 2, n - 1) + x % 2
  }

  // The n low bits of v, most significant bit first, in front of rest.
  function PutBits(v: int, n: nat, rest: Bits): Bits
    decreases n
  {
    if n == 0 then rest else Cons(Shr(v, n - 1) % 2, PutBits(v, n - 1, rest))
  }

  function Length(bits: Bits): nat {
    match bits case Nil => 0 case Cons(_, rest) => 1 + Length(rest)
  }

  // The value of the first n bits, and the bits behind them.
  function Take(bits: Bits, n: nat): nat
    requires n <= Length(bits)
    decreases n
  {
    if n == 0 then 0
    else
      DropLength(bits, n - 1);
      2 * Take(bits, n - 1) + Drop(bits, n - 1).head
  }

  function Drop(bits: Bits, n: nat): Bits
    requires n <= Length(bits)
    decreases n
  {
    if n == 0 then bits else Drop(bits.tail, n - 1)
  }

  lemma {:induction false} DropLength(bits: Bits, n: nat)
    requires n <= Length(bits)
    ensures Length(Drop(bits, n)) == Length(bits) - n
    decreases n
  {
    if n > 0 {
      DropLength(bits.tail, n - 1);
    }
  }

  lemma {:induction false} DropDrop(bits: Bits, m: nat, n: nat)
    requires m + n <= Length(bits)
    ensures Length(Drop(bits, m)) == Length(bits) - m && Drop(Drop(bits, m), n) == Drop(bits, m + n)
    decreases m
  {
    if m > 0 {
      DropDrop(bits.tail, m - 1, n);
    }
  }

  lemma {:induction false} PutLength(v: int, n: nat, rest: Bits)
    ensures Length(PutBits(v, n, rest)) == n + Length(rest)
    decreases n
  {
    if n > 0 {
      PutLength(v, n - 1, rest);
    }
  }

  lemma {:induction false} DropPut(v: int, n: nat, rest: Bits, k: nat)
    requires k <= n
    ensures Length(PutBits(v, n, rest)) == n + Length(rest)
    ensures Drop(PutBits(v, n, rest), k) == PutBits(v, n - k, rest)
    decreases k
  {
    PutLength(v, n, rest);
    if k > 0 {
      DropPut(v, n - 1, rest, k - 1);
    }
  }

  // Reading k of n bits that were put.
  lemma {:induction false} TakePut(v: int, n: nat, rest: Bits, k: nat)
    requires k <= n
    ensures Length(PutBits(v, n, rest)) == n + Length(rest)
    ensures Take(PutBits(v, n, rest), k) == Low(Shr(v, n - k), k)
    decreases k
  {
    PutLength(v, n, rest);
    if k > 0 {
      TakePut(v, n, rest, k - 1);
      DropPut(v, n, rest, k - 1);
      ShrHalves(v, n - k);
    }
  }

  // The first k of the first n bits.
  lemma {:induction false} TakePrefix(bits: Bits, n: nat, k: nat)
    requires k <= n <= Length(bits)
    ensures Shr(Take(bits, n), n - k) == Take(bits, k)
    decreases n
  {
    if k < n {
      DropLength(bits, n - 1);
      TakePrefix(bits, n - 1, k);
    }
  }

  lemma {:induction false} LowSmall(v: nat, n: nat)
    requires v < Shl(1, n)
    ensures Low(v, n) == v
    decreases n
  {
    if n > 0 {
      ShlDouble(1, n - 1);
      LowSmall(v / 2, n - 1);
    }
  }

  lemma {:induction false} LowBound(x: int, n: nat)
    ensures 0 <= Low(x, n) < Shl(1, n)
    decreases n
  {
    if n > 0 {
      LowBound(x / 2, n - 1);
      ShlDouble(1, n - 1);
    }
  }

  lemma {:induction false} LowLow(x: int, n: nat)
    ensures Low(Low(x, n), n) == Low(x, n)
    decreases n
  {
    if n > 0 {
      LowLow(x / 2, n - 1);
    }
  }

  // The same bits in one piece.
  lemma {:induction false} PutJoined(h: int, n: nat, v: int, m: nat, rest: Bits)
    ensures PutBits(h, n, PutBits(v, m, rest)) == PutBits(Shl(h, m) + Low(v, m), n + m, rest)
    decreases n
  {
    ShrJoined(h, v, m);
    if n > 0 {
      PutJoined(h, n - 1, v, m, rest);
      ShrShr(Shl(h, m) + Low(v, m), m, n - 1);
    } else {
      PutLow(h, v, m, m, rest);
    }
  }

  lemma {:induction false} ShrShr(x: int, a: nat, b: nat)
    ensures Shr(Shr(x, a), b) == Shr(x, a + b)
    decreases a
  {
    if a > 0 {
      ShrShr(x / 2, a - 1, b);
    }
  }

  lemma {:induction false} ShrJoined(h: int, v: int, m: nat)
    ensures Shr(Shl(h, m) + Low(v, m), m) == h
    decreases m
  {
    if m > 0 {
      ShlDouble(h, m - 1);
      ShrJoined(h, v / 2, m - 1);
    }
  }

  // Only the low bits of a value are put.
  lemma {:induction false} PutLow(h: int, v: int, m: nat, k: nat, rest: Bits)
    requires k <= m
    ensures PutBits(Shl(h, m) + Low(v, m), k, rest) == PutBits(v, k, rest)
    decreases k
  {
    if k > 0 {
      PutLow(h, v, m, k - 1, rest);
      BitOfLow(h, v, m, k - 1);
    }
  }

  lemma {:induction false} BitOfLow(h: int, v: int, m: nat, k: nat)
    requires k < m
    ensures Shr(Shl(h, m) + Low(v, m), k) % 2 == Shr(v, k) % 2
    decreases k
  {
    ShlDouble(h, m - 1);
    if k > 0 {
      BitOfLow(h, v / 2, m - 1, k - 1);
    }
  }

  lemma PutLowOnly(q: nat, n: nat, k: nat, rest: Bits)
    requires k <= n
    ensures PutBits(Low(q, n), k, rest) == PutBits(q, k, rest)
  {
    ShlAdd(0, 0, n);
    PutLow(0, q, n, k, rest);
  }

  // ---- bytes ----

  // Whole bytes of a bit string; the decoder's view of data bytes.
  function Bytes(bits: Bits): seq<byte>
    decreases Length(bits)
  {
    if Length(bits) < 8 then []
    else
      TakeBound(bits, 8);
      DropLength(bits, 8);
      [Take(bits, 8)] + Bytes(Drop(bits, 8))
  }

  lemma {:induction false} TakeBound(bits: Bits, n: nat)
    requires n <= Length(bits)
    ensures Take(bits, n) < Shl(1, n) && (n == 8 ==> Take(bits, n) < 256)
    decreases n
  {
    ShlByte(1);
    if n > 0 {
      TakeBound(bits, n - 1);
      ShlDouble(1, n - 1);
      DropLength(bits, n - 1);
    }
  }

  function ByteBits(b: byte, rest: Bits): Bits {
    PutBits(b, 8, rest)
  }

  function BytesBits(data: seq<byte>): Bits {
    if data == [] then Nil else ByteBits(data[0], BytesBits(data[1..]))
  }

  // A value in a 32-bit register.
  function In32(x: int): nat {
    Low(x, 32)
  }

  lemma {:induction false} PutTaken(bits: Bits, n: nat)
    requires n <= Length(bits)
    ensures PutBits(Take(bits, n), n, Drop(bits, n)) == bits
    decreases n
  {
    if n > 0 {
      DropLength(bits, n - 1);
      DropDrop(bits, n - 1, 1);
      PutTaken(bits, n - 1);
      var v, d := Take(bits, n - 1), Drop(bits, n - 1);
      PutJoined(v, n - 1, d.head, 1, Drop(bits, n));
      assert PutBits(d.head, 1, d.tail) == d;
    }
  }

  lemma {:induction false} BytesRoundTrip(bits: Bits)
    requires Length(bits) % 8 == 0
    ensures BytesBits(Bytes(bits)) == bits
    decreases Length(bits)
  {
    if Length(bits) >= 8 {
      DropLength(bits, 8);
      BytesRoundTrip(Drop(bits, 8));
      PutTaken(bits, 8);
      TakeBound(bits, 8);
    }
  }

  // ---- tokens ----

  // A Huffman symbol of a table, or the n low bits of v.
  datatype Token = Sym(tbl: nat, s: byte) | Val(v: nat, n: nat)
  type Tokens = List<Token>

  // The encoder's tables: code and size by symbol.
  datatype EncTable = EncTable(ehufco: seq<nat>, ehufsi: seq<nat>)
  type Tables = seq<EncTable>

  predicate TablesOk(tabs: Tables) {
    |tabs| == 8 && forall i :: 0 <= i < 8 ==> |tabs[i].ehufco| == |tabs[i].ehufsi| == 256
  }

  // Codes have at most 16 bits.
  predicate SizesOk(tabs: Tables) {
    TablesOk(tabs) && forall i, s :: 0 <= i < 8 && 0 <= s < 256 ==> tabs[i].ehufsi[s] <= 16
  }

  // The bits of a token; 0 size for a symbol that has no code.
  function TokenSize(tabs: Tables, t: Token): nat
    requires TablesOk(tabs)
  {
    match t
    case Sym(tbl, s) => if tbl < 8 then tabs[tbl].ehufsi[s] else 0
    case Val(_, n) => n
  }

  function TokenCode(tabs: Tables, t: Token): nat
    requires TablesOk(tabs)
  {
    match t
    case Sym(tbl, s) => if tbl < 8 then tabs[tbl].ehufco[s] else 0
    case Val(v, _) => v
  }

  // The bits of tokens when k bits of the present byte are used already; at the end
  // the last byte is filled with ones.
  function Lay(tabs: Tables, k: nat, ts: Tokens): Bits
    requires TablesOk(tabs) && k < 8
    decreases ts
  {
    match ts
    case Nil => if k == 0 then Nil else PutBits(0x7F, 8 - k, Nil)
    case Cons(t, rest) =>
      PutBits(TokenCode(tabs, t), TokenSize(tabs, t), Lay(tabs, (k + TokenSize(tabs, t)) % 8, rest))
  }

  predicate AllOnes(bits: Bits) {
    bits.Cons? ==> bits.head == 1 && AllOnes(bits.tail)
  }

  // Nothing but ones, and less than a byte of them, follows the last token.
  lemma PaddedWithOnes(tabs: Tables, k: nat)
    requires TablesOk(tabs) && k < 8
    ensures AllOnes(Lay(tabs, k, Nil)) && Length(Lay(tabs, k, Nil)) == if k == 0 then 0 else 8 - k
  {
    if k > 0 {
      OnesPut(8 - k);
    }
  }

  lemma {:induction false} OnesPut(n: nat)
    requires n <= 7
    ensures AllOnes(PutBits(0x7F, n, Nil)) && Length(PutBits(0x7F, n, Nil)) == n
  {
    if n > 0 {
      OnesPut(n - 1);
      assert Shr(0x7F, 0) == 0x7F && Shr(0x7F, 1) == 0x3F && Shr(0x7F, 2) == 0x1F && Shr(0x7F, 3) == 0xF;
      assert Shr(0x7F, 4) == 7 && Shr(0x7F, 5) == 3 && Shr(0x7F, 6) == 1;
    }
  }

  lemma {:induction false} LayLength(tabs: Tables, k: nat, ts: Tokens)
    requires TablesOk(tabs) && k < 8
    ensures (k + Length(Lay(tabs, k, ts))) % 8 == 0
    decreases ts
  {
    match ts
    case Nil =>
      PutLength(0x7F, 8 - k, Nil);
    case Cons(t, rest) =>
      var n := TokenSize(tabs, t);
      LayLength(tabs, (k + n) % 8, rest);
      PutLength(TokenCode(tabs, t), n, Lay(tabs, (k + n) % 8, rest));
      WholeBytes(k + n, Length(Lay(tabs, (k + n) % 8, rest)));
  }

  lemma WholeBytes(a: nat, n: nat)
    ensures (a % 8 + n) % 8 == 0 ==> (a + n) % 8 == 0
  {
  }

  // Every symbol that occurs has a code.
  predicate Coded(tabs: Tables, ts: Tokens)
    requires TablesOk(tabs)
    decreases ts
  {
    ts.Cons? ==> (ts.head.Sym? ==> ts.head.tbl < 8 && TokenSize(tabs, ts.head) > 0) && Coded(tabs, ts.tail)
  }

  // The data bytes of a segment.
  function Data(tabs: Tables, ts: Tokens): seq<byte>
    requires TablesOk(tabs)
  {
    Bytes(Lay(tabs, 0, ts))
  }

  // How often a symbol occurs.
  function Tally(ts: Tokens, tbl: nat, s: nat): nat
    decreases ts
  {
    match ts
    case Nil => 0
    case Cons(t, rest) => Tally(rest, tbl, s) + if t.Sym? && t.tbl == tbl && t.s == s then 1 else 0
  }
}

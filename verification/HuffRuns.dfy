// Runs of ended bands: the encoder defers them until it knows their length, the decoder
// reads the length first.

module HuffRuns {
  import opened Prelude
  import opened Scans
  import opened HuffBits
  import opened HuffBinarisation
  import opened HuffViews
  import opened HuffScan

  lemma {:induction false} CorrConcat(a: seq<Bit>, b: seq<Bit>, rest: Tokens)
    ensures CorrTokens(a + b, rest) == CorrTokens(a, CorrTokens(b, rest))
    decreases b
  {
    if b == [] {
      assert a + b == a;
    } else {
      var z := |b| - 1;
      assert (a + b)[..|a + b| - 1] == a + b[..z];
      CorrConcat(a, b[..z], Cons(Val(b[z], 1), rest));
    }
  }

  lemma EobIsHead(tbl: HuffNo, run: nat, corr: seq<Bit>, rest: Tokens)
    requires 0 < run <= 0x7FFF
    ensures EobTokens(tbl, run, corr, rest) == EobHead(tbl, run, CorrTokens(corr, rest))
  {
  }

  // An MCU with symbols of its own first lets the pending run out.
  lemma OwnSymbols(s: Scan, c: Carry, mcu: Mcu, rest: Tokens)
    requires HuffScanOk(s) && AcScan(s) && CarryOk(s, c) && McuOk(s, mcu) && !Ended(s, mcu)
    ensures McuTokens(s, c, mcu, rest) == EobTokens(AcNo(s), c.run, c.corr, McuTokens(s, Flushed(c), mcu, rest))
    ensures AfterMcu(s, c, mcu) == AfterMcu(s, Flushed(c), mcu)
  {
    var z := BandOf(s, mcu);
    if KindOf(s) == AcFirst {
      FirstAfterRun(AcNo(s), z, s.se, s.ss, 0, c.run, rest);
    } else {
      RefineAfterRun(AcNo(s), z, s.se, LastNew(z, s.ss, s.se), s.ss, 0, c.run, c.corr, [], rest);
    }
  }

  // An MCU without symbols of its own joins the run.
  lemma JoinsRun(s: Scan, c: Carry, mcu: Mcu, rest: Tokens)
    requires HuffScanOk(s) && AcScan(s) && CarryOk(s, c) && McuOk(s, mcu) && Ended(s, mcu)
    ensures var bits := BandBits(s, mcu);
            var full := c.run + 1 == 0x7FFF || |c.corr| + |bits| > CORR_LIMIT;
            && McuTokens(s, c, mcu, rest) == (if full then EobTokens(AcNo(s), c.run + 1, c.corr + bits, rest) else rest)
            && AfterMcu(s, c, mcu) == if full then Flushed(c) else Carry(c.lastDc, c.run + 1, c.corr + bits)
  {
    var z := BandOf(s, mcu);
    if KindOf(s) == AcFirst {
      FirstInRun(AcNo(s), z, s.se, s.ss, 0, c.run, rest);
    } else {
      var bits := BandBits(s, mcu);
      assert [] + bits == bits;
      RefineInRun(AcNo(s), z, s.se, LastNew(z, s.ss, s.se), s.ss, 0, c.run, c.corr, [], bits, rest);
    }
  }

  lemma JoinFirst(s: Scan, mcus: seq<Mcu>, i: nat, n: nat, rest: Tokens)
    requires HuffScanOk(s) && AcScan(s) && McusOk(s, mcus) && i + n < |mcus|
    ensures JoinTokens(s, mcus, i, n + 1, rest) == CorrTokens(BandBits(s, mcus[i]), JoinTokens(s, mcus, i + 1, n, rest))
  {
    if KindOf(s) == AcRefine {
      CorrOld(BandOf(s, mcus[i]), s.ss, s.se + 1, JoinTokens(s, mcus, i + 1, n, rest));
    }
  }

  // A pending run over n more MCUs from i on: its length, then the correction bits of
  // all its bands in order, then what follows.
  function Deferred(s: Scan, c: Carry, mcus: seq<Mcu>, i: nat, n: nat, j: nat): Tokens
    requires HuffScanOk(s) && CarryOk(s, c) && McusOk(s, mcus) && i + n <= j <= |mcus| && 0 < c.run
    requires c.run + n <= 0x7FFF
  {
    EobHead(AcNo(s), c.run + n, CorrTokens(c.corr, JoinTokens(s, mcus, i, n, SegTokens(s, Flushed(c), mcus, i + n, j))))
  }

  // The run is full with MCU i.
  lemma RunFull(s: Scan, c: Carry, mcus: seq<Mcu>, i: nat, j: nat)
    requires HuffScanOk(s) && AcScan(s) && CarryOk(s, c) && McusOk(s, mcus) && i < j <= |mcus| && c.run > 0
    requires Ended(s, mcus[i]) && AfterMcu(s, c, mcus[i]) == Flushed(c)
    requires c.run + 1 == 0x7FFF || |c.corr| + |BandBits(s, mcus[i])| > CORR_LIMIT
    ensures SegTokens(s, c, mcus, i, j) == Deferred(s, c, mcus, i, 1, j)
  {
    var bits, rest := BandBits(s, mcus[i]), SegTokens(s, Flushed(c), mcus, i + 1, j);
    JoinsRun(s, c, mcus[i], rest);
    CorrConcat(c.corr, bits, rest);
    JoinFirst(s, mcus, i, 0, rest);
    EobIsHead(AcNo(s), c.run + 1, c.corr + bits, rest);
  }

  // MCU i joins, and the run goes on.
  lemma RunGrows(s: Scan, c: Carry, mcus: seq<Mcu>, i: nat, j: nat, n: nat)
    requires HuffScanOk(s) && AcScan(s) && CarryOk(s, c) && McusOk(s, mcus) && i + 1 + n <= j <= |mcus| && c.run > 0
    requires Ended(s, mcus[i]) && c.run + 1 + n <= 0x7FFF
    requires AfterMcu(s, c, mcus[i]) == Carry(c.lastDc, c.run + 1, c.corr + BandBits(s, mcus[i]))
    requires c.run + 1 < 0x7FFF && |c.corr| + |BandBits(s, mcus[i])| <= CORR_LIMIT
    requires SegTokens(s, AfterMcu(s, c, mcus[i]), mcus, i + 1, j) ==
             Deferred(s, AfterMcu(s, c, mcus[i]), mcus, i + 1, n, j)
    ensures SegTokens(s, c, mcus, i, j) == Deferred(s, c, mcus, i, n + 1, j)
  {
    JoinsRun(s, c, mcus[i], SegTokens(s, AfterMcu(s, c, mcus[i]), mcus, i + 1, j));
    DeferredGrows(s, c, mcus, i, j, n, AfterMcu(s, c, mcus[i]));
  }

  lemma DeferredGrows(s: Scan, c: Carry, mcus: seq<Mcu>, i: nat, j: nat, n: nat, next: Carry)
    requires HuffScanOk(s) && AcScan(s) && CarryOk(s, c) && McusOk(s, mcus) && i + 1 + n <= j <= |mcus| && c.run > 0
    requires c.run + 1 + n <= 0x7FFF && CarryOk(s, next)
    requires next == Carry(c.lastDc, c.run + 1, c.corr + BandBits(s, mcus[i]))
    ensures Deferred(s, next, mcus, i + 1, n, j) == Deferred(s, c, mcus, i, n + 1, j)
  {
    var bits, end := BandBits(s, mcus[i]), SegTokens(s, Flushed(c), mcus, i + 1 + n, j);
    CorrConcat(c.corr, bits, JoinTokens(s, mcus, i + 1, n, end));
    JoinFirst(s, mcus, i, n, end);
  }

  // The run ends before MCU i.
  lemma RunEnds(s: Scan, c: Carry, mcus: seq<Mcu>, i: nat, j: nat)
    requires HuffScanOk(s) && AcScan(s) && CarryOk(s, c) && McusOk(s, mcus) && i <= j <= |mcus| && c.run > 0
    requires i == j || !Ended(s, mcus[i])
    ensures SegTokens(s, c, mcus, i, j) == Deferred(s, c, mcus, i, 0, j)
  {
    if i == j {
      EobIsHead(AcNo(s), c.run, c.corr, Nil);
    } else {
      var rest := SegTokens(s, AfterMcu(s, c, mcus[i]), mcus, i + 1, j);
      OwnSymbols(s, c, mcus[i], rest);
      EobIsHead(AcNo(s), c.run, c.corr, McuTokens(s, Flushed(c), mcus[i], rest));
    }
  }

  // How many correction bits n MCUs from i on have.
  function JoinedBits(s: Scan, mcus: seq<Mcu>, i: nat, n: nat): nat
    requires HuffScanOk(s) && McusOk(s, mcus) && i + n <= |mcus|
    decreases n
  {
    if n == 0 then 0 else |BandBits(s, mcus[i])| + JoinedBits(s, mcus, i + 1, n - 1)
  }

  // A run that joins n MCUs is full: its length is the largest one that can be coded, or
  // another band might not find room for its correction bits.
  predicate RunIsFull(s: Scan, c: Carry, mcus: seq<Mcu>, i: nat, n: nat)
    requires HuffScanOk(s) && McusOk(s, mcus) && i + n <= |mcus|
  {
    c.run + n == 0x7FFF || |c.corr| + JoinedBits(s, mcus, i, n) > CORR_LIMIT
  }

  // It stops after n MCUs, and not before, because it is full or nothing more joins it.
  predicate RunStops(s: Scan, c: Carry, mcus: seq<Mcu>, i: nat, j: nat, n: nat)
    requires HuffScanOk(s) && McusOk(s, mcus) && i + n <= j <= |mcus|
  {
    && (i + n == j || !Ended(s, mcus[i + n]) || (n > 0 && RunIsFull(s, c, mcus, i, n)))
    && (forall k :: 0 < k < n ==> !RunIsFull(s, c, mcus, i, k)) && forall k :: i <= k < i + n ==> Ended(s, mcus[k])
  }

  lemma StopsLater(s: Scan, c: Carry, mcus: seq<Mcu>, i: nat, j: nat, m: nat)
    requires HuffScanOk(s) && AcScan(s) && CarryOk(s, c) && McusOk(s, mcus) && i + 1 + m <= j <= |mcus|
    requires c.run + 1 < 0x7FFF && |c.corr| + |BandBits(s, mcus[i])| <= CORR_LIMIT
    requires AfterMcu(s, c, mcus[i]) == Carry(c.lastDc, c.run + 1, c.corr + BandBits(s, mcus[i]))
    requires Ended(s, mcus[i]) && RunStops(s, AfterMcu(s, c, mcus[i]), mcus, i + 1, j, m)
    ensures RunStops(s, c, mcus, i, j, m + 1)
  {
    forall k | 0 < k <= m + 1
      ensures RunIsFull(s, c, mcus, i, k) <==> k > 1 && RunIsFull(s, AfterMcu(s, c, mcus[i]), mcus, i + 1, k - 1)
    {
      FullLater(s, c, mcus, i, k);
    }
  }

  // The pending run is emitted after n MCUs. Closed.
  ghost predicate RunTakes(s: Scan, c: Carry, mcus: seq<Mcu>, i: nat, j: nat, n: nat)
    requires HuffScanOk(s) && CarryOk(s, c) && McusOk(s, mcus) && i + n <= j <= |mcus| && 0 < c.run
    requires c.run + n <= 0x7FFF
  {
    forall k :: Focus(1, k) ==>
      SegTokens(s, c, mcus, i, j) == Deferred(s, c, mcus, i, n, j) && RunStops(s, c, mcus, i, j, n)
  }

  lemma TakesNone(s: Scan, c: Carry, mcus: seq<Mcu>, i: nat, j: nat)
    requires HuffScanOk(s) && AcScan(s) && CarryOk(s, c) && McusOk(s, mcus) && i <= j <= |mcus| && c.run > 0
    requires i == j || !Ended(s, mcus[i])
    ensures RunTakes(s, c, mcus, i, j, 0)
  {
    RunEnds(s, c, mcus, i, j);
  }

  lemma TakesOne(s: Scan, c: Carry, mcus: seq<Mcu>, i: nat, j: nat)
    requires HuffScanOk(s) && AcScan(s) && CarryOk(s, c) && McusOk(s, mcus) && i < j <= |mcus| && c.run > 0
    requires Ended(s, mcus[i]) && (c.run + 1 == 0x7FFF || |c.corr| + |BandBits(s, mcus[i])| > CORR_LIMIT)
    ensures RunTakes(s, c, mcus, i, j, 1)
  {
    var full := JoinedCarry(s, c, mcus[i]);
    RunFull(s, c, mcus, i, j);
    assert JoinedBits(s, mcus, i, 1) == |BandBits(s, mcus[i])| + JoinedBits(s, mcus, i + 1, 0);
  }

  lemma TakesMore(s: Scan, c: Carry, mcus: seq<Mcu>, i: nat, j: nat, n: nat, next: Carry)
    requires HuffScanOk(s) && AcScan(s) && CarryOk(s, c) && McusOk(s, mcus) && i + 1 + n <= j <= |mcus| && c.run > 0
    requires Ended(s, mcus[i]) && c.run + 1 + n <= 0x7FFF
    requires c.run + 1 < 0x7FFF && |c.corr| + |BandBits(s, mcus[i])| <= CORR_LIMIT
    requires next == Carry(c.lastDc, c.run + 1, c.corr + BandBits(s, mcus[i])) && CarryOk(s, next)
    requires RunTakes(s, next, mcus, i + 1, j, n)
    ensures RunTakes(s, c, mcus, i, j, n + 1)
  {
    var full := JoinedCarry(s, c, mcus[i]);
    assert Focus(1, 0);
    RunGrows(s, c, mcus, i, j, n);
    StopsLater(s, c, mcus, i, j, n);
  }

  lemma CarryGrows(s: Scan, c: Carry, mcu: Mcu) returns (next: Carry)
    requires HuffScanOk(s) && AcScan(s) && CarryOk(s, c) && McuOk(s, mcu) && Ended(s, mcu) && c.run > 0
    requires c.run + 1 < 0x7FFF && |c.corr| + |BandBits(s, mcu)| <= CORR_LIMIT
    ensures next == Carry(c.lastDc, c.run + 1, c.corr + BandBits(s, mcu)) && CarryOk(s, next)
  {
    next := Carry(c.lastDc, c.run + 1, c.corr + BandBits(s, mcu));
    var full := JoinedCarry(s, c, mcu);
  }

  lemma {:induction false} TakesSome(s: Scan, c: Carry, mcus: seq<Mcu>, i: nat, j: nat) returns (n: nat)
    requires HuffScanOk(s) && AcScan(s) && CarryOk(s, c) && McusOk(s, mcus) && i <= j <= |mcus| && c.run > 0
    ensures i + n <= j && c.run + n <= 0x7FFF && RunTakes(s, c, mcus, i, j, n)
    decreases j - i
  {
    if i == j || !Ended(s, mcus[i]) {
      n := 0;
      TakesNone(s, c, mcus, i, j);
    } else {
      if c.run + 1 == 0x7FFF || |c.corr| + |BandBits(s, mcus[i])| > CORR_LIMIT {
        n := 1;
        TakesOne(s, c, mcus, i, j);
      } else {
        var next := CarryGrows(s, c, mcus[i]);
        var m := TakesSome(s, next, mcus, i + 1, j);
        n := m + 1;
        TakesMore(s, c, mcus, i, j, m, next);
      }
    }
  }

  // A pending run grows over the MCUs that join it and is then emitted; it is not emitted
  // before a band begins with a symbol of its own, the segment ends or the run is full.
  lemma RunExtends(s: Scan, c: Carry, mcus: seq<Mcu>, i: nat, j: nat) returns (n: nat)
    requires HuffScanOk(s) && AcScan(s) && CarryOk(s, c) && McusOk(s, mcus) && i <= j <= |mcus| && c.run > 0
    ensures i + n <= j && c.run + n <= 0x7FFF && SegTokens(s, c, mcus, i, j) == Deferred(s, c, mcus, i, n, j)
    ensures RunStops(s, c, mcus, i, j, n)
  {
    n := TakesSome(s, c, mcus, i, j);
    assert Focus(1, 0);
  }

  // Behind MCU i, which has joined, the run is as full as it was going to be.
  lemma FullLater(s: Scan, c: Carry, mcus: seq<Mcu>, i: nat, k: nat)
    requires HuffScanOk(s) && AcScan(s) && CarryOk(s, c) && McusOk(s, mcus) && 0 < k && i + k <= |mcus|
    requires c.run + 1 < 0x7FFF && |c.corr| + |BandBits(s, mcus[i])| <= CORR_LIMIT
    requires AfterMcu(s, c, mcus[i]) == Carry(c.lastDc, c.run + 1, c.corr + BandBits(s, mcus[i]))
    ensures RunIsFull(s, c, mcus, i, k) <==> k > 1 && RunIsFull(s, AfterMcu(s, c, mcus[i]), mcus, i + 1, k - 1)
  {
    assert JoinedBits(s, mcus, i, k) == |BandBits(s, mcus[i])| + JoinedBits(s, mcus, i + 1, k - 1);
  }

  lemma JoinedCarry(s: Scan, c: Carry, mcu: Mcu) returns (full: bool)
    requires HuffScanOk(s) && AcScan(s) && CarryOk(s, c) && McuOk(s, mcu) && Ended(s, mcu)
    ensures full <==> c.run + 1 == 0x7FFF || |c.corr| + |BandBits(s, mcu)| > CORR_LIMIT
    ensures AfterMcu(s, c, mcu) == if full then Flushed(c) else Carry(c.lastDc, c.run + 1, c.corr + BandBits(s, mcu))
  {
    full := c.run + 1 == 0x7FFF || |c.corr| + |BandBits(s, mcu)| > CORR_LIMIT;
    JoinsRun(s, c, mcu, Nil);
  }
}

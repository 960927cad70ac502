// The tables of a scan: made from the statistics (finish_pass_gather), and derived for
// encoding and decoding (start_pass_huff, start_pass_huff_decoder).

module HuffPasses {
  import opened Prelude
  import opened Scans
  import opened HuffBits
  import opened HuffCode
  import opened HuffmanDepth
  import HuffmanTree
  import opened OptimalTable
  import HuffScan
  import opened HuffStatistics
  import opened HuffTokenReader

  type Slots = seq<Option<HuffTable>>

  // The table slots: 0 to 3 for DC, 4 to 7 for AC coefficients.
  predicate SlotsOk(slots: Slots) {
    |slots| == 8 && forall k :: 0 <= k < 8 && slots[k].Some? ==> TableOk(slots[k].value)
  }

  // ---- statistics ----

  function Row(counts: array2<nat>, k: nat): (r: seq<nat>)
    requires k < counts.Length0 && counts.Length1 == 257
    reads counts
    ensures |r| == 257 && forall i :: 0 <= i < 257 ==> r[i] == counts[k, i]
  {
    seq(257, (i: nat) requires i < 257 && k < counts.Length0 && counts.Length1 == 257 reads counts => counts[k, i])
  }

  // The best code that Huffman's procedure finds before lengths are limited.
  ghost predicate BestLengths(row: seq<nat>, lens: seq<nat>)
    requires |row| == 257
  {
    |lens| == 257 && HuffmanTree.LengthsOk(row[256 := 1], lens) && HuffmanTree.Optimal(row[256 := 1], lens)
  }

  ghost predicate BestTable(row: seq<nat>, t: HuffTable)
    requires |row| == 257
  {
    exists lens :: BestLengths(row, lens) && TableFor(row[256 := 1], lens, t)
  }

  // The procedure puts the pseudo-symbol deeper than it can handle, so it gives up.
  predicate TooLong(row: seq<nat>)
    requires |row| == 257
  {
    Depth(row[256 := 1], 256) > 32
  }

  // Every count table that the scan needs can be turned into a code.
  ghost predicate Gathered(s: Scan, counts: array2<nat>)
    requires HuffScan.HuffScanOk(s)
    reads counts
  {
    counts.Length0 == 8 && counts.Length1 == 257 && forall k :: 0 <= k < 8 && Needed(s, k) ==> Countable(Row(counts, k))
  }

  // The tables made so far.
  ghost predicate MadeFrom(counts: array2<nat>, did: seq<bool>, slots: Slots)
    requires counts.Length0 == 8 && counts.Length1 == 257
    reads counts
  {
    && SlotsOk(slots) && |did| == 8
    && forall k :: 0 <= k < 8 && did[k] ==> slots[k].Some? && BestTable(Row(counts, k), slots[k].value)
  }

  // Make table k, unless it is made already.
  method MakeTable(counts: array2<nat>, k: nat, did: seq<bool>, slots: Slots)
    returns (ok: bool, did': seq<bool>, slots': Slots)
    requires k < 8 && counts.Length0 == 8 && counts.Length1 == 257 && Countable(Row(counts, k))
    requires MadeFrom(counts, did, slots)
    ensures ok <==> did[k] || !TooLong(Row(counts, k))
    ensures ok ==> did' == did[k := true] && MadeFrom(counts, did', slots')
  {
    did', slots' := did, slots;
    if did[k] {
      assert did[k := true] == did;
      return true, did', slots';
    }
    // The procedure clobbers the counts, so it gets its own.
    var freq := new nat[257];
    forall i | 0 <= i < 257 {
      freq[i] := counts[k, i];
    }
    assert freq[..] == Row(counts, k);
    var table;
    ghost var lens;
    table, lens := GenOptimalTable(freq);
    assert BestLengths(Row(counts, k), lens);
    ok := table.Some?;
    if ok {
      did', slots' := did[k := true], slots[k := table];
    }
  }

  // Create the tables from the counts.
  method FinishGather(s: Scan, counts: array2<nat>) returns (ok: bool, slots: Slots)
    requires HuffScan.HuffScanOk(s) && Gathered(s, counts)
    ensures ok ==> SlotsOk(slots) && forall k :: 0 <= k < 8 && Needed(s, k) ==>
              slots[k].Some? && BestTable(Row(counts, k), slots[k].value)
    ensures ok <==> forall k :: 0 <= k < 8 && Needed(s, k) ==> !TooLong(Row(counts, k))
  {
    var did := seq(8, _ => false);
    slots := seq(8, _ => None);
    var ci := 0;
    while ci < |s.comps|
      invariant ci <= |s.comps| && MadeFrom(counts, did, slots)
      invariant forall c, k :: 0 <= c < ci && 0 <= k < 8 && NeededBy(s, c, k) ==> did[k]
      invariant forall k :: 0 <= k < 8 && did[k] ==> !TooLong(Row(counts, k))
    {
      ok, did, slots := MakeFor(s, counts, ci, did, slots);
      if !ok {
        return;
      }
      ci := ci + 1;
    }
    ok := true;
  }

  // The tables of component ci.
  method MakeFor(s: Scan, counts: array2<nat>, ci: nat, did: seq<bool>, slots: Slots)
    returns (ok: bool, did': seq<bool>, slots': Slots)
    requires HuffScan.HuffScanOk(s) && Gathered(s, counts) && ci < |s.comps| && MadeFrom(counts, did, slots)
    requires forall k :: 0 <= k < 8 && did[k] ==> !TooLong(Row(counts, k))
    ensures ok ==> MadeFrom(counts, did', slots') && forall k :: 0 <= k < 8 ==>
              (did'[k] <==> did[k] || NeededBy(s, ci, k))
    ensures ok ==> forall k :: 0 <= k < 8 && did'[k] ==> !TooLong(Row(counts, k))
    ensures !ok ==> exists k :: 0 <= k < 8 && Needed(s, k) && TooLong(Row(counts, k))
  {
    ok, did', slots' := true, did, slots;
    if s.ss == 0 && s.ah == 0 {
      var k := s.comps[ci].dcTbl;
      assert NeededBy(s, ci, k) && Needed(s, k);
      ok, did', slots' := MakeTable(counts, k, did', slots');
    }
    if ok && s.se > 0 {
      var k := 4 + s.comps[ci].acTbl;
      assert NeededBy(s, ci, k) && Needed(s, k);
      ok, did', slots' := MakeTable(counts, k, did', slots');
    }
  }

  // ---- derived tables ----

  predicate Accepted(t: HuffTable, dc: bool) {
    TableOk(t) && CodeTree(t) && SymbolsInRange(t, dc) && SymbolsDistinct(t)
  }

  predicate NoCodes(e: EncTable) {
    e == EncTable(seq(256, _ => 0), seq(256, _ => 0))
  }

  // The encoder's tables derived so far.
  predicate EncodesSlots(slots: Slots, did: seq<bool>, tabs: Tables) {
    && SlotsOk(slots) && |did| == |tabs| == 8
    && forall k :: 0 <= k < 8 ==>
         if did[k] then slots[k].Some? && Accepted(slots[k].value, k < 4)
         && Encodes(slots[k].value, tabs[k].ehufco, tabs[k].ehufsi)
         else NoCodes(tabs[k])
  }

  method DeriveForOutput(slots: Slots, k: nat, ghost did: seq<bool>, tabs: Tables) returns (ok: bool, tabs': Tables)
    requires k < 8 && EncodesSlots(slots, did, tabs)
    ensures ok <==> slots[k].Some? && Accepted(slots[k].value, k < 4)
    ensures ok ==> EncodesSlots(slots, did[k := true], tabs')
  {
    tabs' := tabs;
    if slots[k] == None {
      return false, tabs;
    }
    var ehufco, ehufsi;
    ok, ehufco, ehufsi := MakeCDerivedTbl(slots[k].value, k < 4);
    if ok {
      tabs' := tabs[k := EncTable(ehufco[..], ehufsi[..])];
    }
  }

  // A slot holds a table that the scan needs and both sides accept.
  predicate Usable(s: Scan, slots: Slots, k: nat)
    requires HuffScan.HuffScanOk(s) && SlotsOk(slots) && k < 8
  {
    Needed(s, k) ==> slots[k].Some? && Accepted(slots[k].value, k < 4)
  }

  // start_pass_huff: compute derived values for the tables of the scan.
  method StartOutput(s: Scan, slots: Slots) returns (ok: bool, tabs: Tables, ghost did: seq<bool>)
    requires HuffScan.HuffScanOk(s) && SlotsOk(slots)
    ensures ok <==> forall k :: 0 <= k < 8 ==> Usable(s, slots, k)
    ensures ok ==> EncodesSlots(slots, did, tabs) && forall k :: 0 <= k < 8 ==> (did[k] <==> Needed(s, k))
  {
    did := seq(8, _ => false);
    tabs := seq(8, _ => EncTable(seq(256, _ => 0), seq(256, _ => 0)));
    var ci := 0;
    while ci < |s.comps|
      invariant ci <= |s.comps| && EncodesSlots(slots, did, tabs)
      invariant forall c, k :: 0 <= c < ci && 0 <= k < 8 && NeededBy(s, c, k) ==> did[k]
      invariant forall k :: 0 <= k < 8 && did[k] ==> Needed(s, k)
    {
      ghost var was := did;
      if s.ss == 0 && s.ah == 0 {
        var k := s.comps[ci].dcTbl;
        assert NeededBy(s, ci, k) && Needed(s, k);
        ok, tabs := DeriveForOutput(slots, k, did, tabs);
        if !ok {
          assert !Usable(s, slots, k);
          return;
        }
        did := did[k := true];
      }
      if s.se > 0 {
        var k := 4 + s.comps[ci].acTbl;
        assert NeededBy(s, ci, k) && Needed(s, k);
        ok, tabs := DeriveForOutput(slots, k, did, tabs);
        if !ok {
          assert !Usable(s, slots, k);
          return;
        }
        did := did[k := true];
      }
      assert forall k :: 0 <= k < 8 && was[k] ==> did[k];
      ci := ci + 1;
    }
    ok := true;
  }

  // The decoder's tables derived so far.
  predicate DecodesSlots(slots: Slots, pairs: seq<Option<Pair>>) {
    && SlotsOk(slots) && |pairs| == 8
    && forall k :: 0 <= k < 8 && pairs[k].Some? ==>
         var t := pairs[k].value.table;
         slots[k] == Some(t) && TableOk(t) && CodeTree(t) && SymbolsInRange(t, k < 4) && Decodes(t, pairs[k].value.dec)
  }

  method DeriveForInput(slots: Slots, k: nat, pairs: seq<Option<Pair>>) returns (ok: bool, pairs': seq<Option<Pair>>)
    requires k < 8 && DecodesSlots(slots, pairs)
    ensures slots[k].Some? && Accepted(slots[k].value, k < 4) ==> ok
    ensures ok ==> DecodesSlots(slots, pairs') && pairs'[k].Some? && pairs' == pairs[k := pairs'[k]]
  {
    pairs' := pairs;
    if slots[k] == None {
      return false, pairs;
    }
    var d;
    ok, d := MakeDDerivedTbl(slots[k].value, k < 4);
    if ok {
      pairs' := pairs[k := Some(Pair(slots[k].value, d))];
    }
  }

  // start_pass_huff_decoder: the same for the decoder.
  method StartInput(s: Scan, slots: Slots) returns (ok: bool, pairs: seq<Option<Pair>>)
    requires HuffScan.HuffScanOk(s) && SlotsOk(slots)
    ensures (forall k :: 0 <= k < 8 ==> Usable(s, slots, k)) ==> ok
    ensures ok ==> DecodesSlots(slots, pairs) && forall k :: 0 <= k < 8 && Needed(s, k) ==> pairs[k].Some?
    ensures ok ==> forall k :: 0 <= k < 8 && pairs[k].Some? ==> Needed(s, k)
  {
    pairs := seq(8, _ => None);
    var ci := 0;
    while ci < |s.comps|
      invariant ci <= |s.comps| && DecodesSlots(slots, pairs)
      invariant forall c, k :: 0 <= c < ci && 0 <= k < 8 && NeededBy(s, c, k) ==> pairs[k].Some?
      invariant forall k :: 0 <= k < 8 && pairs[k].Some? ==> Needed(s, k)
    {
      ghost var was := pairs;
      if s.ss == 0 && s.ah == 0 {
        var k := s.comps[ci].dcTbl;
        assert NeededBy(s, ci, k) && Needed(s, k);
        assert Usable(s, slots, k) ==> slots[k].Some? && Accepted(slots[k].value, k < 4);
        ok, pairs := DeriveForInput(slots, k, pairs);
        if !ok {
          return;
        }
      }
      if s.se > 0 {
        var k := 4 + s.comps[ci].acTbl;
        assert NeededBy(s, ci, k) && Needed(s, k);
        assert Usable(s, slots, k) ==> slots[k].Some? && Accepted(slots[k].value, k < 4);
        ok, pairs := DeriveForInput(slots, k, pairs);
        if !ok {
          return;
        }
      }
      assert forall k :: 0 <= k < 8 && was[k].Some? ==> pairs[k].Some?;
      ci := ci + 1;
    }
    ok := true;
  }
}

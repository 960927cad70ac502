// Whole scans through the Huffman coder: deriving tables, decoding from a source that
// delivers its bytes in pieces, and the two passes of an encoder that optimises its tables.

module HuffTransmission {
  import opened Prelude
  import opened ByteStream
  import opened Coefficients
  import opened Scans
  import opened HuffBits
  import opened HuffScan
  import opened HuffTokenReader
  import opened HuffStates
  import opened HuffCourse
  import opened HuffScanDecoder
  import opened HuffCode
  import opened HuffmanBound
  import opened HuffmanDepth
  import opened OptimalTable
  import opened HuffStatistics
  import opened HuffPasses
  import opened HuffScanEncoder

  // ---- decoding ----

  // The pieces in which a source delivers its bytes.
  function Joined(pieces: seq<seq<byte>>): seq<byte> {
    if pieces == [] then [] else pieces[0] + Joined(pieces[1..])
  }

  // What the source of a scan holds.
  function SentBytes(tabs: Tables, s: Scan, mcus: seq<Mcu>, marker: byte, after: seq<byte>): seq<byte>
    requires TablesOk(tabs) && HuffScanOk(s) && McusOk(s, mcus)
  {
    ScanBytes(tabs, s, 0, mcus, 0) + [0xFF, marker] + after
  }

  // The encoder accepts the MCUs and has a code for every symbol.
  predicate Codable(tabs: Tables, s: Scan, mcus: seq<Mcu>) {
    TablesOk(tabs) && HuffScanOk(s) && McusOk(s, mcus) && ScanAccepted(s, mcus, 0) && ScanCoded(tabs, s, mcus, 0)
  }

  // A whole scan. On any data it terminates. Given the bytes that the encoder produces for
  // some MCUs, followed by a marker, it restores those MCUs, wherever the pieces end:
  // every time the source runs dry the attempt at an MCU is repeated.
  method DecodeScan(s: Scan, tables: seq<Option<Pair>>, wanted: seq<nat>, pieces: seq<seq<byte>>, data: array<Coef>,
                    places: seq<seq<nat>>,
                    ghost tabs: Tables, ghost mcus: seq<Mcu>, ghost marker: byte, ghost after: seq<byte>,
                    ghost intact: bool) returns (ok: bool)
    requires HuffScanOk(s) && LimitsOk(s, wanted) && Equipped(s, tables) && TablesOk(tabs) && PairsOk(tables, tabs)
    requires PlacesOk(s, places, data.Length) && McusOk(s, mcus) && |mcus| == |places| && IsMarker(marker)
    requires intact ==> Joined(pieces) == SentBytes(tabs, s, mcus, marker, after) && Codable(tabs, s, mcus)
    requires intact ==> ScanIs(s, wanted, data[..], data[..], places, mcus, 0)
    modifies data
    ensures FramedScan(s, intact, old(data[..]), data[..], places)
    ensures intact ==> ok && ScanIs(s, wanted, old(data[..]), data[..], places, mcus, |mcus|)
  {
    ghost var start := data[..];
    var d := Begin(s, tables, wanted, data[..], places, tabs, mcus, marker, after, intact, Joined(pieces));
    var i, next := 0, 0;
    assert pieces[0..] == pieces;
    while i < |places|
      invariant i <= |places| && next <= |pieces| && Stands(d, s, wanted, mcus, intact, start, data[..], places, i)
      invariant d.tr.br.future == Joined(pieces[next..])
      invariant fresh(d) && fresh(d.tr) && fresh(d.tr.br)
      decreases |places| - i + |pieces| - next
    {
      ok := DecodeOne(d, s, wanted, data, places, i, mcus, intact, start);
      if ok {
        i := i + 1;
      } else {
        if next == |pieces| {
          return;
        }
        SupplyNext(d, s, wanted, mcus, intact, start, data[..], places, i, pieces, next);
        next := next + 1;
      }
    }
    ok := true;
  }

  // The decoder at the start of a scan, before any byte has arrived.
  method Begin(s: Scan, tables: seq<Option<Pair>>, wanted: seq<nat>, ghost data: seq<Coef>, places: seq<seq<nat>>,
               ghost tabs: Tables, ghost mcus: seq<Mcu>, ghost marker: byte, ghost after: seq<byte>,
               ghost intact: bool, ghost bytes: seq<byte>)
    returns (d: ScanDecoder)
    requires HuffScanOk(s) && LimitsOk(s, wanted) && Equipped(s, tables) && TablesOk(tabs) && PairsOk(tables, tabs)
    requires PlacesOk(s, places, |data|) && McusOk(s, mcus) && |mcus| == |places| && IsMarker(marker)
    requires intact ==> bytes == SentBytes(tabs, s, mcus, marker, after) && Codable(tabs, s, mcus)
    requires intact ==> ScanIs(s, wanted, data, data, places, mcus, 0)
    ensures Stands(d, s, wanted, mcus, intact, data, data, places, 0) && d.tr.br.future == bytes
    ensures fresh(d) && fresh(d.tr) && fresh(d.tr.br)
  {
    ghost var x := Course(mcus, marker, after, 0, SegmentEnd(s, 0, |mcus|), 0, NoCarry(s).lastDc, 0, 0);
    assert [] + bytes == bytes;
    d := new ScanDecoder(s, tables, wanted, [], bytes, tabs, if intact then Some(x) else None);
  }

  // The source hands over one more piece.
  method SupplyNext(d: ScanDecoder, s: Scan, wanted: seq<nat>, ghost mcus: seq<Mcu>, ghost intact: bool,
                    ghost was: seq<Coef>, ghost data: seq<Coef>, places: seq<seq<nat>>, i: nat,
                    pieces: seq<seq<byte>>, next: nat)
    requires HuffScanOk(s) && LimitsOk(s, wanted) && McusOk(s, mcus) && |was| == |data| && PlacesOk(s, places, |data|)
    requires |places| == |mcus| && Stands(d, s, wanted, mcus, intact, was, data, places, i)
    requires next < |pieces| && d.tr.br.future == Joined(pieces[next..])
    modifies d.tr.br
    ensures Stands(d, s, wanted, mcus, intact, was, data, places, i)
    ensures d.tr.br.future == Joined(pieces[next + 1..])
  {
    assert pieces[next..][1..] == pieces[next + 1..];
    d.tr.Supply(pieces[next]);
  }

  // Decoding stands before MCU i, which may have been tried already.
  ghost predicate Stands(d: ScanDecoder, s: Scan, wanted: seq<nat>, mcus: seq<Mcu>, intact: bool,
                         was: seq<Coef>, data: seq<Coef>, places: seq<seq<nat>>, i: nat)
    requires HuffScanOk(s) && LimitsOk(s, wanted) && McusOk(s, mcus) && |was| == |data| && PlacesOk(s, places, |data|)
    requires |places| == |mcus|
    reads d, d.tr, d.tr.br
  {
    && d.Valid() && d.scan == s && d.limits == wanted && d.course.Some? == intact
    && (intact ==>
        d.course.value.i == i && d.course.value.mcus == mcus && ScanIs(s, wanted, was, data, places, mcus, i))
    && FramedScan(s, intact, was, data, places)
  }

  // One attempt at MCU i.
  method DecodeOne(d: ScanDecoder, s: Scan, wanted: seq<nat>, data: array<Coef>, places: seq<seq<nat>>, i: nat,
                   ghost mcus: seq<Mcu>, ghost intact: bool, ghost start: seq<Coef>) returns (ok: bool)
    requires HuffScanOk(s) && LimitsOk(s, wanted) && McusOk(s, mcus) && PlacesOk(s, places, data.Length)
    requires |start| == data.Length
    requires i < |places| == |mcus| && Stands(d, s, wanted, mcus, intact, start, data[..], places, i)
    modifies d, d.tr, d.tr.br, data
    ensures Stands(d, s, wanted, mcus, intact, start, data[..], places, if ok then i + 1 else i)
    ensures d.tr.br.future == old(d.tr.br.future) && (intact && !ok ==> d.tr.br.future != [])
  {
    ghost var was := data[..];
    ok := d.DecodeMcu(data, places[i], start);
    FramedScanStep(s, intact, start, was, data[..], places, i);
    if intact {
      ScanIsStep(s, wanted, intact, start, was, data[..], places, mcus, i, ok);
    }
  }

  // ---- statistics ----

  // The counts of table k, with the pseudo-symbol.
  function CountRow(s: Scan, mcus: seq<Mcu>, k: nat): (r: seq<nat>)
    requires HuffScanOk(s) && McusOk(s, mcus) && k < 8
    ensures |r| == 257
  {
    ScanCounts(s, mcus)[k] + [1]
  }

  // The procedure for optimal codes is made for totals up to 10^9.
  predicate SmallTotals(s: Scan, mcus: seq<Mcu>)
    requires HuffScanOk(s) && McusOk(s, mcus)
  {
    forall k :: 0 <= k < 8 ==> Total(CountRow(s, mcus, k)) <= 1_000_000_000
  }

  // The counts of every table that the scan needs can be turned into a code: some symbol
  // is counted, and at most 254 are.
  lemma RowCountable(s: Scan, mcus: seq<Mcu>, k: nat)
    requires Encodable(s, mcus) && ScanAccepted(s, mcus, 0)
    requires k < 8 && Needed(s, k)
    ensures Countable(CountRow(s, mcus, k))
  {
    var w := CountRow(s, mcus, k);
    var sym := NeededCounted(s, mcus, k);
    var c, d := if k < 4 then 14 else 11, if k < 4 then 15 else 12;
    if w[c] > 0 {
      CountedProper(s, mcus, 0, k, c);
    }
    if w[d] > 0 {
      CountedProper(s, mcus, 0, k, d);
    }
    assert w[sym] == ScanTally(s, mcus, 0, k, sym);
    UsedBetween(w, sym, 256, c, d);
    assert w[256 := 1] == w;
  }

  // Tables made for the counts are accepted, and they have a code for every symbol that
  // the scan uses.
  lemma BestUsable(s: Scan, mcus: seq<Mcu>, k: nat, t: HuffTable)
    requires HuffScanOk(s) && McusOk(s, mcus) && ScanAccepted(s, mcus, 0) && k < 8 && BestTable(CountRow(s, mcus, k), t)
    ensures Accepted(t, k < 4)
    ensures forall ehufco, ehufsi :: Encodes(t, ehufco, ehufsi) ==>
              forall sym :: 0 <= sym < 256 && ScanTally(s, mcus, 0, k, sym) > 0 ==> ehufsi[sym] > 0
  {
    var w := CountRow(s, mcus, k);
    var lens :| BestLengths(w, lens) && TableFor(w[256 := 1], lens, t);
    assert w[256 := 1] == w;
    forall x | 16 <= x < 256 && k < 4
      ensures w[x] == 0
    {
      if w[x] > 0 {
        CountedProper(s, mcus, 0, k, x);
      }
    }
    forall ehufco, ehufsi
      ensures Accepted(t, k < 4)
      ensures Encodes(t, ehufco, ehufsi) ==> forall sym :: 0 <= sym < 256 && ScanTally(s, mcus, 0, k, sym) > 0 ==>
                ehufsi[sym] > 0
    {
      OptimalAccepted(w, lens, t, k < 4, ehufco, ehufsi);
    }
    OptimalAccepted(w, lens, t, k < 4, [], []);
  }

  // So the output pass never meets a missing code.
  lemma NeverMissing(s: Scan, mcus: seq<Mcu>, slots: Slots, did: seq<bool>, tabs: Tables)
    requires HuffScanOk(s) && McusOk(s, mcus) && ScanAccepted(s, mcus, 0) && EncodesSlots(slots, did, tabs)
    requires TablesOk(tabs)
    requires forall k :: 0 <= k < 8 && Needed(s, k) ==>
               did[k] && slots[k].Some? && BestTable(CountRow(s, mcus, k), slots[k].value)
    ensures ScanCoded(tabs, s, mcus, 0)
  {
    forall tbl: nat, sym: nat | ScanTally(s, mcus, 0, tbl, sym) > 0
      ensures HasCode(tabs, tbl, sym)
    {
      CountedProper(s, mcus, 0, tbl, sym);
      assert tbl < 8;
      BestUsable(s, mcus, tbl, slots[tbl].value);
    }
    ScanCoveredCoded(tabs, s, mcus, 0);
  }

  // ---- derived tables ----

  lemma SlotSizes(slots: Slots, did: seq<bool>, tabs: Tables)
    requires EncodesSlots(slots, did, tabs)
    ensures HuffBits.SizesOk(tabs)
  {
    forall k, sym | 0 <= k < 8 && 0 <= sym < 256
      ensures |tabs[k].ehufco| == |tabs[k].ehufsi| == 256 && tabs[k].ehufsi[sym] <= 16
    {
      if did[k] {
        SymbolSize(slots[k].value, tabs[k], sym);
      }
    }
  }

  lemma SymbolSize(t: HuffTable, e: EncTable, sym: nat)
    requires TableOk(t) && CodeTree(t) && Encodes(t, e.ehufco, e.ehufsi) && sym < 256
    ensures e.ehufsi[sym] <= 16
  {
    var lens := Lens(t);
    if sym in t.huffval[..|lens|] {
      var q :| 0 <= q < |lens| && t.huffval[..|lens|][q] == sym;
      assert t.huffval[q] == sym;
    }
  }

  // Both sides derive their tables from the same slots.
  lemma SlotAgrees(slots: Slots, did: seq<bool>, tabs: Tables, pairs: seq<Option<Pair>>, k: nat)
    requires EncodesSlots(slots, did, tabs) && DecodesSlots(slots, pairs) && k < 8 && did[k] && pairs[k].Some?
    ensures PairOk(pairs[k].value, tabs[k]) && SymbolsInRange(pairs[k].value.table, k < 4)
  {
  }

  lemma SlotsAgree(s: Scan, slots: Slots, did: seq<bool>, tabs: Tables, pairs: seq<Option<Pair>>)
    requires HuffScanOk(s) && EncodesSlots(slots, did, tabs) && DecodesSlots(slots, pairs) && TablesOk(tabs)
    requires forall k :: 0 <= k < 8 && pairs[k].Some? ==> did[k]
    ensures PairsOk(pairs, tabs)
  {
    forall k | 0 <= k < 8 && pairs[k].Some?
      ensures PairOk(pairs[k].value, tabs[k]) && (k < 4 ==> SymbolsInRange(pairs[k].value.table, true))
    {
      SlotAgrees(slots, did, tabs, pairs, k);
    }
  }

  lemma NeededEquips(s: Scan, pairs: seq<Option<Pair>>)
    requires HuffScanOk(s) && |pairs| == 8 && forall k :: 0 <= k < 8 && Needed(s, k) ==> pairs[k].Some?
    ensures Equipped(s, pairs)
  {
    forall ci | 0 <= ci < |s.comps|
      ensures s.ss == 0 && s.ah == 0 ==> pairs[s.comps[ci].dcTbl].Some?
      ensures s.se > 0 ==> pairs[4 + s.comps[ci].acTbl].Some?
    {
      assert s.ss == 0 && s.ah == 0 ==> NeededBy(s, ci, s.comps[ci].dcTbl);
      assert s.se > 0 ==> NeededBy(s, ci, 4 + s.comps[ci].acTbl);
    }
  }

  // ---- two passes ----

  // The counts of the statistics pass are those of the scan.
  lemma RowsCounted(s: Scan, mcus: seq<Mcu>, e: ScanEncoder)
    requires HuffScanOk(s) && McusOk(s, mcus) && e.Totals(ScanCounts(s, mcus))
    ensures forall k :: 0 <= k < 8 ==>
              Row(e.enc.counts, k)[256 := 1] == CountRow(s, mcus, k)[256 := 1] == CountRow(s, mcus, k)
  {
    forall k | 0 <= k < 8
      ensures Row(e.enc.counts, k)[256 := 1] == CountRow(s, mcus, k) == CountRow(s, mcus, k)[256 := 1]
    {
      assert forall i :: 0 <= i < 256 ==> Row(e.enc.counts, k)[i] == ScanCounts(s, mcus)[k][i];
    }
  }

  // What an encoder needs that optimises its tables.
  predicate Encodable(s: Scan, mcus: seq<Mcu>) {
    HuffScanOk(s) && McusOk(s, mcus) && mcus != [] && EveryComponent(s) && SmallTotals(s, mcus)
  }

  // Some code is too long for the procedure: a condition on the counts alone.
  predicate GivesUp(s: Scan, mcus: seq<Mcu>)
    requires HuffScanOk(s) && McusOk(s, mcus)
  {
    exists k :: 0 <= k < 8 && Needed(s, k) && TooLong(CountRow(s, mcus, k))
  }

  // When encoding succeeds: the coefficients are in range and no code is too long.
  predicate Sendable(s: Scan, mcus: seq<Mcu>) {
    HuffScanOk(s) && McusOk(s, mcus) && ScanAccepted(s, mcus, 0) && !GivesUp(s, mcus)
  }

  ghost predicate BestSlots(s: Scan, mcus: seq<Mcu>, slots: Slots)
    requires HuffScanOk(s) && McusOk(s, mcus) && SlotsOk(slots)
  {
    forall k :: 0 <= k < 8 && Needed(s, k) ==> slots[k].Some? && BestTable(CountRow(s, mcus, k), slots[k].value)
  }

  // The statistics pass for a scan. DC refinement scans need no table and no such pass
  // (prepare_for_pass of jcmaster.c).
  method OptimizationPass(s: Scan, mcus: seq<Mcu>) returns (ok: bool, slots: Slots)
    requires Encodable(s, mcus)
    ensures ok <==> Sendable(s, mcus)
    ensures ok ==> SlotsOk(slots) && BestSlots(s, mcus, slots)
  {
    if KindOf(s) == DcRefine {
      FitAccepted(s, mcus, 0);
      return true, seq(8, _ => None);
    }
    var e;
    ok, e := RunScan(s, mcus, seq(8, _ => EncTable(seq(256, _ => 0), seq(256, _ => 0))), true, []);
    if !ok {
      return false, [];
    }
    RowsCounted(s, mcus, e);
    forall k | 0 <= k < 8 && Needed(s, k)
      ensures Countable(Row(e.enc.counts, k))
    {
      RowCountable(s, mcus, k);
    }
    ok, slots := FinishGather(s, e.enc.counts);
    if ok {
      forall k | 0 <= k < 8 && Needed(s, k)
        ensures slots[k].Some? && BestTable(CountRow(s, mcus, k), slots[k].value)
      {
        BestCarries(Row(e.enc.counts, k), CountRow(s, mcus, k), slots[k].value);
      }
    }
  }

  lemma BestCarries(a: seq<nat>, b: seq<nat>, t: HuffTable)
    requires |a| == |b| == 257 && a[256 := 1] == b[256 := 1] && BestTable(a, t)
    ensures BestTable(b, t)
  {
    var lens :| BestLengths(a, lens) && TableFor(a[256 := 1], lens, t);
    assert BestLengths(b, lens);
  }

  // It cannot happen while every table counts fewer than LONG_TOTAL symbols.
  lemma SmallNeverGivesUp(s: Scan, mcus: seq<Mcu>)
    requires HuffScanOk(s) && McusOk(s, mcus)
    requires forall k :: 0 <= k < 8 ==> Total(CountRow(s, mcus, k)) < LONG_TOTAL
    ensures !GivesUp(s, mcus)
  {
    forall k | 0 <= k < 8
      ensures !TooLong(CountRow(s, mcus, k))
    {
      assert CountRow(s, mcus, k)[256 := 1] == CountRow(s, mcus, k);
      ShortBelow(CountRow(s, mcus, k), 256);
    }
  }

  // Both passes for a scan. The output pass cannot fail: it meets no symbol without a code.
  method EncodeOptimized(s: Scan, mcus: seq<Mcu>, destination: seq<byte>)
    returns (ok: bool, out: seq<byte>, slots: Slots, ghost did: seq<bool>, ghost tabs: Tables)
    requires Encodable(s, mcus)
    ensures ok <==> Sendable(s, mcus)
    ensures ok ==> EncodesSlots(slots, did, tabs) && BestSlots(s, mcus, slots) && forall k :: 0 <= k < 8 ==>
              (did[k] <==> Needed(s, k))
    ensures ok ==> Codable(tabs, s, mcus) && out == destination + ScanBytes(tabs, s, 0, mcus, 0)
  {
    out, did, tabs := destination, [], [];
    ok, slots := OptimizationPass(s, mcus);
    if !ok {
      return;
    }
    forall k | 0 <= k < 8
      ensures Usable(s, slots, k)
    {
      if Needed(s, k) {
        BestUsable(s, mcus, k, slots[k].value);
      }
    }
    var derived;
    ok, derived, did := StartOutput(s, slots);
    tabs := derived;
    SlotSizes(slots, did, derived);
    NeverMissing(s, mcus, slots, did, derived);
    var e;
    ok, e := RunScan(s, mcus, derived, false, destination);
    out := e.enc.out;
  }

  // Bytes in pieces of the given lengths.
  function Pieces(bytes: seq<byte>, cuts: seq<nat>): (r: seq<seq<byte>>)
    ensures Joined(r) == bytes
    decreases |cuts|
  {
    if cuts == [] || cuts[0] >= |bytes| then [bytes]
    else
      var r := [bytes[..cuts[0]]] + Pieces(bytes[cuts[0]..], cuts[1..]);
      assert r[1..] == Pieces(bytes[cuts[0]..], cuts[1..]);
      r
  }

  // A scan from encoder to decoder: statistics, output, and decoding from a source that
  // delivers its bytes in pieces of any lengths. Unless an optimal code is too long for the
  // encoder's procedure, the coefficients arrive.
  method Transmit(s: Scan, mcus: seq<Mcu>, wanted: seq<nat>, cuts: seq<nat>, marker: byte, after: seq<byte>,
                  data: array<Coef>, places: seq<seq<nat>>)
    returns (ok: bool)
    requires Encodable(s, mcus) && LimitsOk(s, wanted) && IsMarker(marker)
    requires PlacesOk(s, places, data.Length) && |mcus| == |places|
    requires ScanIs(s, wanted, data[..], data[..], places, mcus, 0)
    modifies data
    ensures ok <==> Sendable(s, mcus)
    ensures !ok ==> data[..] == old(data[..])
    ensures ok ==>
              ScanIs(s, wanted, old(data[..]), data[..], places, mcus, |mcus|)
              && FramedScan(s, true, old(data[..]), data[..], places)
  {
    var out, slots;
    ghost var did, tabs;
    ok, out, slots, did, tabs := EncodeOptimized(s, mcus, []);
    if !ok {
      return;
    }
    forall k | 0 <= k < 8
      ensures Usable(s, slots, k)
    {
      if Needed(s, k) {
        BestUsable(s, mcus, k, slots[k].value);
      }
    }
    var pairs;
    ok, pairs := StartInput(s, slots);
    SlotsAgree(s, slots, did, tabs, pairs);
    NeededEquips(s, pairs);
    assert [] + ScanBytes(tabs, s, 0, mcus, 0) == ScanBytes(tabs, s, 0, mcus, 0);
    ok := DecodeScan(s, pairs, wanted, Pieces(out + [0xFF, marker] + after, cuts), data, places, tabs, mcus, marker,
                     after, true);
  }

  // ---- what a scan finds and leaves ----

  // A buffer that no attempt has touched.
  lemma ScanUntried(s: Scan, limits: seq<nat>, data: seq<Coef>, places: seq<seq<nat>>, mcus: seq<Mcu>)
    requires ScanOk(s) && LimitsOk(s, limits) && McusOk(s, mcus) && PlacesOk(s, places, |data|) && |mcus| == |places|
    requires ScanState(s, data, data, places, mcus, 0)
    ensures ScanIs(s, limits, data, data, places, mcus, 0)
  {
    forall i | 0 <= i < |places|
      ensures McuIs(s, limits, data, data, places[i], mcus[i], 0)
    {
      assert McuState(s, data, data, places[i], mcus[i], 0);
      forall j | 0 <= j < |places[i]|
        ensures BlockIs(s, limits, data, data, 64 * places[i][j], j, mcus[i][j], false)
      {
        assert BlockState(s, data, data, 64 * places[i][j], mcus[i][j], false);
        Untried(s, limits[s.membership[j]], data, 64 * places[i][j], mcus[i][j]);
      }
    }
  }

  predicate NoLimits(s: Scan, limits: seq<nat>) {
    LimitsOk(s, limits) && forall ci :: 0 <= ci < |limits| ==> limits[ci] == s.limSe + 1
  }

  // Without limits the decoded scan is what it should leave, as for the arithmetic coder.
  lemma ScanDecoded(s: Scan, limits: seq<nat>, was: seq<Coef>, data: seq<Coef>, places: seq<seq<nat>>, mcus: seq<Mcu>)
    requires ScanOk(s) && NoLimits(s, limits) && McusOk(s, mcus) && |was| == |data| && PlacesOk(s, places, |data|)
    requires |mcus| == |places|
    requires ScanIs(s, limits, was, data, places, mcus, |mcus|)
    ensures ScanState(s, was, data, places, mcus, |mcus|)
  {
    forall i | 0 <= i < |places|
      ensures McuState(s, was, data, places[i], mcus[i], |places[i]|)
    {
      assert McuIs(s, limits, was, data, places[i], mcus[i], |places[i]|);
      forall j | 0 <= j < |places[i]|
        ensures BlockState(s, was, data, 64 * places[i][j], mcus[i][j], true)
      {
        assert BlockIs(s, limits, was, data, 64 * places[i][j], j, mcus[i][j], true);
        DecodedAfter(s, limits[s.membership[j]], was, data, 64 * places[i][j], mcus[i][j]);
      }
    }
  }
}

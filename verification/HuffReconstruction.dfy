// All scans of a picture through the Huffman coder, with tables optimised for each scan
// and a source that delivers its bytes in pieces.

module HuffReconstruction {
  import opened Prelude
  import opened ByteStream
  import opened Coefficients
  import opened Scans
  import opened ScanScript
  import opened Reconstruction
  import opened HuffBinarisation
  import HuffScan
  import opened HuffStates
  import opened HuffStatistics
  import opened HuffTransmission
  import HuffMcuDecoder
  import HuffmanBound
  import HuffmanDepth

  // ---- coefficients in range ----

  // Coefficients of 8-bit samples.
  predicate SmallBlock(b: Block) {
    HuffScan.SmallDc(b[0]) && forall k :: 0 < k < 64 ==> Abs(b[k]) <= 1023
  }

  // They are accepted in every kind of scan.
  lemma SmallFits(s: Scan, b: Block)
    requires HuffScan.HuffScanOk(s) && SmallBlock(b)
    ensures HuffScan.Fits(s, b)
  {
    ShrinksDc(b[0], s.al);
    forall k | 1 <= k < 64
      ensures NBits(Abs(PointTransform(b[s.order[k]], s.al))) <= MAX_COEF_BITS
      ensures NBits(Abs(PointTransform(b[s.order[k]], 0))) <= MAX_COEF_BITS
    {
      assert s.order[0] != s.order[k];
      TenBits(Abs(PointTransform(b[s.order[k]], s.al)));
      TenBits(Abs(b[s.order[k]]));
    }
  }

  lemma TenBits(a: nat)
    requires a <= 1023
    ensures NBits(a) <= MAX_COEF_BITS
  {
    ShlByte(1);
    ShlFour(1, 6);
    ShlFour(16, 2);
    NBitsBound(a, 10);
  }

  lemma {:induction false} ShrinksDc(x: int, n: nat)
    requires -1024 <= x <= 1023
    ensures -1024 <= Shr(x, n) <= 1023
    decreases n
  {
    if n > 0 {
      ShrinksDc(x / 2, n - 1);
    }
  }

  predicate InRange(mcus: seq<Mcu>) {
    forall i, j :: 0 <= i < |mcus| && 0 <= j < |mcus[i]| ==> SmallBlock(mcus[i][j])
  }

  lemma InRangeAccepted(s: Scan, mcus: seq<Mcu>)
    requires HuffScan.HuffScanOk(s) && McusOk(s, mcus) && InRange(mcus)
    ensures HuffScan.ScanAccepted(s, mcus, 0)
  {
    forall i, j | 0 <= i < |mcus| && 0 <= j < |mcus[i]|
      ensures HuffScan.Fits(s, mcus[i][j])
    {
      SmallFits(s, mcus[i][j]);
    }
    HuffScan.FitAccepted(s, mcus, 0);
  }

  // ---- the picture ----

  // A scan as it is set up on both sides, how many coefficients are wanted of each
  // component, how the source cuts its bytes, and what follows the scan in the stream.
  datatype Sending = Sending(
    s: Scan, wanted: seq<nat>, places: seq<seq<nat>>, mcus: seq<Mcu>, cuts: seq<nat>, marker: byte, after: seq<byte>)

  // What is set up for scan x of the script.
  predicate Prepared(pic: Picture, progressive: bool, x: ScanInfo, t: Sending)
    requires PictureOk(pic)
  {
    && HuffScan.HuffScanOk(t.s) && Reconstruction.Fits(pic, progressive, x, t.s) && Covers(pic, x, t.s, t.places)
    && Codes(pic, t.places, t.mcus) && McusOk(t.s, t.mcus) && t.mcus != []
    && EveryComponent(t.s) && SmallTotals(t.s, t.mcus) && NoLimits(t.s, t.wanted) && IsMarker(t.marker)
  }

  predicate Suits(pic: Picture, raw: Script, ts: seq<Sending>)
    requires raw != []
  {
    var ys := Reduced(raw, pic.lim);
    PictureOk(pic) && |ts| == |ys| && forall i :: 0 <= i < |ts| ==> Prepared(pic, IsProgressive(raw), ys[i], ts[i])
  }

  // A coefficient of the scan is out of range, or its counts make a code too long for the
  // encoder's procedure.
  predicate Refused(t: Sending) {
    !Sendable(t.s, t.mcus)
  }

  // Pictures of ordinary range and size are never refused.
  lemma OrdinarySent(t: Sending)
    requires HuffScan.HuffScanOk(t.s) && McusOk(t.s, t.mcus) && InRange(t.mcus)
    requires forall k :: 0 <= k < 8 ==>
               HuffmanBound.Total(CountRow(t.s, t.mcus, k)) < HuffmanDepth.LONG_TOTAL
    ensures !Refused(t)
  {
    InRangeAccepted(t.s, t.mcus);
    SmallNeverGivesUp(t.s, t.mcus);
  }

  // One scan through the encoder and the decoder.
  method TransmitNext(t: Sending, data: array<Coef>, ghost n: nat, ghost raw: Script, ghost pic: Picture, ghost i: nat)
    returns (ok: bool)
    requires ScriptOk(n, raw) && PictureOk(pic) && i < |Reduced(raw, pic.lim)| && data.Length == 64 * |pic.comp|
    requires Prepared(pic, IsProgressive(raw), Reduced(raw, pic.lim)[i], t)
    requires Known(pic, Reduced(raw, pic.lim)[..i], data[..])
    modifies data
    ensures ok <==> !Refused(t)
    ensures ok ==> Known(pic, Reduced(raw, pic.lim)[..i + 1], data[..])
  {
    ghost var was, ys, progressive := data[..], Reduced(raw, pic.lim), IsProgressive(raw);
    AcceptedStep(n, raw, pic.lim, i);
    ScanFinds(n, progressive, pic, ys[..i], ys[i], t.s, t.places, t.mcus, was);
    ScanUntried(t.s, t.wanted, was, t.places, t.mcus);
    ok := Transmit(t.s, t.mcus, t.wanted, t.cuts, t.marker, t.after, data, t.places);
    if ok {
      ScanDecoded(t.s, t.wanted, was, data[..], t.places, t.mcus);
      FramedIsWritten(t.s, was, data[..], t.places);
      ScanTeaches(n, progressive, pic, ys[..i], ys[i], t.s, t.places, t.mcus, was, data[..]);
      assert ys[..i + 1] == ys[..i] + [ys[i]];
    }
  }

  lemma FramedIsWritten(s: Scan, was: seq<Coef>, data: seq<Coef>, places: seq<seq<nat>>)
    requires ScanOk(s) && FramedScan(s, true, was, data, places)
    ensures OnlyScanWritten(s, was, data, places)
  {
    forall k: nat | ScanTouches(s, true, places, k)
      ensures ScanWrites(s, places, k)
    {
      var i, j :| 0 <= i < |places| && 0 <= j < |places[i]|
      && HuffMcuDecoder.Touches(s, true, 64 * places[i][j], s.ss, s.se, k);
      assert Written(s, 64 * places[i][j], k);
    }
  }

  // A picture through any script, with tables optimised for every scan and a source that
  // delivers its bytes in pieces: what validate_script accepts is sent without error or
  // warning, and restores every coefficient to the last precision it is sent at. Only
  // coefficients out of range and counts for which an optimal code is too long are refused.
  method TransmitScript(n: nat, raw: Script, blockSize: nat, baseline: bool, ts: seq<Sending>, data: array<Coef>,
                        ghost pic: Picture)
    returns (r: Outcome)
    requires 1 <= blockSize <= 16 && (baseline ==> blockSize == 8)
    requires PictureOk(pic) && pic.lim == LimSe(blockSize) && data.Length == 64 * |pic.comp| && AllZero(data[..])
    requires ScriptOk(n, raw) ==> Suits(pic, raw, ts)
    modifies data
    ensures r == if !ScriptOk(n, raw) then BadScript
                 else if exists i :: 0 <= i < |ts| && Refused(ts[i]) then BadData
                 else Done(false)
    ensures r.Done? ==> Restored(pic, raw, data[..])
  {
    var progressive, coded := AdoptScript(n, raw, blockSize);
    if progressive == None {
      return BadScript;
    }
    r := TransmitScans(n, raw, progressive.value, coded, blockSize, baseline, ts, data, pic);
    if r.Done? {
      KnownRestored(pic, raw, data[..]);
    }
  }

  // Closed.
  ghost predicate Suited(pic: Picture, raw: Script, ts: seq<Sending>) {
    forall k :: Focus(3, k) ==> raw != [] && Suits(pic, raw, ts)
  }

  lemma SuitedAt(pic: Picture, raw: Script, ts: seq<Sending>, i: nat)
    requires Suited(pic, raw, ts) && raw != [] && PictureOk(pic) && i < |ts| == |Reduced(raw, pic.lim)|
    ensures Prepared(pic, IsProgressive(raw), Reduced(raw, pic.lim)[i], ts[i])
  {
    assert Focus(3, 0);
  }

  method TransmitAt(ts: seq<Sending>, i: nat, data: array<Coef>, ghost n: nat, ghost raw: Script, ghost pic: Picture)
    returns (ok: bool)
    requires ScriptOk(n, raw) && PictureOk(pic) && i < |Reduced(raw, pic.lim)| == |ts|
    requires data.Length == 64 * |pic.comp| && Suited(pic, raw, ts) && Known(pic, Reduced(raw, pic.lim)[..i], data[..])
    modifies data
    ensures ok <==> !Refused(ts[i])
    ensures ok ==> Known(pic, Reduced(raw, pic.lim)[..i + 1], data[..])
  {
    SuitedAt(pic, raw, ts, i);
    ok := TransmitNext(ts[i], data, n, raw, pic, i);
  }

  method TransmitScans(n: nat, raw: Script, progressive: bool, coded: Script, blockSize: nat, baseline: bool,
                       ts: seq<Sending>,
                       data: array<Coef>, ghost pic: Picture)
    returns (r: Outcome)
    requires 1 <= blockSize <= 16 && (baseline ==> blockSize == 8) && ScriptOk(n, raw)
             && progressive == IsProgressive(raw)
    requires PictureOk(pic) && pic.lim == LimSe(blockSize) && data.Length == 64 * |pic.comp|
    requires Known(pic, coded[..0], data[..])
    requires coded == Reduced(raw, pic.lim) && |ts| == |coded| && Suited(pic, raw, ts)
    modifies data
    ensures r == if exists i :: 0 <= i < |ts| && Refused(ts[i]) then BadData else Done(false)
    ensures r.Done? ==> Known(pic, coded, data[..])
  {
    var bits := new int[n, 64]((_, _) => -1);
    var warned := false;
    var i := 0;
    while i < |coded|
      invariant i <= |coded| && !warned && Known(pic, coded[..i], data[..])
      invariant progressive ==> Records(bits, n, coded[..i])
      invariant forall k :: 0 <= k < i ==> !Refused(ts[k])
    {
      var ok, w := StartScan(n, raw, progressive, coded[i], blockSize, baseline, bits, i);
      if !ok {
        return BadProgression;
      }
      warned := warned || w;
      ok := TransmitAt(ts, i, data, n, raw, pic);
      if !ok {
        return BadData;
      }
      i := i + 1;
    }
    assert coded[..i] == coded;
    r := Done(warned);
  }
}

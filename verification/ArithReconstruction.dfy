// All scans of a picture through the arithmetic coder.

module ArithReconstruction {
  import opened Prelude
  import opened ByteStream
  import opened ArithTable
  import opened Coefficients
  import opened Scans
  import opened ArithCoder
  import opened ArithScan
  import opened ArithScanEncoder
  import opened ArithScanDecoder
  import opened ScanScript
  import opened Reconstruction

  // What arrives at the decoder for scan i of the script: the coded MCUs and a marker.
  datatype Transmission = Transmission(s: Scan, places: seq<seq<nat>>, mcus: seq<Mcu>, marker: byte, after: seq<byte>)

  predicate Sends(n: nat, progressive: bool, pic: Picture, xs: Script, x: ScanInfo, t: Transmission)
    requires PictureOk(pic)
  {
    && StepOk(n, progressive, xs, x) && Fits(pic, progressive, x, t.s) && Covers(pic, x, t.s, t.places)
    && Codes(pic, t.places, t.mcus) && McusOk(t.s, t.mcus) && ScanCodable(t.s, t.mcus, 0) && IsMarker(t.marker)
  }

  function SentBytes(t: Transmission): seq<byte>
    requires ScanOk(t.s) && McusOk(t.s, t.mcus)
  {
    ScanBytes(JpegAritab(), t.s, StartBins(), 0, t.mcus, 0) + [0xFF, t.marker] + t.after
  }

  // The script is valid step by step, and scan i is transmission i.
  predicate Transmits(n: nat, progressive: bool, pic: Picture, xs: Script, ts: seq<Transmission>) {
    PictureOk(pic) && |xs| == |ts| && forall i :: 0 <= i < |ts| ==> Sends(n, progressive, pic, xs[..i], xs[i], ts[i])
  }

  predicate Delivered(sources: seq<seq<byte>>, ts: seq<Transmission>) {
    |sources| == |ts| && forall i :: 0 <= i < |ts| ==>
      ScanOk(ts[i].s) && McusOk(ts[i].s, ts[i].mcus) && sources[i] == SentBytes(ts[i])
  }

  predicate Settings(scans: seq<Scan>, places: seq<seq<seq<nat>>>, ts: seq<Transmission>) {
    |scans| == |places| == |ts| && forall i :: 0 <= i < |ts| ==> ts[i].s == scans[i] && ts[i].places == places[i]
  }

  // One of the scans.
  method DecodeNext(source: seq<byte>, s: Scan, places: seq<seq<nat>>, data: array<Coef>, ghost on: bool,
                    ghost n: nat, ghost progressive: bool, ghost pic: Picture, ghost xs: Script, ghost i: nat,
                    ghost t: Transmission)
    returns (ok: bool)
    requires PictureOk(pic) && data.Length == 64 * |pic.comp| && i < |xs|
    requires Sends(n, progressive, pic, xs[..i], xs[i], t)
    requires t.s == s && t.places == places
    requires on ==> Known(pic, xs[..i], data[..]) && source == SentBytes(t)
    modifies data
    ensures on ==> ok && Known(pic, xs[..i + 1], data[..])
  {
    ok := DecodeOne(source, s, places, data, on, n, progressive, pic, xs[..i], xs[i], t);
    assert xs[..i + 1] == xs[..i] + [xs[i]];
  }

  method DecodeOne(source: seq<byte>, s: Scan, places: seq<seq<nat>>, data: array<Coef>, ghost on: bool,
                   ghost n: nat, ghost progressive: bool, ghost pic: Picture, ghost xs: Script, ghost x: ScanInfo,
                   ghost t: Transmission)
    returns (ok: bool)
    requires PictureOk(pic) && data.Length == 64 * |pic.comp| && Sends(n, progressive, pic, xs, x, t) && t.s == s
    requires t.places == places
    requires on ==> Known(pic, xs, data[..]) && source == SentBytes(t)
    modifies data
    ensures on ==> ok && Known(pic, xs + [x], data[..])
  {
    ghost var was := data[..];
    if on {
      ScanFinds(n, progressive, pic, xs, x, s, places, t.mcus, was);
    }
    ok := DecodeScan(s, source, data, places, t.mcus, t.marker, t.after);
    if on {
      ScanTeaches(n, progressive, pic, xs, x, s, places, t.mcus, was, data[..]);
    }
  }

  // All scans of a picture, one after the other into the same buffer. If the script is
  // valid step by step and the sources hold what the encoder makes of the picture,
  // every coefficient becomes known to the last precision it was sent at.
  method DecodePicture(sources: seq<seq<byte>>, scans: seq<Scan>, places: seq<seq<seq<nat>>>, data: array<Coef>,
                       ghost n: nat, ghost progressive: bool, ghost pic: Picture, ghost xs: Script,
                       ghost ts: seq<Transmission>)
    returns (ok: bool)
    requires |sources| == |scans| && PictureOk(pic) && data.Length == 64 * |pic.comp|
    requires Settings(scans, places, ts) && Transmits(n, progressive, pic, xs, ts)
    modifies data
    ensures AllZero(old(data[..])) && Delivered(sources, ts) ==> ok && Known(pic, xs, data[..])
  {
    ghost var on := AllZero(data[..]) && Delivered(sources, ts);
    assert on ==> Known(pic, xs[..0], data[..]);
    ok := DecodeAll(sources, scans, places, data, on, n, progressive, pic, xs, ts);
  }

  method DecodeAll(sources: seq<seq<byte>>, scans: seq<Scan>, places: seq<seq<seq<nat>>>, data: array<Coef>,
                   ghost on: bool,
                   ghost n: nat, ghost progressive: bool, ghost pic: Picture, ghost xs: Script,
                   ghost ts: seq<Transmission>)
    returns (ok: bool)
    requires PictureOk(pic) && data.Length == 64 * |pic.comp| && |sources| == |scans| == |places| == |xs| == |ts|
    requires Agreed(n, progressive, pic, xs, ts, scans, places, if on then Some(sources) else None)
    requires on ==> Known(pic, xs[..0], data[..])
    modifies data
    ensures on ==> ok && Known(pic, xs, data[..])
  {
    var i := 0;
    while i < |scans|
      invariant i <= |scans| && (on ==> Known(pic, xs[..i], data[..]))
    {
      Settled(n, progressive, pic, xs, ts, scans, places, if on then Some(sources) else None, i);
      ok := DecodeNext(sources[i], scans[i], places[i], data, on, n, progressive, pic, xs, i, ts[i]);
      if !ok {
        return;
      }
      i := i + 1;
    }
    assert xs[..i] == xs;
    ok := true;
  }

  // Closed.
  ghost predicate Agreed(n: nat, progressive: bool, pic: Picture, xs: Script, ts: seq<Transmission>,
                         scans: seq<Scan>, places: seq<seq<seq<nat>>>, sources: Option<seq<seq<byte>>>)
  {
    forall k :: Focus(3, k) ==>
      Settings(scans, places, ts) && Transmits(n, progressive, pic, xs, ts)
      && (sources.Some? ==> Delivered(sources.value, ts))
  }

  lemma Settled(n: nat, progressive: bool, pic: Picture, xs: Script, ts: seq<Transmission>,
                scans: seq<Scan>, places: seq<seq<seq<nat>>>, sources: Option<seq<seq<byte>>>, i: nat)
    requires Agreed(n, progressive, pic, xs, ts, scans, places, sources) && i < |ts| == |xs| == |scans| == |places|
    requires sources.Some? ==> |sources.value| == |ts|
    ensures PictureOk(pic) && Sends(n, progressive, pic, xs[..i], xs[i], ts[i])
    ensures ts[i].s == scans[i] && ts[i].places == places[i] && (sources.Some? ==> sources.value[i] == SentBytes(ts[i]))
  {
    assert Focus(3, 0);
  }

  // ---- whole scripts, from encoder to decoder ----

  // DC coefficients of 15 bits and their sign: every difference can be coded. AC
  // coefficients are not limited.
  predicate InRange(mcus: seq<Mcu>) {
    forall i, j :: 0 <= i < |mcus| && 0 <= j < |mcus[i]| ==> -16384 <= mcus[i][j][0] <= 16384
  }

  lemma {:induction false} CentralShifted(x: int, n: nat)
    requires -16384 <= x <= 16384
    ensures -16384 <= Shr(x, n) <= 16384
    decreases n
  {
    if n > 0 {
      CentralShifted(x / 2, n - 1);
    }
  }

  lemma InRangeCodable(s: Scan, mcus: seq<Mcu>)
    requires ScanOk(s) && McusOk(s, mcus) && InRange(mcus)
    ensures ScanCodable(s, mcus, 0)
  {
    forall i, j | 0 <= i < |mcus| && 0 <= j < |mcus[i]|
      ensures CentralDc(s, mcus[i][j])
    {
      CentralShifted(mcus[i][j][0], s.al);
    }
    SmallScanCodable(s, mcus, 0);
  }

  // What is set up for scan x of the script.
  predicate Prepared(pic: Picture, progressive: bool, x: ScanInfo, t: Transmission)
    requires PictureOk(pic)
  {
    && Fits(pic, progressive, x, t.s) && Covers(pic, x, t.s, t.places) && Codes(pic, t.places, t.mcus)
    && McusOk(t.s, t.mcus) && ScanCodable(t.s, t.mcus, 0) && IsMarker(t.marker)
  }

  predicate Suits(pic: Picture, raw: Script, ts: seq<Transmission>)
    requires raw != []
  {
    var ys := Reduced(raw, pic.lim);
    PictureOk(pic) && |ts| == |ys| && forall i :: 0 <= i < |ts| ==> Prepared(pic, IsProgressive(raw), ys[i], ts[i])
  }

  // One scan through the encoder and the decoder.
  method TransmitNext(t: Transmission, data: array<Coef>, ghost n: nat, ghost raw: Script, ghost pic: Picture,
                      ghost i: nat)
    requires ScriptOk(n, raw) && PictureOk(pic) && i < |Reduced(raw, pic.lim)| && data.Length == 64 * |pic.comp|
    requires Prepared(pic, IsProgressive(raw), Reduced(raw, pic.lim)[i], t)
    requires Known(pic, Reduced(raw, pic.lim)[..i], data[..])
    modifies data
    ensures Known(pic, Reduced(raw, pic.lim)[..i + 1], data[..])
  {
    PreparedSends(n, raw, pic, i, t);
    var out := EncodeScan(t.s, t.mcus, []);
    assert out == ScanBytes(JpegAritab(), t.s, StartBins(), 0, t.mcus, 0);
    var ok := DecodeNext(out + [0xFF, t.marker] + t.after, t.s, t.places, data, true, n, IsProgressive(raw), pic,
                         Reduced(raw, pic.lim), i, t);
  }

  lemma PreparedSends(n: nat, raw: Script, pic: Picture, i: nat, t: Transmission)
    requires ScriptOk(n, raw) && PictureOk(pic) && i < |Reduced(raw, pic.lim)|
    requires Prepared(pic, IsProgressive(raw), Reduced(raw, pic.lim)[i], t)
    ensures var ys := Reduced(raw, pic.lim); Sends(n, IsProgressive(raw), pic, ys[..i], ys[i], t)
  {
    AcceptedStep(n, raw, pic.lim, i);
  }

  // A picture through any script: what validate_script accepts is sent without error or
  // warning, and restores every coefficient to the last precision it is sent at. The decoder
  // needs DC differences within 2^15 (InRangeCodable says which coefficients ensure that).
  method TransmitScript(n: nat, raw: Script, blockSize: nat, baseline: bool, ts: seq<Transmission>, data: array<Coef>,
                        ghost pic: Picture)
    returns (r: Outcome)
    requires 1 <= blockSize <= 16 && (baseline ==> blockSize == 8)
    requires PictureOk(pic) && pic.lim == LimSe(blockSize) && data.Length == 64 * |pic.comp| && AllZero(data[..])
    requires ScriptOk(n, raw) ==> Suits(pic, raw, ts)
    modifies data
    ensures r == if ScriptOk(n, raw) then Done(false) else BadScript
    ensures r.Done? ==> Restored(pic, raw, data[..])
  {
    var progressive, coded := AdoptScript(n, raw, blockSize);
    if progressive == None {
      return BadScript;
    }
    r := TransmitScans(n, raw, progressive.value, coded, blockSize, baseline, ts, data, pic);
    KnownRestored(pic, raw, data[..]);
  }

  // Closed.
  ghost predicate Suited(pic: Picture, raw: Script, ts: seq<Transmission>) {
    forall k :: Focus(3, k) ==> raw != [] && Suits(pic, raw, ts)
  }

  method TransmitAt(ts: seq<Transmission>, i: nat, data: array<Coef>, ghost n: nat, ghost raw: Script,
                    ghost pic: Picture)
    requires ScriptOk(n, raw) && PictureOk(pic) && i < |Reduced(raw, pic.lim)| == |ts|
    requires data.Length == 64 * |pic.comp| && Suited(pic, raw, ts) && Known(pic, Reduced(raw, pic.lim)[..i], data[..])
    modifies data
    ensures Known(pic, Reduced(raw, pic.lim)[..i + 1], data[..])
  {
    assert Focus(3, 0);
    TransmitNext(ts[i], data, n, raw, pic, i);
  }

  method TransmitScans(n: nat, raw: Script, progressive: bool, coded: Script, blockSize: nat, baseline: bool,
                       ts: seq<Transmission>, data: array<Coef>, ghost pic: Picture)
    returns (r: Outcome)
    requires 1 <= blockSize <= 16 && (baseline ==> blockSize == 8) && ScriptOk(n, raw)
             && progressive == IsProgressive(raw)
    requires PictureOk(pic) && pic.lim == LimSe(blockSize) && data.Length == 64 * |pic.comp|
    requires Known(pic, coded[..0], data[..])
    requires coded == Reduced(raw, pic.lim) && |ts| == |coded| && Suited(pic, raw, ts)
    modifies data
    ensures r == Done(false) && Known(pic, coded, data[..])
  {
    var bits := new int[n, 64]((_, _) => -1);
    var warned := false;
    var i := 0;
    while i < |coded|
      invariant i <= |coded| && !warned && Known(pic, coded[..i], data[..])
      invariant progressive ==> Records(bits, n, coded[..i])
    {
      var ok, w := StartScan(n, raw, progressive, coded[i], blockSize, baseline, bits, i);
      if !ok {
        return BadProgression;
      }
      warned := warned || w;
      TransmitAt(ts, i, data, n, raw, pic);
      i := i + 1;
    }
    assert coded[..i] == coded;
    r := Done(warned);
  }
}

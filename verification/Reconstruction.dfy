// Many scans: a script tells which bits of which coefficients each scan sends. The
// decoder ends up with every coefficient at the last precision it was sent at.

module Reconstruction {
  import opened Coefficients
  import opened Scans
  import opened ScanScript
  import opened SimpleProgression

  // The blocks of a picture: the component of each, and whether it is a real one or a
  // dummy at the edge, which only interleaved scans contain. All scans use the same
  // order and last index.
  datatype Picture = Picture(comp: seq<nat>, genuine: seq<bool>, blocks: seq<Block>, order: seq<nat>, lim: nat)

  predicate PictureOk(pic: Picture) {
    && |pic.comp| == |pic.genuine| == |pic.blocks| && |pic.order| == 64 && pic.lim < 64 && pic.order[0] == 0
    && (forall k :: 0 <= k < 64 ==> pic.order[k] < 64)
    && (forall i, j :: 0 <= i < j < 64 ==> pic.order[i] != pic.order[j])
  }

  // Coefficient x at index k, known to precision al.
  function At(x: Coef, k: nat, al: nat): (r: Coef)
    ensures al == 0 ==> r == x
  {
    if k == 0 && al <= 13 then DcFloor(x, al) else Trunc(x, al)
  }

  // What is known of a coefficient after the scans xs.
  ghost predicate CoefKnown(xs: Script, c: nat, k: nat, genuine: bool, value: Coef, x: Coef) {
    var al := Precision(xs, c, k);
    (al < 0 ==> value == 0) && (genuine && al >= 0 ==> value == At(x, k, al))
  }

  ghost predicate BlockKnown(pic: Picture, xs: Script, data: seq<Coef>, w: nat)
    requires PictureOk(pic) && |data| == 64 * |pic.comp| && w < |pic.comp|
  {
    forall k :: 0 <= k <= pic.lim ==>
      CoefKnown(xs, pic.comp[w], k, pic.genuine[w], data[64 * w + pic.order[k]], pic.blocks[w][pic.order[k]])
  }

  ghost predicate Known(pic: Picture, xs: Script, data: seq<Coef>)
    requires PictureOk(pic) && |data| == 64 * |pic.comp|
  {
    forall w :: 0 <= w < |pic.comp| ==> BlockKnown(pic, xs, data, w)
  }

  // The scan parameters that go with an entry of the script.
  predicate Fits(pic: Picture, progressive: bool, x: ScanInfo, s: Scan) {
    && ScanOk(s) && s.order == pic.order && s.limSe == pic.lim && |s.comps| == |x.comps| && s.progressive == progressive
    && (if progressive then s.ss == x.ss && s.se == x.se && s.ah == x.ah && s.al == x.al else pic.lim <= x.se)
  }

  // The places of the scan's blocks: all real blocks of its components; in a scan of a
  // single component nothing else.
  predicate Covers(pic: Picture, x: ScanInfo, s: Scan, places: seq<seq<nat>>)
    requires PictureOk(pic) && ScanOk(s) && |s.comps| == |x.comps|
  {
    && PlacesOk(s, places, 64 * |pic.comp|)
    && (forall i, j :: 0 <= i < |places| && 0 <= j < |places[i]| ==>
          && places[i][j] < |pic.comp| && pic.comp[places[i][j]] == x.comps[s.membership[j]]
          && (|x.comps| == 1 ==> pic.genuine[places[i][j]]))
    && (forall w :: 0 <= w < |pic.comp| && pic.genuine[w] && pic.comp[w] in x.comps ==> Visits(places, w))
  }

  predicate Visits(places: seq<seq<nat>>, w: nat) {
    exists i, j :: 0 <= i < |places| && 0 <= j < |places[i]| && places[i][j] == w
  }

  // The MCUs that the encoder codes: real blocks come from the picture.
  predicate Codes(pic: Picture, places: seq<seq<nat>>, mcus: seq<Mcu>)
    requires PictureOk(pic)
  {
    && |mcus| == |places|
    && forall i, j :: 0 <= i < |places| && 0 <= j < |places[i]| ==>
         && |mcus[i]| == |places[i]| && places[i][j] < |pic.comp|
         && (pic.genuine[places[i][j]] ==> mcus[i][j] == pic.blocks[places[i][j]])
  }

  predicate StepOk(n: nat, progressive: bool, xs: Script, x: ScanInfo) {
    && CompsOk(n, x)
    && if progressive then ShapeOk(x) && MayFollow(xs, x)
       else x.ss == x.ah == x.al == 0 <= x.se && forall j :: 0 <= j < |x.comps| ==> !Sent(xs, x.comps[j])
  }

  // Every scan of an accepted script is a valid step, fitted to the block size or not.
  lemma AcceptedStep(n: nat, raw: Script, lim: nat, i: nat)
    requires ScriptOk(n, raw) && i < |Reduced(raw, lim)|
    ensures var ys := Reduced(raw, lim); StepOk(n, IsProgressive(raw), ys[..i], ys[i])
  {
    if IsProgressive(raw) {
      ReducedOk(n, raw, lim);
    } else {
      ReducedSequential(n, raw, lim);
      forall c | Sent(Reduced(raw, lim)[..i], c)
        ensures Sent(raw[..i], c)
      {
        var k :| 0 <= k < i && c in Reduced(raw, lim)[..i][k].comps;
        assert raw[..i][k] == raw[k];
      }
    }
  }

  lemma {:induction false} NotSent(xs: Script, c: int, k: int)
    requires !Sent(xs, c)
    ensures Precision(xs, c, k) == -1
  {
    if xs != [] {
      var ys := xs[..|xs| - 1];
      assert forall i :: 0 <= i < |ys| ==> ys[i] == xs[i];
      NotSent(ys, c, k);
    }
  }

  // A valid step finds each block in the state that its MCU routine expects.
  lemma StepFinds(n: nat, progressive: bool, pic: Picture, xs: Script, x: ScanInfo, s: Scan, data: seq<Coef>, w: nat,
                  b: Block)
    requires PictureOk(pic) && |data| == 64 * |pic.comp| && w < |pic.comp| && BlockKnown(pic, xs, data, w)
    requires StepOk(n, progressive, xs, x) && Fits(pic, progressive, x, s)
    requires pic.comp[w] in x.comps && (|x.comps| == 1 ==> pic.genuine[w]) && (pic.genuine[w] ==> b == pic.blocks[w])
    ensures BlockBefore(s, data, 64 * w, b)
  {
    var c := pic.comp[w];
    forall k | s.ss <= k <= s.se
      ensures s.ah == 0 ==> data[64 * w + s.order[k]] == 0
      ensures s.ah != 0 && k > 0 ==> data[64 * w + s.order[k]] == Trunc(pic.blocks[w][s.order[k]], s.al + 1)
    {
      StepPrecision(n, progressive, xs, x, c, k);
      assert CoefKnown(xs, c, k, pic.genuine[w], data[64 * w + s.order[k]], pic.blocks[w][s.order[k]]);
    }
  }

  lemma StepPrecision(n: nat, progressive: bool, xs: Script, x: ScanInfo, c: int, k: int)
    requires StepOk(n, progressive, xs, x) && c in x.comps && x.ss <= k <= x.se
    ensures if x.ah == 0 then Precision(xs, c, k) < 0 else Precision(xs, c, k) == x.ah == x.al + 1
    ensures 0 <= x.al <= 10
  {
    var i :| 0 <= i < |x.comps| && x.comps[i] == c;
    if progressive {
      assert CompFollows(xs, x, c);
      assert CoefFollows(xs, x, c, k);
    } else {
      NotSent(xs, c, k);
    }
  }

  lemma PrecisionAfter(xs: Script, x: ScanInfo, c: int, k: int)
    ensures Precision(xs + [x], c, k) == if Carries(x, c, k) then x.al else Precision(xs, c, k)
  {
    assert (xs + [x])[..|xs|] == xs;
  }

  lemma TaughtAt(s: Scan, was: seq<Coef>, data: seq<Coef>, off: nat, b: Block, k: nat)
    requires ScanOk(s) && off + 64 <= |was| == |data| && BlockAfter(s, was, data, off, b) && s.ss <= k <= s.se
    requires KindOf(s) == DcRefine ==> s.al <= 10 && was[off] == At(b[0], 0, s.al + 1)
    ensures data[off + s.order[k]] == At(b[s.order[k]], k, s.al)
  {
  }

  // What decoding a block of the scan makes of it: first one coefficient.
  lemma CoefTaught(n: nat, progressive: bool, pic: Picture, xs: Script, x: ScanInfo, s: Scan, was: seq<Coef>,
                   data: seq<Coef>, w: nat, b: Block, k: nat)
    requires PictureOk(pic) && |was| == |data| == 64 * |pic.comp| && w < |pic.comp| && k <= pic.lim
    requires CoefKnown(xs, pic.comp[w], k, pic.genuine[w], was[64 * w + pic.order[k]], pic.blocks[w][pic.order[k]])
    requires StepOk(n, progressive, xs, x) && Fits(pic, progressive, x, s)
    requires pic.comp[w] in x.comps && (pic.genuine[w] ==> b == pic.blocks[w])
    requires BlockAfter(s, was, data, 64 * w, b)
    requires !Written(s, 64 * w, 64 * w + pic.order[k]) ==> data[64 * w + pic.order[k]] == was[64 * w + pic.order[k]]
    ensures CoefKnown(xs + [x], pic.comp[w], k, pic.genuine[w], data[64 * w + pic.order[k]],
                      pic.blocks[w][pic.order[k]])
  {
    PrecisionAfter(xs, x, pic.comp[w], k);
    if s.ss <= k <= s.se {
      StepPrecision(n, progressive, xs, x, pic.comp[w], k);
      if pic.genuine[w] {
        TaughtAt(s, was, data, 64 * w, b, k);
      }
    } else {
      assert !Written(s, 64 * w, 64 * w + pic.order[k]);
    }
  }

  lemma StepTeaches(n: nat, progressive: bool, pic: Picture, xs: Script, x: ScanInfo, s: Scan, was: seq<Coef>,
                    data: seq<Coef>, w: nat, b: Block)
    requires PictureOk(pic) && |was| == |data| == 64 * |pic.comp| && w < |pic.comp| && BlockKnown(pic, xs, was, w)
    requires StepOk(n, progressive, xs, x) && Fits(pic, progressive, x, s)
    requires pic.comp[w] in x.comps && (pic.genuine[w] ==> b == pic.blocks[w])
    requires BlockAfter(s, was, data, 64 * w, b)
    requires forall i :: 64 * w <= i < 64 * w + 64 && !Written(s, 64 * w, i) ==> data[i] == was[i]
    ensures BlockKnown(pic, xs + [x], data, w)
  {
    forall k | 0 <= k <= pic.lim
      ensures CoefKnown(xs + [x], pic.comp[w], k, pic.genuine[w], data[64 * w + pic.order[k]],
                        pic.blocks[w][pic.order[k]])
    {
      CoefTaught(n, progressive, pic, xs, x, s, was, data, w, b, k);
    }
  }

  // Other blocks stay as they are.
  lemma StepSpares(pic: Picture, xs: Script, x: ScanInfo, was: seq<Coef>, data: seq<Coef>, w: nat)
    requires PictureOk(pic) && |was| == |data| == 64 * |pic.comp| && w < |pic.comp| && BlockKnown(pic, xs, was, w)
    requires x.al >= 0 && (pic.genuine[w] ==> pic.comp[w] !in x.comps)
    requires SameBlock(was, data, 64 * w)
    ensures BlockKnown(pic, xs + [x], data, w)
  {
    var c := pic.comp[w];
    forall k | 0 <= k <= pic.lim
      ensures CoefKnown(xs + [x], c, k, pic.genuine[w], data[64 * w + pic.order[k]], pic.blocks[w][pic.order[k]])
    {
      assert CoefKnown(xs, c, k, pic.genuine[w], was[64 * w + pic.order[k]], pic.blocks[w][pic.order[k]]);
      PrecisionAfter(xs, x, c, k);
    }
  }

  // ---- whole scans ----

  lemma ScanFinds(n: nat, progressive: bool, pic: Picture, xs: Script, x: ScanInfo, s: Scan, places: seq<seq<nat>>,
                  mcus: seq<Mcu>, data: seq<Coef>)
    requires PictureOk(pic) && |data| == 64 * |pic.comp| && Known(pic, xs, data)
    requires StepOk(n, progressive, xs, x) && Fits(pic, progressive, x, s)
    requires Covers(pic, x, s, places) && Codes(pic, places, mcus) && McusOk(s, mcus)
    ensures ScanState(s, data, data, places, mcus, 0)
  {
    forall i, j | 0 <= i < |places| && 0 <= j < |places[i]|
      ensures BlockState(s, data, data, 64 * places[i][j], mcus[i][j], false)
    {
      var w := places[i][j];
      assert BlockKnown(pic, xs, data, w);
      assert pic.comp[w] == x.comps[s.membership[j]];
      assert |mcus[i]| == |places[i]|;
      StepFinds(n, progressive, pic, xs, x, s, data, w, mcus[i][j]);
    }
  }

  // A scan changes the blocks that it visits, and only in its band.
  lemma ScanConfined(s: Scan, was: seq<Coef>, data: seq<Coef>, places: seq<seq<nat>>, w: nat, i: nat)
    requires ScanOk(s) && OnlyScanWritten(s, was, data, places)
    requires 64 * w <= i < 64 * w + 64 <= |data|
    requires Visits(places, w) ==> !Written(s, 64 * w, i)
    ensures data[i] == was[i]
  {
    forall k, j | 0 <= k < |places| && 0 <= j < |places[k]|
      ensures !Written(s, 64 * places[k][j], i)
    {
    }
  }

  lemma ScanTeaches(n: nat, progressive: bool, pic: Picture, xs: Script, x: ScanInfo, s: Scan, places: seq<seq<nat>>,
                    mcus: seq<Mcu>, was: seq<Coef>, data: seq<Coef>)
    requires PictureOk(pic) && |was| == |data| == 64 * |pic.comp| && Known(pic, xs, was)
    requires StepOk(n, progressive, xs, x) && Fits(pic, progressive, x, s)
    requires Covers(pic, x, s, places) && Codes(pic, places, mcus) && McusOk(s, mcus)
    requires ScanState(s, was, data, places, mcus, |mcus|) && OnlyScanWritten(s, was, data, places)
    ensures Known(pic, xs + [x], data)
  {
    forall w | 0 <= w < |pic.comp|
      ensures BlockKnown(pic, xs + [x], data, w)
    {
      assert BlockKnown(pic, xs, was, w);
      forall i | 64 * w <= i < 64 * w + 64
        ensures (Visits(places, w) && Written(s, 64 * w, i)) || data[i] == was[i]
      {
        if !(Visits(places, w) && Written(s, 64 * w, i)) {
          ScanConfined(s, was, data, places, w, i);
        }
      }
      if Visits(places, w) {
        var i, j :| 0 <= i < |places| && 0 <= j < |places[i]| && places[i][j] == w;
        assert McuState(s, was, data, places[i], mcus[i], |places[i]|);
        assert BlockState(s, was, data, 64 * places[i][j], mcus[i][j], true);
        assert pic.comp[w] == x.comps[s.membership[j]];
        StepTeaches(n, progressive, pic, xs, x, s, was, data, w, mcus[i][j]);
      } else {
        assert |x.comps| > 0 && x.al >= 0;
        StepSpares(pic, xs, x, was, data, w);
      }
    }
  }

  predicate AllZero(data: seq<Coef>) {
    forall k :: 0 <= k < |data| ==> data[k] == 0
  }

  // ---- whole scripts ----

  // Every real coefficient is known to the last precision at which the script sends it,
  // and zero if it is not sent.
  ghost predicate Restored(pic: Picture, raw: Script, data: seq<Coef>)
    requires PictureOk(pic) && |data| == 64 * |pic.comp|
  {
    forall w, k :: 0 <= w < |pic.comp| && pic.genuine[w] && 0 <= k <= pic.lim ==> CoefRestored(pic, raw, data, w, k)
  }

  predicate CoefRestored(pic: Picture, raw: Script, data: seq<Coef>, w: nat, k: nat)
    requires PictureOk(pic) && |data| == 64 * |pic.comp| && w < |pic.comp| && k <= pic.lim
  {
    var al := Precision(raw, pic.comp[w], k);
    data[64 * w + pic.order[k]] == if al < 0 then 0 else At(pic.blocks[w][pic.order[k]], k, al)
  }

  // What is known after the scans that were coded is what the raw script promises.
  lemma KnownRestored(pic: Picture, raw: Script, data: seq<Coef>)
    requires PictureOk(pic) && |data| == 64 * |pic.comp| && Known(pic, Reduced(raw, pic.lim), data)
    ensures Restored(pic, raw, data)
  {
    forall w, k | 0 <= w < |pic.comp| && pic.genuine[w] && 0 <= k <= pic.lim
      ensures CoefRestored(pic, raw, data, w, k)
    {
      assert BlockKnown(pic, Reduced(raw, pic.lim), data, w);
      ReducedPrecision(raw, pic.lim, pic.comp[w], k);
    }
  }

  // The real blocks are those of the picture.
  ghost predicate Exact(pic: Picture, data: seq<Coef>)
    requires PictureOk(pic) && |data| == 64 * |pic.comp|
  {
    forall w, k :: 0 <= w < |pic.comp| && pic.genuine[w] && 0 <= k <= pic.lim ==>
      data[64 * w + pic.order[k]] == pic.blocks[w][pic.order[k]]
  }

  // When every coefficient is last sent at precision 0, the picture is exact.
  lemma FullPrecision(n: nat, pic: Picture, raw: Script, data: seq<Coef>)
    requires PictureOk(pic) && |data| == 64 * |pic.comp| && Restored(pic, raw, data)
    requires forall w :: 0 <= w < |pic.comp| ==> pic.comp[w] < n
    requires forall c, k :: 0 <= c < n && 0 <= k <= pic.lim ==> Precision(raw, c, k) == 0
    ensures Exact(pic, data)
  {
    forall w, k | 0 <= w < |pic.comp| && pic.genuine[w] && 0 <= k <= pic.lim
      ensures data[64 * w + pic.order[k]] == pic.blocks[w][pic.order[k]]
    {
      assert CoefRestored(pic, raw, data, w, k);
    }
  }

  // The scripts of jpeg_simple_progression are accepted and restore the picture exactly.
  lemma SimpleExact(n: nat, ycc: bool, pic: Picture, raw: Script, data: seq<Coef>)
    requires PictureOk(pic) && |data| == 64 * |pic.comp| && Restored(pic, raw, data)
    requires 1 <= n && raw == SimpleScript(n, ycc) && forall w :: 0 <= w < |pic.comp| ==> pic.comp[w] < n
    ensures Exact(pic, data)
  {
    SimpleScriptOk(n, ycc);
    FullPrecision(n, pic, raw, data);
  }

  // ---- what both sides do before a scan ----

  // The outcome of sending a picture: the script or the coefficients are refused; or all
  // scans were sent, and perhaps the decoder warned of a bad progression.
  datatype Outcome = BadScript | BadData | BadProgression | Done(warned: bool)

  // The decoder's checks at the start of scan i find nothing wrong.
  method StartScan(n: nat, raw: Script, progressive: bool, x: ScanInfo, blockSize: nat, baseline: bool,
                   bits: array2<int>, ghost i: nat)
    returns (ok: bool, warned: bool)
    requires 1 <= blockSize <= 16 && (baseline ==> blockSize == 8) && ScriptOk(n, raw)
             && progressive == IsProgressive(raw)
    requires i < |Reduced(raw, LimSe(blockSize))| && x == Reduced(raw, LimSe(blockSize))[i]
    requires progressive ==> Records(bits, n, Reduced(raw, LimSe(blockSize))[..i])
    modifies bits
    ensures ok && !warned && (progressive ==> Records(bits, n, Reduced(raw, LimSe(blockSize))[..i + 1]))
  {
    ghost var xs := Reduced(raw, LimSe(blockSize));
    var y := Selected(progressive, x, blockSize);
    if progressive {
      AcceptedStep(n, raw, LimSe(blockSize), i);
      DecoderContent(n, raw, LimSe(blockSize), i);
      assert xs[..i + 1] == xs[..i] + [x];
      ok, warned := StartProgressiveScan(n, y, LimSe(blockSize), bits, xs[..i]);
    } else {
      ok, warned := true, SequentialWarns(y, LimSe(blockSize), baseline);
    }
  }
}

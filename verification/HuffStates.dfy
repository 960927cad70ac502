// What the buffer holds while the MCUs of a Huffman-coded scan are decoded, with attempts
// that had to be broken off.

module HuffStates {
  import opened Coefficients
  import opened Scans
  import opened HuffMcuDecoder
  import opened HuffRefinement

  // ---- blocks ----

  // A block that attempts may have written already.
  ghost predicate Tried(s: Scan, limit: nat, was: seq<Coef>, data: seq<Coef>, off: nat, b: Block)
    requires ScanOk(s) && off + 64 <= |data| == |was|
  {
    match KindOf(s)
    case Sequential => BandSoFar(s, data, off, 1, 1, s.limSe, limit, Ordered(s, b, 0))
    case DcFirst => true
    case AcFirst => BandSoFar(s, data, off, s.ss, s.ss, s.se, 64, Target(s, b, s.al))
    case DcRefine =>
      s.al < 13 && was[off] == DcFloor(b[0], s.al + 1) ==> data[off] == was[off] || data[off] == DcFloor(b[0], s.al)
    case AcRefine => Refined(s, data, off, s.ss, b)
  }

  // A decoded block. Sequential decoding stores the coefficients below the limit.
  ghost predicate Decoded(s: Scan, limit: nat, was: seq<Coef>, data: seq<Coef>, off: nat, b: Block)
    requires ScanOk(s) && off + 64 <= |data| == |was|
  {
    match KindOf(s)
    case Sequential =>
      (limit > 0 ==> data[off] == b[0]) && BandSoFar(s, data, off, 1, s.limSe + 1, s.limSe, limit, Ordered(s, b, 0))
    case AcFirst => BandSoFar(s, data, off, s.ss, s.se + 1, s.se, 64, Target(s, b, s.al))
    case AcRefine => Refined(s, data, off, s.se + 1, b)
    case _ => BlockAfter(s, was, data, off, b)
  }

  // No attempt yet.
  lemma Untried(s: Scan, limit: nat, data: seq<Coef>, off: nat, b: Block)
    requires ScanOk(s) && off + 64 <= |data| && BlockBefore(s, data, off, b)
    ensures Tried(s, limit, data, data, off, b)
  {
  }

  // Without a limit a decoded block is what the scan should leave.
  lemma DecodedAfter(s: Scan, limit: nat, was: seq<Coef>, data: seq<Coef>, off: nat, b: Block)
    requires ScanOk(s) && off + 64 <= |data| == |was| && limit == s.limSe + 1 && Decoded(s, limit, was, data, off, b)
    ensures BlockAfter(s, was, data, off, b)
  {
    if KindOf(s) == Sequential {
      forall j | 1 <= j <= s.limSe
        ensures data[off + s.order[j]] == Trunc(b[s.order[j]], 0)
      {
        assert Ordered(s, b, 0)[j] == b[s.order[j]];
      }
    }
  }

  // A decoded block of an MCU that is tried again.
  lemma DecodedTried(s: Scan, limit: nat, was: seq<Coef>, data: seq<Coef>, off: nat, b: Block)
    requires ScanOk(s) && off + 64 <= |data| == |was| && KindOf(s) != AcRefine && Decoded(s, limit, was, data, off, b)
    ensures Tried(s, limit, was, data, off, b)
  {
  }

  lemma StateFramed(s: Scan, limit: nat, was: seq<Coef>, data: seq<Coef>, data': seq<Coef>, off: nat, b: Block)
    requires ScanOk(s) && off + 64 <= |data| == |data'| == |was| && SameBlock(data, data', off)
    ensures Decoded(s, limit, was, data, off, b) ==> Decoded(s, limit, was, data', off, b)
    ensures Tried(s, limit, was, data, off, b) ==> Tried(s, limit, was, data', off, b)
  {
  }

  // ---- MCUs ----

  // The number of coefficients that are wanted of each component.
  predicate LimitsOk(s: Scan, limits: seq<nat>) {
    |limits| == |s.comps| && forall ci :: 0 <= ci < |limits| ==> limits[ci] <= s.limSe + 1
  }

  ghost predicate BlockIs(s: Scan, limits: seq<nat>, was: seq<Coef>, data: seq<Coef>, off: nat, j: nat, b: Block,
                          done: bool)
    requires ScanOk(s) && LimitsOk(s, limits) && off + 64 <= |data| == |was| && j < |s.membership|
  {
    if done then Decoded(s, limits[s.membership[j]], was, data, off, b)
        else Tried(s, limits[s.membership[j]], was, data, off, b)
  }

  // The first i blocks of the MCU are decoded.
  ghost predicate McuIs(s: Scan, limits: seq<nat>, was: seq<Coef>, data: seq<Coef>, place: seq<nat>, mcu: Mcu, i: nat)
    requires ScanOk(s) && LimitsOk(s, limits) && McuOk(s, mcu) && |was| == |data| && PlaceOk(s, place, |data|)
  {
    forall j :: 0 <= j < |place| ==> BlockIs(s, limits, was, data, 64 * place[j], j, mcu[j], j < i)
  }

  // Only the blocks of place have changed, and on known data only in the band.
  ghost predicate FramedMcu(s: Scan, known: bool, was: seq<Coef>, data: seq<Coef>, place: seq<nat>)
    requires ScanOk(s)
  {
    |was| == |data| && forall k ::
      0 <= k < |data| && (forall j :: 0 <= j < |place| ==> !Touches(s, known, 64 * place[j], s.ss, s.se, k)) ==>
        data[k] == was[k]
  }

  lemma FramedMcuStep(s: Scan, known: bool, was: seq<Coef>, data: seq<Coef>, data': seq<Coef>, place: seq<nat>, i: nat)
    requires ScanOk(s) && FramedMcu(s, known, was, data, place) && i < |place|
    requires Framed(s, known, 64 * place[i], data, data')
    ensures FramedMcu(s, known, was, data', place)
  {
  }

  lemma TouchesBlock(s: Scan, known: bool, off: nat, k: int)
    requires ScanOk(s) && Touches(s, known, off, s.ss, s.se, k)
    ensures off <= k < off + 64
  {
  }

  lemma OtherBlock(s: Scan, known: bool, data: seq<Coef>, data': seq<Coef>, p: nat, q: nat)
    requires ScanOk(s) && p != q && 64 * q + 64 <= |data| && Framed(s, known, 64 * p, data, data')
    ensures SameBlock(data, data', 64 * q)
  {
    forall k | 64 * q <= k < 64 * q + 64
      ensures data[k] == data'[k]
    {
      if Touches(s, known, 64 * p, s.ss, s.se, k) {
        TouchesBlock(s, known, 64 * p, k);
      }
    }
  }

  // Block i is decoded, or tried once more.
  lemma McuIsStep(s: Scan, limits: seq<nat>, known: bool, was: seq<Coef>, data: seq<Coef>, data': seq<Coef>,
                  place: seq<nat>, mcu: Mcu, i: nat, done: bool)
    requires ScanOk(s) && LimitsOk(s, limits) && McuOk(s, mcu) && |was| == |data| == |data'|
    requires PlaceOk(s, place, |data|) && i < |place|
    requires McuIs(s, limits, was, data, place, mcu, i)
    requires BlockIs(s, limits, was, data', 64 * place[i], i, mcu[i], done)
    requires Framed(s, known, 64 * place[i], data, data')
    ensures McuIs(s, limits, was, data', place, mcu, if done then i + 1 else i)
  {
    forall j | 0 <= j < |place| && j != i
      ensures BlockIs(s, limits, was, data', 64 * place[j], j, mcu[j], j < i)
    {
      assert BlockIs(s, limits, was, data, 64 * place[j], j, mcu[j], j < i);
      assert place[i] != place[j];
      OtherBlock(s, known, data, data', place[i], place[j]);
      StateFramed(s, limits[s.membership[j]], was, data, data', 64 * place[j], mcu[j]);
    }
  }

  // After a broken attempt the MCU can be tried again: an AC refinement has a single
  // block, which is not decoded then.
  lemma McuAgain(s: Scan, limits: seq<nat>, was: seq<Coef>, data: seq<Coef>, place: seq<nat>, mcu: Mcu, i: nat)
    requires ScanOk(s) && LimitsOk(s, limits) && McuOk(s, mcu) && |was| == |data| && PlaceOk(s, place, |data|)
    requires i < |place|
    requires McuIs(s, limits, was, data, place, mcu, i)
    ensures McuIs(s, limits, was, data, place, mcu, 0)
  {
    forall j | 0 <= j < i
      ensures BlockIs(s, limits, was, data, 64 * place[j], j, mcu[j], false)
    {
      assert BlockIs(s, limits, was, data, 64 * place[j], j, mcu[j], true);
      DecodedTried(s, limits[s.membership[j]], was, data, 64 * place[j], mcu[j]);
    }
  }

  // ---- scans ----

  // The first i MCUs are decoded.
  ghost predicate ScanIs(s: Scan, limits: seq<nat>, was: seq<Coef>, data: seq<Coef>, places: seq<seq<nat>>,
                         mcus: seq<Mcu>, i: nat)
    requires ScanOk(s) && LimitsOk(s, limits) && McusOk(s, mcus) && |was| == |data| && PlacesOk(s, places, |data|)
    requires |mcus| == |places|
  {
    forall j :: 0 <= j < |places| ==> McuIs(s, limits, was, data, places[j], mcus[j], if j < i then |places[j]| else 0)
  }

  lemma ScanIsStep(s: Scan, limits: seq<nat>, known: bool, was: seq<Coef>, data: seq<Coef>, data': seq<Coef>,
                   places: seq<seq<nat>>, mcus: seq<Mcu>,
                   i: nat, done: bool)
    requires ScanOk(s) && LimitsOk(s, limits) && McusOk(s, mcus) && |was| == |data| == |data'|
    requires PlacesOk(s, places, |data|) && |mcus| == |places|
    requires i < |places| && ScanIs(s, limits, was, data, places, mcus, i)
    requires McuIs(s, limits, was, data', places[i], mcus[i], if done then |places[i]| else 0)
             && FramedMcu(s, known, data, data', places[i])
    ensures ScanIs(s, limits, was, data', places, mcus, if done then i + 1 else i)
  {
    forall j | 0 <= j < |places| && j != i
      ensures McuIs(s, limits, was, data', places[j], mcus[j], if j < i then |places[j]| else 0)
    {
      forall k | 0 <= k < |places[j]|
        ensures BlockIs(s, limits, was, data', 64 * places[j][k], k, mcus[j][k], j < i)
      {
        assert BlockIs(s, limits, was, data, 64 * places[j][k], k, mcus[j][k], j < i);
        OtherMcu(s, known, data, data', places[i], places[j][k]);
        StateFramed(s, limits[s.membership[k]], was, data, data', 64 * places[j][k], mcus[j][k]);
      }
    }
  }

  lemma OtherMcu(s: Scan, known: bool, data: seq<Coef>, data': seq<Coef>, place: seq<nat>, q: nat)
    requires ScanOk(s) && 64 * q + 64 <= |data| && FramedMcu(s, known, data, data', place) && forall l ::
               0 <= l < |place| ==> place[l] != q
    ensures SameBlock(data, data', 64 * q)
  {
    forall k | 64 * q <= k < 64 * q + 64
      ensures data[k] == data'[k]
    {
      forall l | 0 <= l < |place|
        ensures !Touches(s, known, 64 * place[l], s.ss, s.se, k)
      {
        if Touches(s, known, 64 * place[l], s.ss, s.se, k) {
          TouchesBlock(s, known, 64 * place[l], k);
        }
      }
    }
  }

  // What may change in the whole scan.
  ghost predicate FramedScan(s: Scan, known: bool, was: seq<Coef>, data: seq<Coef>, places: seq<seq<nat>>)
    requires ScanOk(s)
  {
    |was| == |data| && forall k :: 0 <= k < |data| && !ScanTouches(s, known, places, k) ==> data[k] == was[k]
  }

  ghost predicate ScanTouches(s: Scan, known: bool, places: seq<seq<nat>>, k: nat)
    requires ScanOk(s)
  {
    exists i, j :: 0 <= i < |places| && 0 <= j < |places[i]| && Touches(s, known, 64 * places[i][j], s.ss, s.se, k)
  }

  lemma FramedScanStep(s: Scan, known: bool, was: seq<Coef>, data: seq<Coef>, data': seq<Coef>, places: seq<seq<nat>>,
                       i: nat)
    requires ScanOk(s) && i < |places| && FramedScan(s, known, was, data, places)
    requires FramedMcu(s, known, data, data', places[i])
    ensures FramedScan(s, known, was, data', places)
  {
    forall k | 0 <= k < |data| && !ScanTouches(s, known, places, k)
      ensures data'[k] == was[k]
    {
      assert forall j :: 0 <= j < |places[i]| ==> !Touches(s, known, 64 * places[i][j], s.ss, s.se, k);
    }
  }
}

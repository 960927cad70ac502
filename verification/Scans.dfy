// Scans: which coefficients of which blocks are coded together, and how.

module Scans {
  import opened Prelude
  import opened Coefficients

  type TableNo = t: nat | t < 16

  datatype Component = Component(dcTbl: TableNo, acTbl: TableNo)

  // What the MCU routines read of a scan: the component of each block of an MCU,
  // the tables of each component, the conditioning values of each table, the
  // coding order and the scan parameters.
  datatype Scan = Scan(
    comps: seq<Component>, membership: seq<nat>,
    dcL: seq<nat>, dcU: seq<nat>, acK: seq<nat>,
    order: seq<nat>, limSe: nat, 
    progressive: bool, ss: nat, se: nat, ah: nat, al: nat, restartInterval: nat)

  // The order is any injective natural order that starts with the DC coefficient.
  // AC scans have a single component, so their MCUs are single blocks.
  predicate ScanOk(s: Scan) {
    && 1 <= |s.comps| <= 4 && 1 <= |s.membership| <= 10
    && (forall i :: 0 <= i < |s.membership| ==> s.membership[i] < |s.comps|)
    && |s.dcL| == |s.dcU| == |s.acK| == 16
    && |s.order| == 64 && s.order[0] == 0
    && (forall i :: 0 <= i < 64 ==> s.order[i] < 64)
    && (forall i, j :: 0 <= i < j < 64 ==> s.order[i] != s.order[j])
    && s.limSe < 64 && s.ss <= s.se <= s.limSe && s.al <= 13
    && (s.progressive ==> (s.ss == 0 ==> s.se == 0) && (s.ss > 0 ==> |s.membership| == 1 && |s.comps| == 1))
    && (s.progressive && s.ah != 0 ==> s.al == s.ah - 1)
    && (!s.progressive ==> s.ss == 0 && s.se == s.limSe && s.ah == 0 && s.al == 0)
  }

  // The five MCU routines that start_pass selects from.
  datatype Kind = Sequential | DcFirst | AcFirst | DcRefine | AcRefine

  function KindOf(s: Scan): Kind {
    if !s.progressive then Sequential
    else if s.ah == 0 then (if s.ss == 0 then DcFirst else AcFirst)
    else (if s.ss == 0 then DcRefine else AcRefine)
  }

  // An MCU: one block for each entry of the membership list.
  type Mcu = seq<Block>

  predicate McuOk(s: Scan, mcu: Mcu) {
    |mcu| == |s.membership|
  }

  predicate McusOk(s: Scan, mcus: seq<Mcu>) {
    forall i :: 0 <= i < |mcus| ==> McuOk(s, mcus[i])
  }

  // The end of the segment that begins at MCU i.
  function SegmentEnd(s: Scan, i: nat, count: nat): (j: nat)
    requires i <= count
    ensures i <= j <= count && (i == j ==> j == count)
  {
    if s.restartInterval == 0 || i + s.restartInterval >= count then count else i + s.restartInterval
  }

  function RestartMarker(n: nat): seq<byte>
    requires n < 8
  {
    [0xFF, 0xD0 + n]
  }

  // Block j is the last one of component ci in an MCU.
  predicate LastBlockOf(s: Scan, ci: nat, j: nat)
    requires ScanOk(s)
  {
    j < |s.membership| && s.membership[j] == ci && forall k :: j < k < |s.membership| ==> s.membership[k] != ci
  }

  // The DC value that a first scan codes.
  function DcValue(s: Scan, b: Block): Coef {
    if KindOf(s) == DcFirst then DcShifted(b[0], s.al) else b[0]
  }

  // The coefficients of a block in coding order, after the point transform by al:
  // a division by 2^al that rounds towards zero.
  function Ordered(s: Scan, b: Block, al: nat): Coefs
    requires ScanOk(s)
  {
    seq(64, (k: nat) requires k < 64 => PointTransform(b[s.order[k]], al))
  }

  // The index of the last nonzero coefficient up to k, or 0.
  function LastNonzero(z: seq<int>, k: nat): (r: nat)
    requires k < |z|
    ensures r <= k
    ensures r == 0 || z[r] != 0
    ensures forall j :: r < j <= k ==> z[j] == 0
  {
    if k == 0 || z[k] != 0 then k else LastNonzero(z, k - 1)
  }

  // The coefficients of a block in coding order.
  type Coefs = z: seq<Coef> | |z| == 64 witness seq(64, _ => 0)

  // ---- what a decoder knows of a block ----

  // The coefficients lo < j <= hi in coding order, in the block at offset off of a
  // buffer, are those of b at precision al.
  ghost predicate KnownTo(s: Scan, data: seq<Coef>, off: nat, lo: nat, hi: nat, b: Block, al: nat)
    requires ScanOk(s) && lo <= hi < 64 && off + 64 <= |data|
  {
    forall j :: lo < j <= hi ==> data[off + s.order[j]] == Trunc(b[s.order[j]], al)
  }

  ghost predicate ZeroBand(s: Scan, data: seq<Coef>, off: nat, lo: nat, hi: nat)
    requires ScanOk(s) && lo <= hi < 64 && off + 64 <= |data|
  {
    forall j :: lo < j <= hi ==> data[off + s.order[j]] == 0
  }

  // Where the coefficients start < k <= se of a block at offset off lie in the buffer.
  predicate InBand(s: Scan, off: nat, start: int, se: nat, i: int)
    requires ScanOk(s) && -1 <= start && se < 64
  {
    exists j :: start < j <= se && i == off + s.order[j]
  }

  // The band of a sequential scan does not contain the DC coefficient.
  lemma ZeroBandKept(s: Scan, data: seq<Coef>, data': seq<Coef>, off: nat)
    requires ScanOk(s) && off + 64 <= |data| == |data'| && ZeroBand(s, data, off, 0, s.limSe)
    requires forall i :: 0 <= i < |data| && i != off ==> data'[i] == data[i]
    ensures ZeroBand(s, data', off, 0, s.limSe)
  {
  }

  // The places of the buffer that the scan may write for the block at offset off.
  predicate Written(s: Scan, off: nat, i: int)
    requires ScanOk(s)
  {
    InBand(s, off, s.ss - 1, s.se, i)
  }

  lemma SequentialWrites(s: Scan, off: nat)
    requires ScanOk(s) && KindOf(s) == Sequential
    ensures Written(s, off, off) && !InBand(s, off, 0, s.limSe, off)
    ensures forall i :: InBand(s, off, 0, s.limSe, i) ==> Written(s, off, i)
  {
    assert off == off + s.order[0];
  }

  // What a scan expects of the buffer before it decodes the block b: a first scan
  // finds zeros, an AC refinement finds one bit less.
  ghost predicate BlockBefore(s: Scan, data: seq<Coef>, off: nat, b: Block)
    requires ScanOk(s) && off + 64 <= |data|
  {
    match KindOf(s)
    case Sequential => ZeroBand(s, data, off, 0, s.limSe)
    case DcFirst => true
    case AcFirst => ZeroBand(s, data, off, s.ss - 1, s.se)
    case DcRefine => true
    case AcRefine => KnownTo(s, data, off, s.ss - 1, s.se, b, s.al + 1)
  }

  // What it leaves, where the buffer was was before. A DC refinement adds its bit to
  // whatever it finds.
  ghost predicate BlockAfter(s: Scan, was: seq<Coef>, data: seq<Coef>, off: nat, b: Block)
    requires ScanOk(s) && off + 64 <= |data| == |was|
  {
    match KindOf(s)
    case Sequential => data[off] == b[0] && KnownTo(s, data, off, 0, s.limSe, b, 0)
    case DcFirst => data[off] == DcFloor(b[0], s.al)
    case AcFirst => KnownTo(s, data, off, s.ss - 1, s.se, b, s.al)
    case DcRefine => s.al < 13 && was[off] == DcFloor(b[0], s.al + 1) ==> data[off] == DcFloor(b[0], s.al)
    case AcRefine => KnownTo(s, data, off, s.ss - 1, s.se, b, s.al)
  }

  // The block at off is the same in both buffers.
  ghost predicate SameBlock(data: seq<Coef>, data': seq<Coef>, off: nat)
    requires off + 64 <= |data| == |data'|
  {
    forall i :: off <= i < off + 64 ==> data[i] == data'[i]
  }

  lemma BlockFramed(s: Scan, was: seq<Coef>, data: seq<Coef>, was': seq<Coef>, data': seq<Coef>, off: nat, b: Block)
    requires ScanOk(s) && off + 64 <= |data| == |data'| == |was| == |was'|
    requires SameBlock(was, was', off) && SameBlock(data, data', off)
    ensures BlockBefore(s, data, off, b) ==> BlockBefore(s, data', off, b)
    ensures BlockAfter(s, was, data, off, b) ==> BlockAfter(s, was', data', off, b)
  {
  }

  // ---- the blocks of an MCU in the buffer ----

  // Block j of the MCU is block number place[j] of a buffer of 64 coefficients each.
  predicate PlaceOk(s: Scan, place: seq<nat>, length: nat)
  {
    && |place| == |s.membership|
    && (forall j :: 0 <= j < |place| ==> 64 * place[j] + 64 <= length)
    && (forall i, j :: 0 <= i < j < |place| ==> place[i] != place[j])
  }

  ghost predicate BlockState(s: Scan, was: seq<Coef>, data: seq<Coef>, off: nat, b: Block, done: bool)
    requires ScanOk(s) && off + 64 <= |data| == |was|
  {
    if done then BlockAfter(s, was, data, off, b) else BlockBefore(s, data, off, b) && SameBlock(was, data, off)
  }

  // The first i blocks of the MCU are done, the others not yet.
  ghost predicate McuState(s: Scan, was: seq<Coef>, data: seq<Coef>, place: seq<nat>, mcu: Mcu, i: nat)
    requires ScanOk(s) && McuOk(s, mcu) && |was| == |data| && PlaceOk(s, place, |data|)
  {
    forall j :: 0 <= j < |place| ==> BlockState(s, was, data, 64 * place[j], mcu[j], j < i)
  }

  // Only what the scan may write for the blocks of place has changed.
  ghost predicate OnlyWritten(s: Scan, was: seq<Coef>, data: seq<Coef>, place: seq<nat>)
    requires ScanOk(s)
  {
    |was| == |data| &&
    forall k :: 0 <= k < |data| && (forall j :: 0 <= j < |place| ==> !Written(s, 64 * place[j], k)) ==>
      data[k] == was[k]
  }

  lemma OnlyWrittenStep(s: Scan, was: seq<Coef>, data: seq<Coef>, data': seq<Coef>, place: seq<nat>, i: nat)
    requires ScanOk(s) && OnlyWritten(s, was, data, place) && i < |place| && |data| == |data'|
    requires forall k :: 0 <= k < |data| && !Written(s, 64 * place[i], k) ==> data'[k] == data[k]
    ensures OnlyWritten(s, was, data', place)
  {
  }

  lemma McuStep(s: Scan, was: seq<Coef>, data: seq<Coef>, data': seq<Coef>, place: seq<nat>, mcu: Mcu, i: nat)
    requires ScanOk(s) && McuOk(s, mcu) && |was| == |data| == |data'| && PlaceOk(s, place, |data|) && i < |place|
    requires McuState(s, was, data, place, mcu, i) && BlockAfter(s, data, data', 64 * place[i], mcu[i])
    requires forall k :: 0 <= k < |data| && !Written(s, 64 * place[i], k) ==> data'[k] == data[k]
    ensures McuState(s, was, data', place, mcu, i + 1)
  {
    assert BlockState(s, was, data, 64 * place[i], mcu[i], false);
    BlockFramed(s, data, data', was, data', 64 * place[i], mcu[i]);
    forall j | 0 <= j < |place| && j != i
      ensures BlockState(s, was, data', 64 * place[j], mcu[j], j < i + 1)
    {
      assert BlockState(s, was, data, 64 * place[j], mcu[j], j < i);
      assert place[i] != place[j];
      BlockFramed(s, was, data, was, data', 64 * place[j], mcu[j]);
    }
  }

  // ---- the MCUs of a scan in the buffer ----

  // Where the blocks of a scan lie: every block of the buffer belongs to one MCU at
  // most, and blocks of the picture are in range.
  predicate PlacesOk(s: Scan, places: seq<seq<nat>>, length: nat)
    requires ScanOk(s)
  {
    && (forall i :: 0 <= i < |places| ==> PlaceOk(s, places[i], length))
    && (forall i, j, k, l :: 0 <= i < j < |places| && 0 <= k < |places[i]| && 0 <= l < |places[j]| ==>
        places[i][k] != places[j][l])
  }

  // The first i MCUs are done, the others not yet.
  ghost predicate ScanState(s: Scan, was: seq<Coef>, data: seq<Coef>, places: seq<seq<nat>>, mcus: seq<Mcu>, i: nat)
    requires ScanOk(s) && McusOk(s, mcus) && |was| == |data| && PlacesOk(s, places, |data|) && |mcus| == |places|
  {
    forall j :: 0 <= j < |places| ==> McuState(s, was, data, places[j], mcus[j], if j < i then |places[j]| else 0)
  }

  // A place of the buffer that the scan may write.
  ghost predicate ScanWrites(s: Scan, places: seq<seq<nat>>, k: nat)
    requires ScanOk(s)
  {
    exists i, j :: 0 <= i < |places| && 0 <= j < |places[i]| && Written(s, 64 * places[i][j], k)
  }

  ghost predicate OnlyScanWritten(s: Scan, was: seq<Coef>, data: seq<Coef>, places: seq<seq<nat>>)
    requires ScanOk(s)
  {
    |was| == |data| && forall k :: 0 <= k < |data| && !ScanWrites(s, places, k) ==> data[k] == was[k]
  }

  lemma OnlyScanStep(s: Scan, was: seq<Coef>, data: seq<Coef>, data': seq<Coef>, places: seq<seq<nat>>, i: nat)
    requires ScanOk(s) && i < |places| && OnlyScanWritten(s, was, data, places)
    requires OnlyWritten(s, data, data', places[i])
    ensures OnlyScanWritten(s, was, data', places)
  {
    forall k | 0 <= k < |data| && !ScanWrites(s, places, k)
      ensures data'[k] == was[k]
    {
      assert forall j :: 0 <= j < |places[i]| ==> !Written(s, 64 * places[i][j], k);
    }
  }

  lemma ScanStep(s: Scan, was: seq<Coef>, data: seq<Coef>, data': seq<Coef>, places: seq<seq<nat>>, mcus: seq<Mcu>,
                 i: nat)
    requires ScanOk(s) && McusOk(s, mcus) && |was| == |data| == |data'| && PlacesOk(s, places, |data|)
    requires |mcus| == |places|
    requires i < |places| && ScanState(s, was, data, places, mcus, i)
    requires McuState(s, was, data', places[i], mcus[i], |places[i]|)
    requires OnlyWritten(s, data, data', places[i])
    ensures ScanState(s, was, data', places, mcus, i + 1)
  {
    forall j | 0 <= j < |places| && j != i
      ensures McuState(s, was, data', places[j], mcus[j], if j < i then |places[j]| else 0)
    {
      forall k | 0 <= k < |places[j]|
        ensures BlockState(s, was, data', 64 * places[j][k], mcus[j][k], j < i)
      {
        assert forall l :: 0 <= l < |places[i]| ==> places[i][l] != places[j][k];
        assert BlockState(s, was, data, 64 * places[j][k], mcus[j][k], j < i);
        BlockFramed(s, was, data, was, data', 64 * places[j][k], mcus[j][k]);
      }
    }
  }
}

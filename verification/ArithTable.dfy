// The probability estimation state machine (jaricom.c): Table D.3 of ITU-T T.81
// plus the fixed 0.5 estimate of ITU-T T.851.

module ArithTable {

  // Qe value, next index after an LPS, next index after an MPS, switch flag.
  datatype Row = V(qe: nat, nextLps: nat, nextMps: nat, switchMps: nat)

  const FIXED_STATE: nat := 113

  type TableIndex = i: nat | i <= 113

  // What the coder relies on: the estimate is positive and below the smallest
  // interval width, and the successors are states again.
  predicate RowOk(r: Row, limit: nat) {
    && 0 < r.qe <= 0x5b12
    && r.nextLps <= limit
    && r.nextMps <= limit
    && r.switchMps <= 1
  }

  type SoundRow = r: Row | RowOk(r, 113) witness V(1, 0, 0, 0)

  type Machine = m: seq<SoundRow> | |m| == 114 witness seq(114, _ => V(1, 0, 0, 0))

  function JpegAritab(): Machine {
    seq(114, (i: nat) requires i < 114 => Aritab(i))
  }

  // The adaptive states never reach the fixed state, and the fixed state never
  // leaves itself.
  function Aritab(i: TableIndex): (r: SoundRow)
    ensures i < FIXED_STATE ==> RowOk(r, 112)
    ensures i == FIXED_STATE ==> r.nextLps == r.nextMps == i && r.switchMps == 0
  {
    if i < 38 then Rows0(i)
    else if i < 76 then Rows38(i)
    else Rows76(i)
  }

  function Rows0(i: TableIndex): (r: SoundRow)
    requires 0 <= i < 38
    ensures RowOk(r, 112)
  {
    if i == 0 then V(0x5a1d, 1, 1, 1)
    else if i == 1 then V(0x2586, 14, 2, 0)
    else if i == 2 then V(0x1114, 16, 3, 0)
    else if i == 3 then V(0x080b, 18, 4, 0)
    else if i == 4 then V(0x03d8, 20, 5, 0)
    else if i == 5 then V(0x01da, 23, 6, 0)
    else if i == 6 then V(0x00e5, 25, 7, 0)
    else if i == 7 then V(0x006f, 28, 8, 0)
    else if i == 8 then V(0x0036, 30, 9, 0)
    else if i == 9 then V(0x001a, 33, 10, 0)
    else if i == 10 then V(0x000d, 35, 11, 0)
    else if i == 11 then V(0x0006, 9, 12, 0)
    else if i == 12 then V(0x0003, 10, 13, 0)
    else if i == 13 then V(0x0001, 12, 13, 0)
    else if i == 14 then V(0x5a7f, 15, 15, 1)
    else if i == 15 then V(0x3f25, 36, 16, 0)
    else if i == 16 then V(0x2cf2, 38, 17, 0)
    else if i == 17 then V(0x207c, 39, 18, 0)
    else if i == 18 then V(0x17b9, 40, 19, 0)
    else if i == 19 then V(0x1182, 42, 20, 0)
    else if i == 20 then V(0x0cef, 43, 21, 0)
    else if i == 21 then V(0x09a1, 45, 22, 0)
    else if i == 22 then V(0x072f, 46, 23, 0)
    else if i == 23 then V(0x055c, 48, 24, 0)
    else if i == 24 then V(0x0406, 49, 25, 0)
    else if i == 25 then V(0x0303, 51, 26, 0)
    else if i == 26 then V(0x0240, 52, 27, 0)
    else if i == 27 then V(0x01b1, 54, 28, 0)
    else if i == 28 then V(0x0144, 56, 29, 0)
    else if i == 29 then V(0x00f5, 57, 30, 0)
    else if i == 30 then V(0x00b7, 59, 31, 0)
    else if i == 31 then V(0x008a, 60, 32, 0)
    else if i == 32 then V(0x0068, 62, 33, 0)
    else if i == 33 then V(0x004e, 63, 34, 0)
    else if i == 34 then V(0x003b, 32, 35, 0)
    else if i == 35 then V(0x002c, 33, 9, 0)
    else if i == 36 then V(0x5ae1, 37, 37, 1)
    else V(0x484c, 64, 38, 0)
  }

  function Rows38(i: TableIndex): (r: SoundRow)
    requires 38 <= i < 76
    ensures RowOk(r, 112)
  {
    if i == 38 then V(0x3a0d, 65, 39, 0)
    else if i == 39 then V(0x2ef1, 67, 40, 0)
    else if i == 40 then V(0x261f, 68, 41, 0)
    else if i == 41 then V(0x1f33, 69, 42, 0)
    else if i == 42 then V(0x19a8, 70, 43, 0)
    else if i == 43 then V(0x1518, 72, 44, 0)
    else if i == 44 then V(0x1177, 73, 45, 0)
    else if i == 45 then V(0x0e74, 74, 46, 0)
    else if i == 46 then V(0x0bfb, 75, 47, 0)
    else if i == 47 then V(0x09f8, 77, 48, 0)
    else if i == 48 then V(0x0861, 78, 49, 0)
    else if i == 49 then V(0x0706, 79, 50, 0)
    else if i == 50 then V(0x05cd, 48, 51, 0)
    else if i == 51 then V(0x04de, 50, 52, 0)
    else if i == 52 then V(0x040f, 50, 53, 0)
    else if i == 53 then V(0x0363, 51, 54, 0)
    else if i == 54 then V(0x02d4, 52, 55, 0)
    else if i == 55 then V(0x025c, 53, 56, 0)
    else if i == 56 then V(0x01f8, 54, 57, 0)
    else if i == 57 then V(0x01a4, 55, 58, 0)
    else if i == 58 then V(0x0160, 56, 59, 0)
    else if i == 59 then V(0x0125, 57, 60, 0)
    else if i == 60 then V(0x00f6, 58, 61, 0)
    else if i == 61 then V(0x00cb, 59, 62, 0)
    else if i == 62 then V(0x00ab, 61, 63, 0)
    else if i == 63 then V(0x008f, 61, 32, 0)
    else if i == 64 then V(0x5b12, 65, 65, 1)
    else if i == 65 then V(0x4d04, 80, 66, 0)
    else if i == 66 then V(0x412c, 81, 67, 0)
    else if i == 67 then V(0x37d8, 82, 68, 0)
    else if i == 68 then V(0x2fe8, 83, 69, 0)
    else if i == 69 then V(0x293c, 84, 70, 0)
    else if i == 70 then V(0x2379, 86, 71, 0)
    else if i == 71 then V(0x1edf, 87, 72, 0)
    else if i == 72 then V(0x1aa9, 87, 73, 0)
    else if i == 73 then V(0x174e, 72, 74, 0)
    else if i == 74 then V(0x1424, 72, 75, 0)
    else V(0x119c, 74, 76, 0)
  }

  function Rows76(i: TableIndex): (r: SoundRow)
    requires 76 <= i < 114
    ensures i < FIXED_STATE ==> RowOk(r, 112)
    ensures i == FIXED_STATE ==> r.nextLps == r.nextMps == i && r.switchMps == 0
  {
    if i == 76 then V(0x0f6b, 74, 77, 0)
    else if i == 77 then V(0x0d51, 75, 78, 0)
    else if i == 78 then V(0x0bb6, 77, 79, 0)
    else if i == 79 then V(0x0a40, 77, 48, 0)
    else if i == 80 then V(0x5832, 80, 81, 1)
    else if i == 81 then V(0x4d1c, 88, 82, 0)
    else if i == 82 then V(0x438e, 89, 83, 0)
    else if i == 83 then V(0x3bdd, 90, 84, 0)
    else if i == 84 then V(0x34ee, 91, 85, 0)
    else if i == 85 then V(0x2eae, 92, 86, 0)
    else if i == 86 then V(0x299a, 93, 87, 0)
    else if i == 87 then V(0x2516, 86, 71, 0)
    else if i == 88 then V(0x5570, 88, 89, 1)
    else if i == 89 then V(0x4ca9, 95, 90, 0)
    else if i == 90 then V(0x44d9, 96, 91, 0)
    else if i == 91 then V(0x3e22, 97, 92, 0)
    else if i == 92 then V(0x3824, 99, 93, 0)
    else if i == 93 then V(0x32b4, 99, 94, 0)
    else if i == 94 then V(0x2e17, 93, 86, 0)
    else if i == 95 then V(0x56a8, 95, 96, 1)
    else if i == 96 then V(0x4f46, 101, 97, 0)
    else if i == 97 then V(0x47e5, 102, 98, 0)
    else if i == 98 then V(0x41cf, 103, 99, 0)
    else if i == 99 then V(0x3c3d, 104, 100, 0)
    else if i == 100 then V(0x375e, 99, 93, 0)
    else if i == 101 then V(0x5231, 105, 102, 0)
    else if i == 102 then V(0x4c0f, 106, 103, 0)
    else if i == 103 then V(0x4639, 107, 104, 0)
    else if i == 104 then V(0x415e, 103, 99, 0)
    else if i == 105 then V(0x5627, 105, 106, 1)
    else if i == 106 then V(0x50e7, 108, 107, 0)
    else if i == 107 then V(0x4b85, 109, 103, 0)
    else if i == 108 then V(0x5597, 110, 109, 0)
    else if i == 109 then V(0x504f, 111, 107, 0)
    else if i == 110 then V(0x5a10, 110, 111, 1)
    else if i == 111 then V(0x5522, 112, 109, 0)
    else if i == 112 then V(0x59eb, 112, 111, 1)
    else V(0x5a1d, 113, 113, 0)
  }
}

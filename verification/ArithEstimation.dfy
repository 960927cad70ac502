// What coding a decision does to the probability estimate and to the interval, for the
// table of jaricom.c: the symbol that was coded becomes more probable, and the symbol
// taken for less probable never gets the larger part of the interval.

module ArithEstimation {
  import opened Prelude
  import opened ArithTable
  import opened ArithCoder

  // The estimate for the less probable symbol, and the symbol that is more probable.
  function Estimate(s: BinState): nat {
    Aritab(s % 128).qe
  }

  function Sense(s: BinState): Bit {
    s / 128
  }

  // Only the state of the least estimate and the fixed state are their own successors
  // after the more probable symbol; all other states go to a smaller estimate.
  predicate MpsRow(i: TableIndex) {
    var next := Aritab(i).nextMps;
    if i == 13 || i == FIXED_STATE then next == i else Aritab(next).qe < Aritab(i).qe
  }

  // After the less probable symbol the estimate grows, unless the senses are exchanged or
  // the state is the fixed one; only estimates near one half exchange the senses.
  predicate LpsRow(i: TableIndex) {
    var next := Aritab(i).nextLps;
    if i == FIXED_STATE then next == i && Aritab(i).switchMps == 0
    else if Aritab(i).switchMps == 1 then 0x5500 <= Aritab(i).qe && Aritab(next).qe <= Aritab(i).qe
    else Aritab(i).qe < Aritab(next).qe
  }

  lemma MpsTo19(i: TableIndex)
    requires i < 19
    ensures MpsRow(i)
  {
  }

  lemma MpsTo38(i: TableIndex)
    requires 19 <= i < 38
    ensures MpsRow(i)
  {
  }

  lemma MpsTo57(i: TableIndex)
    requires 38 <= i < 57
    ensures MpsRow(i)
  {
  }

  lemma MpsTo76(i: TableIndex)
    requires 57 <= i < 76
    ensures MpsRow(i)
  {
  }

  lemma MpsTo95(i: TableIndex)
    requires 76 <= i < 95
    ensures MpsRow(i)
  {
  }

  lemma MpsTo114(i: TableIndex)
    requires 95 <= i
    ensures MpsRow(i)
  {
  }

  lemma LpsTo19(i: TableIndex)
    requires i < 19
    ensures LpsRow(i)
  {
  }

  lemma LpsTo38(i: TableIndex)
    requires 19 <= i < 38
    ensures LpsRow(i)
  {
  }

  lemma LpsTo57(i: TableIndex)
    requires 38 <= i < 57
    ensures LpsRow(i)
  {
  }

  lemma LpsTo76(i: TableIndex)
    requires 57 <= i < 76
    ensures LpsRow(i)
  {
  }

  lemma LpsTo95(i: TableIndex)
    requires 76 <= i < 95
    ensures LpsRow(i)
  {
  }

  lemma LpsTo114(i: TableIndex)
    requires 95 <= i
    ensures LpsRow(i)
  {
  }

  lemma MpsRows(i: TableIndex)
    ensures MpsRow(i)
  {
    if i < 19 {
      MpsTo19(i);
    } else if i < 38 {
      MpsTo38(i);
    } else if i < 57 {
      MpsTo57(i);
    } else if i < 76 {
      MpsTo76(i);
    } else if i < 95 {
      MpsTo95(i);
    } else {
      MpsTo114(i);
    }
  }

  lemma LpsRows(i: TableIndex)
    ensures LpsRow(i)
  {
    if i < 19 {
      LpsTo19(i);
    } else if i < 38 {
      LpsTo38(i);
    } else if i < 57 {
      LpsTo57(i);
    } else if i < 76 {
      LpsTo76(i);
    } else if i < 95 {
      LpsTo95(i);
    } else {
      LpsTo114(i);
    }
  }

  // The sense and the index are kept apart in the byte.
  lemma AfterParts(m: Machine, s: BinState)
    ensures Sense(AfterMps(m, s)) == Sense(s) && AfterMps(m, s) % 128 == m[s % 128].nextMps
    ensures Sense(AfterLps(m, s)) == (if m[s % 128].switchMps == 1 then 1 - Sense(s) else Sense(s))
    ensures AfterLps(m, s) % 128 == m[s % 128].nextLps
  {
  }

  lemma SameParts(s: BinState, t: BinState)
    requires Sense(s) == Sense(t) && s % 128 == t % 128
    ensures s == t
  {
  }

  // Coding the symbol taken for more probable: the bin changes only if the interval has to
  // be renormalised, and then the symbol is taken for yet more probable.
  lemma MpsCoded(m: Machine, a: Width, s: BinState)
    requires m == JpegAritab()
    ensures var r := EncodeChoice(m, a, s, Sense(s));
            && (r.width >= 0x8000 ==> r.bin == s)
            && (r.width < 0x8000 ==>
                  && Sense(r.bin) == Sense(s)
                  && if s % 128 == 13 || s % 128 == FIXED_STATE then r.bin == s else Estimate(r.bin) < Estimate(s))
  {
    MpsRows(s % 128);
    AfterParts(m, s);
    assert m[s % 128] == Aritab(s % 128);
    if s % 128 == Aritab(s % 128).nextMps {
      SameParts(s, AfterMps(m, s));
    }
  }

  // Coding the other symbol always renormalises, and that symbol is taken for more
  // probable afterwards: its estimate grows, or it becomes the more probable one.
  lemma LpsCoded(m: Machine, a: Width, s: BinState)
    requires m == JpegAritab()
    ensures var r := EncodeChoice(m, a, s, 1 - Sense(s));
            && r.width < 0x8000
            && if s % 128 == FIXED_STATE then r.bin == s
               else if Sense(r.bin) == Sense(s) then Estimate(s) < Estimate(r.bin)
               else 0x5500 <= Estimate(s) && Estimate(r.bin) <= Estimate(s)
  {
    LpsRows(s % 128);
    AfterParts(m, s);
    LpsRenormalises(m, a, s);
    assert m[s % 128] == Aritab(s % 128);
    if s % 128 == FIXED_STATE {
      SameParts(s, AfterLps(m, s));
    }
  }

  lemma LpsRenormalises(m: Machine, a: Width, s: BinState)
    ensures var r := EncodeChoice(m, a, s, 1 - Sense(s)); r.width < 0x8000 && r.bin == AfterLps(m, s)
  {
  }

  // The two symbols share the interval. The estimate is the width of the part on top; the
  // symbol taken for more probable lies below, unless that is the smaller part.
  lemma PartsShared(m: Machine, a: Width, s: BinState)
    ensures var p, q, qe := EncodeChoice(m, a, s, Sense(s)), EncodeChoice(m, a, s, 1 - Sense(s)), m[s % 128].qe;
            && p.width + q.width == a && p.width >= q.width
            && (if p.offset == 0 then q.offset == p.width && q.width == qe
                else q.offset == 0 && p.offset == q.width && p.width == qe)
            && (p.offset > 0 <==> 2 * qe > a)
  {
  }
}

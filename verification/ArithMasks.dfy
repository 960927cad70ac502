// One-bit masks, as the magnitude loops of the arithmetic coder use them.

module ArithMasks {
  import opened ArithBinarisation

  predicate IsPow2(m: nat)
  {
    m == 1 || (m > 0 && m % 2 == 0 && IsPow2(m / 2))
  }

  // The mask m after doubling it once per remaining doubling of the category.
  function MaskAfter(m: nat, v2: nat): nat
    decreases v2
  {
    if v2 / 2 == 0 then m else MaskAfter(2 * m, v2 / 2)
  }

  lemma {:induction false} MaskDoubles(m: nat, v2: nat)
    ensures MaskAfter(2 * m, v2) == 2 * MaskAfter(m, v2)
    decreases v2
  {
    if v2 / 2 != 0 {
      MaskDoubles(2 * m, v2 / 2);
    }
  }

  lemma {:induction false} MaskIsTopBit(v: nat)
    requires v > 0
    ensures MaskAfter(1, v) == TopBit(v)
  {
    if v / 2 != 0 {
      MaskIsTopBit(v / 2);
      MaskDoubles(1, v / 2);
    }
  }

  lemma {:induction false} MaskGrows(m: nat, v2: nat)
    ensures MaskAfter(m, v2) >= m
    decreases v2
  {
    if v2 / 2 != 0 {
      MaskGrows(2 * m, v2 / 2);
    }
  }

  // w with the bits below the mask m cleared.
  function High(w: nat, m: nat): nat
    decreases m
  {
    if m <= 1 then w else 2 * High(w / 2, m / 2)
  }

  lemma {:induction false} HighNext(w: nat, m: nat)
    requires IsPow2(m) && m > 1
    ensures High(w, m / 2) == High(w, m) + (if MaskBit(w, m / 2) == 1 then m / 2 else 0)
    decreases m
  {
    if m / 2 > 1 {
      HighNext(w / 2, m / 2);
    }
  }

  lemma {:induction false} HighTop(w: nat)
    ensures w > 0 ==> High(w, TopBit(w)) == TopBit(w) && IsPow2(TopBit(w))
    ensures TopBit(w) <= w && (w > 0 ==> TopBit(w) > 0)
  {
    if w > 1 {
      HighTop(w / 2);
    }
  }

  // A value has its top bit below a power of two iff it lies below it.
  lemma {:induction false} TopBitBound(w: nat, m: nat)
    requires IsPow2(m)
    ensures TopBit(w) < m <==> w < m
    decreases m
  {
    HighTop(w);
    if m > 1 && w > 1 {
      TopBitBound(w / 2, m / 2);
    }
  }

  // Between a power of two and its double there is no other.
  lemma {:induction false} PowersAreApart(m: nat, n: nat)
    requires IsPow2(m) && IsPow2(n) && m < n
    ensures 2 * m <= n
    decreases m
  {
    if m > 1 {
      PowersAreApart(m / 2, n / 2);
    }
  }
}

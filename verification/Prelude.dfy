// Small shared vocabulary: bytes, optional results and left shifts.

module Prelude {
  type byte = x: int | 0 <= x < 256

  type Bit = b: nat | b <= 1

  datatype Option<+T> = None | Some(value: T)

  datatype List<+T> = Nil | Cons(head: T, tail: List<T>)

  // Always true. An invariant stated as `forall k :: Focus(layer, k) ==> P` stays
  // closed in proofs that only carry it along; `assert Focus(layer, 0)` opens it.
  ghost predicate Focus(layer: nat, k: int) {
    true
  }

  // x << k on integers that do not overflow.
  function Shl(x: int, k: nat): int
    decreases k
  {
    if k == 0 then x else Shl(2 * x, k - 1)
  }

  // x >> k, rounding down.
  function Shr(x: int, k: nat): int
    decreases k
  {
    if k == 0 then x else Shr(x / 2, k - 1)
  }

  // The same scaling on real numbers.
  ghost function Scale(x: real, k: nat): real
    decreases k
  {
    if k == 0 then x else Scale(2.0 * x, k - 1)
  }

  lemma {:induction false} ShlAdd(x: int, y: int, k: nat)
    ensures Shl(x + y, k) == Shl(x, k) + Shl(y, k)
    decreases k
  {
    if k > 0 {
      ShlAdd(2 * x, 2 * y, k - 1);
    }
  }

  lemma {:induction false} ShlDouble(x: int, k: nat)
    ensures Shl(2 * x, k) == 2 * Shl(x, k)
    decreases k
  {
    if k > 0 {
      ShlDouble(2 * x, k - 1);
    }
  }

  lemma {:induction false} ShlMonotone(x: int, y: int, k: nat)
    ensures x <= y ==> Shl(x, k) <= Shl(y, k)
    ensures x < y ==> Shl(x, k) < Shl(y, k)
    decreases k
  {
    if k > 0 {
      ShlMonotone(2 * x, 2 * y, k - 1);
    }
  }

  lemma {:induction false} ShlNonNegative(x: nat, k: nat)
    ensures Shl(x, k) >= x
    decreases k
  {
    if k > 0 {
      ShlNonNegative(2 * x, k - 1);
    }
  }

  lemma {:induction false} ShlGrows(x: nat, k: nat, n: nat)
    requires k <= n
    ensures Shl(x, k) <= Shl(x, n)
    decreases k
  {
    if k > 0 {
      ShlGrows(2 * x, k - 1, n - 1);
    } else {
      ShlNonNegative(x, n);
    }
  }

  lemma {:induction false} ScaleAdd(x: real, y: real, k: nat)
    ensures Scale(x + y, k) == Scale(x, k) + Scale(y, k)
    decreases k
  {
    if k > 0 {
      ScaleAdd(2.0 * x, 2.0 * y, k - 1);
    }
  }

  lemma {:induction false} ScaleMonotone(x: real, y: real, k: nat)
    ensures x <= y ==> Scale(x, k) <= Scale(y, k)
    ensures x < y ==> Scale(x, k) < Scale(y, k)
    decreases k
  {
    if k > 0 {
      ScaleMonotone(2.0 * x, 2.0 * y, k - 1);
    }
  }

  lemma {:induction false} ScaleInteger(x: int, k: nat)
    ensures Scale(x as real, k) == Shl(x, k) as real
    decreases k
  {
    if k > 0 {
      ScaleInteger(2 * x, k - 1);
    }
  }

  lemma {:induction false} ShlShl(x: int, a: nat, b: nat)
    ensures Shl(Shl(x, a), b) == Shl(x, a + b)
    decreases a
  {
    if a > 0 {
      ShlShl(2 * x, a - 1, b);
    }
  }

  lemma {:induction false} ShrOfShl(x: int, n: nat)
    ensures Shr(Shl(x, n), n) == x
    decreases n
  {
    if n > 0 {
      ShlDouble(x, n - 1);
      ShrOfShl(x, n - 1);
    }
  }

  lemma {:induction false} ShrHalves(a: int, n: nat)
    ensures Shr(a, n + 1) == Shr(a, n) / 2
    decreases n
  {
    if n > 0 {
      ShrHalves(a / 2, n - 1);
    }
  }

  lemma ShlFour(x: int, k: nat)
    ensures Shl(x, k + 4) == Shl(16 * x, k)
    ensures Shl(x, k + 3) == Shl(8 * x, k)
  {
    assert Shl(x, k + 4) == Shl(2 * x, k + 3) == Shl(4 * x, k + 2) == Shl(8 * x, k + 1);
    assert Shl(x, k + 3) == Shl(2 * x, k + 2) == Shl(4 * x, k + 1);
  }

  lemma ShlByte(x: int)
    ensures Shl(x, 7) == 128 * x && Shl(x, 8) == 256 * x
  {
    ShlFour(x, 4);
    ShlFour(16 * x, 0);
  }

  lemma ScaleFour(x: real, k: nat)
    ensures Scale(x, k + 4) == Scale(16.0 * x, k)
    ensures Scale(x, k + 3) == Scale(8.0 * x, k)
  {
    assert Scale(x, k + 4) == Scale(2.0 * x, k + 3) == Scale(4.0 * x, k + 2) == Scale(8.0 * x, k + 1);
    assert Scale(x, k + 3) == Scale(2.0 * x, k + 2) == Scale(4.0 * x, k + 1);
  }

  lemma ScaleByte(x: real)
    ensures Scale(x, 7) == 128.0 * x && Scale(x, 8) == 256.0 * x && Scale(x, 11) == 2048.0 * x
  {
    ScaleFour(x, 4);
    ScaleFour(16.0 * x, 0);
    ScaleFour(x, 7);
    ScaleFour(16.0 * x, 3);
    ScaleFour(256.0 * x, 0);
  }
}

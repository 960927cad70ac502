// The recommended progressive scripts (jpeg_simple_progression of jcparam.c).

module SimpleProgression {
  import opened ScanScript

  // One scan for each component.
  function OneEach(n: nat, ss: int, se: int, ah: int, al: int): Script {
    seq(n, c => ScanInfo([c], ss, se, ah, al))
  }

  function AllComps(n: nat): seq<int> {
    seq(n, c => c)
  }

  function DcScans(n: nat, ah: int, al: int): Script {
    if n <= 4 then [ScanInfo(AllComps(n), 0, 0, ah, al)] else OneEach(n, 0, 0, ah, al)
  }

  // ---- filling the script space through an advancing pointer ----

  method FillAScan(space: array<ScanInfo>, p: nat, ci: int, ss: int, se: int, ah: int, al: int) returns (q: nat)
    requires p < space.Length
    modifies space
    ensures q == p + 1 && space[..q] == old(space[..p]) + [ScanInfo([ci], ss, se, ah, al)]
  {
    space[p] := ScanInfo([ci], ss, se, ah, al);
    q := p + 1;
  }

  method FillScans(space: array<ScanInfo>, p: nat, n: nat, ss: int, se: int, ah: int, al: int) returns (q: nat)
    requires p + n <= space.Length
    modifies space
    ensures q == p + n && space[..q] == old(space[..p]) + OneEach(n, ss, se, ah, al)
  {
    ghost var before := space[..p];
    q := p;
    var ci := 0;
    while ci < n
      invariant ci <= n && q == p + ci
      invariant space[..q] == before + OneEach(n, ss, se, ah, al)[..ci]
    {
      space[q] := ScanInfo([ci], ss, se, ah, al);
      q := q + 1;
      ci := ci + 1;
    }
  }

  method FillDcScans(space: array<ScanInfo>, p: nat, n: nat, ah: int, al: int) returns (q: nat)
    requires p + |DcScans(n, ah, al)| <= space.Length
    modifies space
    ensures q == p + |DcScans(n, ah, al)| && space[..q] == old(space[..p]) + DcScans(n, ah, al)
  {
    if n <= 4 {
      space[p] := ScanInfo(AllComps(n), 0, 0, ah, al);
      q := p + 1;
    } else {
      q := FillScans(space, p, n, 0, 0, ah, al);
    }
  }

  // The space figured beforehand is exactly what the script needs.
  method SimpleProgression(n: nat, ycc: bool) returns (space: array<ScanInfo>)
    requires 1 <= n <= 10
    ensures space[..] == SimpleScript(n, ycc)
    ensures fresh(space)
  {
    var nscans;
    if n == 3 && ycc {
      nscans := 10;
    } else if n > 4 {
      nscans := 6 * n;
    } else {
      nscans := 2 + 4 * n;
    }
    space := new ScanInfo[nscans](_ => ScanInfo([], 0, 0, 0, 0));
    var p;
    if n == 3 && ycc {
      p := FillColorFirst(space);
      p := FillColorLast(space, p);
    } else {
      p := FillGeneric(space, n);
    }
    assert space[..p] == space[..];
  }

  method FillGeneric(space: array<ScanInfo>, n: nat) returns (p: nat)
    requires space.Length == 4 * n + 2 * (if n > 4 then n else 1)
    modifies space
    ensures p == space.Length && space[..p] == GenericScript(n)
  {
    p := FillGenericFirst(space, n);
    p := FillScans(space, p, n, 1, 63, 2, 1);
    p := FillDcScans(space, p, n, 1, 0);
    p := FillScans(space, p, n, 1, 63, 1, 0);
  }

  method FillGenericFirst(space: array<ScanInfo>, n: nat) returns (p: nat)
    requires space.Length == 4 * n + 2 * (if n > 4 then n else 1)
    modifies space
    ensures p == 2 * n + (if n > 4 then n else 1) && space[..p] == GenericFirst(n)
  {
    p := FillDcScans(space, 0, n, 0, 1);
    p := FillScans(space, p, n, 1, 5, 0, 2);
    p := FillScans(space, p, n, 6, 63, 0, 2);
  }

  method FillColorFirst(space: array<ScanInfo>) returns (p: nat)
    requires space.Length == 10
    modifies space
    ensures p == 5 && space[..p] == ColorFirst()
  {
    p := FillDcScans(space, 0, 3, 0, 1);
    p := FillAScan(space, p, 0, 1, 5, 0, 2);
    p := FillAScan(space, p, 2, 1, 63, 0, 1);
    p := FillAScan(space, p, 1, 1, 63, 0, 1);
    p := FillAScan(space, p, 0, 6, 63, 0, 2);
  }

  method FillColorLast(space: array<ScanInfo>, p: nat) returns (q: nat)
    requires space.Length == 10 && p == 5
    modifies space
    ensures q == 10 && space[..q] == old(space[..p]) + ColorLast()
  {
    ghost var before := space[..p];
    q := FillAScan(space, p, 0, 1, 63, 2, 1);
    q := FillDcScans(space, q, 3, 1, 0);
    q := FillAScan(space, q, 2, 1, 63, 1, 0);
    q := FillAScan(space, q, 1, 1, 63, 1, 0);
    q := FillAScan(space, q, 0, 1, 63, 1, 0);
    assert before + [ScanInfo([0], 1, 63, 2, 1)] + DcScans(3, 1, 0) + [ScanInfo([2], 1, 63, 1, 0)]
           + [ScanInfo([1], 1, 63, 1, 0)] + [ScanInfo([0], 1, 63, 1, 0)] == before + ColorLast();
  }

  // For colour images in YCbCr: luma data first, chroma in few scans.
  function ColorFirst(): Script {
    DcScans(3, 0, 1) + [ScanInfo([0], 1, 5, 0, 2)] + [ScanInfo([2], 1, 63, 0, 1)] + [ScanInfo([1], 1, 63, 0, 1)]
    + [ScanInfo([0], 6, 63, 0, 2)]
  }

  function ColorLast(): Script {
    [ScanInfo([0], 1, 63, 2, 1)] + DcScans(3, 1, 0)
    + [ScanInfo([2], 1, 63, 1, 0)] + [ScanInfo([1], 1, 63, 1, 0)] + [ScanInfo([0], 1, 63, 1, 0)]
  }

  function ColorScript(): Script {
    ColorFirst() + ColorLast()
  }

  function GenericFirst(n: nat): Script {
    DcScans(n, 0, 1) + OneEach(n, 1, 5, 0, 2) + OneEach(n, 6, 63, 0, 2)
  }

  function GenericScript(n: nat): Script {
    GenericFirst(n) + OneEach(n, 1, 63, 2, 1) + DcScans(n, 1, 0) + OneEach(n, 1, 63, 1, 0)
  }

  // ---- the scripts are valid and send everything ----

  // Every coefficient lo to hi of the components a to b - 1 is known at precision p.
  predicate Known(xs: Script, a: nat, b: nat, lo: int, hi: int, p: int) {
    forall c, k :: a <= c < b && lo <= k <= hi ==> Precision(xs, c, k) == p
  }

  lemma AppendOne(n: nat, xs: Script, x: ScanInfo)
    requires ProgressiveSteps(n, xs) && CompsOk(n, x) && ShapeOk(x) && MayFollow(xs, x)
    ensures ProgressiveSteps(n, xs + [x])
    ensures forall c, k :: Precision(xs + [x], c, k) == if Carries(x, c, k) then x.al else Precision(xs, c, k)
  {
    StepsOfLast(n, xs, x);
    assert (xs + [x])[..|xs|] == xs;
  }

  // What one scan for each of the first m components makes of the precisions.
  lemma {:induction false} AppendOneEach(n: nat, xs: Script, m: nat, ss: int, se: int, ah: int, al: int)
    requires ProgressiveSteps(n, xs) && m <= n && ShapeOk(ScanInfo([0], ss, se, ah, al))
    requires ss != 0 ==> forall c :: 0 <= c < m ==> Precision(xs, c, 0) >= 0
    requires Known(xs, 0, m, ss, se, if ah == 0 then -1 else ah) && (ah != 0 ==> al == ah - 1)
    ensures ProgressiveSteps(n, xs + OneEach(m, ss, se, ah, al))
    ensures forall c, k :: Precision(xs + OneEach(m, ss, se, ah, al), c, k) ==
                             if 0 <= c < m && ss <= k <= se then al else Precision(xs, c, k)
  {
    if m == 0 {
      assert xs + OneEach(m, ss, se, ah, al) == xs;
    } else {
      AppendOneEach(n, xs, m - 1, ss, se, ah, al);
      var ys, x := xs + OneEach(m - 1, ss, se, ah, al), ScanInfo([m - 1], ss, se, ah, al);
      assert xs + OneEach(m, ss, se, ah, al) == ys + [x];
      assert CompFollows(ys, x, m - 1);
      AppendOne(n, ys, x);
    }
  }

  lemma AppendDcScans(n: nat, xs: Script, ah: int, al: int)
    requires ProgressiveSteps(n, xs) && 1 <= n && 0 <= al <= 10 && 0 <= ah <= 10
    requires Known(xs, 0, n, 0, 0, if ah == 0 then -1 else ah) && (ah != 0 ==> al == ah - 1)
    ensures ProgressiveSteps(n, xs + DcScans(n, ah, al))
    ensures forall c, k :: Precision(xs + DcScans(n, ah, al), c, k) ==
                             if 0 <= c < n && k == 0 then al else Precision(xs, c, k)
  {
    if n <= 4 {
      var x := ScanInfo(AllComps(n), 0, 0, ah, al);
      assert MayFollow(xs, x);
      AppendOne(n, xs, x);
      forall c, k
        ensures Carries(x, c, k) == (0 <= c < n && k == 0)
      {
        if 0 <= c < n {
          assert AllComps(n)[c] == c;
        }
      }
    } else {
      AppendOneEach(n, xs, n, 0, 0, ah, al);
    }
  }

  // After the first half DC is known at precision 1, AC at 2.
  predicate GenericHalfWay(n: nat, xs: Script) {
    ProgressiveSteps(n, xs) && Known(xs, 0, n, 0, 0, 1) && Known(xs, 0, n, 1, 63, 2)
  }

  lemma GenericFirstOk(n: nat)
    requires 1 <= n
    ensures GenericHalfWay(n, GenericFirst(n))
  {
    FirstDcOk(n);
    var xs := DcScans(n, 0, 1);
    AppendOneEach(n, xs, n, 1, 5, 0, 2);
    var ys := xs + OneEach(n, 1, 5, 0, 2);
    assert Known(ys, 0, n, 0, 0, 1) && Known(ys, 0, n, 1, 5, 2) && Known(ys, 0, n, 6, 63, -1);
    AppendOneEach(n, ys, n, 6, 63, 0, 2);
  }

  lemma FirstDcOk(n: nat)
    requires 1 <= n
    ensures ProgressiveSteps(n, DcScans(n, 0, 1)) && Known(DcScans(n, 0, 1), 0, n, 0, 0, 1)
    ensures Known(DcScans(n, 0, 1), 0, n, 1, 63, -1)
  {
    assert [] + DcScans(n, 0, 1) == DcScans(n, 0, 1);
    AppendDcScans(n, [], 0, 1);
  }

  // The second half: one more bit of AC, then of DC, then of AC.
  lemma GenericLastOk(n: nat, xs: Script)
    requires 1 <= n && GenericHalfWay(n, xs)
    ensures var ys := xs + OneEach(n, 1, 63, 2, 1) + DcScans(n, 1, 0) + OneEach(n, 1, 63, 1, 0);
            ProgressiveSteps(n, ys) && Known(ys, 0, n, 0, 63, 0)
  {
    AppendOneEach(n, xs, n, 1, 63, 2, 1);
    var ys := xs + OneEach(n, 1, 63, 2, 1);
    AppendDcScans(n, ys, 1, 0);
    AppendOneEach(n, ys + DcScans(n, 1, 0), n, 1, 63, 1, 0);
  }

  // For any number of components: valid, progressive, and at full precision at the end.
  lemma GenericScriptOk(n: nat)
    requires 1 <= n
    ensures ScriptOk(n, GenericScript(n)) && IsProgressive(GenericScript(n))
    ensures Known(GenericScript(n), 0, n, 0, 63, 0)
  {
    GenericFirstOk(n);
    GenericLastOk(n, GenericFirst(n));
    FirstIsDc(n);
  }

  lemma FirstIsDc(n: nat)
    requires 1 <= n
    ensures GenericScript(n) != [] && IsProgressive(GenericScript(n))
  {
    assert DcScans(n, 0, 1) != [] && DcScans(n, 0, 1)[0].se == 0;
    assert GenericScript(n)[0] == DcScans(n, 0, 1)[0];
  }

  // After the first half luma AC is known at precision 2, the rest at 1.
  predicate HalfWay(xs: Script) {
    && ProgressiveSteps(3, xs) && Known(xs, 0, 3, 0, 0, 1)
    && Known(xs, 0, 1, 1, 63, 2) && Known(xs, 1, 3, 1, 63, 1)
  }

  lemma ColorFirstOk()
    ensures HalfWay(ColorFirst())
  {
    assert [] + DcScans(3, 0, 1) == DcScans(3, 0, 1);
    AppendDcScans(3, [], 0, 1);
    var xs := DcScans(3, 0, 1);
    xs := Appended(xs, 0, 1, 5, 0, 2);
    xs := Appended(xs, 2, 1, 63, 0, 1);
    xs := Appended(xs, 1, 1, 63, 0, 1);
    assert Known(xs, 0, 1, 1, 5, 2) && Known(xs, 0, 1, 6, 63, -1) && Known(xs, 1, 3, 1, 63, 1);
    xs := Appended(xs, 0, 6, 63, 0, 2);
  }

  // Then DC is complete and AC lacks one bit.
  lemma ColorLastOk(xs: Script)
    requires HalfWay(xs)
    ensures ProgressiveSteps(3, xs + ColorLast()) && Known(xs + ColorLast(), 0, 3, 0, 63, 0)
  {
    var ys := Appended(xs, 0, 1, 63, 2, 1);
    AppendDcScans(3, ys, 1, 0);
    ys := ys + DcScans(3, 1, 0);
    assert Known(ys, 0, 3, 0, 0, 0) && Known(ys, 0, 3, 1, 63, 1);
    var zs := ColorEnd(ys);
    assert zs == xs + ColorLast();
  }

  lemma ColorEnd(xs: Script) returns (ys: Script)
    requires ProgressiveSteps(3, xs) && Known(xs, 0, 3, 0, 0, 0) && Known(xs, 0, 3, 1, 63, 1)
    ensures ys == xs + [ScanInfo([2], 1, 63, 1, 0)] + [ScanInfo([1], 1, 63, 1, 0)] + [ScanInfo([0], 1, 63, 1, 0)]
    ensures ProgressiveSteps(3, ys) && Known(ys, 0, 3, 0, 63, 0)
  {
    ys := Appended(xs, 2, 1, 63, 1, 0);
    ys := Appended(ys, 1, 1, 63, 1, 0);
    ys := Appended(ys, 0, 1, 63, 1, 0);
  }

  lemma ColorScriptOk()
    ensures ScriptOk(3, ColorScript()) && IsProgressive(ColorScript())
    ensures Known(ColorScript(), 0, 3, 0, 63, 0)
  {
    ColorFirstOk();
    ColorLastOk(ColorFirst());
  }

  lemma Appended(xs: Script, c: nat, ss: int, se: int, ah: int, al: int) returns (ys: Script)
    requires c < 3 && ShapeOk(ScanInfo([c], ss, se, ah, al)) && ProgressiveSteps(3, xs)
    requires Precision(xs, c, 0) >= 0 && Known(xs, c, c + 1, ss, se, if ah == 0 then -1 else ah)
             && (ah != 0 ==> al == ah - 1)
    ensures ys == xs + [ScanInfo([c], ss, se, ah, al)] && ProgressiveSteps(3, ys)
    ensures forall d, k :: Precision(ys, d, k) == if d == c && ss <= k <= se then al else Precision(xs, d, k)
  {
    var x := ScanInfo([c], ss, se, ah, al);
    assert CompFollows(xs, x, c);
    AppendOne(3, xs, x);
    ys := xs + [x];
  }

  function SimpleScript(n: nat, ycc: bool): Script {
    if n == 3 && ycc then ColorScript() else GenericScript(n)
  }

  // For any number of components: accepted, progressive, and everything is sent at full
  // precision.
  lemma SimpleScriptOk(n: nat, ycc: bool)
    requires 1 <= n
    ensures ScriptOk(n, SimpleScript(n, ycc)) && IsProgressive(SimpleScript(n, ycc))
    ensures Known(SimpleScript(n, ycc), 0, n, 0, 63, 0)
  {
    if n == 3 && ycc {
      ColorScriptOk();
    } else {
      GenericScriptOk(n);
    }
  }
}

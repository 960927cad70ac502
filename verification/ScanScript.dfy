// Scan scripts: their validation and reduction (jcmaster.c), and the decoder's own
// progression checks (start_pass of jdarith.c and jdhuff.c).

module ScanScript {
  import opened Prelude

  // An entry of a script as the application supplies it, unchecked.
  datatype ScanInfo = ScanInfo(comps: seq<int>, ss: int, se: int, ah: int, al: int)

  type Script = seq<ScanInfo>

  const MAX_AH_AL := 10

  // ---- what makes a script valid ----

  predicate CompsOk(n: nat, x: ScanInfo) {
    && 1 <= |x.comps| <= 4
    && (forall i :: 0 <= i < |x.comps| ==> 0 <= x.comps[i] < n)
    && (forall i :: 0 < i < |x.comps| ==> x.comps[i - 1] < x.comps[i])
  }

  predicate ShapeOk(x: ScanInfo) {
    && 0 <= x.ss <= x.se < 64 && 0 <= x.ah <= MAX_AH_AL && 0 <= x.al <= MAX_AH_AL
    && (x.ss == 0 ==> x.se == 0) && (x.ss != 0 ==> |x.comps| == 1)
  }

  predicate Carries(x: ScanInfo, c: int, k: int) {
    c in x.comps && x.ss <= k <= x.se
  }

  // The precision Al at which coefficient k of component c is known after the scans
  // of xs; -1 if it was not sent.
  function Precision(xs: Script, c: int, k: int): int
  {
    if xs == [] then -1
    else if Carries(xs[|xs| - 1], c, k) then xs[|xs| - 1].al
    else Precision(xs[..|xs| - 1], c, k)
  }

  // The scan x may follow the scans xs: a first scan of a coefficient sends its high
  // bits, a later one exactly the next bit; AC follows DC.
  predicate CoefFollows(xs: Script, x: ScanInfo, c: int, k: int) {
    var last := Precision(xs, c, k);
    if last < 0 then x.ah == 0 else x.ah == last && x.al == last - 1
  }

  predicate CompFollows(xs: Script, x: ScanInfo, c: int) {
    && (x.ss != 0 ==> Precision(xs, c, 0) >= 0)
    && forall k :: x.ss <= k <= x.se ==> CoefFollows(xs, x, c, k)
  }

  predicate MayFollow(xs: Script, x: ScanInfo) {
    forall i :: 0 <= i < |x.comps| ==> CompFollows(xs, x, x.comps[i])
  }

  predicate ProgressiveSteps(n: nat, xs: Script) {
    forall i :: 0 <= i < |xs| ==> CompsOk(n, xs[i]) && ShapeOk(xs[i]) && MayFollow(xs[..i], xs[i])
  }

  // Every coefficient is sent with falling precision; DC is sent at all.
  predicate ProgressiveOk(n: nat, xs: Script) {
    ProgressiveSteps(n, xs) && forall c :: 0 <= c < n ==> Precision(xs, c, 0) >= 0
  }

  predicate SequentialShape(x: ScanInfo) {
    x.ss == 0 && x.se == 63 && x.ah == 0 && x.al == 0
  }

  predicate Sent(xs: Script, c: int) {
    exists i :: 0 <= i < |xs| && c in xs[i].comps
  }

  predicate SequentialSteps(n: nat, xs: Script) {
    forall i :: 0 <= i < |xs| ==>
      CompsOk(n, xs[i]) && SequentialShape(xs[i]) && forall j :: 0 <= j < |xs[i].comps| ==>
        !Sent(xs[..i], xs[i].comps[j])
  }

  // Every component is sent exactly once.
  predicate SequentialOk(n: nat, xs: Script) {
    SequentialSteps(n, xs) && forall c :: 0 <= c < n ==> Sent(xs, c)
  }

  predicate IsProgressive(xs: Script)
    requires xs != []
  {
    xs[0].ss != 0 || xs[0].se != 63
  }

  predicate ScriptOk(n: nat, xs: Script) {
    xs != [] && if IsProgressive(xs) then ProgressiveOk(n, xs) else SequentialOk(n, xs)
  }

  // ---- validate_script ----

  method CheckComponents(n: nat, x: ScanInfo) returns (ok: bool)
    ensures ok == CompsOk(n, x)
  {
    if |x.comps| == 0 || |x.comps| > 4 {
      return false;
    }
    var ci := 0;
    while ci < |x.comps|
      invariant ci <= |x.comps|
      invariant forall i :: 0 <= i < ci ==> 0 <= x.comps[i] < n
      invariant forall i :: 0 < i < ci ==> x.comps[i - 1] < x.comps[i]
    {
      if x.comps[ci] < 0 || x.comps[ci] >= n {
        return false;
      }
      if ci > 0 && x.comps[ci] <= x.comps[ci - 1] {
        return false;
      }
      ci := ci + 1;
    }
    ok := true;
  }

  // last_bitpos: -1 until a coefficient has been seen, then its last Al.
  ghost predicate Records(bits: array2<int>, n: nat, xs: Script)
    reads bits
  {
    && bits.Length0 == n && bits.Length1 == 64
    && forall c, k :: 0 <= c < n && 0 <= k < 64 ==> bits[c, k] == Precision(xs, c, k)
  }

  // The progression of component c of a scan.
  method CheckCoefficients(c: int, x: ScanInfo, bits: array2<int>, ghost xs: Script) returns (ok: bool)
    requires 0 <= c < bits.Length0 && bits.Length1 == 64 && ShapeOk(x)
    requires forall k :: 0 <= k < 64 ==> bits[c, k] == Precision(xs, c, k)
    modifies bits
    ensures ok == CompFollows(xs, x, c)
    ensures forall k :: 0 <= k < 64 && ok ==> bits[c, k] == if x.ss <= k <= x.se then x.al else Precision(xs, c, k)
    ensures forall d, k :: 0 <= d < bits.Length0 && 0 <= k < 64 && d != c ==> bits[d, k] == old(bits[d, k])
  {
    if x.ss != 0 && bits[c, 0] < 0 {
      return false;
    }
    var k := x.ss;
    while k <= x.se
      invariant x.ss <= k <= x.se + 1
      invariant forall j :: x.ss <= j < k ==> CoefFollows(xs, x, c, j)
      invariant forall j :: 0 <= j < 64 ==> bits[c, j] == if x.ss <= j < k then x.al else Precision(xs, c, j)
      invariant forall d, j :: 0 <= d < bits.Length0 && 0 <= j < 64 && d != c ==> bits[d, j] == old(bits[d, j])
    {
      assert bits[c, k] == Precision(xs, c, k);
      if bits[c, k] < 0 {
        if x.ah != 0 {
          assert !CoefFollows(xs, x, c, k);
          return false;
        }
      } else {
        if x.ah != bits[c, k] || x.al != x.ah - 1 {
          assert !CoefFollows(xs, x, c, k);
          return false;
        }
      }
      bits[c, k] := x.al;
      k := k + 1;
    }
    ok := true;
  }

  // The progression of all components of a scan.
  method CheckProgression(n: nat, x: ScanInfo, bits: array2<int>, ghost xs: Script) returns (ok: bool)
    requires CompsOk(n, x) && ShapeOk(x) && Records(bits, n, xs)
    modifies bits
    ensures ok == MayFollow(xs, x)
    ensures ok ==> Records(bits, n, xs + [x])
  {
    ghost var all := xs + [x];
    assert all[..|all| - 1] == xs;
    var ci := 0;
    while ci < |x.comps|
      invariant ci <= |x.comps| && forall i :: 0 <= i < ci ==> CompFollows(xs, x, x.comps[i])
      invariant forall c, k :: 0 <= c < n && 0 <= k < 64 ==>
                  bits[c, k] == if c in x.comps[..ci] && x.ss <= k <= x.se then x.al else Precision(xs, c, k)
    {
      Distinct(n, x, ci);
      assert x.comps[..ci + 1] == x.comps[..ci] + [x.comps[ci]];
      ok := CheckCoefficients(x.comps[ci], x, bits, xs);
      if !ok {
        return;
      }
      ci := ci + 1;
    }
    assert x.comps[..ci] == x.comps;
    ok := true;
  }

  lemma {:induction false} Increasing(n: nat, x: ScanInfo, i: nat, j: nat)
    requires CompsOk(n, x) && i < j < |x.comps|
    ensures x.comps[i] < x.comps[j]
  {
    if i + 1 < j {
      Increasing(n, x, i, j - 1);
    }
  }

  lemma Distinct(n: nat, x: ScanInfo, ci: nat)
    requires CompsOk(n, x) && ci < |x.comps|
    ensures x.comps[ci] !in x.comps[..ci]
  {
    if x.comps[ci] in x.comps[..ci] {
      var i :| 0 <= i < ci && x.comps[i] == x.comps[ci];
      Increasing(n, x, i, ci);
    }
  }

  // component_sent, for sequential JPEG.
  method CheckSentOnce(n: nat, x: ScanInfo, sent: array<bool>, ghost xs: Script) returns (ok: bool)
    requires CompsOk(n, x) && sent.Length == n && forall c :: 0 <= c < n ==> sent[c] == Sent(xs, c)
    modifies sent
    ensures ok == forall j :: 0 <= j < |x.comps| ==> !Sent(xs, x.comps[j])
    ensures ok ==> forall c :: 0 <= c < n ==> sent[c] == Sent(xs + [x], c)
  {
    ghost var all := xs + [x];
    var ci := 0;
    while ci < |x.comps|
      invariant ci <= |x.comps| && forall j :: 0 <= j < ci ==> !Sent(xs, x.comps[j])
      invariant forall c :: 0 <= c < n ==> sent[c] == (Sent(xs, c) || c in x.comps[..ci])
    {
      Distinct(n, x, ci);
      if sent[x.comps[ci]] {
        return false;
      }
      sent[x.comps[ci]] := true;
      assert x.comps[..ci + 1] == x.comps[..ci] + [x.comps[ci]];
      ci := ci + 1;
    }
    forall c | 0 <= c < n
      ensures sent[c] == Sent(all, c)
    {
      assert x.comps[..ci] == x.comps;
      assert all[|xs|] == x;
      if Sent(xs, c) {
        var i :| 0 <= i < |xs| && c in xs[i].comps;
        assert all[i] == xs[i];
      }
    }
    ok := true;
  }

  method ValidateProgressive(n: nat, xs: Script) returns (ok: bool)
    ensures ok == ProgressiveOk(n, xs)
  {
    var bits := new int[n, 64]((_, _) => -1);
    var scanno := 0;
    while scanno < |xs|
      invariant scanno <= |xs| && fresh(bits) && Records(bits, n, xs[..scanno])
      invariant forall i :: 0 <= i < scanno ==> CompsOk(n, xs[i]) && ShapeOk(xs[i]) && MayFollow(xs[..i], xs[i])
    {
      var x := xs[scanno];
      assert xs[..scanno + 1] == xs[..scanno] + [x];
      ok := CheckComponents(n, x);
      if !ok || x.ss < 0 || x.ss >= 64 || x.se < x.ss || x.se >= 64 || x.ah < 0 || x.ah > 10 || x.al < 0 || x.al > 10 {
        return false;
      }
      if x.ss == 0 {
        if x.se != 0 {
          return false;
        }
      } else {
        if |x.comps| != 1 {
          return false;
        }
      }
      ok := CheckProgression(n, x, bits, xs[..scanno]);
      if !ok {
        return;
      }
      scanno := scanno + 1;
    }
    assert xs[..scanno] == xs;
    var ci := 0;
    while ci < n
      invariant ci <= n && forall c :: 0 <= c < ci ==> Precision(xs, c, 0) >= 0
    {
      if bits[ci, 0] < 0 {
        return false;
      }
      ci := ci + 1;
    }
    ok := true;
  }

  method ValidateSequential(n: nat, xs: Script) returns (ok: bool)
    ensures ok == SequentialOk(n, xs)
  {
    var sent := new bool[n](_ => false);
    var scanno := 0;
    while scanno < |xs|
      invariant scanno <= |xs| && fresh(sent) && forall c :: 0 <= c < n ==> sent[c] == Sent(xs[..scanno], c)
      invariant SequentialSteps(n, xs[..scanno])
    {
      var x := xs[scanno];
      OneMore(n, xs, scanno);
      ok := CheckComponents(n, x);
      if !ok {
        return;
      }
      if x.ss != 0 || x.se != 63 || x.ah != 0 || x.al != 0 {
        return false;
      }
      ok := CheckSentOnce(n, x, sent, xs[..scanno]);
      if !ok {
        return;
      }
      scanno := scanno + 1;
    }
    assert xs[..scanno] == xs;
    var ci := 0;
    while ci < n
      invariant ci <= n && forall c :: 0 <= c < ci ==> Sent(xs, c)
    {
      if !sent[ci] {
        return false;
      }
      ci := ci + 1;
    }
    ok := true;
  }

  lemma OneMore(n: nat, xs: Script, i: nat)
    requires i < |xs| && SequentialSteps(n, xs[..i])
    ensures xs[..i + 1] == xs[..i] + [xs[i]]
    ensures SequentialSteps(n, xs[..i + 1]) <==>
              CompsOk(n, xs[i]) && SequentialShape(xs[i]) && forall j :: 0 <= j < |xs[i].comps| ==>
                !Sent(xs[..i], xs[i].comps[j])
    ensures SequentialSteps(n, xs) ==> SequentialSteps(n, xs[..i + 1])
  {
    forall k | 0 <= k <= i
      ensures xs[..i + 1][..k] == xs[..k] && xs[..i + 1][k] == xs[k]
    {
    }
    forall k | 0 <= k < i
      ensures xs[..i][..k] == xs[..k] && xs[..i][k] == xs[k]
    {
    }
  }

  // Accepts exactly the valid scripts, and tells whether they are progressive.
  method ValidateScript(n: nat, xs: Script) returns (progressive: Option<bool>)
    ensures progressive == if ScriptOk(n, xs) then Some(IsProgressive(xs)) else None
  {
    if |xs| == 0 {
      return None;
    }
    var ok;
    if xs[0].ss != 0 || xs[0].se != 63 {
      ok := ValidateProgressive(n, xs);
      progressive := if ok then Some(true) else None;
    } else {
      ok := ValidateSequential(n, xs);
      progressive := if ok then Some(false) else None;
    }
  }

  // ---- reduce_script ----

  // The script for blocks whose last coefficient has index lim: scans beyond are
  // dropped, others cut.
  function Reduced(xs: Script, lim: nat): Script
  {
    if xs == [] then []
    else
      var r, x := Reduced(xs[..|xs| - 1], lim), xs[|xs| - 1];
      if x.ss > lim then r else r + [Trimmed(x, lim)]
  }

  function Trimmed(x: ScanInfo, lim: nat): ScanInfo {
    if x.se > lim then x.(se := lim) else x
  }

  lemma ReducedNext(xs: Script, i: nat, lim: nat)
    requires i < |xs|
    ensures Reduced(xs[..i + 1], lim) ==
              if xs[i].ss > lim then Reduced(xs[..i], lim) else Reduced(xs[..i], lim) + [Trimmed(xs[i], lim)]
  {
    assert xs[..i + 1][..i] == xs[..i];
  }

  // In place; returns the number of scans left.
  method ReduceScript(scans: array<ScanInfo>, lim: nat) returns (count: nat)
    modifies scans
    ensures count <= scans.Length && scans[..count] == Reduced(old(scans[..]), lim)
  {
    ghost var xs := scans[..];
    count := 0;
    var idxin := 0;
    while idxin < scans.Length
      invariant count <= idxin <= scans.Length
      invariant scans[..count] == Reduced(xs[..idxin], lim)
      invariant forall k :: idxin <= k < scans.Length ==> scans[k] == xs[k]
    {
      ReducedNext(xs, idxin, lim);
      ghost var done := scans[..count];
      if idxin != count {
        scans[count] := scans[idxin];
      }
      idxin := idxin + 1;
      if scans[count].ss > lim {
        assert scans[..count] == done;
        continue;
      }
      if scans[count].se > lim {
        scans[count] := scans[count].(se := lim);
      }
      count := count + 1;
      assert scans[..count] == done + [scans[count - 1]];
    }
    assert xs[..idxin] == xs;
  }

  lemma {:induction false} ReducedPrecision(xs: Script, lim: nat, c: int, k: int)
    requires k <= lim
    ensures Precision(Reduced(xs, lim), c, k) == Precision(xs, c, k)
  {
    if xs != [] {
      ReducedPrecision(xs[..|xs| - 1], lim, c, k);
      var r, x := Reduced(xs[..|xs| - 1], lim), xs[|xs| - 1];
      assert (r + [Trimmed(x, lim)])[..|r|] == r;
    }
  }

  lemma StepsOfLast(n: nat, xs: Script, x: ScanInfo)
    ensures ProgressiveSteps(n, xs + [x]) <==>
              ProgressiveSteps(n, xs) && CompsOk(n, x) && ShapeOk(x) && MayFollow(xs, x)
  {
    var all := xs + [x];
    assert all[|xs|] == x && all[..|xs|] == xs;
    forall i | 0 <= i < |xs|
      ensures all[i] == xs[i] && all[..i] == xs[..i]
    {
    }
  }

  // Reduction keeps a progressive script valid, and the precision of every
  // coefficient that is left.
  lemma {:induction false} ReducedSteps(n: nat, xs: Script, lim: nat)
    requires ProgressiveSteps(n, xs)
    ensures ProgressiveSteps(n, Reduced(xs, lim))
  {
    if xs != [] {
      var ys, x := xs[..|xs| - 1], xs[|xs| - 1];
      assert xs == ys + [x];
      StepsOfLast(n, ys, x);
      ReducedSteps(n, ys, lim);
      if x.ss <= lim {
        var r, y := Reduced(ys, lim), Trimmed(x, lim);
        forall i | 0 <= i < |y.comps|
          ensures CompFollows(r, y, y.comps[i])
        {
          assert CompFollows(ys, x, x.comps[i]);
          ReducedPrecision(ys, lim, y.comps[i], 0);
          forall k | y.ss <= k <= y.se
            ensures CoefFollows(r, y, y.comps[i], k)
          {
            assert CoefFollows(ys, x, x.comps[i], k);
            ReducedPrecision(ys, lim, y.comps[i], k);
          }
        }
        StepsOfLast(n, r, y);
      }
    }
  }

  lemma ReducedOk(n: nat, xs: Script, lim: nat)
    requires ProgressiveOk(n, xs)
    ensures ProgressiveOk(n, Reduced(xs, lim))
    ensures forall c, k :: k <= lim ==> Precision(Reduced(xs, lim), c, k) == Precision(xs, c, k)
    ensures forall i :: 0 <= i < |Reduced(xs, lim)| ==> Reduced(xs, lim)[i].se <= lim
  {
    ReducedSteps(n, xs, lim);
    ReducedInRange(xs, lim);
    forall c, k | k <= lim
      ensures Precision(Reduced(xs, lim), c, k) == Precision(xs, c, k)
    {
      ReducedPrecision(xs, lim, c, k);
    }
  }

  lemma {:induction false} ReducedInRange(xs: Script, lim: nat)
    ensures forall i :: 0 <= i < |Reduced(xs, lim)| ==> Reduced(xs, lim)[i].se <= lim
  {
    if xs != [] {
      ReducedInRange(xs[..|xs| - 1], lim);
    }
  }

  // No scan of a sequential script is dropped.
  lemma {:induction false} ReducedSequential(n: nat, xs: Script, lim: nat)
    requires SequentialSteps(n, xs)
    ensures |Reduced(xs, lim)| == |xs| && forall i :: 0 <= i < |xs| ==> Reduced(xs, lim)[i] == Trimmed(xs[i], lim)
  {
    if xs != [] {
      var ys := xs[..|xs| - 1];
      forall i | 0 <= i < |ys|
        ensures ys[i] == xs[i] && ys[..i] == xs[..i]
      {
      }
      ReducedSequential(n, ys, lim);
    }
  }

  // For blocks of full size nothing is cut.
  lemma {:induction false} ReducedWhole(xs: Script, lim: nat)
    requires forall i :: 0 <= i < |xs| ==> xs[i].ss <= lim && xs[i].se <= lim
    ensures Reduced(xs, lim) == xs
  {
    if xs != [] {
      var z: nat := |xs| - 1;
      var ys, x := xs[..z], xs[z];
      forall i | 0 <= i < |ys|
        ensures ys[i] == xs[i]
      {
      }
      ReducedWhole(ys, lim);
      assert Trimmed(x, lim) == x && ys + [x] == xs;
    }
  }

  // The last coefficient index of a block; larger blocks have no more coefficients
  // than those of size 8.
  function LimSe(blockSize: nat): nat
    requires 1 <= blockSize <= 16
  {
    if blockSize < 8 then blockSize * blockSize - 1 else 63
  }

  // jinit_c_master_control: check the script and fit it to the block size.
  method AdoptScript(n: nat, raw: Script, blockSize: nat) returns (progressive: Option<bool>, coded: Script)
    requires 1 <= blockSize <= 16
    ensures progressive == if ScriptOk(n, raw) then Some(IsProgressive(raw)) else None
    ensures progressive.Some? ==> coded == Reduced(raw, LimSe(blockSize))
  {
    coded := raw;
    progressive := ValidateScript(n, raw);
    if progressive.Some? {
      if blockSize < 8 {
        var scans := new ScanInfo[|raw|](i requires 0 <= i < |raw| => raw[i]);
        assert scans[..] == raw;
        var count := ReduceScript(scans, LimSe(blockSize));
        coded := scans[..count];
      } else {
        ReducedWhole(raw, LimSe(blockSize));
      }
    }
  }

  // select_scan_parameters: sequential scans do not look at the script's numbers.
  function Selected(progressive: bool, x: ScanInfo, blockSize: nat): ScanInfo {
    if progressive then x else x.(ss := 0, se := blockSize * blockSize - 1, ah := 0, al := 0)
  }

  // ---- the decoder's checks at the start of a progressive scan ----

  predicate DecoderAccepts(x: ScanInfo, lim: nat) {
    && (if x.ss == 0 then x.se == 0 else x.ss <= x.se <= lim && |x.comps| == 1)
    && (x.ah != 0 ==> x.al == x.ah - 1) && x.al <= 13
  }

  // A scan that draws no progression warning after the scans xs.
  predicate InOrder(xs: Script, x: ScanInfo, c: int) {
    && (x.ss != 0 ==> Precision(xs, c, 0) >= 0)
    && forall k :: x.ss <= k <= x.se ==> BitExpected(xs, x, c, k)
  }

  predicate BitExpected(xs: Script, x: ScanInfo, c: int, k: int) {
    x.ah == if Precision(xs, c, k) < 0 then 0 else Precision(xs, c, k)
  }

  // The decoder's progression record, coef_bits, of component c.
  method UpdateStatus(x: ScanInfo, c: int, bits: array2<int>, ghost xs: Script) returns (warned: bool)
    requires 0 <= c < bits.Length0 && bits.Length1 == 64 && 0 <= x.ss <= x.se < 64
    requires forall k :: 0 <= k < 64 ==> bits[c, k] == Precision(xs, c, k)
    modifies bits
    ensures warned == !InOrder(xs, x, c)
    ensures forall k :: 0 <= k < 64 ==> bits[c, k] == if x.ss <= k <= x.se then x.al else Precision(xs, c, k)
    ensures forall d, k :: 0 <= d < bits.Length0 && 0 <= k < 64 && d != c ==> bits[d, k] == old(bits[d, k])
  {
    warned := x.ss != 0 && bits[c, 0] < 0;
    ghost var early := warned;
    var k := x.ss;
    while k <= x.se
      invariant x.ss <= k <= x.se + 1
      invariant warned == (early || exists j :: x.ss <= j < k && !BitExpected(xs, x, c, j))
      invariant forall j :: 0 <= j < 64 ==> bits[c, j] == if x.ss <= j < k then x.al else Precision(xs, c, j)
      invariant forall d, j :: 0 <= d < bits.Length0 && 0 <= j < 64 && d != c ==> bits[d, j] == old(bits[d, j])
    {
      assert bits[c, k] == Precision(xs, c, k);
      var expected := if bits[c, k] < 0 then 0 else bits[c, k];
      if x.ah != expected {
        assert !BitExpected(xs, x, c, k);
        warned := true;
      }
      bits[c, k] := x.al;
      k := k + 1;
    }
  }

  // start_pass for a sequential scan.
  predicate SequentialWarns(x: ScanInfo, lim: nat, baseline: bool) {
    x.ss != 0 || x.ah != 0 || x.al != 0 || ((baseline || x.se < 64) && x.se != lim)
  }

  // start_pass of either entropy decoder in progressive mode: a fatal error, or perhaps
  // warnings.
  method StartProgressiveScan(n: nat, x: ScanInfo, lim: nat, bits: array2<int>, ghost xs: Script)
    returns (ok: bool, warned: bool)
    requires CompsOk(n, x) && x.ss >= 0 && lim < 64 && Records(bits, n, xs)
    modifies bits
    ensures ok == DecoderAccepts(x, lim)
    ensures ok ==>
              Records(bits, n, xs + [x]) && (warned <==> exists i :: 0 <= i < |x.comps| && !InOrder(xs, x, x.comps[i]))
  {
    warned := false;
    if x.ss == 0 {
      if x.se != 0 {
        return false, warned;
      }
    } else {
      if x.se < x.ss || x.se > lim {
        return false, warned;
      }
      if |x.comps| != 1 {
        return false, warned;
      }
    }
    if x.ah != 0 && x.ah - 1 != x.al {
      return false, warned;
    }
    if x.al > 13 {
      return false, warned;
    }
    ghost var all := xs + [x];
    assert all[..|all| - 1] == xs;
    var ci := 0;
    while ci < |x.comps|
      invariant ci <= |x.comps| && warned == exists i :: 0 <= i < ci && !InOrder(xs, x, x.comps[i])
      invariant forall c, k :: 0 <= c < n && 0 <= k < 64 ==>
                  bits[c, k] == if c in x.comps[..ci] && x.ss <= k <= x.se then x.al else Precision(xs, c, k)
    {
      Distinct(n, x, ci);
      assert x.comps[..ci + 1] == x.comps[..ci] + [x.comps[ci]];
      var w := UpdateStatus(x, x.comps[ci], bits, xs);
      warned := warned || w;
      ci := ci + 1;
    }
    assert x.comps[..ci] == x.comps;
    ok := true;
  }

  // No scan of a valid script makes the decoder fail or warn, reduced or not.
  lemma DecoderContent(n: nat, xs: Script, lim: nat, i: nat)
    requires ProgressiveOk(n, xs) && i < |Reduced(xs, lim)|
    ensures var ys := Reduced(xs, lim);
            DecoderAccepts(ys[i], lim) && forall j :: 0 <= j < |ys[i].comps| ==> InOrder(ys[..i], ys[i], ys[i].comps[j])
  {
    ReducedOk(n, xs, lim);
    var ys := Reduced(xs, lim);
    assert MayFollow(ys[..i], ys[i]);
    forall j | 0 <= j < |ys[i].comps|
      ensures InOrder(ys[..i], ys[i], ys[i].comps[j]) && (ys[i].ah != 0 ==> ys[i].al == ys[i].ah - 1)
    {
      assert CompFollows(ys[..i], ys[i], ys[i].comps[j]);
      assert CoefFollows(ys[..i], ys[i], ys[i].comps[j], ys[i].ss);
      forall k | ys[i].ss <= k <= ys[i].se
        ensures BitExpected(ys[..i], ys[i], ys[i].comps[j], k)
      {
        assert CoefFollows(ys[..i], ys[i], ys[i].comps[j], k);
      }
    }
    assert |ys[i].comps| > 0;
    assert CompFollows(ys[..i], ys[i], ys[i].comps[0]);
  }
}

// Master control of compression (jcmaster.c): which pass comes next.

module PassController {
  datatype PassType = MainPass | HuffOptPass | OutputPass

  // What a pass does: gather statistics for a scan, or output it.
  datatype Pass = Gather(scan: nat) | Output(scan: nat)

  // ---- the schedule ----

  // DC refinement scans need no statistics; but the main pass does not look for them.
  predicate Skips(refining: seq<bool>, transcode: bool, i: nat)
    requires i < |refining|
  {
    refining[i] && (i > 0 || transcode)
  }

  function PassesOf(refining: seq<bool>, optimize: bool, transcode: bool, i: nat): seq<Pass>
    requires i < |refining|
  {
    if optimize && !Skips(refining, transcode, i) then [Gather(i), Output(i)] else [Output(i)]
  }

  // The passes for the scans before i.
  function Schedule(refining: seq<bool>, optimize: bool, transcode: bool, i: nat): seq<Pass>
    requires i <= |refining|
  {
    if i == 0 then []
    else Schedule(refining, optimize, transcode, i - 1) + PassesOf(refining, optimize, transcode, i - 1)
  }

  function Outputs(log: seq<Pass>): seq<nat> {
    if log == [] then []
    else Outputs(log[..|log| - 1]) + if log[|log| - 1].Output? then [log[|log| - 1].scan] else []
  }

  // Every scan is output once, in order.
  lemma {:induction false} OutputOnce(refining: seq<bool>, optimize: bool, transcode: bool, i: nat)
    requires i <= |refining|
    ensures Outputs(Schedule(refining, optimize, transcode, i)) == seq(i, (k: nat) => k)
    decreases i
  {
    if i > 0 {
      OutputOnce(refining, optimize, transcode, i - 1);
      var log, now := Schedule(refining, optimize, transcode, i - 1), PassesOf(refining, optimize, transcode, i - 1);
      OutputsWith(log, now, i - 1);
      assert seq(i - 1, (k: nat) => k) + [i - 1] == seq(i, (k: nat) => k);
    }
  }

  // The passes of one scan output that scan.
  lemma OutputsWith(log: seq<Pass>, now: seq<Pass>, n: nat)
    requires now == [Output(n)] || now == [Gather(n), Output(n)]
    ensures Outputs(log + now) == Outputs(log) + [n]
  {
    if |now| == 2 {
      assert log + now == log + [Gather(n)] + [Output(n)];
      OutputsOneMore(log, Gather(n));
      OutputsOneMore(log + [Gather(n)], Output(n));
    } else {
      OutputsOneMore(log, Output(n));
    }
  }

  lemma OutputsOneMore(log: seq<Pass>, p: Pass)
    ensures Outputs(log + [p]) == Outputs(log) + if p.Output? then [p.scan] else []
  {
    assert (log + [p])[..|log|] == log;
  }

  // Statistics are gathered for a scan directly before it is output, and nothing else is
  // coded in between. They are gathered for every scan but those of DC refinement, if at
  // all; and for the first scan in any case, unless the coefficients are transcoded.
  predicate Gathers(refining: seq<bool>, optimize: bool, transcode: bool, log: seq<Pass>, n: nat)
    requires n <= |refining|
  {
    && (forall p :: 0 <= p < |log| ==> log[p].scan < n)
    && (forall p :: 0 <= p < |log| && log[p].Gather? ==> p + 1 < |log| && log[p + 1] == Output(log[p].scan))
    && (optimize ==> forall p :: 0 <= p < |log| && log[p].Output? && !refining[log[p].scan] ==>
          p > 0 && log[p - 1] == Gather(log[p].scan))
    && (forall i: nat {:trigger Gather(i)} :: i < n ==>
          (Gather(i) in log <==> optimize && (!refining[i] || (i == 0 && !transcode))))
  }

  lemma {:induction false} GatheredBefore(refining: seq<bool>, optimize: bool, transcode: bool, n: nat)
    requires n <= |refining|
    ensures Gathers(refining, optimize, transcode, Schedule(refining, optimize, transcode, n), n)
  {
    if n > 0 {
      GatheredBefore(refining, optimize, transcode, n - 1);
      var log, now := Schedule(refining, optimize, transcode, n - 1), PassesOf(refining, optimize, transcode, n - 1);
      GathersMore(refining, optimize, transcode, log, now, n);
    }
  }

  lemma GathersMore(refining: seq<bool>, optimize: bool, transcode: bool, log: seq<Pass>, now: seq<Pass>, n: nat)
    requires 0 < n <= |refining| && Gathers(refining, optimize, transcode, log, n - 1)
    requires now == PassesOf(refining, optimize, transcode, n - 1)
    ensures Gathers(refining, optimize, transcode, log + now, n)
  {
    assert Gather(n - 1) !in log;
    if optimize && !Skips(refining, transcode, n - 1) {
      assert log + now == log + [Gather(n - 1), Output(n - 1)];
      assert (log + now)[|log|] == Gather(n - 1);
    } else {
      assert log + now == log + [Output(n - 1)];
    }
    forall i: nat | i < n - 1
      ensures Gather(i) in log + now <==> Gather(i) in log
    {
      assert Gather(i) !in now;
    }
  }

  // ---- the state machine ----

  class Master {
    const refining: seq<bool>
    const optimize: bool
    const transcode: bool
    const totalPasses: nat
    var passType: PassType
    var passNumber: nat
    var scanNumber: nat
    var isLastPass: bool
    // The scan whose parameters select_scan_parameters has set up.
    var selected: nat
    // What was done: passes, and the scans before which a frame header was written.
    var log: seq<Pass>
    var frameHeaders: seq<nat>

    constructor (scans: seq<bool>, optimizeCoding: bool, transcodeOnly: bool)
      requires scans != []
      ensures Between() && scanNumber == 0 && !isLastPass && log == [] && frameHeaders == []
      ensures refining == scans && optimize == optimizeCoding && transcode == transcodeOnly
    {
      refining, optimize, transcode := scans, optimizeCoding, transcodeOnly;
      passType := if !transcodeOnly then MainPass else if optimizeCoding then HuffOptPass else OutputPass;
      totalPasses := if optimizeCoding then |scans| * 2 else |scans|;
      passNumber, scanNumber, isLastPass, selected, log, frameHeaders := 0, 0, false, 0, [], [];
    }

    // The passes done when the scans before i are output.
    ghost predicate Logged(i: nat)
      reads this
    {
      && i <= |refining| && log == Schedule(refining, optimize, transcode, i)
      && frameHeaders == if i == 0 then [] else [0]
    }

    // Between passes: the next one begins scan scanNumber, or outputs it after its
    // statistics were gathered.
    ghost predicate Between()
      reads this
    {
      && totalPasses == (if optimize then |refining| * 2 else |refining|)
      && (passType == MainPass <==> !transcode && passNumber == 0)
      && (passType == HuffOptPass ==> optimize)
      && (if optimize && passType == OutputPass then
            && passNumber == 2 * scanNumber + 1 && scanNumber < |refining| && selected == scanNumber
            && !Skips(refining, transcode, scanNumber)
            && log == Schedule(refining, optimize, transcode, scanNumber) + [Gather(scanNumber)]
            && frameHeaders == (if scanNumber == 0 then [] else [0])
          else passNumber == (if optimize then 2 * scanNumber else scanNumber) && Logged(scanNumber))
    }

    // The pass that is running.
    ghost predicate Running()
      reads this
    {
      && totalPasses == (if optimize then |refining| * 2 else |refining|)
      && scanNumber < |refining| && selected == scanNumber
      && isLastPass == (passNumber == totalPasses - 1)
      && (passType == MainPass <==> !transcode && passNumber == 0) && (passType == HuffOptPass ==> optimize)
      && if optimize && passType != OutputPass then
           && passNumber == 2 * scanNumber && !Skips(refining, transcode, scanNumber)
           && log == Schedule(refining, optimize, transcode, scanNumber) + [Gather(scanNumber)]
           && frameHeaders == (if scanNumber == 0 then [] else [0])
         else passNumber == (if optimize then 2 * scanNumber + 1 else scanNumber) && Logged(scanNumber + 1)
    }

    method Record(p: Pass)
      modifies this`log
      ensures log == old(log) + [p]
    {
      log := log + [p];
    }

    // An output pass; the parameters of the scan are those of its statistics pass.
    method StartOutput()
      modifies this`log, this`selected, this`frameHeaders
      ensures selected == if optimize then old(selected) else scanNumber
      ensures log == old(log) + [Output(selected)]
      ensures frameHeaders == old(frameHeaders) + if scanNumber == 0 then [selected] else []
    {
      if !optimize {
        selected := scanNumber;
      }
      if scanNumber == 0 {
        frameHeaders := frameHeaders + [selected];
      }
      Record(Output(selected));
    }

    // prepare_for_pass. In a main pass without optimisation the headers are written by
    // pass_startup, before any data.
    method PrepareForPass()
      requires Between() && scanNumber < |refining|
      modifies this
      ensures Running() && scanNumber == old(scanNumber) && passNumber >= old(passNumber)
    {
      match passType {
      case MainPass =>
        selected := scanNumber;
        if optimize {
          Record(Gather(selected));
        } else {
          frameHeaders := frameHeaders + [selected];
          Record(Output(selected));
        }
      case HuffOptPass =>
        selected := scanNumber;
        if !refining[selected] {
          Record(Gather(selected));
        } else {
          // DC refinement scans need no Huffman table.
          passType := OutputPass;
          passNumber := passNumber + 1;
          StartOutput();
        }
      case OutputPass =>
        StartOutput();
      }
      isLastPass := passNumber == totalPasses - 1;
    }

    // finish_pass_master.
    method FinishPass()
      requires Running()
      modifies this
      ensures Between() && passNumber == old(passNumber) + 1 && isLastPass == old(isLastPass)
      ensures isLastPass <==> scanNumber == |refining|
    {
      match passType {
      case MainPass =>
        passType := OutputPass;
        if !optimize {
          scanNumber := scanNumber + 1;
        }
      case HuffOptPass =>
        passType := OutputPass;
      case OutputPass =>
        if optimize {
          passType := HuffOptPass;
        }
        scanNumber := scanNumber + 1;
      }
      passNumber := passNumber + 1;
    }
  }

  // All passes of a compression: the first one, and what jpeg_finish_compress does after it.
  method RunPasses(refining: seq<bool>, optimize: bool, transcode: bool)
    returns (log: seq<Pass>, frameHeaders: seq<nat>)
    requires refining != []
    ensures log == Schedule(refining, optimize, transcode, |refining|) && frameHeaders == [0]
    ensures Outputs(log) == seq(|refining|, (k: nat) => k)
    ensures Gathers(refining, optimize, transcode, log, |refining|)
  {
    var m := new Master(refining, optimize, transcode);
    while !m.isLastPass
      invariant m.Between() && fresh(m) && m.refining == refining && m.optimize == optimize && m.transcode == transcode
      invariant m.isLastPass <==> m.scanNumber == |refining|
      decreases 2 * |refining| + 1 - m.passNumber
    {
      m.PrepareForPass();
      m.FinishPass();
    }
    log, frameHeaders := m.log, m.frameHeaders;
    OutputOnce(refining, optimize, transcode, |refining|);
    GatheredBefore(refining, optimize, transcode, |refining|);
  }
}

/**
 * The polling state machine of the service (`main_loop`).
 *
 * Each iteration takes one sample: the activity classification of that
 * iteration and the result that `send_report` would return if the iteration
 * sends a report (an oracle). The loop state is the three variables of the
 * loop: the last acknowledged activity state, whether the keyboard is
 * believed connected, and the number of consecutive failed sends. The fixed
 * two-second sleep of every iteration is implicit; the extra five-second
 * wait is an output flag. The loop ends when the samples run out, which
 * stands for the stop event being set.
 */
module Polling {
  import opened Wrappers
  import Report

  /** More consecutive failures than this add the extra five-second wait. */
  const ReconnectBackoffThreshold: nat := 10
  /** While nothing changes, a reconnection probe is sent when the failure count is a multiple of this. */
  const ProbeInterval: nat := 5

  datatype LoopState = LoopState(lastState: bool, deviceConnected: bool, reconnectAttempts: nat)

  /** One iteration's input: is the host active, and would a send in this iteration succeed. */
  datatype Sample = Sample(active: bool, sendOk: bool)

  /** One iteration's effects: the report handed to `send_report`, if any, and the extra wait. */
  datatype StepOutput = StepOutput(report: Option<seq<Report.byte>>, extraWait: bool)

  datatype StepResult = StepResult(next: LoopState, out: StepOutput)

  /** The loop's invariant: connected exactly when there is no outstanding failure. */
  predicate Invariant(s: LoopState) {
    s.deviceConnected <==> s.reconnectAttempts == 0
  }

  /** The state before the first iteration: the first sample, connected, no failures. */
  function InitialState(firstSample: bool): (s: LoopState)
    ensures Invariant(s) && s.lastState == firstSample
  {
    LoopState(firstSample, true, 0)
  }

  /** One iteration of the loop body. */
  function Step(s: LoopState, x: Sample): (r: StepResult)
    ensures r.out.report.Some? ==> r.out.report.value == Report.BuildReport(x.active)
    ensures r.out.extraWait ==> r.out.report.Some? && x.active != s.lastState && !x.sendOk
    ensures r.next.lastState != s.lastState ==> r.out.report.Some? && x.sendOk && r.next.lastState == x.active
    ensures r.next.reconnectAttempts > s.reconnectAttempts
            ==> x.active != s.lastState && r.next.reconnectAttempts == s.reconnectAttempts + 1
  {
    if x.active != s.lastState then
      var report := Report.BuildReport(x.active);
      if x.sendOk then
        StepResult(LoopState(x.active, true, 0), StepOutput(Some(report), false))
      else
        var attempts := s.reconnectAttempts + 1;
        StepResult(LoopState(s.lastState, false, attempts),
                   StepOutput(Some(report), attempts > ReconnectBackoffThreshold))
    else if !s.deviceConnected && s.reconnectAttempts % ProbeInterval == 0 then
      var report := Report.BuildReport(x.active);
      if x.sendOk then
        StepResult(LoopState(x.active, true, 0), StepOutput(Some(report), false))
      else
        StepResult(s, StepOutput(Some(report), false))
    else
      StepResult(s, StepOutput(None, false))
  }

  /** The state after running the loop over `xs`, starting from `s`. */
  function Run(s: LoopState, xs: seq<Sample>): (r: LoopState)
    ensures r.reconnectAttempts <= s.reconnectAttempts + |xs|
    decreases |xs|
  {
    if xs == [] then s else Step(Run(s, xs[..|xs| - 1]), xs[|xs| - 1]).next
  }

  /** The effects of every iteration of the loop over `xs`, starting from `s`. */
  function Trace(s: LoopState, xs: seq<Sample>): (outs: seq<StepOutput>)
    ensures |outs| == |xs|
    ensures forall k :: 0 <= k < |xs| && outs[k].report.Some? ==> outs[k].report.value == Report.BuildReport(xs[k].active)
    decreases |xs|
  {
    if xs == [] then [] else Trace(s, xs[..|xs| - 1]) + [Step(Run(s, xs[..|xs| - 1]), xs[|xs| - 1]).out]
  }

  /**
   * `main_loop`: the three loop variables start from the first sample, and
   * each sample runs one iteration of the body.
   */
  method MainLoop(firstSample: bool, samples: seq<Sample>) returns (outputs: seq<StepOutput>, final: LoopState)
    ensures final == Run(InitialState(firstSample), samples)
    ensures outputs == Trace(InitialState(firstSample), samples)
    ensures Invariant(final)
  {
    var lastState := firstSample;
    var deviceConnected := true;
    var reconnectAttempts: nat := 0;
    outputs := [];
    var i := 0;
    while i < |samples|
      invariant 0 <= i <= |samples|
      invariant LoopState(lastState, deviceConnected, reconnectAttempts) == Run(InitialState(firstSample), samples[..i])
      invariant outputs == Trace(InitialState(firstSample), samples[..i])
      invariant deviceConnected <==> reconnectAttempts == 0
    {
      var currentState := samples[i].active;
      var report: Option<seq<Report.byte>> := None;
      var extraWait := false;
      if currentState != lastState {
        report := Some(Report.BuildReport(currentState));
        var success := samples[i].sendOk;
        if success {
          lastState := currentState;
          deviceConnected := true;
          reconnectAttempts := 0;
        } else {
          if deviceConnected {
            deviceConnected := false;
          }
          reconnectAttempts := reconnectAttempts + 1;
          if reconnectAttempts > ReconnectBackoffThreshold {
            extraWait := true;
          }
        }
      } else if !deviceConnected && reconnectAttempts % ProbeInterval == 0 {
        report := Some(Report.BuildReport(currentState));
        if samples[i].sendOk {
          deviceConnected := true;
          reconnectAttempts := 0;
          lastState := currentState;
        }
      }
      outputs := outputs + [StepOutput(report, extraWait)];
      assert samples[..i + 1][..i] == samples[..i];
      i := i + 1;
    }
    assert samples[..|samples|] == samples;
    final := LoopState(lastState, deviceConnected, reconnectAttempts);
  }

  // ---------------------------------------------------------------------
  // Properties of one iteration
  // ---------------------------------------------------------------------

  /** Every iteration preserves the invariant. */
  lemma StepPreservesInvariant(s: LoopState, x: Sample)
    requires Invariant(s)
    ensures Invariant(Step(s, x).next)
  {
  }

  /**
   * The connection flag turns false only on a failed send and true only on a
   * successful one.
   */
  lemma ConnectivityFollowsSends(s: LoopState, x: Sample)
    ensures var r := Step(s, x);
            r.next.deviceConnected != s.deviceConnected
            ==> r.out.report.Some? && r.next.deviceConnected == x.sendOk
  {
  }

  /**
   * When the state changed, a report is always sent; success commits the new
   * state and clears the failures, failure keeps the old state, marks the
   * keyboard disconnected and counts one more failure, with the extra wait
   * exactly when the count now exceeds ten.
   */
  lemma ChangeBranch(s: LoopState, x: Sample)
    requires x.active != s.lastState
    ensures var r := Step(s, x);
            && r.out.report == Some(Report.BuildReport(x.active))
            && (x.sendOk ==> r.next == LoopState(x.active, true, 0))
            && (!x.sendOk ==> r.next == LoopState(s.lastState, false, s.reconnectAttempts + 1))
            && (r.out.extraWait <==> !x.sendOk && s.reconnectAttempts + 1 > ReconnectBackoffThreshold)
  {
  }

  /**
   * When the state did not change, a probe is sent exactly when the keyboard
   * is disconnected and the failure count is a multiple of five; there is
   * never an extra wait; a failed probe changes nothing and a successful one
   * reconnects.
   */
  lemma NoChangeBranch(s: LoopState, x: Sample)
    requires x.active == s.lastState
    ensures var r := Step(s, x);
            && (r.out.report.Some? <==> !s.deviceConnected && s.reconnectAttempts % ProbeInterval == 0)
            && !r.out.extraWait
            && r.next == if r.out.report.Some? && x.sendOk then LoopState(s.lastState, true, 0) else s
  {
  }

  // ---------------------------------------------------------------------
  // Properties of whole runs
  // ---------------------------------------------------------------------

  lemma {:induction false} RunPreservesInvariant(s: LoopState, xs: seq<Sample>)
    requires Invariant(s)
    ensures Invariant(Run(s, xs))
    decreases |xs|
  {
    if xs != [] {
      RunPreservesInvariant(s, xs[..|xs| - 1]);
      StepPreservesInvariant(Run(s, xs[..|xs| - 1]), xs[|xs| - 1]);
    }
  }

  /** The k-th output of a run is the output of the step taken from the state reached after k samples. */
  lemma {:induction false} TraceAt(s: LoopState, xs: seq<Sample>, k: nat)
    requires k < |xs|
    ensures Trace(s, xs)[k] == Step(Run(s, xs[..k]), xs[k]).out
    decreases |xs|
  {
    var init := xs[..|xs| - 1];
    if k < |xs| - 1 {
      TraceAt(s, init, k);
      assert init[..k] == xs[..k];
    }
  }

  /**
   * The committed state only changes on a successful send: while every
   * sample equals it and the keyboard is connected, nothing is sent and the
   * state stays as it is.
   */
  lemma {:induction false} SteadyConnectedIsQuiet(s: LoopState, xs: seq<Sample>)
    requires s.deviceConnected
    requires forall k :: 0 <= k < |xs| ==> xs[k].active == s.lastState
    ensures Run(s, xs) == s
    ensures forall k :: 0 <= k < |xs| ==> Trace(s, xs)[k].report.None?
    decreases |xs|
  {
    if xs != [] {
      SteadyConnectedIsQuiet(s, xs[..|xs| - 1]);
    }
    forall k | 0 <= k < |xs| ensures Trace(s, xs)[k].report.None? {
      TraceAt(s, xs, k);
      SteadyConnectedIsQuiet(s, xs[..k]);
    }
  }

  /**
   * A disconnected keyboard whose failure count is not a multiple of five is
   * never probed while the activity state stays unchanged: the count only
   * grows in the change branch, so it is stuck.
   */
  lemma {:induction false} UnchangedOffCycleNeverProbes(s: LoopState, xs: seq<Sample>)
    requires !s.deviceConnected && s.reconnectAttempts % ProbeInterval != 0
    requires forall k :: 0 <= k < |xs| ==> xs[k].active == s.lastState
    ensures Run(s, xs) == s
    ensures forall k :: 0 <= k < |xs| ==> Trace(s, xs)[k].report.None?
    decreases |xs|
  {
    if xs != [] {
      UnchangedOffCycleNeverProbes(s, xs[..|xs| - 1]);
    }
    forall k | 0 <= k < |xs| ensures Trace(s, xs)[k].report.None? {
      TraceAt(s, xs, k);
      UnchangedOffCycleNeverProbes(s, xs[..k]);
    }
  }

  /**
   * With a failure count that is a multiple of five, failed probes leave the
   * count where it is, so while nothing changes a probe goes out in every
   * iteration, not every fifth.
   */
  lemma {:induction false} DueProbeRepeatsEveryIteration(s: LoopState, xs: seq<Sample>)
    requires !s.deviceConnected && s.reconnectAttempts % ProbeInterval == 0
    requires forall k :: 0 <= k < |xs| ==> xs[k].active == s.lastState && !xs[k].sendOk
    ensures Run(s, xs) == s
    ensures forall k :: 0 <= k < |xs| ==> Trace(s, xs)[k].report.Some?
    decreases |xs|
  {
    if xs != [] {
      DueProbeRepeatsEveryIteration(s, xs[..|xs| - 1]);
    }
    forall k | 0 <= k < |xs| ensures Trace(s, xs)[k].report.Some? {
      TraceAt(s, xs, k);
      DueProbeRepeatsEveryIteration(s, xs[..k]);
    }
  }

  /**
   * Consecutive failed sends after state changes: the committed state stays,
   * the keyboard is disconnected, each failure is counted, and iteration k
   * takes the extra wait exactly when the count it reaches exceeds ten.
   */
  lemma {:induction false} ConsecutiveFailures(s: LoopState, xs: seq<Sample>)
    requires forall k :: 0 <= k < |xs| ==> xs[k].active != s.lastState && !xs[k].sendOk
    ensures Run(s, xs) == if xs == [] then s else LoopState(s.lastState, false, s.reconnectAttempts + |xs|)
    ensures forall k :: 0 <= k < |xs| ==>
              Trace(s, xs)[k].report.Some?
              && (Trace(s, xs)[k].extraWait <==> s.reconnectAttempts + k + 1 > ReconnectBackoffThreshold)
    decreases |xs|
  {
    if xs != [] {
      ConsecutiveFailures(s, xs[..|xs| - 1]);
    }
    forall k | 0 <= k < |xs|
      ensures Trace(s, xs)[k].report.Some?
      ensures Trace(s, xs)[k].extraWait <==> s.reconnectAttempts + k + 1 > ReconnectBackoffThreshold
    {
      TraceAt(s, xs, k);
      ConsecutiveFailures(s, xs[..k]);
    }
  }

  /**
   * Starting connected, eleven consecutive failed transitions take exactly
   * one extra wait, in the eleventh iteration, before the twelfth attempt.
   */
  lemma ElevenFailuresOneExtraWait()
    ensures var s := LoopState(true, true, 0);
            var xs := seq(11, _ => Sample(false, false));
            && Run(s, xs) == LoopState(true, false, 11)
            && forall k :: 0 <= k < 11 ==> (Trace(s, xs)[k].extraWait <==> k == 10)
  {
    var s := LoopState(true, true, 0);
    var xs := seq(11, _ => Sample(false, false));
    ConsecutiveFailures(s, xs);
  }

  /**
   * Starting active, the activity sequence active, active, idle, idle, active
   * with every send succeeding sends exactly two reports, in iterations 2
   * and 4, and ends with active committed.
   */
  lemma ActivityScenario()
    ensures var xs := [Sample(true, true), Sample(true, true), Sample(false, true), Sample(false, true), Sample(true, true)];
            && (forall k :: 0 <= k < 5 ==> (Trace(InitialState(true), xs)[k].report.Some? <==> k == 2 || k == 4))
            && Run(InitialState(true), xs) == LoopState(true, true, 0)
  {
    var s := InitialState(true);
    var xs := [Sample(true, true), Sample(true, true), Sample(false, true), Sample(false, true), Sample(true, true)];
    assert xs[..0] == [];
    assert xs[..1][..0] == [];
    assert xs[..2][..1] == xs[..1];
    assert xs[..3][..2] == xs[..2];
    assert xs[..4][..3] == xs[..3];
    assert xs[..5] == xs;
    assert xs[..4] == xs[..5][..4];
    assert Run(s, xs[..1]) == s;
    assert Run(s, xs[..2]) == s;
    assert Run(s, xs[..3]) == LoopState(false, true, 0);
    assert Run(s, xs[..4]) == LoopState(false, true, 0);
    forall k | 0 <= k < 5 ensures Trace(s, xs)[k].report.Some? <==> k == 2 || k == 4 {
      TraceAt(s, xs, k);
    }
  }
}

/**
 The control loop `seguir_linea`: cycle after cycle it reads the sensor and the clock,
 runs one PID cycle and drives the wheels, until the back button is seen at the top of
 a cycle or a keyboard interrupt arrives; on either exit the `finally` block switches
 the motors off.

 What the loop observes is an input: one poll per loop entry. A finite trace that ends
 without an exit event describes a loop that is still running, so no stop is issued.
 */
module LineFollower {
  import opened Saturation
  import opened Pid
  import Calibration

  /** What the loop sees on one pass. */
  datatype Poll =
    | Cycle(light: int, now: real)                // back not pressed: a full cycle runs
    | Back                                        // back button pressed: the loop guard fails
    | Interrupt                                   // interrupt at a cycle boundary (the pause or the guard)
    | InterruptAfterDrive(light: int, now: real)  // interrupt after the wheels were driven, before the history update

  /** Commands to the motor pair. */
  datatype Command = Drive(left: real, right: real) | Off

  /** The per-cycle values the logging variant records. */
  datatype Record = Record(timestamp: real, light: int, error: real, left: real, right: real)

  /** What a run produces: motor commands, one record per completed cycle, final history, and whether it stopped. */
  datatype Run = Run(commands: seq<Command>, records: seq<Record>, history: PidState, stopped: bool)

  /** The loop as a function of its polls, from history `s`: the specification of both loop methods. */
  function RunFrom(target: real, s: PidState, polls: seq<Poll>): (r: Run)
    decreases |polls|
    ensures |r.records| <= |polls|
    ensures |r.records| <= |r.commands|
  {
    if polls == [] then Run([], [], s, false)
    else
      var p := polls[0];
      if p.Back? || p.Interrupt? then Run([Off], [], s, true)
      else
        var c := Step(target, s, p.light, p.now);
        if p.InterruptAfterDrive? then
          // the integral was already updated; last_error and last_t were not
          Run([Drive(c.left, c.right), Off], [], PidState(c.next.integral, s.lastError, s.lastT), true)
        else
          var rest := RunFrom(target, c.next, polls[1..]);
          Run([Drive(c.left, c.right)] + rest.commands,
              [Record(p.now, p.light, c.error, c.left, c.right)] + rest.records,
              rest.history, rest.stopped)
  }

  /** The number of cycles completed before the first exit event (or before the trace ends). */
  function Completed(polls: seq<Poll>): (n: nat)
    ensures n <= |polls|
    ensures forall k :: 0 <= k < n ==> polls[k].Cycle?
    ensures n < |polls| ==> !polls[n].Cycle?
  {
    if polls == [] || !polls[0].Cycle? then 0 else 1 + Completed(polls[1..])
  }

  /** A drive command the actuator accepts: both speeds in percent within range. */
  predicate ValidDrive(cmd: Command)
  {
    cmd.Drive? ==> -SPEED_LIMIT <= cmd.left <= SPEED_LIMIT && -SPEED_LIMIT <= cmd.right <= SPEED_LIMIT
  }

  /** Concatenation is associative: what the loops append one piece at a time is the whole. */
  lemma AppendAssoc<T>(a: seq<T>, b: seq<T>, c: seq<T>)
    ensures a + (b + c) == (a + b) + c
  {
  }

  /** One pass of the loop at poll `i`: what the run from there consists of, in terms of the run from `i + 1`. */
  lemma RunStep(target: real, s: PidState, polls: seq<Poll>, i: nat)
    requires i < |polls|
    ensures var p := polls[i];
            var r := RunFrom(target, s, polls[i..]);
            && ((p.Back? || p.Interrupt?) ==> r.commands == [Off] && r.records == [])
            && (p.InterruptAfterDrive? ==>
                  var c := Step(target, s, p.light, p.now);
                  r.commands == [Drive(c.left, c.right), Off] && r.records == [])
            && (p.Cycle? ==>
                  var c := Step(target, s, p.light, p.now);
                  var rest := RunFrom(target, c.next, polls[i + 1..]);
                  && r.commands == [Drive(c.left, c.right)] + rest.commands
                  && r.records == [Record(p.now, p.light, c.error, c.left, c.right)] + rest.records)
  {
    assert polls[i..][0] == polls[i];
    assert polls[i..][1..] == polls[i + 1..];
  }

  /** `seguir_linea(black, white, target)` without the log; only `target` is used. */
  method FollowLine(cal: Calibration.CalibrationResult, t0: real, polls: seq<Poll>) returns (commands: seq<Command>)
    ensures commands == RunFrom(cal.target, Start(t0), polls).commands
  {
    var target := cal.target;
    var integral, lastError, lastT := 0.0, 0.0, t0;
    ghost var spec := RunFrom(target, Start(t0), polls).commands;
    commands := [];
    var i := 0;
    var running := true;
    while running && i < |polls|
      invariant 0 <= i <= |polls|
      invariant running ==> spec == commands + RunFrom(target, PidState(integral, lastError, lastT), polls[i..]).commands
      invariant !running ==> spec == commands + [Off]
      decreases |polls| - i, running
    {
      ghost var s := PidState(integral, lastError, lastT);
      var p := polls[i];
      if p.Back? || p.Interrupt? {
        RunStep(target, s, polls, i);
        running := false;
      } else {
        var light, now := p.light, p.now;
        var dt, error, nextIntegral, derivative, turn, left, right := ComputeCycle(target, integral, lastError, lastT, light, now);
        integral := nextIntegral;
        RunStep(target, s, polls, i);
        AppendAssoc(commands, [Drive(left, right)], RunFrom(target, PidState(integral, error, now), polls[i + 1..]).commands);
        assert [Drive(left, right), Off] == [Drive(left, right)] + [Off];
        AppendAssoc(commands, [Drive(left, right)], [Off]);
        commands := commands + [Drive(left, right)];
        if p.InterruptAfterDrive? {
          running := false;
        } else {
          lastError := error;
          lastT := now;
          i := i + 1;
        }
      }
    }
    // finally: the motors are switched off on every exit from the loop
    if !running {
      commands := commands + [Off];
    }
  }

  /** A run that starts with a cycle: that cycle's drive and record, then the run from the history it leaves. */
  lemma RunCons(target: real, s: PidState, polls: seq<Poll>)
    requires polls != [] && polls[0].Cycle?
    ensures var c := Step(target, s, polls[0].light, polls[0].now);
            var rest := RunFrom(target, c.next, polls[1..]);
            RunFrom(target, s, polls)
              == Run([Drive(c.left, c.right)] + rest.commands,
                     [Record(polls[0].now, polls[0].light, c.error, c.left, c.right)] + rest.records,
                     rest.history, rest.stopped)
  {
  }

  /**
   The shape of a run: one drive and one record per completed cycle, carrying the same
   reading, error and wheel speeds; then, if an exit event came, the stop (preceded by
   the drive of an interrupted cycle).
   */
  lemma {:induction false} RunShape(target: real, s: PidState, polls: seq<Poll>)
    ensures var r := RunFrom(target, s, polls);
            var n := Completed(polls);
            && |r.records| == n
            && r.stopped == (n < |polls|)
            && |r.commands| == n + (if n == |polls| then 0 else if polls[n].InterruptAfterDrive? then 2 else 1)
            && (forall k :: 0 <= k < n ==>
                  && r.commands[k] == Drive(r.records[k].left, r.records[k].right)
                  && r.records[k].light == polls[k].light
                  && r.records[k].timestamp == polls[k].now
                  && r.records[k].error == target - polls[k].light as real)
            && (n < |polls| ==> r.commands[|r.commands| - 1] == Off)
            && (n < |polls| && polls[n].InterruptAfterDrive? ==> r.commands[n].Drive?)
    decreases |polls|
  {
    if polls != [] && polls[0].Cycle? {
      var c := Step(target, s, polls[0].light, polls[0].now);
      RunCons(target, s, polls);
      RunShape(target, c.next, polls[1..]);
      var r := RunFrom(target, s, polls);
      var rest := RunFrom(target, c.next, polls[1..]);
      assert Completed(polls) == 1 + Completed(polls[1..]);
      assert forall k :: 1 <= k < |polls| ==> polls[1..][k - 1] == polls[k];
      assert forall k :: 1 <= k < |r.commands| ==> r.commands[k] == rest.commands[k - 1];
      assert forall k :: 1 <= k < |r.records| ==> r.records[k] == rest.records[k - 1];
    }
  }

  /** The motors are stopped at most once, exactly when the run stopped, and nothing is commanded after it. */
  lemma {:induction false} StopIsLast(target: real, s: PidState, polls: seq<Poll>)
    ensures var r := RunFrom(target, s, polls);
            && (r.stopped <==> |r.commands| > 0 && r.commands[|r.commands| - 1] == Off)
            && (forall k :: 0 <= k < |r.commands| - 1 ==> r.commands[k].Drive?)
    decreases |polls|
  {
    if polls != [] && polls[0].Cycle? {
      var c := Step(target, s, polls[0].light, polls[0].now);
      StopIsLast(target, c.next, polls[1..]);
      var r := RunFrom(target, s, polls);
      var rest := RunFrom(target, c.next, polls[1..]);
      assert forall k :: 1 <= k < |r.commands| ==> r.commands[k] == rest.commands[k - 1];
    }
  }

  /** The run stops if and only if the polls contain an exit event. */
  lemma {:induction false} StopsIffExit(target: real, s: PidState, polls: seq<Poll>)
    ensures RunFrom(target, s, polls).stopped <==> exists k :: 0 <= k < |polls| && !polls[k].Cycle?
  {
    RunShape(target, s, polls);
  }

  /** Every drive command is within the actuator's range of speeds. */
  lemma {:induction false} DrivesInRange(target: real, s: PidState, polls: seq<Poll>)
    ensures forall k :: 0 <= k < |RunFrom(target, s, polls).commands| ==> ValidDrive(RunFrom(target, s, polls).commands[k])
    decreases |polls|
  {
    if polls != [] && polls[0].Cycle? {
      var c := Step(target, s, polls[0].light, polls[0].now);
      DrivesInRange(target, c.next, polls[1..]);
      var r := RunFrom(target, s, polls);
      var rest := RunFrom(target, c.next, polls[1..]);
      assert forall k :: 1 <= k < |r.commands| ==> r.commands[k] == rest.commands[k - 1];
    }
  }

  /** Once the loop has stopped, later polls change nothing: no cycle runs after the stop. */
  lemma {:induction false} NothingAfterStop(target: real, s: PidState, polls: seq<Poll>, more: seq<Poll>)
    requires RunFrom(target, s, polls).stopped
    ensures RunFrom(target, s, polls + more) == RunFrom(target, s, polls)
    decreases |polls|
  {
    assert (polls + more)[0] == polls[0];
    if polls[0].Cycle? {
      var c := Step(target, s, polls[0].light, polls[0].now);
      assert (polls + more)[1..] == polls[1..] + more;
      NothingAfterStop(target, c.next, polls[1..], more);
    }
  }

  /**
   The history after a run holds the error and timestamp of the last completed cycle
   (the initial ones if none completed): an exit, interrupted or not, does not update it.
   */
  lemma {:induction false} HistoryIsLastCycle(target: real, s: PidState, polls: seq<Poll>)
    ensures var r := RunFrom(target, s, polls);
            var n := Completed(polls);
            && (n == 0 ==> r.history.lastError == s.lastError && r.history.lastT == s.lastT)
            && (n > 0 ==> r.history.lastError == target - polls[n - 1].light as real
                          && r.history.lastT == polls[n - 1].now)
    decreases |polls|
  {
    if polls != [] && polls[0].Cycle? {
      var c := Step(target, s, polls[0].light, polls[0].now);
      HistoryIsLastCycle(target, c.next, polls[1..]);
      assert Completed(polls) == 1 + Completed(polls[1..]);
      var n := Completed(polls);
      if n > 1 {
        assert polls[1..][n - 2] == polls[n - 1];
      }
    }
  }

  /** Running the loop over two batches of cycles is running it over their concatenation. */
  lemma {:induction false} RunSplit(target: real, s: PidState, polls: seq<Poll>, more: seq<Poll>)
    requires forall k :: 0 <= k < |polls| ==> polls[k].Cycle?
    ensures var first := RunFrom(target, s, polls);
            var second := RunFrom(target, first.history, more);
            RunFrom(target, s, polls + more)
              == Run(first.commands + second.commands, first.records + second.records, second.history, second.stopped)
    decreases |polls|
  {
    if polls == [] {
      assert polls + more == more;
    } else {
      var c := Step(target, s, polls[0].light, polls[0].now);
      assert (polls + more)[1..] == polls[1..] + more;
      RunCons(target, s, polls);
      RunCons(target, s, polls + more);
      RunSplit(target, c.next, polls[1..], more);
      var tail := RunFrom(target, c.next, polls[1..]);
      var second := RunFrom(target, tail.history, more);
      AppendAssoc([Drive(c.left, c.right)], tail.commands, second.commands);
      AppendAssoc([Record(polls[0].now, polls[0].light, c.error, c.left, c.right)], tail.records, second.records);
    }
  }

  /** With the shipped `KI = 0` the initial integral has no influence on any command of the run. */
  lemma {:induction false} IntegralNeverSteers(target: real, s: PidState, integral: real, polls: seq<Poll>)
    ensures RunFrom(target, s, polls).commands == RunFrom(target, s.(integral := integral), polls).commands
    ensures RunFrom(target, s, polls).records == RunFrom(target, s.(integral := integral), polls).records
    decreases |polls|
  {
    if polls != [] && polls[0].Cycle? {
      var c := Step(target, s, polls[0].light, polls[0].now);
      var d := Step(target, s.(integral := integral), polls[0].light, polls[0].now);
      IntegralDormant(target, s, integral, polls[0].light, polls[0].now);
      assert d.next == c.next.(integral := d.next.integral);
      IntegralNeverSteers(target, c.next, d.next.integral, polls[1..]);
    }
  }
}

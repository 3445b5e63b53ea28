/**
 The logging variant of the control loop (`seguir_linea` in the script that writes
 `sensor_log.txt`): the same cycle and exits, plus a header line written once when the
 file is opened and one CSV line per cycle, written after the wheels were driven.
 Log lines are modelled as values; their decimal formatting is not.
 */
module SensorLog {
  import opened Saturation
  import opened Pid
  import opened LineFollower
  import Calibration

  /** The header's columns, in the order each record lists its values. */
  const HEADER: string := "timestamp,light,error,left,right"

  /** A line of the log file: the header with its text, or one cycle's record. */
  datatype LogLine = Header(text: string) | Line(record: Record)

  /** One log line per record, in order. */
  function Lines(records: seq<Record>): (lines: seq<LogLine>)
    ensures |lines| == |records|
    ensures forall k :: 0 <= k < |records| ==> lines[k] == Line(records[k])
  {
    if records == [] then [] else [Line(records[0])] + Lines(records[1..])
  }

  /** Writing one more record appends its line. */
  lemma LinesSnoc(records: seq<Record>, rec: Record)
    ensures Lines(records + [rec]) == Lines(records) + [Line(rec)]
  {
    assert forall k :: 0 <= k < |records| ==> (records + [rec])[k] == records[k];
  }

  /** The file a run leaves behind: the header, then the run's records. */
  function Log(target: real, t0: real, polls: seq<Poll>): (log: seq<LogLine>)
    ensures 1 <= |log| <= 1 + |polls| && log[0] == Header(HEADER)
  {
    [Header(HEADER)] + Lines(RunFrom(target, Start(t0), polls).records)
  }

  /** `seguir_linea(black, white, target)` with the log; only `target` is used. */
  method FollowLineLogged(cal: Calibration.CalibrationResult, t0: real, polls: seq<Poll>)
    returns (commands: seq<Command>, log: seq<LogLine>)
    ensures commands == RunFrom(cal.target, Start(t0), polls).commands
    ensures log == Log(cal.target, t0, polls)
  {
    var target := cal.target;
    var integral, lastError, lastT := 0.0, 0.0, t0;
    ghost var spec := RunFrom(target, Start(t0), polls);
    ghost var recs: seq<Record> := [];
    log := [Header(HEADER)];
    commands := [];
    var i := 0;
    var running := true;
    while running && i < |polls|
      invariant 0 <= i <= |polls|
      invariant log == [Header(HEADER)] + Lines(recs)
      invariant running ==> spec.commands == commands + RunFrom(target, PidState(integral, lastError, lastT), polls[i..]).commands
      invariant running ==> spec.records == recs + RunFrom(target, PidState(integral, lastError, lastT), polls[i..]).records
      invariant !running ==> spec.commands == commands + [Off]
      invariant !running ==> spec.records == recs
      decreases |polls| - i, running
    {
      ghost var s := PidState(integral, lastError, lastT);
      var p := polls[i];
      if p.Back? || p.Interrupt? {
        RunStep(target, s, polls, i);
        running := false;
      } else {
        var light, now := p.light, p.now;
        var dt, error, nextIntegral, derivative, turn, left, right := ComputeCycle(target, integral, lastError, lastT, light, now);
        integral := nextIntegral;
        RunStep(target, s, polls, i);
        ghost var rest := RunFrom(target, PidState(integral, error, now), polls[i + 1..]);
        AppendAssoc(commands, [Drive(left, right)], rest.commands);
        AppendAssoc(commands, [Drive(left, right)], [Off]);
        AppendAssoc(recs, [Record(now, light, error, left, right)], rest.records);
        commands := commands + [Drive(left, right)];
        if p.InterruptAfterDrive? {
          running := false;
        } else {
          LinesSnoc(recs, Record(now, light, error, left, right));
          log := log + [Line(Record(now, light, error, left, right))];
          recs := recs + [Record(now, light, error, left, right)];
          lastError := error;
          lastT := now;
          i := i + 1;
        }
      }
    }
    // finally: the motors are switched off on every exit from the loop
    if !running {
      commands := commands + [Off];
    }
  }

  /**
   The header, with its column names, is the first line and appears nowhere else; after it comes exactly one line
   per completed cycle, holding that cycle's timestamp, reading and error and the speeds
   sent to the motors in that cycle.
   */
  lemma LogShape(target: real, t0: real, polls: seq<Poll>)
    ensures var log := Log(target, t0, polls);
            var r := RunFrom(target, Start(t0), polls);
            && |log| == 1 + Completed(polls)
            && log[0] == Header(HEADER)
            && |r.commands| >= Completed(polls)
            && (forall k :: 1 <= k < |log| ==> log[k].Line?)
            && (forall k :: 0 <= k < Completed(polls) ==>
                  && log[k + 1].record.timestamp == polls[k].now
                  && log[k + 1].record.light == polls[k].light
                  && log[k + 1].record.error == target - polls[k].light as real
                  && r.commands[k] == Drive(log[k + 1].record.left, log[k + 1].record.right))
  {
    RunShape(target, Start(t0), polls);
  }

  /**
   An interrupt after the wheels were driven but before the log line was written leaves
   one more drive command than log records: the drive of the cut-short cycle, then the stop.
   */
  lemma InterruptedCycleIsNotLogged(target: real, t0: real, polls: seq<Poll>)
    requires Completed(polls) < |polls| && polls[Completed(polls)].InterruptAfterDrive?
    ensures var r := RunFrom(target, Start(t0), polls);
            && |r.commands| == |Log(target, t0, polls)| + 1
            && r.commands[|r.commands| - 1] == Off
            && r.commands[|r.commands| - 2].Drive?
  {
    RunShape(target, Start(t0), polls);
    LogShape(target, t0, polls);
    StopIsLast(target, Start(t0), polls);
  }
}

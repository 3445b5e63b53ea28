# EV3 line follower: calibration and PID control loop

This Dafny project models the controller of an EV3 line-following robot. The robot is
written twice in the repository. `seguidor.py` is the plain controller and `sensores.py`
is the same controller with a CSV log. Both scripts have three parts:

- `clip`, which saturates a value into `[lo, hi]`;
- `calibrar`, an operator-paced protocol that reads the light sensor on black, then on
  white, and returns the midpoint of the two readings as the target;
- `seguir_linea`, a loop that runs one PID cycle per pass until the back button is
  pressed or a keyboard interrupt arrives. One cycle floors the time step at 1 ms,
  computes the error against the target, accumulates the integral, takes a
  finite-difference derivative, applies `turn = KP*error + KI*integral + KD*derivative`,
  mixes `turn` into the two wheel speeds and clips them to ±100. On every exit a
  `finally` block switches the motors off.

The hardware is replaced by inputs and outputs:

- Calibration reads a finite trace of `Sample(pressed, reading)` polls. Each evaluation of
  the centre button consumes one poll. The reading taken after a wait loop ends is the
  reading of the poll that ended it.
- The control loop reads a finite trace of `Poll`s. `Cycle(light, now)` carries the
  sensor reading and `time.time()` for one cycle. `Back` means the back button was seen
  at the loop guard. `Interrupt` is a keyboard interrupt at a cycle boundary.
  `InterruptAfterDrive(light, now)` is a keyboard interrupt after the wheels were driven
  and before the log line and the history update.
- Motor commands are `Drive(left, right)` and `Off`. Log lines are `Header(text)` and
  `Line(record)` values.
- A trace that ends before the protocol or the loop has finished describes a program
  that is still blocked or still running: calibration returns `Waiting(phase)`, and the
  loop issues no `Off`.

The code is shared between the two scripts as follows. `clip`, `calibrar` and the cycle
arithmetic are identical in both files (`seguidor.py:24-87` and `sensores.py:24-93`), so
each is modelled once: `Saturation`, `Calibration` and `Pid`. `Pid.Step` is the
specification of one cycle, and `Pid.ComputeCycle` is the body of one pass, shared by
the two loop methods. `LineFollower.RunFrom` is the specification of the whole
loop. `LineFollower.FollowLine` is the loop of `seguidor.py`. `SensorLog.FollowLineLogged`
is the loop of `sensores.py`. Both loop methods are proved equal to `RunFrom`, and
`SensorLog.Log` gives the log file of a run. The parameters `black` and `white` of
`seguir_linea` are never used by the source, so the loop methods take the whole
calibration and read only its `target`.

Floating point is modelled over `real`. Reflected-light readings are `int`s, as the
sensor returns them.

`sensores.py` reads one colour sensor, and each log line holds that one reading.

## Model

| member | source | states |
|---|---|---|
| Saturation.Clip | seguidor.py:24-25 | for `lo <= hi` the result lies in `[lo, hi]`; a value already inside is returned unchanged; below `lo` gives `lo`, above `hi` gives `hi`; for an empty interval the result is `lo` |
| Saturation.ClipIdempotent | seguidor.py:24-25 | clipping twice equals clipping once, for every interval |
| Saturation.ClipNonExpansive | sensores.py:24-25 | clipping preserves the order of two values and never moves them further apart |
| Calibration.WaitFor | seguidor.py:35-36 | a wait loop stops on the first poll at or after its start whose button level is the awaited one; if there is none, every remaining poll has the other level |
| Calibration.WaitForFirst | seguidor.py:40-41 | a poll at the awaited level with no such poll before it is exactly where the wait stops |
| Calibration.AwaitLevel | seguidor.py:35-36 | one wait loop returns the first poll at or after its start whose button level is the awaited one, and the end of the trace exactly when no such poll exists |
| Calibration.Midpoint | seguidor.py:52 | the target is equidistant from black and white and lies between them, in either order |
| Calibration.Protocol | seguidor.py:33-55 | a finished calibration has consumed at least the four polls of two presses and two releases and no more polls than the trace holds, and its target is the midpoint of its black and white readings |
| Calibration.Calibrate | seguidor.py:27-55 | the four polling loops return exactly what the protocol specifies: the phase it is blocked in, or black, white, the target and the number of polls consumed |
| Calibration.PatternCalibrates | seguidor.py:35-52 | if the trace has a first press, then a release, then a press, then a release, calibration finishes with black read at the first press, white at the press after the release, and the midpoint |
| Calibration.CalibrationHasPattern | sensores.py:34-49 | a finished calibration always comes from such a press/release pattern, so white is never read while the first press is still held |
| Calibration.TargetBetween | sensores.py:49 | the returned target is `(black + white) / 2` and lies between the smaller and the larger reading, with no order required |
| Calibration.WaitForExtend | sensores.py:42-43 | a wait that stops inside a trace stops at the same poll in every extension of that trace |
| Calibration.IgnoresLaterPolls | sensores.py:27-52 | polls after the final release do not change the result |
| Calibration.NoPressKeepsWaiting | seguidor.py:35-36 | with the button never pressed, calibration stays blocked waiting for the black press |
| Calibration.HeldButtonBlocksAfterBlackPress | seguidor.py:37-41 | with the button held down for the whole trace, the protocol passes the black press and stays blocked waiting for the release, so white is never read |
| Calibration.ExampleTenNinety | seguidor.py:33-55 | presses on readings 10 and 90 with releases after each give black 10, white 90, target 50 |
| Pid.Start | seguidor.py:58-60 | at loop entry the integral and the last error are 0 and the last time is the entry time |
| Pid.Step | seguidor.py:66-80 | every cycle's time step is at least 1 ms; the derivative times the time step is the change of error; both wheel speeds lie in [-100, 100] |
| Pid.ComputeCycle | sensores.py:71-83 | the loop body's assignments, from the time step to the two clipped speeds, compute exactly the cycle `Step` specifies and the history it leaves |
| Pid.DtFloor | sensores.py:71 | the time step is the elapsed time when that is at least 1 ms, and 1 ms otherwise, including when the clock did not advance or went back |
| Pid.PidTerms | seguidor.py:71-76 | the error is target minus reading; the integral grows by error times time step; the derivative is the error difference over the time step; `turn` is the PID law applied to the updated integral |
| Pid.HistoryUpdate | seguidor.py:86-87 | after a cycle the last error is this cycle's error and the last time is this cycle's time |
| Pid.MixingSymmetry | seguidor.py:79-80 | both wheel speeds are within [-100, 100]; when neither saturates, `left - right == 2*turn` and `left + right == 2*BASE_SPEED` |
| Pid.MixingDirection | sensores.py:82-83 | saturated or not, the wheel on the side `turn` points to is at least as fast as the other, and the gap is at most `2*|turn|` |
| Pid.IntegralDormant | sensores.py:79 | with the shipped `KI = 0` the integral changes neither `turn` nor the wheel speeds |
| Pid.ExampleCycle | sensores.py:74-83 | target 50, reading 30, 0.02 s elapsed and last error 0 give error 20, derivative 1000, turn 824, left 100, right -100 |
| LineFollower.RunFrom | seguidor.py:63-96 | a run has at most one record per poll and never more records than motor commands |
| LineFollower.Completed | seguidor.py:64 | the number of leading cycles: every poll before it is a cycle and the poll at it is an exit |
| LineFollower.FollowLine | seguidor.py:57-96 | the loop with its `finally` issues exactly the commands its specification issues for the polls it sees |
| LineFollower.RunShape | seguidor.py:64-90 | one drive per completed cycle, carrying that cycle's speeds, reading, time and error; after an exit, the stop is the last command, and when the exit is an interrupt between the drive and the history update, the command at the exit's position is that cycle's drive |
| LineFollower.StopIsLast | seguidor.py:92-95 | the motors are switched off only if the run stopped, then exactly once and as the last command; every earlier command is a drive |
| LineFollower.StopsIffExit | seguidor.py:63-96 | the run stops if and only if the back button or an interrupt occurs among its polls |
| LineFollower.DrivesInRange | seguidor.py:79-83 | every drive command has both speeds within [-100, 100] |
| LineFollower.NothingAfterStop | sensores.py:66-101 | once the run has stopped, further polls change neither the commands nor the records nor the history |
| LineFollower.HistoryIsLastCycle | sensores.py:91-93 | at the end of a run the last error and last time are those of the last completed cycle, or the initial ones; an exit does not update them |
| LineFollower.RunSplit | seguidor.py:64-90 | running the loop over a batch of cycles and then over more polls equals running it over their concatenation |
| LineFollower.IntegralNeverSteers | seguidor.py:74-76 | with `KI = 0` the initial integral changes no command and no record of a whole run |
| SensorLog.Lines | sensores.py:89 | one log line per record, in order, each holding that record |
| SensorLog.Log | sensores.py:62-89 | the log file starts with the header line and has at most one further line per poll |
| SensorLog.FollowLineLogged | sensores.py:54-101 | the logged loop issues the same commands as its specification, and its log is the header followed by one line per completed cycle |
| SensorLog.LogShape | sensores.py:62-89 | the header, with the text `timestamp,light,error,left,right`, is the first log line and appears only once; the log has one line per completed cycle; each line carries that cycle's time, reading and error and the speeds sent to the motors in that cycle |
| SensorLog.InterruptedCycleIsNotLogged | sensores.py:86-101 | in every run whose first exit is an interrupt between the drive and the log write, there is one more command than log lines, counting the header: the cut-short cycle's drive, unlogged, and then the stop |

## Left out

- Hardware objects (`MoveTank`, `ColorSensor`, `Button`, `Sound`) and the sensor mode setting are foreign library calls. Their readings become input traces and the motor calls become `Command` values.
- `time.time()` and `time.sleep` are not modelled. The clock value of each cycle is an input, and pacing has no effect on the logic.
- `snd.speak`, `snd.beep` and `print` are notifications with no behaviour to verify, so they are left out. This includes the shutdown message after `tank.off()`.
- IEEE-754 rounding and the `{:.3f}` / `{:.2f}` formatting of log lines are not modelled. Arithmetic is over `real`, and a log line is a record of values. The header line carries its text, `SensorLog.HEADER`.
- Opening, writing and closing `sensor_log.txt` are not modelled as I/O. The log is the sequence of lines the file receives. A failed write, which in the source would end the loop through `finally`, is not modelled.
- Keyboard interrupts are modelled only at a cycle boundary and between the drive and the next statement. An interrupt earlier in a cycle changes only the integral before the stop, which nothing observes, so it is the same as `Interrupt`. An interrupt during calibration, during the `Iniciando` announcement, or during the opening of `sensor_log.txt` and the header write is outside the `try` and is not modelled: there it ends the run with no `tank.off()` (and, before the header write, with no log). An interrupt inside the `finally` block is not modelled either: during `tank.off()` it can leave the stop unfinished, and during the `Detenido` message it comes after the motors are off.
- Other exceptions raised inside the `try`, such as a failing sensor read or a failing `tank.on`, are not modelled. In the source they leave the loop through `finally`, so the motors are switched off as after `Interrupt`, and then the exception propagates to the caller instead of the call returning.
- An interrupt after the log write and before the history update is modelled as a completed cycle followed by `Interrupt`. The two differ only in the final history, which nothing reads after the loop has ended.
- The `__main__` wiring (set the sensor mode, calibrate, then follow the line) is process plumbing. The two components are modelled separately.
- SpeedPercent's own range check is not modelled. `LineFollower.DrivesInRange` shows that it always holds.

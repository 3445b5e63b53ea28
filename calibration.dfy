/**
 The two-phase calibration protocol (`calibrar`): wait for the centre button to be
 pressed and take the black reading, wait for it to be released, then the same for
 white, and return the midpoint of the two readings as the line-edge target.

 The button and the light sensor are inputs: a finite trace of polls, each one a
 reading of the button level together with the sensor value at that moment. Every
 evaluation of the button in a wait loop consumes one poll. The source blocks until
 both presses and releases have happened; when the trace ends first, the outcome
 says in which wait the protocol is still blocked.
 */
module Calibration {

  datatype Option<T> = None | Some(value: T)

  /** One poll: the centre button's level and the reflected-light reading. */
  datatype Sample = Sample(pressed: bool, reading: int)

  /** What `calibrar` returns: `(black, white, target)`. */
  datatype CalibrationResult = CalibrationResult(black: int, white: int, target: real)

  /** The four wait loops, in order. */
  datatype Phase = BlackPress | BlackRelease | WhitePress | WhiteRelease

  datatype Outcome =
    | Done(result: CalibrationResult, polls: nat)   // returned after consuming `polls` polls
    | Waiting(phase: Phase)                   // the trace ended inside this wait loop

  /** The first poll at or after `from` whose button level is `level`: what a wait loop stops on. */
  function WaitFor(trace: seq<Sample>, from: nat, level: bool): (r: Option<nat>)
    decreases |trace| - from
    ensures r.Some? ==> from <= r.value < |trace| && trace[r.value].pressed == level
    ensures r.Some? ==> forall k :: from <= k < r.value ==> trace[k].pressed != level
    ensures r.None? ==> forall k :: from <= k < |trace| ==> trace[k].pressed != level
  {
    if from >= |trace| then None
    else if trace[from].pressed == level then Some(from)
    else WaitFor(trace, from + 1, level)
  }

  /** `target = (black + white) / 2.0`: the point equidistant from both readings. */
  function Midpoint(black: int, white: int): (t: real)
    ensures t - black as real == white as real - t
    ensures black <= white ==> black as real <= t <= white as real
    ensures white <= black ==> white as real <= t <= black as real
  {
    (black as real + white as real) / 2.0
  }

  /** The protocol as a function of the trace: the specification of `Calibrate`. */
  function Protocol(trace: seq<Sample>): (o: Outcome)
    ensures o.Done? ==> 4 <= o.polls <= |trace|
    ensures o.Done? ==> o.result.target == Midpoint(o.result.black, o.result.white)
  {
    var b := WaitFor(trace, 0, true);
    if b.None? then Waiting(BlackPress) else
    var r1 := WaitFor(trace, b.value + 1, false);
    if r1.None? then Waiting(BlackRelease) else
    var w := WaitFor(trace, r1.value + 1, true);
    if w.None? then Waiting(WhitePress) else
    var r2 := WaitFor(trace, w.value + 1, false);
    if r2.None? then Waiting(WhiteRelease) else
    var black, white := trace[b.value].reading, trace[w.value].reading;
    Done(CalibrationResult(black, white, Midpoint(black, white)), r2.value + 1)
  }

  /** One wait loop: poll the button from `from` on until it is at `level`; `|trace|` if the trace ends first. */
  method AwaitLevel(trace: seq<Sample>, from: nat, level: bool) returns (i: nat)
    requires from <= |trace|
    ensures from <= i <= |trace|
    ensures i < |trace| ==> WaitFor(trace, from, level) == Some(i)
    ensures i == |trace| ==> WaitFor(trace, from, level) == None
  {
    i := from;
    while i < |trace| && trace[i].pressed != level
      invariant from <= i <= |trace|
      invariant WaitFor(trace, i, level) == WaitFor(trace, from, level)
    {
      i := i + 1;
    }
  }

  /** `calibrar`: the four wait loops, reading black after the first and white after the third. */
  method Calibrate(trace: seq<Sample>) returns (out: Outcome)
    ensures out == Protocol(trace)
  {
    // Wait for the press that samples black.
    var b := AwaitLevel(trace, 0, true);
    if b == |trace| {
      return Waiting(BlackPress);
    }
    var black := trace[b].reading;

    // Wait for the release, so that the same press is not read twice.
    var r1 := AwaitLevel(trace, b + 1, false);
    if r1 == |trace| {
      return Waiting(BlackRelease);
    }

    // Wait for the press that samples white.
    var w := AwaitLevel(trace, r1 + 1, true);
    if w == |trace| {
      return Waiting(WhitePress);
    }
    var white := trace[w].reading;

    // Wait for the final release.
    var r2 := AwaitLevel(trace, w + 1, false);
    if r2 == |trace| {
      return Waiting(WhiteRelease);
    }

    var target := (black as real + white as real) / 2.0;
    out := Done(CalibrationResult(black, white, target), r2 + 1);
  }

  /**
   The press/release pattern that completes the protocol: `b` is the first pressed poll,
   `r1` the first released poll after it, `w` the first pressed poll after that, and `r2`
   the first released poll after `w`.
   */
  ghost predicate Pattern(trace: seq<Sample>, b: nat, r1: nat, w: nat, r2: nat)
  {
    && b < r1 < w < r2 < |trace|
    && (forall k :: 0 <= k < b ==> !trace[k].pressed) && trace[b].pressed
    && (forall k :: b < k < r1 ==> trace[k].pressed) && !trace[r1].pressed
    && (forall k :: r1 < k < w ==> !trace[k].pressed) && trace[w].pressed
    && (forall k :: w < k < r2 ==> trace[k].pressed) && !trace[r2].pressed
  }

  /** A wait loop stops exactly on the first poll at the level it waits for. */
  lemma WaitForFirst(trace: seq<Sample>, from: nat, level: bool, i: nat)
    requires from <= i < |trace| && trace[i].pressed == level
    requires forall k :: from <= k < i ==> trace[k].pressed != level
    ensures WaitFor(trace, from, level) == Some(i)
  {
  }

  /**
   Completeness: whenever the trace has the pattern, calibration finishes with black
   read at the first press, white at the press after the first release, and the midpoint.
   */
  lemma PatternCalibrates(trace: seq<Sample>, b: nat, r1: nat, w: nat, r2: nat)
    requires Pattern(trace, b, r1, w, r2)
    ensures Protocol(trace) == Done(CalibrationResult(trace[b].reading, trace[w].reading,
                                                (trace[b].reading as real + trace[w].reading as real) / 2.0), r2 + 1)
  {
    WaitForFirst(trace, 0, true, b);
    WaitForFirst(trace, b + 1, false, r1);
    WaitForFirst(trace, r1 + 1, true, w);
    WaitForFirst(trace, w + 1, false, r2);
  }

  /**
   Soundness: a finished calibration comes from the pattern, so neither reading is taken
   while the button is still held from the press before it.
   */
  lemma CalibrationHasPattern(trace: seq<Sample>)
    requires Protocol(trace).Done?
    ensures exists b: nat, r1: nat, w: nat, r2: nat :: Pattern(trace, b, r1, w, r2)
                                   && Protocol(trace).result.black == trace[b].reading
                                   && Protocol(trace).result.white == trace[w].reading
                                   && Protocol(trace).polls == r2 + 1
  {
    var b := WaitFor(trace, 0, true).value;
    var r1 := WaitFor(trace, b + 1, false).value;
    var w := WaitFor(trace, r1 + 1, true).value;
    var r2 := WaitFor(trace, w + 1, false).value;
    assert Pattern(trace, b, r1, w, r2);
  }

  /** The target lies between the two readings, whichever is darker. */
  lemma TargetBetween(trace: seq<Sample>)
    requires Protocol(trace).Done?
    ensures var c := Protocol(trace).result;
            c.target == (c.black as real + c.white as real) / 2.0
            && (if c.black <= c.white then c.black as real else c.white as real) <= c.target
            && c.target <= (if c.black <= c.white then c.white as real else c.black as real)
  {
  }

  /** A wait loop that stops inside a trace stops at the same poll in any extension of it. */
  lemma {:induction false} WaitForExtend(trace: seq<Sample>, more: seq<Sample>, from: nat, level: bool)
    requires WaitFor(trace, from, level).Some?
    ensures WaitFor(trace + more, from, level) == WaitFor(trace, from, level)
    decreases |trace| - from
  {
    assert (trace + more)[from] == trace[from];
    if trace[from].pressed != level {
      WaitForExtend(trace, more, from + 1, level);
    }
  }

  /** The pattern lies inside the trace, so it is still there when more polls follow. */
  lemma PatternExtends(trace: seq<Sample>, more: seq<Sample>, b: nat, r1: nat, w: nat, r2: nat)
    requires Pattern(trace, b, r1, w, r2)
    ensures Pattern(trace + more, b, r1, w, r2)
  {
    assert forall k :: 0 <= k < |trace| ==> (trace + more)[k] == trace[k];
  }

  /** Polls after the final release are never looked at: calibration blocks only as long as it must. */
  lemma IgnoresLaterPolls(trace: seq<Sample>, more: seq<Sample>)
    requires Protocol(trace).Done?
    ensures Protocol(trace + more) == Protocol(trace)
  {
    var b := WaitFor(trace, 0, true).value;
    var r1 := WaitFor(trace, b + 1, false).value;
    var w := WaitFor(trace, r1 + 1, true).value;
    var r2 := WaitFor(trace, w + 1, false).value;
    assert Pattern(trace, b, r1, w, r2);
    PatternExtends(trace, more, b, r1, w, r2);
    PatternCalibrates(trace, b, r1, w, r2);
    PatternCalibrates(trace + more, b, r1, w, r2);
  }

  /** With the button never pressed, calibration stays in its first wait. */
  lemma NoPressKeepsWaiting(trace: seq<Sample>)
    requires forall k :: 0 <= k < |trace| ==> !trace[k].pressed
    ensures Protocol(trace) == Waiting(BlackPress)
  {
  }

  /** A button held down from the first poll on passes the black press and then blocks waiting for its release. */
  lemma HeldButtonBlocksAfterBlackPress(trace: seq<Sample>)
    requires |trace| > 0
    requires forall k :: 0 <= k < |trace| ==> trace[k].pressed
    ensures Protocol(trace) == Waiting(BlackRelease)
  {
  }

  /** Presses on black (10) and on white (90) give black 10, white 90, target 50. */
  lemma ExampleTenNinety()
    ensures Protocol([Sample(false, 40), Sample(true, 10), Sample(true, 11), Sample(false, 60),
                      Sample(false, 70), Sample(true, 90), Sample(false, 89)])
            == Done(CalibrationResult(10, 90, 50.0), 7)
  {
  }
}

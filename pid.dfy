/**
 One control cycle of `seguir_linea`: the time step with its floor, the error against
 the calibrated target, the PID terms, and the differential mixing of the steering
 correction into the two wheel speeds. The controller's history is the value
 `PidState`; floating point is modelled over `real`.
 */
module Pid {
  import opened Saturation

  const BASE_SPEED: real := 30.0    // base power of each wheel, in percent
  const KP: real := 1.2             // proportional gain
  const KI: real := 0.0             // integral gain (the shipped value switches the term off)
  const KD: real := 0.8             // derivative gain
  const DT_MIN: real := 0.001       // floor of the time step, in seconds
  const SPEED_LIMIT: real := 100.0  // wheel speeds are clipped to [-SPEED_LIMIT, SPEED_LIMIT]

  /** `(integral, last_error, last_t)`, carried from one cycle to the next. */
  datatype PidState = PidState(integral: real, lastError: real, lastT: real)

  /** The history at loop entry: `integral = 0.0`, `last_error = 0.0`, `last_t = time.time()`. */
  function Start(t0: real): (s: PidState)
    ensures s.integral == 0.0 && s.lastError == 0.0 && s.lastT == t0
  {
    PidState(0.0, 0.0, t0)
  }

  /** Everything one cycle computes, and the history it leaves behind. */
  datatype CycleOut = CycleOut(dt: real, error: real, derivative: real, turn: real,
                               left: real, right: real, next: PidState)

  /** The PID law `turn = KP*error + KI*integral + KD*derivative`. */
  function Turn(error: real, integral: real, derivative: real): real
  {
    KP * error + KI * integral + KD * derivative
  }

  /** Differential mixing: `turn` is added to the left wheel and taken from the right one. */
  function Left(turn: real): real
  {
    Clip(BASE_SPEED + turn, -SPEED_LIMIT, SPEED_LIMIT)
  }

  function Right(turn: real): real
  {
    Clip(BASE_SPEED - turn, -SPEED_LIMIT, SPEED_LIMIT)
  }

  /** One cycle with reading `light` at time `now`, from history `s`. */
  function Step(target: real, s: PidState, light: int, now: real): (c: CycleOut)
    ensures c.dt >= DT_MIN
    ensures c.derivative * c.dt == c.error - s.lastError
    ensures -SPEED_LIMIT <= c.left <= SPEED_LIMIT && -SPEED_LIMIT <= c.right <= SPEED_LIMIT
  {
    var dt := Max(DT_MIN, now - s.lastT);
    var error := target - light as real;
    var integral := s.integral + error * dt;
    var derivative := (error - s.lastError) / dt;
    var turn := Turn(error, integral, derivative);
    CycleOut(dt, error, derivative, turn, Left(turn), Right(turn), PidState(integral, error, now))
  }

  /** The body of one loop pass, one assignment at a time, from history `(integral, lastError, lastT)`. */
  method ComputeCycle(target: real, integral: real, lastError: real, lastT: real, light: int, now: real)
    returns (dt: real, error: real, nextIntegral: real, derivative: real, turn: real, left: real, right: real)
    ensures Step(target, PidState(integral, lastError, lastT), light, now)
            == CycleOut(dt, error, derivative, turn, left, right, PidState(nextIntegral, error, now))
  {
    dt := Max(DT_MIN, now - lastT);
    error := target - light as real;
    nextIntegral := integral + error * dt;
    derivative := (error - lastError) / dt;
    turn := KP * error + KI * nextIntegral + KD * derivative;
    left := Clip(BASE_SPEED + turn, -SPEED_LIMIT, SPEED_LIMIT);
    right := Clip(BASE_SPEED - turn, -SPEED_LIMIT, SPEED_LIMIT);
  }

  /** The time step is the elapsed time, floored at `DT_MIN`: also when the clock stood still or went back. */
  lemma DtFloor(target: real, s: PidState, light: int, now: real)
    ensures var c := Step(target, s, light, now);
            c.dt >= DT_MIN && c.dt > 0.0
            && (now - s.lastT >= DT_MIN ==> c.dt == now - s.lastT)
            && (now - s.lastT < DT_MIN ==> c.dt == DT_MIN)
            && (now <= s.lastT ==> c.dt == DT_MIN)
  {
  }

  /** The integral accumulates `error * dt`, the derivative is the finite difference, and `turn` is the PID law. */
  lemma PidTerms(target: real, s: PidState, light: int, now: real)
    ensures var c := Step(target, s, light, now);
            c.error == target - light as real
            && c.next.integral == s.integral + c.error * c.dt
            && c.derivative == (c.error - s.lastError) / c.dt
            && c.turn == KP * c.error + KI * c.next.integral + KD * c.derivative
  {
  }

  /** After a cycle the history holds this cycle's error and timestamp. */
  lemma HistoryUpdate(target: real, s: PidState, light: int, now: real)
    ensures var c := Step(target, s, light, now);
            c.next.lastError == c.error && c.next.lastT == now
  {
  }

  /** Both wheels stay within the actuator's range; unsaturated, the mixing is exactly symmetric. */
  lemma MixingSymmetry(turn: real)
    ensures -SPEED_LIMIT <= Left(turn) <= SPEED_LIMIT && -SPEED_LIMIT <= Right(turn) <= SPEED_LIMIT
    ensures -SPEED_LIMIT <= BASE_SPEED + turn <= SPEED_LIMIT && -SPEED_LIMIT <= BASE_SPEED - turn <= SPEED_LIMIT
            ==> Left(turn) - Right(turn) == 2.0 * turn && Left(turn) + Right(turn) == 2.0 * BASE_SPEED
  {
  }

  /** Saturated or not, the faster wheel is on the side `turn` points to, and the gap never exceeds `2*turn`. */
  lemma MixingDirection(turn: real)
    ensures turn >= 0.0 ==> 0.0 <= Left(turn) - Right(turn) <= 2.0 * turn
    ensures turn <= 0.0 ==> 0.0 <= Right(turn) - Left(turn) <= -2.0 * turn
  {
    if turn >= 0.0 {
      ClipNonExpansive(BASE_SPEED - turn, BASE_SPEED + turn, -SPEED_LIMIT, SPEED_LIMIT);
    } else {
      ClipNonExpansive(BASE_SPEED + turn, BASE_SPEED - turn, -SPEED_LIMIT, SPEED_LIMIT);
    }
  }

  /** With the shipped `KI = 0` the accumulated integral has no influence on the wheel speeds. */
  lemma IntegralDormant(target: real, s: PidState, integral: real, light: int, now: real)
    ensures var c := Step(target, s, light, now);
            var d := Step(target, s.(integral := integral), light, now);
            c.turn == d.turn && c.left == d.left && c.right == d.right && c.error == d.error
  {
  }

  /**
   The worked cycle: target 50, reading 30, 0.02 s since the last cycle and no previous
   error give error 20, derivative 1000 and turn 824, so the wheels saturate at 100 and -100.
   */
  lemma ExampleCycle(integral: real)
    ensures var c := Step(50.0, PidState(integral, 0.0, 0.0), 30, 0.02);
            c.dt == 0.02 && c.error == 20.0 && c.derivative == 1000.0 && c.turn == 824.0
            && c.left == 100.0 && c.right == -100.0
  {
  }
}

/**
 * The status light. A 100 ms timer calls the blink step; the mode sets how
 * many steps the light stays on and off.
 */
module StatusLights {

  datatype LedMode = StandbyMode | DriveMode | ChargingMode | FaultMode

  /** On and off durations, in blink steps, of each mode. */
  function ModeDurations(mode: LedMode): (d: (nat, nat))
    ensures mode == DriveMode <==> d.1 == 0
  {
    match mode
    case StandbyMode => (1, 39)
    case DriveMode => (20, 0)
    case ChargingMode => (10, 10)
    case FaultMode => (1, 1)
  }

  /** The light's state as a value. */
  datatype Light = Light(on: bool, counter: int, onDuration: int, offDuration: int)

  /** One blink step: count, and switch once the current phase has lasted longer than its duration. */
  function Blink(l: Light): Light {
    var counter := l.counter + 1;
    if l.on then
      if counter > l.onDuration then
        if l.offDuration > 0 then l.(on := false, counter := 0) else l.(counter := 0)
      else l.(counter := counter)
    else
      if counter > l.offDuration then l.(on := true, counter := 0)
      else l.(counter := counter)
  }

  /** The counter never exceeds the duration of the phase the light is in. */
  predicate CounterWithinPhase(l: Light) {
    (l.on ==> 0 <= l.counter <= l.onDuration) && (!l.on ==> 0 <= l.counter <= l.offDuration)
  }

  /**
   * After a step the counter is within the current phase, whatever came
   * before (a mode change may have shortened the phase), so the int counter
   * never grows past the longest duration.
   */
  lemma BlinkBoundsCounter(l: Light)
    requires l.onDuration >= 0 && l.offDuration >= 0 && l.counter >= 0
    ensures CounterWithinPhase(Blink(l))
  {
  }

  /** With no off duration (drive mode) a lit light never goes out. */
  lemma LitWithoutOffDurationStaysOn(l: Light)
    requires l.on && l.offDuration == 0
    ensures Blink(l).on
  {
  }

  /** A number of blink steps in a row. */
  function BlinkSteps(l: Light, n: nat): Light
    decreases n
  {
    if n == 0 then l else BlinkSteps(Blink(l), n - 1)
  }

  lemma {:induction false} OnPhaseEnds(l: Light)
    requires l.on && 0 <= l.counter <= l.onDuration && l.offDuration > 0
    ensures BlinkSteps(l, l.onDuration - l.counter + 1) == l.(on := false, counter := 0)
    decreases l.onDuration - l.counter
  {
    if l.counter < l.onDuration {
      OnPhaseEnds(l.(counter := l.counter + 1));
    }
  }

  lemma {:induction false} OffPhaseEnds(l: Light)
    requires !l.on && 0 <= l.counter <= l.offDuration
    ensures BlinkSteps(l, l.offDuration - l.counter + 1) == l.(on := true, counter := 0)
    decreases l.offDuration - l.counter
  {
    if l.counter < l.offDuration {
      OffPhaseEnds(l.(counter := l.counter + 1));
    }
  }

  lemma {:induction false} BlinkStepsAdd(l: Light, a: nat, b: nat)
    ensures BlinkSteps(l, a + b) == BlinkSteps(BlinkSteps(l, a), b)
    decreases a
  {
    if a > 0 {
      BlinkStepsAdd(Blink(l), a - 1, b);
    }
  }

  /**
   * The blink pattern: a light switched on with a fresh counter stays on
   * for onDuration + 1 steps, then off for offDuration + 1 steps, and is
   * back where it started.
   */
  lemma BlinkPeriod(l: Light)
    requires l.on && l.counter == 0 && l.onDuration >= 0 && l.offDuration > 0
    ensures BlinkSteps(l, l.onDuration + 1) == l.(on := false)
    ensures BlinkSteps(l, l.onDuration + l.offDuration + 2) == l
  {
    OnPhaseEnds(l);
    OffPhaseEnds(l.(on := false));
    BlinkStepsAdd(l, l.onDuration + 1, l.offDuration + 1);
  }

  class StatusLight {
    var on: bool
    var counter: int
    var onDuration: int
    var offDuration: int

    function State(): Light
      reads this
    {
      Light(on, counter, onDuration, offDuration)
    }

    /** A new light: off, counter and both durations zero. */
    constructor ()
      ensures State() == Light(false, 0, 0, 0)
    {
      on := false;
      counter := 0;
      onDuration := 0;
      offDuration := 0;
    }

    /** Changes the durations only: the current phase and counter carry over. */
    method SetMode(newMode: LedMode)
      modifies this`onDuration, this`offDuration
      ensures (onDuration, offDuration) == ModeDurations(newMode)
      ensures on == old(on) && counter == old(counter)
    {
      match newMode
      case StandbyMode =>
        onDuration := 1;
        offDuration := 39;
      case DriveMode =>
        onDuration := 20;
        offDuration := 0;
      case ChargingMode =>
        onDuration := 10;
        offDuration := 10;
      case FaultMode =>
        onDuration := 1;
        offDuration := 1;
    }

    /** One step of the 100 ms blink timer. */
    method LedBlink()
      modifies this`on, this`counter
      ensures State() == Blink(old(State()))
    {
      counter := counter + 1;
      if on {
        if counter > onDuration {
          counter := 0;
          if offDuration > 0 {
            on := false;
          }
        }
      } else {
        if counter > offDuration {
          counter := 0;
          on := true;
        }
      }
    }
  }
}

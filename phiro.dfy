/**
 * The Phiro robot's command layer: its pin assignments, the mapping from a
 * speed in percent to a PWM value, and a controller whose operations append
 * Firmata frames to the log of what has been sent over the connection.
 */
module PhiroDevice {
  import opened Wrappers
  import opened Firmata

  const PIN_SPEAKER_OUT: Channel := 3

  const PIN_RGB_RED_LEFT: Channel := 4
  const PIN_RGB_GREEN_LEFT: Channel := 5
  const PIN_RGB_BLUE_LEFT: Channel := 6

  const PIN_RGB_RED_RIGHT: Channel := 7
  const PIN_RGB_GREEN_RIGHT: Channel := 8
  const PIN_RGB_BLUE_RIGHT: Channel := 9

  const PIN_LEFT_MOTOR_BACKWARD: Channel := 10
  const PIN_LEFT_MOTOR_FORWARD: Channel := 11

  const PIN_RIGHT_MOTOR_FORWARD: Channel := 12
  const PIN_RIGHT_MOTOR_BACKWARD: Channel := 13

  const MIN_PWM_PIN: Channel := 3
  const MAX_PWM_PIN: Channel := 13

  const MIN_SENSOR_PIN: Channel := 0
  const MAX_SENSOR_PIN: Channel := 5

  /** A speed in percent as a PWM value: 0 at or below 0 percent, 255 at or
      above 100 percent, and in between percent * 2.55 truncated towards zero
      (computed exactly as percent * 255 / 100). */
  function PercentToSpeed(percent: int): (speed: int)
    ensures 0 <= speed <= 255
    ensures percent <= 0 ==> speed == 0
    ensures percent >= 100 ==> speed == 255
    ensures 0 < percent < 100 ==> speed * 100 <= percent * 255 < speed * 100 + 100
  {
    if percent <= 0 then 0
    else if percent >= 100 then 255
    else percent * 255 / 100
  }

  /** A higher percentage never gives a lower speed. */
  lemma PercentToSpeedMonotonic(p: int, q: int)
    requires p <= q
    ensures PercentToSpeed(p) <= PercentToSpeed(q)
  {
    if 0 < p && q < 100 {
      var sp, sq := PercentToSpeed(p), PercentToSpeed(q);
      assert sp * 100 < sq * 100 + 100;
    }
  }

  /** The values the tests rely on: 42 percent is speed 107. */
  lemma PercentToSpeedValues()
    ensures PercentToSpeed(0) == 0 && PercentToSpeed(-5) == 0
    ensures PercentToSpeed(100) == 255 && PercentToSpeed(101) == 255
    ensures PercentToSpeed(42) == 107
  {
  }

  /** SET_PIN_MODE to PWM for the first n PWM pins, in ascending order. */
  function PinModeCommands(n: nat): seq<Command> {
    seq(n, k => SetPinMode(MIN_PWM_PIN + k, PWM_MODE))
  }

  /** REPORT_ANALOG_PIN enabling the first n sensor pins, in ascending order. */
  function SensorReportCommands(n: nat): seq<Command>
    requires n <= 16
  {
    seq(n, k requires 0 <= k < n => ReportAnalogPin(MIN_SENSOR_PIN + k, true))
  }

  /** What initialise sends: PWM mode for every PWM pin, then analog
      reporting for every sensor pin. */
  function InitialisationFrames(): seq<int> {
    EncodeAll(PinModeCommands(MAX_PWM_PIN - MIN_PWM_PIN + 1))
      + EncodeAll(SensorReportCommands(MAX_SENSOR_PIN - MIN_SENSOR_PIN + 1))
  }

  /** The PWM-mode frames are triples, one per pin, in pin order. */
  lemma PinModeFramesAt(n: nat)
    ensures |EncodeAll(PinModeCommands(n))| == 3 * n
    ensures forall k :: 0 <= k < n ==>
      EncodeAll(PinModeCommands(n))[3 * k..3 * k + 3] == [SET_PIN_MODE, MIN_PWM_PIN + k, PWM_MODE]
  {
    var cmds := PinModeCommands(n);
    EncodeAllTriples(cmds);
    forall k | 0 <= k < n
      ensures EncodeAll(cmds)[3 * k..3 * k + 3] == [SET_PIN_MODE, MIN_PWM_PIN + k, PWM_MODE]
    {
      assert EncodeAll(cmds)[3 * k..3 * k + 3] == Encode(cmds[k]);
    }
  }

  /** The analog-reporting frames are pairs, one per pin, in pin order, each
      enabling. */
  lemma SensorReportFramesAt(n: nat)
    requires n <= 16
    ensures |EncodeAll(SensorReportCommands(n))| == 2 * n
    ensures forall k :: 0 <= k < n ==>
      EncodeAll(SensorReportCommands(n))[2 * k..2 * k + 2] == [REPORT_ANALOG_PIN + MIN_SENSOR_PIN + k, 1]
  {
    var cmds := SensorReportCommands(n);
    EncodeAllPairs(cmds);
    forall k | 0 <= k < n
      ensures EncodeAll(cmds)[2 * k..2 * k + 2] == [REPORT_ANALOG_PIN + MIN_SENSOR_PIN + k, 1]
    {
      assert EncodeAll(cmds)[2 * k..2 * k + 2] == Encode(cmds[k]);
    }
  }

  /** The frame sequence the initialisation check drains: 11 triples
      [0xF4, pin, 3] for pins 3 to 13, then 6 pairs [0xC0 | pin, 1] for pins
      0 to 5. */
  lemma InitialisationLayout()
    ensures |InitialisationFrames()| == 45
    ensures forall k :: 0 <= k < 11 ==>
      InitialisationFrames()[3 * k..3 * k + 3] == [SET_PIN_MODE, MIN_PWM_PIN + k, PWM_MODE]
    ensures forall k :: 0 <= k < 6 ==>
      InitialisationFrames()[33 + 2 * k..33 + 2 * k + 2] == [REPORT_ANALOG_PIN + k, 1]
  {
    var pwmPins, sensorPins := MAX_PWM_PIN - MIN_PWM_PIN + 1, MAX_SENSOR_PIN - MIN_SENSOR_PIN + 1;
    var modes := EncodeAll(PinModeCommands(pwmPins));
    var reports := EncodeAll(SensorReportCommands(sensorPins));
    PinModeFramesAt(pwmPins);
    SensorReportFramesAt(sensorPins);
    TriplesThenPairs(modes, reports);
  }

  /** Eleven triples followed by six pairs: each record keeps its slice in
      the concatenation. */
  lemma TriplesThenPairs(a: seq<int>, b: seq<int>)
    requires |a| == 33 && |b| == 12
    ensures forall k :: 0 <= k < 11 ==> (a + b)[3 * k..3 * k + 3] == a[3 * k..3 * k + 3]
    ensures forall k :: 0 <= k < 6 ==> (a + b)[33 + 2 * k..33 + 2 * k + 2] == b[2 * k..2 * k + 2]
  {
    forall k | 0 <= k < 11 ensures (a + b)[3 * k..3 * k + 3] == a[3 * k..3 * k + 3] { }
    forall k | 0 <= k < 6 ensures (a + b)[33 + 2 * k..33 + 2 * k + 2] == b[2 * k..2 * k + 2] { }
  }

  /** The frame that stops the speaker: speed 0 on its pin. */
  const ToneStop: Command := AnalogMessage(PIN_SPEAKER_OUT, 0)

  /** n stop frames' worth of commands. */
  function ToneStops(n: nat): seq<Command> {
    seq(n, _ => ToneStop)
  }

  /** How many of the scheduled stops (each given by the milliseconds left
      until it is due) fall due within t milliseconds. */
  function DueCount(pending: seq<nat>, t: nat): nat {
    if pending == [] then 0
    else DueCount(pending[..|pending| - 1], t) + (if pending[|pending| - 1] <= t then 1 else 0)
  }

  /** The scheduled stops not yet due after t milliseconds, in scheduling
      order, with the time they still have to run. */
  function StillPending(pending: seq<nat>, t: nat): seq<nat> {
    if pending == [] then []
    else
      var last := pending[|pending| - 1];
      StillPending(pending[..|pending| - 1], t) + (if last <= t then [] else [last - t])
  }

  /** Every scheduled stop either falls due or stays scheduled: none is lost
      and none fires twice, so each playTone gives at most one stop frame. */
  lemma {:induction false} StopsAccounted(pending: seq<nat>, t: nat)
    ensures DueCount(pending, t) + |StillPending(pending, t)| == |pending|
    ensures forall i :: 0 <= i < |StillPending(pending, t)| ==> StillPending(pending, t)[i] > 0
  {
    if pending != [] {
      StopsAccounted(pending[..|pending| - 1], t);
    }
  }

  /** Letting a then b milliseconds pass leaves the same schedule as letting
      a + b pass at once. */
  lemma {:induction false} ElapseAdditive(pending: seq<nat>, a: nat, b: nat)
    ensures StillPending(StillPending(pending, a), b) == StillPending(pending, a + b)
  {
    if pending != [] {
      var pre, last := pending[..|pending| - 1], pending[|pending| - 1];
      ElapseAdditive(pre, a, b);
      var early := StillPending(pre, a);
      if last > a {
        var mid := early + [last - a];
        assert StillPending(pending, a) == mid && mid[..|mid| - 1] == early;
        assert StillPending(mid, b) == StillPending(early, b) + (if last - a <= b then [] else [last - a - b]);
      } else {
        assert StillPending(pending, a) == early;
      }
      assert StillPending(pending, a + b) == StillPending(pre, a + b) + (if last <= a + b then [] else [last - (a + b)]);
    }
  }

  /** Letting a then b milliseconds pass fires as many stops as letting
      a + b pass at once. */
  lemma {:induction false} ElapseAdditiveDue(pending: seq<nat>, a: nat, b: nat)
    ensures DueCount(pending, a) + DueCount(StillPending(pending, a), b) == DueCount(pending, a + b)
  {
    if pending != [] {
      var pre, last := pending[..|pending| - 1], pending[|pending| - 1];
      ElapseAdditiveDue(pre, a, b);
      var early := StillPending(pre, a);
      if last > a {
        var mid := early + [last - a];
        assert StillPending(pending, a) == mid && mid[..|mid| - 1] == early;
        assert DueCount(mid, b) == DueCount(early, b) + (if last - a <= b then 1 else 0);
      } else {
        assert StillPending(pending, a) == early;
      }
    }
  }

  /** One more scheduled stop, looked at after t milliseconds, either falls
      due or stays scheduled with t less to run. */
  lemma PendingStep(pending: seq<nat>, i: nat, t: nat)
    requires i < |pending|
    ensures DueCount(pending[..i + 1], t) == DueCount(pending[..i], t) + (if pending[i] <= t then 1 else 0)
    ensures StillPending(pending[..i + 1], t) ==
      StillPending(pending[..i], t) + (if pending[i] <= t then [] else [pending[i] - t])
  {
    assert pending[..i + 1][..i] == pending[..i];
  }

  /** The stop frames the tests see when the stops fall due. */
  lemma ToneStopFrames(n: nat)
    ensures EncodeAll(ToneStops(n + 1)) == EncodeAll(ToneStops(n)) + [0xE3, 0, 0]
  {
    assert ToneStops(n + 1) == ToneStops(n) + [ToneStop];
    EncodeAllAppend(ToneStops(n), [ToneStop]);
  }

  /** The robot controller over a connection whose sent bytes are logged. */
  class Phiro {
    /** Everything sent over the connection so far, one integer per byte. */
    var sent: seq<int>
    var connected: bool
    /** The stops scheduled by playTone that have not fired yet, each as the
        milliseconds left until it is due, in scheduling order. */
    var pendingStops: seq<nat>

    /** A disconnected controller has nothing scheduled. */
    ghost predicate Valid()
      reads this
    {
      !connected ==> pendingStops == []
    }

    /** A controller given a fresh, open connection. */
    constructor ()
      ensures Valid() && connected && pendingStops == [] && sent == []
    {
      sent := [];
      connected := true;
      pendingStops := [];
    }

    /** Writes one command's frame to the connection. */
    method Send(cmd: Command)
      requires connected
      modifies this`sent
      ensures sent == old(sent) + Encode(cmd)
    {
      sent := sent + Encode(cmd);
    }

    /** initialise: PWM mode for pins 3 to 13, then analog reporting for the
        sensor pins 0 to 5, each run in ascending pin order. */
    method Initialise()
      requires connected
      modifies this`sent
      ensures sent == old(sent) + InitialisationFrames()
    {
      SetPwmPinModes();
      EnableSensorReports();
    }

    /** PWM mode for every PWM pin, in ascending pin order. */
    method SetPwmPinModes()
      requires connected
      modifies this`sent
      ensures sent == old(sent) + EncodeAll(PinModeCommands(MAX_PWM_PIN - MIN_PWM_PIN + 1))
    {
      for pin := MIN_PWM_PIN to MAX_PWM_PIN + 1
        invariant sent == old(sent) + EncodeAll(PinModeCommands(pin - MIN_PWM_PIN))
      {
        var done := PinModeCommands(pin - MIN_PWM_PIN);
        assert PinModeCommands(pin - MIN_PWM_PIN + 1) == done + [SetPinMode(pin, PWM_MODE)];
        EncodeAllAppend(done, [SetPinMode(pin, PWM_MODE)]);
        Send(SetPinMode(pin, PWM_MODE));
      }
    }

    /** Analog reporting for every sensor pin, in ascending pin order. */
    method EnableSensorReports()
      requires connected
      modifies this`sent
      ensures sent == old(sent) + EncodeAll(SensorReportCommands(MAX_SENSOR_PIN - MIN_SENSOR_PIN + 1))
    {
      for pin := MIN_SENSOR_PIN to MAX_SENSOR_PIN + 1
        invariant sent == old(sent) + EncodeAll(SensorReportCommands(pin - MIN_SENSOR_PIN))
      {
        var done := SensorReportCommands(pin - MIN_SENSOR_PIN);
        assert SensorReportCommands(pin - MIN_SENSOR_PIN + 1) == done + [ReportAnalogPin(pin, true)];
        EncodeAllAppend(done, [ReportAnalogPin(pin, true)]);
        Send(ReportAnalogPin(pin, true));
      }
    }

    /** Moves a motor: one ANALOG_MESSAGE on its pin with the percentage as
        speed. */
    method MoveMotor(pin: Channel, percent: int)
      requires connected
      modifies this`sent
      ensures sent == old(sent) + Encode(AnalogMessage(pin, PercentToSpeed(percent)))
    {
      Send(AnalogMessage(pin, PercentToSpeed(percent)));
    }

    method MoveLeftMotorForward(percent: int)
      requires connected
      modifies this`sent
      ensures sent == old(sent) + Encode(AnalogMessage(PIN_LEFT_MOTOR_FORWARD, PercentToSpeed(percent)))
    {
      MoveMotor(PIN_LEFT_MOTOR_FORWARD, percent);
    }

    method MoveLeftMotorBackward(percent: int)
      requires connected
      modifies this`sent
      ensures sent == old(sent) + Encode(AnalogMessage(PIN_LEFT_MOTOR_BACKWARD, PercentToSpeed(percent)))
    {
      MoveMotor(PIN_LEFT_MOTOR_BACKWARD, percent);
    }

    method MoveRightMotorForward(percent: int)
      requires connected
      modifies this`sent
      ensures sent == old(sent) + Encode(AnalogMessage(PIN_RIGHT_MOTOR_FORWARD, PercentToSpeed(percent)))
    {
      MoveMotor(PIN_RIGHT_MOTOR_FORWARD, percent);
    }

    method MoveRightMotorBackward(percent: int)
      requires connected
      modifies this`sent
      ensures sent == old(sent) + Encode(AnalogMessage(PIN_RIGHT_MOTOR_BACKWARD, PercentToSpeed(percent)))
    {
      MoveMotor(PIN_RIGHT_MOTOR_BACKWARD, percent);
    }

    /** Stops the left motor: speed 0 on its forward pin, then its backward
        pin. */
    method StopLeftMotor()
      requires connected
      modifies this`sent
      ensures sent == old(sent) + Encode(AnalogMessage(PIN_LEFT_MOTOR_FORWARD, 0))
                                + Encode(AnalogMessage(PIN_LEFT_MOTOR_BACKWARD, 0))
    {
      Send(AnalogMessage(PIN_LEFT_MOTOR_FORWARD, 0));
      Send(AnalogMessage(PIN_LEFT_MOTOR_BACKWARD, 0));
    }

    /** Stops the right motor: speed 0 on its forward pin, then its backward
        pin. */
    method StopRightMotor()
      requires connected
      modifies this`sent
      ensures sent == old(sent) + Encode(AnalogMessage(PIN_RIGHT_MOTOR_FORWARD, 0))
                                + Encode(AnalogMessage(PIN_RIGHT_MOTOR_BACKWARD, 0))
    {
      Send(AnalogMessage(PIN_RIGHT_MOTOR_FORWARD, 0));
      Send(AnalogMessage(PIN_RIGHT_MOTOR_BACKWARD, 0));
    }

    /** Stops both motors: left forward, left backward, right forward, right
        backward, each at speed 0. */
    method StopAllMovements()
      requires connected
      modifies this`sent
      ensures sent == old(sent) + Encode(AnalogMessage(PIN_LEFT_MOTOR_FORWARD, 0))
                                + Encode(AnalogMessage(PIN_LEFT_MOTOR_BACKWARD, 0))
                                + Encode(AnalogMessage(PIN_RIGHT_MOTOR_FORWARD, 0))
                                + Encode(AnalogMessage(PIN_RIGHT_MOTOR_BACKWARD, 0))
    {
      StopLeftMotor();
      StopRightMotor();
    }

    /** Sets a light: red, green, blue on the given pins, each value sent as
        it is given. */
    method SetRGBLightColor(redPin: Channel, greenPin: Channel, bluePin: Channel, red: int, green: int, blue: int)
      requires connected
      modifies this`sent
      ensures sent == old(sent) + Encode(AnalogMessage(redPin, red))
                                + Encode(AnalogMessage(greenPin, green))
                                + Encode(AnalogMessage(bluePin, blue))
    {
      Send(AnalogMessage(redPin, red));
      Send(AnalogMessage(greenPin, green));
      Send(AnalogMessage(bluePin, blue));
    }

    method SetLeftRGBLightColor(red: int, green: int, blue: int)
      requires connected
      modifies this`sent
      ensures sent == old(sent) + Encode(AnalogMessage(PIN_RGB_RED_LEFT, red))
                                + Encode(AnalogMessage(PIN_RGB_GREEN_LEFT, green))
                                + Encode(AnalogMessage(PIN_RGB_BLUE_LEFT, blue))
    {
      SetRGBLightColor(PIN_RGB_RED_LEFT, PIN_RGB_GREEN_LEFT, PIN_RGB_BLUE_LEFT, red, green, blue);
    }

    method SetRightRGBLightColor(red: int, green: int, blue: int)
      requires connected
      modifies this`sent
      ensures sent == old(sent) + Encode(AnalogMessage(PIN_RGB_RED_RIGHT, red))
                                + Encode(AnalogMessage(PIN_RGB_GREEN_RIGHT, green))
                                + Encode(AnalogMessage(PIN_RGB_BLUE_RIGHT, blue))
    {
      SetRGBLightColor(PIN_RGB_RED_RIGHT, PIN_RGB_GREEN_RIGHT, PIN_RGB_BLUE_RIGHT, red, green, blue);
    }

    /** playTone: the frequency goes to the speaker pin at once, and a stop
        is scheduled for when the duration has passed. */
    method PlayTone(frequency: int, durationInSeconds: nat)
      requires Valid() && connected
      modifies this
      ensures Valid() && connected
      ensures sent == old(sent) + Encode(AnalogMessage(PIN_SPEAKER_OUT, frequency))
      ensures pendingStops == old(pendingStops) + [durationInSeconds * 1000]
    {
      Send(AnalogMessage(PIN_SPEAKER_OUT, frequency));
      pendingStops := pendingStops + [durationInSeconds * 1000];
    }

    /** Time passes: every scheduled stop that falls due sends speed 0 to the
        speaker pin, and the others keep running. */
    method Elapse(millis: nat)
      requires Valid()
      modifies this
      ensures Valid() && connected == old(connected)
      ensures sent == old(sent) + EncodeAll(ToneStops(DueCount(old(pendingStops), millis)))
      ensures pendingStops == StillPending(old(pendingStops), millis)
    {
      var pending := pendingStops;
      var rest: seq<nat> := [];
      for i := 0 to |pending|
        invariant pendingStops == pending == old(pendingStops) && connected == old(connected)
        invariant sent == old(sent) + EncodeAll(ToneStops(DueCount(pending[..i], millis)))
        invariant rest == StillPending(pending[..i], millis)
      {
        PendingStep(pending, i, millis);
        if pending[i] <= millis {
          ToneStopFrames(DueCount(pending[..i], millis));
          Send(ToneStop);
        } else {
          rest := rest + [pending[i] - millis];
        }
      }
      assert pending[..|pending|] == pending;
      pendingStops := rest;
    }

    /** disconnect: closes the connection and cancels every scheduled stop,
        so nothing more is sent. */
    method Disconnect()
      requires Valid()
      modifies this
      ensures Valid() && !connected && pendingStops == []
      ensures sent == old(sent)
    {
      connected := false;
      pendingStops := [];
    }
  }

  /** A controller that has been initialised on a fresh connection, as every
      test starts. */
  method Initialised() returns (phiro: Phiro)
    ensures fresh(phiro) && phiro.Valid() && phiro.connected && phiro.pendingStops == []
    ensures phiro.sent == InitialisationFrames()
  {
    phiro := new Phiro();
    phiro.Initialise();
  }

  /** testMoveLeftMotorForward: 42 percent on pin 11 is [0xEB, 107, 0]. */
  method MoveLeftMotorForwardScenario() returns (log: seq<int>)
    ensures log == InitialisationFrames() + [0xEB, 107, 0]
  {
    var phiro := Initialised();
    phiro.MoveLeftMotorForward(42);
    log := phiro.sent;
  }

  /** testMoveLeftMotorBackward: 42 percent on pin 10. */
  method MoveLeftMotorBackwardScenario() returns (log: seq<int>)
    ensures log == InitialisationFrames() + [0xEA, 107, 0]
  {
    var phiro := Initialised();
    phiro.MoveLeftMotorBackward(42);
    log := phiro.sent;
  }

  /** testMoveRightMotorForward: 42 percent on pin 12. */
  method MoveRightMotorForwardScenario() returns (log: seq<int>)
    ensures log == InitialisationFrames() + [0xEC, 107, 0]
  {
    var phiro := Initialised();
    phiro.MoveRightMotorForward(42);
    log := phiro.sent;
  }

  /** testMoveRightMotorBackward: 42 percent on pin 13. */
  method MoveRightMotorBackwardScenario() returns (log: seq<int>)
    ensures log == InitialisationFrames() + [0xED, 107, 0]
  {
    var phiro := Initialised();
    phiro.MoveRightMotorBackward(42);
    log := phiro.sent;
  }

  /** testStopLeftMotor, testStopRightMotor and testStopAllMovements: zero
      speed on the forward pin, then the backward pin, of each motor stopped;
      the left motor before the right. */
  method StopScenario() returns (left: seq<int>, right: seq<int>, all: seq<int>)
    ensures left == InitialisationFrames() + [0xEB, 0, 0] + [0xEA, 0, 0]
    ensures right == InitialisationFrames() + [0xEC, 0, 0] + [0xED, 0, 0]
    ensures all == InitialisationFrames() + [0xEB, 0, 0] + [0xEA, 0, 0] + [0xEC, 0, 0] + [0xED, 0, 0]
  {
    var phiro := Initialised();
    phiro.StopLeftMotor();
    left := phiro.sent;
    phiro := Initialised();
    phiro.StopRightMotor();
    right := phiro.sent;
    phiro := Initialised();
    phiro.StopAllMovements();
    all := phiro.sent;
  }

  /** testSetLeftRGBLightColor and testSetRightRGBLightColor: the colour
      values go out verbatim, red, green, blue. */
  method SetRGBLightColorScenario() returns (left: seq<int>, right: seq<int>)
    ensures left == InitialisationFrames() + [0xE4, 114, 1] + [0xE5, 0, 0] + [0xE6, 3, 0]
    ensures right == InitialisationFrames() + [0xE7, 114, 1] + [0xE8, 1, 0] + [0xE9, 3, 0]
  {
    var phiro := Initialised();
    phiro.SetLeftRGBLightColor(242, 0, 3);
    left := phiro.sent;
    var other := Initialised();
    other.SetRightRGBLightColor(242, 1, 3);
    right := other.sent;
  }

  /** The schedule of a one-second tone: nothing is due after 900
      milliseconds, the stop is due 100 milliseconds later, and after that
      nothing is left. */
  lemma OneSecondTone()
    ensures DueCount([1000], 900) == 0 && StillPending([1000], 900) == [100]
    ensures DueCount([100], 100) == 1 && StillPending([100], 100) == []
    ensures DueCount([], 1000) == 0 && StillPending([], 1000) == []
    ensures EncodeAll(ToneStops(0)) == [] && EncodeAll(ToneStops(1)) == [0xE3, 0, 0]
  {
    assert [1000][..0] == [] && [100][..0] == [];
    assert ToneStops(0) == [];
    ToneStopFrames(0);
  }

  /** testPlayTone: tone 294 for one second sends [0xE3, 38, 2] at once,
      nothing while the second runs, then [0xE3, 0, 0] once. */
  method PlayToneScenario() returns (started: seq<int>, held: seq<int>, stopped: seq<int>, later: seq<int>)
    ensures started == InitialisationFrames() + [0xE3, 38, 2]
    ensures held == started
    ensures stopped == started + [0xE3, 0, 0]
    ensures later == stopped
  {
    var phiro := Initialised();
    phiro.PlayTone(294, 1);
    started := phiro.sent;
    assert started == InitialisationFrames() + [0xE3, 38, 2] && phiro.pendingStops == [1000];
    OneSecondTone();
    phiro.Elapse(900);
    held := phiro.sent;
    assert held == started && phiro.pendingStops == [100];
    phiro.Elapse(100);
    stopped := phiro.sent;
    assert stopped == started + [0xE3, 0, 0] && phiro.pendingStops == [];
    phiro.Elapse(1000);
    later := phiro.sent;
  }

  /** Tearing down the connection while a tone plays: disconnecting before
      the second is over suppresses the stop frame. */
  method DisconnectDuringToneScenario() returns (started: seq<int>, cancelled: seq<int>)
    ensures started == InitialisationFrames() + [0xE3, 38, 2]
    ensures cancelled == started
  {
    var phiro := Initialised();
    phiro.PlayTone(294, 1);
    started := phiro.sent;
    assert phiro.pendingStops == [1000];
    phiro.Elapse(500);
    assert phiro.sent == started;
    phiro.Disconnect();
    phiro.Elapse(500);
    cancelled := phiro.sent;
  }
}

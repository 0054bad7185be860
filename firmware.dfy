/**
  The ESP32 weather-station firmware (mainESP32.code.cpp): the globals that
  `loop()` updates in place, the debounce/toggle step of `handleButton`, the
  5000 ms publish gate, the simulated or sensor measurement, the LED mapping,
  the MQTT topic names and the retained status payload.

  Hardware and library calls are inputs or outputs of the modelled steps:
  `digitalRead` is a `Level` argument, every `millis()` is a `U32` argument,
  `random()` hands over its raw generator output, the DHT reads arrive as
  `Option<int>` (None = NaN), and `digitalWrite` / `client.publish` are
  returned as values.
*/
module Firmware {
  import opened Wrappers

  /** `unsigned long` on the ESP32 is 32 bits wide. */
  const Modulus: int := 0x1_0000_0000
  type U32 = x: int | 0 <= x < 0x1_0000_0000

  /** A digital pin level (`HIGH` / `LOW`). */
  datatype Level = Low | High

  const DebounceDelay: U32 := 50
  const PublishInterval: U32 := 5000
  const DeviceId: string := "ESP32_01"
  /** `float battery = 3.9`, published with two decimals. */
  const BatteryHundredths: int := 390

  /** `now - since` evaluated on `unsigned long`: the difference modulo 2^32. */
  function Elapsed(now: U32, since: U32): (d: U32)
    ensures (since + d) % Modulus == now
    ensures since <= now ==> d == now - since
    ensures now < since ==> d == Modulus - since + now
  {
    (now - since) % Modulus
  }

  // ---------------------------------------------------------------------
  // The global state (modeCelsius, lastButtonState, lastDebounceTime,
  // lastPublish) as a value.

  datatype Snapshot = Snapshot(celsius: bool, lastButton: Level, lastDebounce: U32, lastPublish: U32)

  /** The initial values of the globals. */
  const Initial: Snapshot := Snapshot(true, High, 0, 0)

  // ---------------------------------------------------------------------
  // handleButton

  /**
    One call of `handleButton`: `reading` is the `digitalRead`, `changeTime`
    the `millis()` stored when the reading differs from the last one, and
    `checkTime` the `millis()` compared against the debounce window.
  */
  function ButtonStep(s: Snapshot, reading: Level, changeTime: U32, checkTime: U32): (r: Snapshot)
    ensures r.lastButton == reading
    ensures r.lastPublish == s.lastPublish
    ensures reading == High ==> r.celsius == s.celsius
  {
    var debounce := if reading != s.lastButton then changeTime else s.lastDebounce;
    var toggle := Elapsed(checkTime, debounce) > DebounceDelay && reading == Low;
    s.(celsius := if toggle then !s.celsius else s.celsius,
       lastButton := reading,
       lastDebounce := debounce)
  }

  /** The mode changes exactly when the reading is LOW and the window since the
      (possibly just reset) debounce time has passed. */
  lemma ToggleCondition(s: Snapshot, reading: Level, changeTime: U32, checkTime: U32)
    ensures var r := ButtonStep(s, reading, changeTime, checkTime);
      (r.celsius != s.celsius <==>
        reading == Low && Elapsed(checkTime, r.lastDebounce) > DebounceDelay)
  {
  }

  /** A reading that differs from the last one restarts the window at `changeTime`. */
  lemma ChangeRestartsWindow(s: Snapshot, reading: Level, changeTime: U32, checkTime: U32)
    requires reading != s.lastButton
    ensures var r := ButtonStep(s, reading, changeTime, checkTime);
      r.lastDebounce == changeTime &&
      (r.celsius != s.celsius <==> reading == Low && Elapsed(checkTime, changeTime) > DebounceDelay)
  {
  }

  /** With both `millis()` calls returning the same instant, a changed reading
      never toggles on the step that observes the change (0 > 50 is false). */
  lemma ChangeAtOneInstantNeverToggles(s: Snapshot, reading: Level, now: U32)
    requires reading != s.lastButton
    ensures ButtonStep(s, reading, now, now).celsius == s.celsius
    ensures ButtonStep(s, reading, now, now).lastDebounce == now
  {
  }

  /** A steady reading leaves the debounce time where it was. */
  lemma SteadyReadingKeepsWindow(s: Snapshot, changeTime: U32, checkTime: U32)
    ensures ButtonStep(s, s.lastButton, changeTime, checkTime).lastDebounce == s.lastDebounce
  {
  }

  /**
    The trigger is level-based: with the button held LOW past the window, each
    step toggles again, so two such steps give back the original mode.
  */
  lemma HeldLowTogglesEveryStep(s: Snapshot, t1: U32, t2: U32, u1: U32, u2: U32)
    requires s.lastButton == Low
    requires Elapsed(t2, s.lastDebounce) > DebounceDelay
    requires Elapsed(u2, s.lastDebounce) > DebounceDelay
    ensures ButtonStep(s, Low, t1, t2).celsius == !s.celsius
    ensures ButtonStep(ButtonStep(s, Low, t1, t2), Low, u1, u2).celsius == s.celsius
  {
  }

  // --- sequences of handleButton calls, one per loop iteration ---

  datatype Sample = Sample(reading: Level, changeTime: U32, checkTime: U32)

  function ButtonRun(s: Snapshot, samples: seq<Sample>): (r: Snapshot)
    ensures r.lastPublish == s.lastPublish
    decreases |samples|
  {
    if samples == [] then s
    else ButtonRun(ButtonStep(s, samples[0].reading, samples[0].changeTime, samples[0].checkTime), samples[1..])
  }

  /** While the button is released (HIGH) the mode never changes. */
  lemma {:induction false} ReleasedNeverToggles(s: Snapshot, samples: seq<Sample>)
    requires forall i :: 0 <= i < |samples| ==> samples[i].reading == High
    ensures ButtonRun(s, samples).celsius == s.celsius
    decreases |samples|
  {
    if samples != [] {
      var n := ButtonStep(s, samples[0].reading, samples[0].changeTime, samples[0].checkTime);
      ReleasedNeverToggles(n, samples[1..]);
    }
  }

  /** Every sample differs from the one before it (the first from `last`). */
  ghost predicate Bouncing(last: Level, samples: seq<Sample>)
  {
    (samples != [] ==> samples[0].reading != last) &&
    forall i :: 0 < i < |samples| ==> samples[i].reading != samples[i - 1].reading
  }

  /**
    Contact bounce is filtered: if every sample flips the level and each step's
    two `millis()` reads lie within the window, the mode never changes.
  */
  lemma {:induction false} BouncingNeverToggles(s: Snapshot, samples: seq<Sample>)
    requires Bouncing(s.lastButton, samples)
    requires forall i :: 0 <= i < |samples| ==>
      Elapsed(samples[i].checkTime, samples[i].changeTime) <= DebounceDelay
    ensures ButtonRun(s, samples).celsius == s.celsius
    decreases |samples|
  {
    if samples != [] {
      var n := ButtonStep(s, samples[0].reading, samples[0].changeTime, samples[0].checkTime);
      ChangeRestartsWindow(s, samples[0].reading, samples[0].changeTime, samples[0].checkTime);
      var rest := samples[1..];
      forall i | 0 < i < |rest|
        ensures rest[i].reading != rest[i - 1].reading
      {
        assert rest[i] == samples[i + 1] && rest[i - 1] == samples[i];
      }
      if rest != [] {
        assert rest[0] == samples[1];
      }
      BouncingNeverToggles(n, rest);
    }
  }

  /** The number of samples whose check time lies past the window opened at `since`. */
  function PastWindow(since: U32, samples: seq<Sample>): nat
    decreases |samples|
  {
    if samples == [] then 0
    else (if Elapsed(samples[0].checkTime, since) > DebounceDelay then 1 else 0)
         + PastWindow(since, samples[1..])
  }

  function Odd(n: nat): bool { n % 2 == 1 }

  /**
    While the button stays held LOW, the debounce time stays fixed and the mode
    flips once for every sample taken past the window: the final mode is the
    initial one flipped by the parity of that count.
  */
  lemma {:induction false} HeldLowRun(s: Snapshot, samples: seq<Sample>)
    requires s.lastButton == Low
    requires forall i :: 0 <= i < |samples| ==> samples[i].reading == Low
    ensures ButtonRun(s, samples) ==
      s.(celsius := s.celsius != Odd(PastWindow(s.lastDebounce, samples)))
    decreases |samples|
  {
    if samples != [] {
      var n := ButtonStep(s, samples[0].reading, samples[0].changeTime, samples[0].checkTime);
      HeldLowRun(n, samples[1..]);
    }
  }

  lemma {:induction false} PastWindowAppend(since: U32, a: seq<Sample>, b: seq<Sample>)
    ensures PastWindow(since, a + b) == PastWindow(since, a) + PastWindow(since, b)
    decreases |a|
  {
    if a != [] {
      assert (a + b)[1..] == a[1..] + b;
      PastWindowAppend(since, a[1..], b);
    } else {
      assert a + b == b;
    }
  }

  lemma {:induction false} PastWindowCount(since: U32, samples: seq<Sample>, past: bool)
    requires forall i :: 0 <= i < |samples| ==>
      (Elapsed(samples[i].checkTime, since) > DebounceDelay <==> past)
    ensures PastWindow(since, samples) == if past then |samples| else 0
    decreases |samples|
  {
    if samples != [] {
      PastWindowCount(since, samples[1..], past);
    }
  }

  /** Held LOW press sampled every 10 ms from `t0`: sample k is taken at t0 + 10k. */
  function HeldPress(t0: nat, n: nat): (r: seq<Sample>)
    requires n == 0 || t0 + 10 * (n - 1) < Modulus
    ensures |r| == n
    ensures forall k :: 0 <= k < n ==> r[k] == Sample(Low, t0 + 10 * k, t0 + 10 * k)
  {
    seq(n, k requires 0 <= k < n => Sample(Low, t0 + 10 * k, t0 + 10 * k))
  }

  /**
    The button pressed from the released state and held for 200 ms, sampled
    every 10 ms (21 samples): the press itself does not toggle, samples 1..5 lie
    inside the window and samples 6..20 each toggle, 15 toggles in all, so the
    mode ends flipped rather than toggled once per press.
  */
  lemma PressHeld200ms(s: Snapshot, t0: nat)
    requires s.lastButton == High
    requires t0 + 200 < Modulus
    ensures var samples := HeldPress(t0, 21);
      ButtonRun(s, samples).celsius == !s.celsius &&
      PastWindow(t0, samples[1..]) == 15
  {
    var samples := HeldPress(t0, 21);
    var first := ButtonStep(s, Low, t0, t0);
    ChangeAtOneInstantNeverToggles(s, Low, t0);
    assert samples[1..] == samples[1..6] + samples[6..];
    PastWindowAppend(t0, samples[1..6], samples[6..]);
    forall i | 0 <= i < |samples[1..6]|
      ensures Elapsed(samples[1..6][i].checkTime, t0) <= DebounceDelay
    {
      assert samples[1..6][i] == samples[i + 1];
    }
    PastWindowCount(t0, samples[1..6], false);
    forall i | 0 <= i < |samples[6..]|
      ensures Elapsed(samples[6..][i].checkTime, t0) > DebounceDelay
    {
      assert samples[6..][i] == samples[i + 6];
    }
    PastWindowCount(t0, samples[6..], true);
    HeldLowRun(first, samples[1..]);
  }

  // ---------------------------------------------------------------------
  // The publish gate in loop()

  /** `millis() - lastPublish > PUBLISH_INTERVAL` on unsigned long. */
  predicate Fires(lastPublish: U32, now: U32)
  {
    Elapsed(now, lastPublish) > PublishInterval
  }

  /** The value of lastPublish after one gate check. */
  function GateStep(lastPublish: U32, now: U32): (r: U32)
    ensures Fires(lastPublish, now) ==> r == now
    ensures !Fires(lastPublish, now) ==> r == lastPublish
  {
    if Fires(lastPublish, now) then now else lastPublish
  }

  /** A firing closes the gate until more than 5000 ms have passed since it. */
  lemma FiringClosesGate(lastPublish: U32, now: U32, later: U32)
    requires Fires(lastPublish, now)
    requires Elapsed(later, now) <= PublishInterval
    ensures !Fires(GateStep(lastPublish, now), later)
  {
  }

  /** The difference wraps: a check shortly after the counter rolls over still
      sees the true elapsed time. */
  lemma GateAcrossWrap()
    ensures Fires(Modulus - 1000, 4001)
    ensures !Fires(Modulus - 1000, 4000)
  {
  }

  /** lastPublish after the gate checks at the times `nows`, in order. */
  function GateRun(lastPublish: U32, nows: seq<U32>): U32
    decreases |nows|
  {
    if nows == [] then lastPublish
    else GateStep(GateRun(lastPublish, nows[..|nows| - 1]), nows[|nows| - 1])
  }

  /** Whether the k-th check of the run fires. */
  predicate FiredAt(lastPublish: U32, nows: seq<U32>, k: nat)
    requires k < |nows|
  {
    Fires(GateRun(lastPublish, nows[..k]), nows[k])
  }

  lemma GateRunSnoc(lastPublish: U32, nows: seq<U32>, k: nat)
    requires k < |nows|
    ensures GateRun(lastPublish, nows[..k + 1]) ==
      if FiredAt(lastPublish, nows, k) then nows[k] else GateRun(lastPublish, nows[..k])
  {
    assert nows[..k + 1][..k] == nows[..k];
  }

  /** After a firing at check i and no firing since, lastPublish still holds nows[i]. */
  lemma {:induction false} QuietKeepsLast(lastPublish: U32, nows: seq<U32>, i: nat, j: nat)
    requires i < j <= |nows|
    requires FiredAt(lastPublish, nows, i)
    requires forall k :: i < k < j ==> !FiredAt(lastPublish, nows, k)
    ensures GateRun(lastPublish, nows[..j]) == nows[i]
    decreases j
  {
    GateRunSnoc(lastPublish, nows, j - 1);
    if j - 1 > i {
      QuietKeepsLast(lastPublish, nows, i, j - 1);
    }
  }

  /** Two consecutive firings are more than PUBLISH_INTERVAL apart (in unsigned time). */
  lemma FiringsAreSpaced(lastPublish: U32, nows: seq<U32>, i: nat, j: nat)
    requires i < j < |nows|
    requires FiredAt(lastPublish, nows, i) && FiredAt(lastPublish, nows, j)
    requires forall k :: i < k < j ==> !FiredAt(lastPublish, nows, k)
    ensures Elapsed(nows[j], nows[i]) > PublishInterval
  {
    QuietKeepsLast(lastPublish, nows, i, j);
  }

  // ---------------------------------------------------------------------
  // Measurements

  /**
    Arduino's `random(lo, hi)`: `lo` when the range is empty, otherwise the
    generator's raw output reduced into [lo, hi) (hi excluded).
  */
  function Random(raw: nat, lo: int, hi: int): (v: int)
    ensures lo < hi ==> lo <= v < hi
    ensures hi <= lo ==> v == lo
  {
    if lo >= hi then lo else lo + raw % (hi - lo)
  }

  /** Every value of a non-empty range is drawn for some generator output. */
  lemma RandomCoversRange(lo: int, hi: int, v: int)
    requires lo <= v < hi
    ensures Random(v - lo, lo, hi) == v
  {
  }

  /** What one cycle measures, temperature in tenths of °C, humidity in tenths of %. */
  datatype Reading = Reading(tempTenths: int, humTenths: int)

  /** The simulated reading: `random(200, 350) / 10.0` °C and `random(40, 80)` %. */
  function SimulatedReading(tempRaw: nat, humRaw: nat): (r: Reading)
    ensures 200 <= r.tempTenths <= 349
    ensures 400 <= r.humTenths <= 790 && r.humTenths % 10 == 0
  {
    Reading(Random(tempRaw, 200, 350), 10 * Random(humRaw, 40, 80))
  }

  /** The DHT reads: either one being NaN (None) aborts the cycle. */
  function SensorReading(temp: Option<int>, hum: Option<int>): (r: Option<Reading>)
    ensures r.Some? <==> temp.Some? && hum.Some?
    ensures r.Some? ==> r.value == Reading(temp.value, hum.value)
  {
    if temp.None? || hum.None? then None else Some(Reading(temp.value, hum.value))
  }

  /**
    The telemetry record: the reading in Celsius tenths, whether it is shown in
    Celsius (otherwise converted to Fahrenheit before formatting), the fixed
    battery value and the `millis()` timestamp.
  */
  datatype Measurement = Measurement(reading: Reading, celsius: bool, batteryHundredths: int, timestamp: U32)

  // ---------------------------------------------------------------------
  // updateLEDs

  datatype Leds = Leds(ledC: Level, ledF: Level)

  /** The levels written to LED_C and LED_F for a mode. */
  function LedsFor(celsius: bool): (l: Leds)
    ensures l.ledC != l.ledF
    ensures l.ledC == High <==> celsius
  {
    if celsius then Leds(High, Low) else Leds(Low, High)
  }

  // ---------------------------------------------------------------------
  // Topics and the status message

  datatype Channel = TelemetryChannel | StatusChannel | EventsChannel | CmdChannel

  function ChannelSuffix(c: Channel): string
  {
    match c
    case TelemetryChannel => "telemetry"
    case StatusChannel => "status"
    case EventsChannel => "events"
    case CmdChannel => "cmd"
  }

  const TopicPrefix: string := "classroom/" + DeviceId + "/"

  /** The MQTT_TOPIC_* macros. */
  function Topic(c: Channel): (t: string)
    ensures |t| > |TopicPrefix| && t[..|TopicPrefix|] == TopicPrefix
    ensures t[|TopicPrefix|..] == ChannelSuffix(c)
  {
    TopicPrefix + ChannelSuffix(c)
  }

  /** Reads a topic back into the channel it names, if it is one of the four. */
  function ChannelOf(topic: string): (r: Option<Channel>)
    ensures r.Some? ==> Topic(r.value) == topic
  {
    if |topic| < |TopicPrefix| || topic[..|TopicPrefix|] != TopicPrefix then None
    else
      var suffix := topic[|TopicPrefix|..];
      if suffix == "telemetry" then Some(TelemetryChannel)
      else if suffix == "status" then Some(StatusChannel)
      else if suffix == "events" then Some(EventsChannel)
      else if suffix == "cmd" then Some(CmdChannel)
      else None
  }

  /** Each topic names its channel and no other: the four topics are distinct. */
  lemma TopicNamesChannel(c: Channel)
    ensures ChannelOf(Topic(c)) == Some(c)
  {
  }

  lemma TopicsDistinct(a: Channel, b: Channel)
    requires a != b
    ensures Topic(a) != Topic(b)
  {
  }

  const StatusOpen: string := "{\"status\":\""
  const StatusClose: string := "\"}"

  /** The payload built by publishStatus, with the status copied unescaped. */
  function StatusPayload(status: string): (p: string)
    ensures |p| == |status| + 13
  {
    StatusOpen + status + StatusClose
  }

  /** Recovers the status from a payload of that fixed shape. */
  function StatusOf(payload: string): Option<string>
  {
    if |payload| >= |StatusOpen| + |StatusClose|
       && payload[..|StatusOpen|] == StatusOpen
       && payload[|payload| - |StatusClose|..] == StatusClose
    then Some(payload[|StatusOpen|..|payload| - |StatusClose|])
    else None
  }

  /** Every status, quotes included, is recovered verbatim from its payload. */
  lemma StatusRoundTrip(status: string)
    ensures StatusOf(StatusPayload(status)) == Some(status)
  {
  }

  /** A message handed to `client.publish`. */
  datatype Publication = Publication(topic: string, payload: string, retained: bool)

  /** publishStatus: a retained message on the status topic. */
  function StatusPublication(status: string): (p: Publication)
    ensures ChannelOf(p.topic) == Some(StatusChannel)
    ensures StatusOf(p.payload) == Some(status)
    ensures p.retained
  {
    TopicNamesChannel(StatusChannel);
    StatusRoundTrip(status);
    Publication(Topic(StatusChannel), StatusPayload(status), true)
  }

  // ---------------------------------------------------------------------
  // One iteration of loop()

  /**
    What one iteration reads from the outside: the button level, the two
    `millis()` of handleButton, the `millis()` of the publish gate, the raw
    `random()` outputs (simulation) and the DHT reads (sensor).
  */
  datatype Inputs = Inputs(
    reading: Level, changeTime: U32, checkTime: U32, now: U32,
    tempRaw: nat, humRaw: nat,
    sensorTemp: Option<int>, sensorHum: Option<int>)

  /** What one iteration writes: a telemetry message, and the LED levels
      unless the iteration returned early. */
  datatype Outputs = Outputs(telemetry: Option<Measurement>, leds: Option<Leds>)

  /** The reading of a firing cycle: the simulated draw, or the DHT reads unless either failed. */
  function Measure(simulation: bool, i: Inputs): (r: Option<Reading>)
    ensures r.None? <==> !simulation && (i.sensorTemp.None? || i.sensorHum.None?)
    ensures simulation ==> r == Some(SimulatedReading(i.tempRaw, i.humRaw))
    ensures !simulation && r.Some? ==> r.value == Reading(i.sensorTemp.value, i.sensorHum.value)
  {
    if simulation then Some(SimulatedReading(i.tempRaw, i.humRaw))
    else SensorReading(i.sensorTemp, i.sensorHum)
  }

  datatype Tick = Tick(state: Snapshot, out: Outputs)

  /**
    One call of loop(): button, then the gate, then the LEDs. The button alone
    decides the mode and the debounce state; the gate alone decides lastPublish.
  */
  function Step(simulation: bool, s: Snapshot, i: Inputs): (t: Tick)
    ensures t.state ==
      ButtonStep(s, i.reading, i.changeTime, i.checkTime).(lastPublish := GateStep(s.lastPublish, i.now))
  {
    var b := ButtonStep(s, i.reading, i.changeTime, i.checkTime);
    if !Fires(b.lastPublish, i.now) then
      Tick(b, Outputs(None, Some(LedsFor(b.celsius))))
    else
      var p := b.(lastPublish := i.now);
      match Measure(simulation, i)
      case None => Tick(p, Outputs(None, None))
      case Some(r) =>
        Tick(p, Outputs(Some(Measurement(r, p.celsius, BatteryHundredths, i.now)), Some(LedsFor(p.celsius))))
  }

  /** Telemetry goes out exactly when the gate fires and the measurement succeeds,
      and carries the measured reading, the mode just set by the button and the
      gate's instant. */
  lemma StepTelemetry(simulation: bool, s: Snapshot, i: Inputs)
    ensures var t := Step(simulation, s, i);
      (t.out.telemetry.Some? <==>
        Fires(s.lastPublish, i.now) && (simulation || (i.sensorTemp.Some? && i.sensorHum.Some?))) &&
      (t.out.telemetry.Some? ==>
        t.out.telemetry.value.reading == Measure(simulation, i).value &&
        t.out.telemetry.value.celsius == t.state.celsius &&
        t.out.telemetry.value.timestamp == i.now &&
        t.out.telemetry.value.batteryHundredths == BatteryHundredths)
  {
  }

  /** A simulated cycle reports 20.0..34.9 °C and 40..79 %. */
  lemma SimulatedTelemetryRanges(s: Snapshot, i: Inputs)
    ensures var t := Step(true, s, i);
      t.out.telemetry.Some? ==>
        200 <= t.out.telemetry.value.reading.tempTenths <= 349 &&
        400 <= t.out.telemetry.value.reading.humTenths <= 790
  {
  }

  /** A failed sensor read still consumes the publish slot, publishes nothing
      and, by returning early, skips the LED update of that iteration. */
  lemma SensorFailureConsumesSlot(s: Snapshot, i: Inputs)
    requires Fires(s.lastPublish, i.now)
    requires i.sensorTemp.None? || i.sensorHum.None?
    ensures var t := Step(false, s, i);
      t.state.lastPublish == i.now && t.out.telemetry.None? && t.out.leds.None?
  {
  }

  /** Whenever the LEDs are written they show the current mode, one on and one off. */
  lemma StepLeds(simulation: bool, s: Snapshot, i: Inputs)
    ensures var t := Step(simulation, s, i);
      (t.out.leds.None? <==> Fires(s.lastPublish, i.now) && Measure(simulation, i).None?) &&
      (t.out.leds.Some? ==>
        t.out.leds.value.ledC != t.out.leds.value.ledF &&
        (t.out.leds.value.ledC == High <==> t.state.celsius))
  {
  }

  // ---------------------------------------------------------------------
  // The firmware's globals, updated in place by handleButton and loop.

  class Station {
    /** MODE_SIMULATION */
    const simulation: bool
    var modeCelsius: bool
    var lastButtonState: Level
    var lastDebounceTime: U32
    var lastPublish: U32

    function State(): Snapshot
      reads this
    {
      Snapshot(modeCelsius, lastButtonState, lastDebounceTime, lastPublish)
    }

    constructor (simulation: bool)
      ensures this.simulation == simulation
      ensures State() == Initial
    {
      this.simulation := simulation;
      modeCelsius := true;
      lastButtonState := High;
      lastDebounceTime := 0;
      lastPublish := 0;
    }

    /** setup(): LED_C on, LED_F off, and the retained "online" status. */
    method Setup() returns (leds: Leds, status: Publication)
      requires State() == Initial
      ensures leds == LedsFor(modeCelsius)
      ensures status == StatusPublication("online")
    {
      leds := Leds(High, Low);
      status := Publication(Topic(StatusChannel), StatusPayload("online"), true);
    }

    method HandleButton(reading: Level, changeTime: U32, checkTime: U32)
      modifies this
      ensures State() == ButtonStep(old(State()), reading, changeTime, checkTime)
    {
      if reading != lastButtonState {
        lastDebounceTime := changeTime;
      }
      if (checkTime - lastDebounceTime) % Modulus > DebounceDelay {
        if reading == Low {
          modeCelsius := !modeCelsius;
        }
      }
      lastButtonState := reading;
    }

    method UpdateLeds() returns (leds: Leds)
      ensures leds.ledC != leds.ledF
      ensures leds.ledC == High <==> modeCelsius
    {
      leds := Leds(if modeCelsius then High else Low, if modeCelsius then Low else High);
    }

    method Loop(i: Inputs) returns (out: Outputs)
      modifies this
      ensures Tick(State(), out) == Step(simulation, old(State()), i)
    {
      HandleButton(i.reading, i.changeTime, i.checkTime);
      var telemetry := None;
      if (i.now - lastPublish) % Modulus > PublishInterval {
        lastPublish := i.now;
        var reading: Reading;
        if simulation {
          reading := Reading(Random(i.tempRaw, 200, 350), 10 * Random(i.humRaw, 40, 80));
        } else {
          if i.sensorTemp.None? || i.sensorHum.None? {
            out := Outputs(None, None);
            return;
          }
          reading := Reading(i.sensorTemp.value, i.sensorHum.value);
        }
        telemetry := Some(Measurement(reading, modeCelsius, BatteryHundredths, i.now));
      }
      var leds := UpdateLeds();
      out := Outputs(telemetry, Some(leds));
    }
  }
}

# ESP32 classroom weather station and its MQTT bridge, in Dafny

This project models the logic of a two-part IoT system:

- **The ESP32 firmware** (`mainESP32.code.cpp`). A polling `loop()` reads a push button and toggles the displayed unit (Celsius/Fahrenheit) through a 50 ms debounce filter. Every 5000 ms it publishes a telemetry record, simulated or read from a DHT22 sensor. It drives two LEDs showing the unit, and at boot hands a retained `{"status":"…"}` message to `client.publish`. The globals `modeCelsius`, `lastButtonState`, `lastDebounceTime` and `lastPublish` become the fields of the class `Firmware.Station`. Its methods `HandleButton` and `Loop` change them in place. Each method is proved equal to a pure step function (`ButtonStep`, `Step`) on a `Snapshot` value, and the properties are lemmas about those functions.
- **The Node.js bridge** (`bridge/server.js`). It forwards MQTT messages to WebSocket clients. The model covers its pure helpers: parsing the `MQTT_TOPICS` list (`split(",")`, `trim`, `filter(Boolean)`), `classify`, the device-id extraction `topic.split("/")[1] || "?"`, `safeJsonParse`, and the record and log line built for each message.

`unsigned long` is 32 bits on the ESP32. Timestamps are therefore `U32` values, and every `a - b` on them is `Elapsed(a, b) = (a - b) mod 2^32`, so counter wrap-around is modelled. Hardware, library and clock calls are inputs or outputs of the steps:
- each `millis()` is an argument;
- `digitalRead` is a `Level` argument;
- `random()` hands over its raw generator output;
- a DHT read is an `Option<int>`, with None standing for NaN;
- `digitalWrite` and `client.publish` become returned values.

What the model shows about the source:
- The toggle is level-triggered, as written. While the button is held LOW past the window, every iteration flips the mode again (`HeldLowTogglesEveryStep`, `HeldLowRun`). A 200 ms press sampled every 10 ms flips it 15 times (`PressHeld200ms`).
- A failed sensor read still moves `lastPublish` forward. The early `return` then also skips `updateLEDs()` for that iteration (`SensorFailureConsumesSlot`).
- Arduino's `random(lo, hi)` excludes `hi`. Simulated temperatures are therefore 20.0–34.9 °C and humidities 40–79 %. The comments next to the calls say 20.0–35.0 and 40–80; the model follows the code.

## Model

| member | source | states |
|---|---|---|
| Firmware.Elapsed | mainESP32.code.cpp:78 | the unsigned difference is the unique value in [0, 2^32) that added to `since` gives `now` modulo 2^32; it equals `now - since` without wrap and `2^32 - since + now` across a wrap |
| Firmware.ButtonStep | mainESP32.code.cpp:153-162 | after a step `lastButtonState` is the reading just taken, `lastPublish` is untouched, and a HIGH reading never changes the mode |
| Firmware.ToggleCondition | mainESP32.code.cpp:155-159 | the mode flips exactly when the reading is LOW and the unsigned time since the (possibly just reset) debounce time exceeds 50 ms |
| Firmware.ChangeRestartsWindow | mainESP32.code.cpp:155-158 | a reading different from the last one sets the debounce time to the first `millis()` and toggles only if LOW and the second `millis()` is more than 50 ms later |
| Firmware.ChangeAtOneInstantNeverToggles | mainESP32.code.cpp:155-158 | when both `millis()` reads agree, the step that sees a change never toggles and records that instant |
| Firmware.SteadyReadingKeepsWindow | mainESP32.code.cpp:155 | an unchanged reading keeps the debounce time |
| Firmware.HeldLowTogglesEveryStep | mainESP32.code.cpp:157-158 | held LOW past the window, one step inverts the mode and a second one restores it (level-triggered involution) |
| Firmware.ButtonRun | mainESP32.code.cpp:153-162 | a run of button steps never changes `lastPublish` |
| Firmware.ReleasedNeverToggles | mainESP32.code.cpp:158 | any run of HIGH readings leaves the mode unchanged |
| Firmware.BouncingNeverToggles | mainESP32.code.cpp:155-158 | a run in which every reading flips the level and each step's two time reads lie within 50 ms never changes the mode |
| Firmware.HeldLowRun | mainESP32.code.cpp:155-161 | while held LOW the debounce time stays fixed and the final mode is the initial one flipped by the parity of the number of samples past the window |
| Firmware.PressHeld200ms | mainESP32.code.cpp:153-162 | a press from HIGH held 200 ms and sampled every 10 ms toggles 15 times (samples 6 to 20) and ends with the mode inverted |
| Firmware.GateStep | mainESP32.code.cpp:78-79 | the gate fires (`Fires`, the test at :78) iff the unsigned time since `lastPublish` exceeds 5000 ms; `lastPublish` becomes `now` when it fires and is unchanged otherwise |
| Firmware.FiringClosesGate | mainESP32.code.cpp:78-79 | after a firing, no check within 5000 ms of it fires |
| Firmware.GateAcrossWrap | mainESP32.code.cpp:78 | across a counter wrap the gate still measures the true elapsed time (fires at 5001 ms, not at 5000 ms) |
| Firmware.QuietKeepsLast | mainESP32.code.cpp:78-79 | in a sequence of checks (`GateRun` folds `GateStep` over successive `loop()` instants), after a firing and no firing since, `lastPublish` still holds the time of that firing |
| Firmware.FiringsAreSpaced | mainESP32.code.cpp:78-79 | any two consecutive firings are more than 5000 ms apart in unsigned time |
| Firmware.Random | mainESP32.code.cpp:86-87 | `random(lo, hi)` lies in [lo, hi), hi excluded, and is `lo` for an empty range |
| Firmware.RandomCoversRange | mainESP32.code.cpp:86-87 | every value of [lo, hi) is produced by some generator output |
| Firmware.SimulatedReading | mainESP32.code.cpp:86-87 | simulated temperature tenths lie in [200, 349], humidity tenths in [400, 790] and are whole percents |
| Firmware.SensorReading | mainESP32.code.cpp:89-94 | the cycle has a reading iff neither DHT read is NaN, and then it is those two values |
| Firmware.LedsFor | mainESP32.code.cpp:164-167 | LED_C and LED_F are at opposite levels and LED_C is HIGH iff the mode is Celsius |
| Firmware.Topic | mainESP32.code.cpp:22-25 | each topic is `classroom/ESP32_01/` followed by its channel's suffix |
| Firmware.ChannelOf | mainESP32.code.cpp:22-25 | a topic read back as a channel is that channel's topic |
| Firmware.TopicNamesChannel | mainESP32.code.cpp:22-25 | every channel's topic reads back as that channel |
| Firmware.TopicsDistinct | mainESP32.code.cpp:22-25 | the four topics are pairwise different |
| Firmware.StatusPayload | mainESP32.code.cpp:170-172 | the payload is the status plus 13 fixed characters |
| Firmware.StatusRoundTrip | mainESP32.code.cpp:170-172 | any status, quotes included, is recovered verbatim from `{"status":"` + status + `"}` (no escaping) |
| Firmware.StatusPublication | mainESP32.code.cpp:169-174 | publishStatus sends a retained message on the status topic whose payload carries the status |
| Firmware.Measure | mainESP32.code.cpp:85-95 | a firing cycle has no reading exactly when the real sensor is used and either DHT read is NaN; otherwise it is the simulated draw or the two DHT values |
| Firmware.Step | mainESP32.code.cpp:72-114 | one loop iteration leaves the button state of handleButton and the `lastPublish` of the gate, and nothing else |
| Firmware.StepTelemetry | mainESP32.code.cpp:78-111 | telemetry goes out iff the gate fires and the measurement succeeds, and carries the measured reading, the mode just set by the button, the gate's time and battery 3.90 |
| Firmware.SimulatedTelemetryRanges | mainESP32.code.cpp:85-87 | published simulated values lie in 20.0..34.9 °C and 40..79 % |
| Firmware.SensorFailureConsumesSlot | mainESP32.code.cpp:79-94 | a NaN read in a firing iteration still sets `lastPublish := now`, publishes nothing and writes no LEDs |
| Firmware.StepLeds | mainESP32.code.cpp:91-113 | LEDs are written unless the iteration aborted on a sensor failure, and then show the current mode, one on and one off |
| Firmware.Station.constructor | mainESP32.code.cpp:35-40 | the globals start as Celsius, button HIGH, both timestamps 0 |
| Firmware.Station.Setup | mainESP32.code.cpp:59-68 | setup lights LED_C, clears LED_F, in agreement with the initial mode, and hands the retained status "online" to `client.publish` |
| Firmware.Station.HandleButton | mainESP32.code.cpp:153-162 | updates the globals in place exactly as `ButtonStep` |
| Firmware.Station.UpdateLeds | mainESP32.code.cpp:164-167 | returns opposite levels with LED_C HIGH iff `modeCelsius` |
| Firmware.Station.Loop | mainESP32.code.cpp:72-114 | updates the globals and returns the outputs exactly as `Step` |
| Bridge.Split | bridge/server.js:6 | `split(",")` yields at least one piece and no piece contains the separator |
| Bridge.JoinSplit | bridge/server.js:6 | joining the pieces of a split with the separator gives the string back |
| Bridge.SplitJoin | bridge/server.js:6 | splitting a join of separator-free pieces gives the pieces back |
| Bridge.TrimStart | bridge/server.js:7 | the result is a suffix, everything cut is JavaScript white space (`IsJsSpace`: the ECMAScript WhiteSpace and LineTerminator characters `trim()` removes), and it does not start with white space |
| Bridge.TrimEnd | bridge/server.js:7 | the result is a prefix, everything cut is white space, and it does not end with white space |
| Bridge.Trim | bridge/server.js:7 | `trim()` leaves no white space at either end |
| Bridge.TrimSlice | bridge/server.js:7 | what `trim()` keeps is one slice of the input with only white space cut on either side |
| Bridge.TrimTrimmed | bridge/server.js:7 | a string without white space at its ends is left unchanged |
| Bridge.TrimIdempotent | bridge/server.js:7 | trimming twice is trimming once |
| Bridge.TrimEmpty | bridge/server.js:7-8 | `trim()` gives "" exactly when the piece is all white space, so such pieces are the ones filtered out |
| Bridge.TrimAll | bridge/server.js:7 | `map(trim)` keeps the length and trims each piece in place |
| Bridge.DropEmpty | bridge/server.js:8 | every kept item is a non-empty input item, and every non-empty input item is kept |
| Bridge.DropEmptyAppend | bridge/server.js:8 | the filter works item by item over a concatenation, so it keeps order and multiplicity |
| Bridge.DropEmptySingle | bridge/server.js:8 | a single item is kept exactly when it is non-empty |
| Bridge.DropEmptyClean | bridge/server.js:8 | the filter keeps only items that were already trimmed and comma-free |
| Bridge.TrimAllCons | bridge/server.js:7 | `map(trim)` trims the first item and maps the rest |
| Bridge.CleanCons | bridge/server.js:7-8 | trimming then filtering handles the first item on its own: its trimmed text, or nothing when blank, before the rest |
| Bridge.DropEmptyKeeps | bridge/server.js:8 | a list without empty strings passes the filter unchanged, order included |
| Bridge.ParseTopicList | bridge/server.js:5-8 | every parsed topic is non-empty, trimmed and comma-free |
| Bridge.ParseCons | bridge/server.js:5-8 | `a,rest` parses to the trimmed `a` (or nothing when `a` is blank) followed by the parse of `rest`, so entries keep their order and blank ones disappear |
| Bridge.ParseSingle | bridge/server.js:5-8 | a comma-free string parses to its trimmed text, or to the empty list when it is blank |
| Bridge.ParseJoinedTopics | bridge/server.js:5-8 | a list of non-empty, trimmed, comma-free topics joined with commas parses back to itself |
| Bridge.DefaultTopicList | bridge/server.js:5 | the default string parses to exactly `["classroom/+/telemetry", "flipper/+/+"]` |
| Bridge.ConfiguredTopics | bridge/server.js:5 | an unset or empty `MQTT_TOPICS` gives the default list; any other value is parsed |
| Bridge.Classify | bridge/server.js:21-25 | with `StartsWith` as `String.prototype.startsWith`: "telemetry" iff the topic starts with `classroom/`, "flipper" iff it starts with `flipper/` and not `classroom/`, "unknown" iff neither |
| Bridge.PrefixesDisjoint | bridge/server.js:22-23 | no topic starts with both prefixes |
| Bridge.ClassifyTotal | bridge/server.js:21-25 | `classify` always returns one of its three kinds |
| Bridge.TopicDeviceId | bridge/server.js:74 | the device id is never empty and contains no `/` |
| Bridge.DeviceIdOfSegments | bridge/server.js:74 | for `head/id` or `head/id/…` with a non-empty id, the device id is that second segment |
| Bridge.DeviceIdMissing | bridge/server.js:74 | a topic without `/` gets the device id "?" |
| Bridge.DeviceIdEmptySegment | bridge/server.js:74 | an empty second segment (`head/` or `head//…`) is falsy and also gives "?" |
| Bridge.SafeJsonParse | bridge/server.js:12-19 | `ok` is true exactly when `JSON.parse` succeeds; the value is then the decoded document, and otherwise the raw text |
| Bridge.OnMessage | bridge/server.js:62-81 | the record has `kind = classify(topic)`, the topic, `payload = parsed.value`, `payloadIsJson = parsed.ok` and the time; the log line is a telemetry line with the device id iff the kind is telemetry, and otherwise names the topic |
| Interop.StationTopicsSeenByBridge | mainESP32.code.cpp:22-25 | the bridge classifies every station topic as telemetry and reads `ESP32_01` out of it as the device id |
| Interop.OnlineStatusLogged | mainESP32.code.cpp:68 | the boot-time "online" status, if it were delivered to the bridge, would be handled as telemetry from `ESP32_01` |

## Left out

- WiFi and MQTT connection management (`connectWiFi`, `reconnectMQTT`, `client.loop()`, `client.setServer`, `subscribe`), mainESP32.code.cpp:64-65, 75-76 and 117-151. These are network I/O through libraries that are not part of this model. Their blocking delays show up only as the time values passed to the next steps.
- The Celsius-to-Fahrenheit conversion and the `String(x, n)` formatting of the telemetry payload (mainESP32.code.cpp:97-107). These are floating-point arithmetic and formatting. A `Measurement` carries the Celsius reading in tenths and a flag saying whether it is shown in Fahrenheit.
- The DHT library and `isnan`: a sensor read is an `Option<int>` in tenths, with None standing for NaN. `dht.begin()` and `Serial` logging are not modelled.
- `random()` is an input: the model takes the generator's raw output and reduces it into [lo, hi) as Arduino's `random(lo, hi)` does.
- Firmware.Station.Loop: the three `millis()` calls of one iteration (mainESP32.code.cpp:78, 79, 83) are taken as one instant `now`. The two calls in `handleButton` stay separate inputs.
- `debounceDelay` is a mutable global in the source but is never assigned, so it is the constant `DebounceDelay`.
- In the bridge: the WebSocket server, the `clients` set, `broadcast`, the MQTT client and its event handlers, and `Date.now` (an input `now`). The UTF-8 decoding of the payload buffer is also left out (the payload arrives as text), and so is `JSON.parse` (its outcome is an input). Of the console output, the model keeps which log line the handler chooses and the device id or topic it names; the temperature field of the telemetry line and the other console messages are left out.
- Message delivery is not modelled: neither the broker, nor MQTT topic-filter matching, nor whether a publish reaches anyone. The bridge's default filters (`classroom/+/telemetry`, `flipper/+/+`) do not match the station's status topic. `setup()` also publishes its status before the first `client.connect`, which happens only in `reconnectMQTT` from `loop()`. So Interop.OnlineStatusLogged states what the bridge would do with that message, not that it receives it.
- Firmware.Step: a telemetry output is a `Measurement`. The topic it goes to (always the telemetry topic) and its not-retained flag (mainESP32.code.cpp:109) are implicit.
- Bridge.OnMessage: the record's constant `type: "mqtt"` field is not represented.

# Smart Plant Monitor: a verified model of the firmware's decision logic and the receiver

The Smart Plant Monitor is an ESP32 board that reads its sensors each second:
- a CAP1188 touch controller;
- a light-dependent resistor;
- an AHT temperature and humidity sensor;
- an LSM6DSO accelerometer.

On each tick the firmware (`src/main.cpp`) does the following, in order:
1. Shows the fan level on a TFT screen.
2. Turns a fan servo according to how many touch pads are touched.
3. Builds a telemetry string `Fan-lvl:<n>,LDR:<n>,Temp:<t>,Hum:<h>,X:<x>,Y:<y>,Z:<z>`.
4. Notifies that string over BLE while a central is connected.
5. Reports it to the server with status code 200.
6. Checks six alert rules. If one fires, it notifies the alert over BLE while a central is connected, reports it with status code 500, and sounds the buzzer.
7. Waits one second.

The Flask receiver (`server.py`) handles `/api/upload`:
- It parses the `info` argument with `parse_info` into a dictionary.
- For a 200 report, it appends one CSV row to `sensor_data.csv`.
- It logs 500 reports and unknown codes without storing them.

This project models both sides in Dafny:
- **`Wrappers`**: `Option` and `Result`.
- **`Text`**: Python's `str.split` on a single character, `str.strip`, and a join. It proves that split and join are inverses.
- **`Firmware`**: the decision logic of `src/main.cpp`:
  - touch counting;
  - the ESP32 core's `map` and the servo angle;
  - the fan line of the display;
  - the alert rules;
  - the telemetry string;
  - the BLE gate driven by the connection callbacks;
  - the `Board` class, whose `Loop` method produces the ordered effects of one tick.
- **`Server`**: `parse_info` (a loop proved against a functional specification), the CSV row, the routing of `receive_data`, and the `DataFile` class holding the file as a sequence of lines.
- **`EndToEnd`**: the two sides together. The telemetry the firmware builds is read back by `parse_info` into exactly its seven keys. A tick's routine report stores one row of eight fields. Its alert report stores nothing.

Two things are parameters rather than modelled:
- Arduino's `String(float)` is a function `fmt: real -> string`.
- Python's `int(text)`, `float(text)` and f-string rendering of numbers are the three fields of a `Python` value.

The properties that need a value to be read back state their assumptions about these two parameters as preconditions. For example: the float texts hold no `,` or `:`, and Python accepts the seven value texts.

## Model

| member | source | states |
|---|---|---|
| Firmware.GetTouchCount | src/main.cpp:221-229 | The loop counts exactly the touched channels, i.e. the set bits among bits 0..7 of the mask; the count lies in 0..8 |
| Firmware.ChannelsBelowBound | src/main.cpp:223-227 | At most `n` of the first `n` channels can be touched |
| Firmware.TouchCountNone | src/main.cpp:221-229 | Mask 0x00 counts no touch |
| Firmware.TouchCountLowNibble | src/main.cpp:221-229 | Mask 0x0F counts four touches |
| Firmware.TouchCountAll | src/main.cpp:221-229 | Mask 0xFF counts eight touches |
| Firmware.ServoAngleFormula | src/main.cpp:231-233 | The angle is 90 with no touch; otherwise it is `(c-1)*180/7` truncated, i.e. the greatest angle whose seven-fold is at most `(c-1)*180` |
| Firmware.ServoAngleRange | src/main.cpp:231-233 | For one to eight touches the angle stays within the servo's 0..180 |
| Firmware.ServoAngleMonotone | src/main.cpp:231-233 | From one touch on, more touches never give a smaller angle; no touch gives the centred 90, which is above the angles for one to four touches |
| Firmware.ServoAngleTable | src/main.cpp:231-233 | The nine angles for counts 0..8 are 90, 0, 25, 51, 77, 102, 128, 154, 180; map truncates, so count 2 gives 25, not the rounded 26 |
| Firmware.NatString | src/main.cpp:212 | Arduino `String(n)` of a natural number is a non-empty digit string without leading zeros |
| Firmware.DecimalString | src/main.cpp:271-273 | `String(n)` is the digits of `n` for `n >= 0`, and `-` followed by the digits of `-n` for `n < 0`; it holds no `,` or `:` |
| Firmware.NatStringLength | src/main.cpp:271-273 | `String(n)` of a number below `10^k` has at most `k` digits |
| Firmware.NatStringValue | src/main.cpp:271-273 | The digits of `String(n)` read back as `n` |
| Firmware.FanLineOff | src/main.cpp:212 | The first display line is "Fan lvl: off" exactly when no pad is touched |
| Firmware.FirstMatchSpec | src/main.cpp:235-243 | An alert is reported exactly when some rule holds; the reported rule holds and every earlier rule fails |
| Firmware.FirstMatchOfRules | src/main.cpp:236-242 | The first-match search over the rule table is the six-branch if-chain in the source's order |
| Firmware.CheckAlerts | src/main.cpp:235-243 | Returns true iff some rule holds; the details then carry the message of the first rule that holds, else they are left untouched |
| Firmware.ThresholdsAreStrict | src/main.cpp:236-241 | Readings exactly at each threshold (5, 5, ±0.3, ±0.3, 0.8, 150) raise no alert |
| Firmware.SafeReadingsRaiseNoAlert | src/main.cpp:236-242 | Readings inside every threshold raise no alert |
| Firmware.AlertScenarios | src/main.cpp:236-242 | A cold reading wins over all others; a tilted X axis wins once temperature and humidity pass |
| Firmware.TelemetryIsJoin | src/main.cpp:271-273 | The telemetry string is the seven `key:value` pairs joined by `,` in key order |
| Firmware.SplitPair | src/main.cpp:271-273 | A pair whose key and value hold no `:` splits on `:` into exactly that key and value |
| Firmware.TelemetryPairAt | src/main.cpp:271-273 | The `i`-th pair is the `i`-th key, a colon and the `i`-th value text, with no comma in it |
| Firmware.TelemetryFields | src/main.cpp:271-273 | With clean float texts, splitting the telemetry on `,` gives the seven pairs, each splitting on `:` into its key and value |
| Firmware.TickReportsWith | src/main.cpp:274-282 | In one tick only the codes 200 and 500 are reported: 200 once, and 500 once when an alert fired |
| Firmware.TickReports | src/main.cpp:274-282 | Each tick sends exactly one 200 report, and one 500 report iff an alert fired |
| Firmware.TickOrder | src/main.cpp:268-284 | The ordering of one tick: display, then servo, then the BLE telemetry (if connected), then the 200 report with the same telemetry. On an alert come the "ALERT: "-prefixed BLE message, the 500 report with the bare message, and the 300 Hz one-second tone. The one-second delay is last |
| Firmware.TickToneIffAlert | src/main.cpp:277-282 | The buzzer sounds in a tick exactly when an alert fired |
| Firmware.TickSilentWhenDisconnected | src/main.cpp:202-208 | With no central connected a tick notifies nothing over BLE |
| Firmware.TickShape | src/main.cpp:254-285 | The effects of a tick for each of the four cases of connection and alert |
| Firmware.Board.constructor | src/main.cpp:36 | At power-on no central is connected and nothing has been emitted |
| Firmware.Board.OnConnect | src/main.cpp:45-48 | The connect callback sets the flag and emits nothing |
| Firmware.Board.OnDisconnect | src/main.cpp:49-52 | The disconnect callback clears the flag and emits nothing |
| Firmware.Board.SendBLEData | src/main.cpp:202-208 | Notifies exactly the given data while connected and emits nothing otherwise |
| Firmware.Board.SendDataToServer | src/main.cpp:162-183 | Each call issues exactly one report with the given code and info, whatever the HTTP outcome |
| Firmware.Board.UpdateDisplay | src/main.cpp:210-212 | Shows the fan line for the touch count |
| Firmware.Board.ControlServo | src/main.cpp:231-233 | Writes the servo angle of the touch count |
| Firmware.Board.Loop | src/main.cpp:254-285 | One loop appends exactly the tick's effect sequence for the current connection state and snapshot, computed from the touch count, alert rules and telemetry |
| Text.Split | server.py:17 | `str.split` on one character gives one more piece than there are separators |
| Text.SplitPieces | server.py:17 | No piece of a split contains the separator |
| Text.SplitWithoutSeparator | server.py:17 | A string without the separator splits into itself alone |
| Text.SplitFirst | server.py:20 | Splitting `a + sep + b` with `sep` not in `a` gives `a` followed by the pieces of `b` |
| Text.SplitJoin | server.py:17 | Split undoes join for pieces free of the separator |
| Text.JoinSplit | server.py:17 | Join undoes split for every string |
| Text.JoinSnoc | server.py:58-62 | Joining one more piece appends the separator and the piece |
| Text.TrimStartSpec | server.py:21 | Left stripping removes a prefix of whitespace only and stops at a non-space character |
| Text.TrimEndSpec | server.py:21 | Right stripping removes a suffix of whitespace only and stops at a non-space character |
| Text.StripSpec | server.py:21 | `strip` removes whitespace only, from both ends, leaving no whitespace at either end; a string with no whitespace is kept |
| Text.StripLeading | server.py:21 | Stripping whitespace padding off a whitespace-free key gives back the key |
| Server.ParsePart | server.py:20-21 | A part whose colon count is not one fails to unpack (into that count plus one values); a one-colon part parses exactly when `int` (for the unstripped key "Fan-lvl") or `float` (for any other key) accepts the value text, is then stored under its stripped key with that converted number, and otherwise fails naming the rejected text |
| Server.ParseInfo | server.py:15-24 | The loop returns the dictionary, or the ValueError of the first failing part, that the functional reading of `parse_info` gives |
| Server.DecodePartsOk | server.py:19-21 | The loop completes exactly when every part parses |
| Server.KeysOfMember | server.py:21 | A key is among the stored keys exactly when some part's stripped key is it |
| Server.DecodePartsKeys | server.py:18-21 | The completed dictionary's keys are the keys already present plus the stripped key of each part |
| Server.DecodePartsKeeps | server.py:21 | An entry no later part names survives the loop unchanged |
| Server.DecodePartsLast | server.py:21 | The last part naming a key decides that key's value (later duplicates overwrite) |
| Server.DecodeOk | server.py:15-24 | `parse_info` returns exactly when every comma-separated part parses, and raises otherwise |
| Server.DecodeUnpackFails | server.py:19-24 | One part with no colon or several colons makes `parse_info` raise |
| Server.DecodeKeys | server.py:17-22 | The returned dictionary has exactly the stripped keys of the parts |
| Server.DecodeValue | server.py:19-22 | A key's value is the converted value of the last part that names it |
| Server.DecodeSinglePart | server.py:15-22 | A single `key:value` part gives the one-entry dictionary under the stripped key |
| Server.PaddedFanKeyReadAsFloat | server.py:21 | A whitespace-padded "Fan-lvl" key is stored as "Fan-lvl" but converted with `float`, since the type test looks at the unstripped key |
| Server.PaddedKey | server.py:21 | A padded "Fan-lvl" strips to "Fan-lvl" but differs from it |
| Server.ParsePartFloat | server.py:21 | A part under a key other than "Fan-lvl" is converted with `float` and stored under its stripped key |
| Server.CsvRow | server.py:57-62 | The row can be written exactly when all seven keys are present; otherwise the KeyError names the first missing key in column order |
| Server.RowSplits | server.py:57-62 | With comma-free timestamp and values the row splits into eight fields, matching the header: timestamp, then the seven values in column order |
| Server.RowIsJoin | server.py:58-62 | The row is its eight fields joined by `,` |
| Server.RouteOf | server.py:52-67 | Code 200 goes to storing and only 200; code 500 goes to the error log and only 500; every other code goes to the unknown log |
| Server.ReceiveOtherCodes | server.py:64-68 | A request with any code other than 200 stores nothing and is acknowledged with 200 |
| Server.ReceiveRoutine | server.py:52-71 | A 200 report stores a row iff its info parses and holds the seven keys, and is then acknowledged; otherwise it is answered with 500 and stores nothing; a parse failure's body carries the ValueError |
| Server.DataFile.constructor | server.py:10-12 | An existing file is kept; a missing one starts with the header alone |
| Server.DataFile.ReceiveData | server.py:46-71 | The response and the new file are what the handler gives for the decoded arguments; the file only grows, by at most one row, and keeps its header |
| EndToEnd.KeysShape | src/main.cpp:271-273 | The firmware's keys are the receiver's seven row keys, free of whitespace, pairwise distinct, with only the first equal to "Fan-lvl" |
| EndToEnd.PartOfPair | server.py:20-21 | A firmware pair is stored under its key and converted as the receiver's type test says |
| EndToEnd.TelemetryParts | server.py:17-21 | Each of the seven telemetry parts is stored under its key and parses exactly when Python reads its value text |
| EndToEnd.TelemetryRoundTrip | server.py:15-22 | `parse_info` of the telemetry string succeeds exactly when Python reads the seven value texts; the dictionary then has exactly the seven keys, with the fan level as an `int` and the other six readings as `float`s |
| EndToEnd.SnapshotDecodes | server.py:15-22 | The telemetry of a snapshot decodes to a dictionary with every row key, holding Python's reading of each value text the firmware wrote |
| EndToEnd.TickStoresRow | server.py:52-68 | A tick's routine report is acknowledged and stores one row of eight fields: the timestamp, then the seven readings as Python reads and writes them |
| EndToEnd.DecodedIntegers | server.py:21 | The stored "Fan-lvl" is `int` of the count's digits and the stored "LDR" is `float` of the light reading's digits |
| EndToEnd.FanReads | server.py:21 | When `int` reads digit strings of at most 15 digits as their decimal value, it reads a count of at most eight back exactly |
| EndToEnd.LdrReads | server.py:21 | When `float` reads digit strings of at most 15 digits as their decimal value, it reads a 12-bit light reading back exactly |
| EndToEnd.IntegerReadingsRoundTrip | src/main.cpp:133 | When Python reads digit strings of at most 15 digits as their decimal value, the stored "Fan-lvl" is the `int` touch count and the stored "LDR" is the 12-bit light reading (0..4095) as a `float` |
| EndToEnd.AlertReportNotStored | server.py:64-68 | A tick's alert report, sixth effect when connected and fourth when not, is acknowledged and stores nothing |

## Left out

- Sensor drivers (`touchSensor.touched`, `analogRead`, `aht.getEvent`, the IMU reads) and `initializeDevices`: a tick's readings are a `Snapshot` parameter.
- `setup`, `connectToWiFi`, `nvs_access` and `initializeBLE`: one-time hardware and credential set-up, with no decision logic.
- The HTTP transport in `sendDataToServer` (the connection, the response code, the serial messages): a report is one effect whatever its outcome. The info is placed into the URL without percent-encoding. The model assumes Flask receives the arguments as the firmware wrote them.
- EndToEnd.AlertReportNotStored: "acknowledged" is a statement about the handler only. Every alert message contains a space, and src/main.cpp:167 puts it into the URL raw, so the HTTP client or server most likely rejects the request line before `receive_data` runs. HttpClient and Werkzeug are not part of this model.
- The Serial logging in the connection callbacks and in `sendBLEData` (src/main.cpp:47, 51, 206) is not modelled: it is console output with no effect on the decisions.
- Flask's decoding of the query string is not modelled. `ReceiveData` takes each argument as present-or-missing text.
- The bodies of `tft`, servo `write`, `tone`, `delay` and BLE `notify`: each is recorded as an effect carrying its argument. Timing and concurrency with the BLE callbacks are not modelled; a callback runs between ticks.
- Firmware.Board.UpdateDisplay: only the first display line (the fan level) is modelled. The six other lines are formatting with `%.1f` and `%.2f`.
- Arduino `String(float)`, which writes two decimals: a parameter `fmt`, about which the end-to-end lemmas assume only that its texts hold no `,` or `:`.
- Python's `int`, `float` and f-string number rendering: opaque functions in the `Python` datatype. `float` also accepts "nan", "inf" and "infinity", which `str` writes back as "nan" or "inf"; `FloatNum` holds a `real` and cannot represent those, so no `Python` value is faithful on such texts. The firmware never sends them; only a hand-crafted request could.
- Sensor values are `real`, not IEEE floats. Every finite float reading, taken as its exact value, is compared by `Holds` as the C++ comparisons at src/main.cpp:236-241 compare it: no float lies between 0.3 (or 0.8) and the double nearest it, so 0.3f (0.3000000119...) fires in both. Only NaN readings, which raise no alert in C++, cannot be expressed.
- Firmware.ArduinoMap: does not model 32-bit `long` overflow, which cannot happen for the counts 1..8 that reach it. An empty input range gives -1, as in the ESP32 core.
- `get_data`, `index` and the Flask app start-up: they read the file with pandas or render a page, and change nothing.
- Server.DataFile.ReceiveData: the `timestamp` entry that `receive_data` adds to the dictionary is not kept; only its value in the row is. The clock is the `timestamp` parameter.
- Server.DataFile.ReceiveData: the file is kept as its lines without line ends. I/O errors from `open` and the prints to the console are not modelled.
- Servo rounding: `map` truncates (src/main.cpp:232), so count 2 gives 25, not the rounded 26; the model follows the code.

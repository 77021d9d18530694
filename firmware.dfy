/** The per-tick decision logic of the plant monitor's ESP32 firmware: touch counting,
    the fan servo mapping, the alert rules, the telemetry string, the BLE gate driven by
    the connection callbacks, and the fixed order of one loop iteration's side effects. */
module Firmware {
  import opened Wrappers
  import Text

  // ---------------------------------------------------------------------------
  // Touch count

  /** The `uint8_t` mask the CAP1188 touch controller reports. */
  type Byte = x: int | 0 <= x < 256

  function Pow2(i: nat): (p: nat)
    ensures p >= 1
  {
    if i == 0 then 1 else 2 * Pow2(i - 1)
  }

  /** The C test `(m & (1 << i)) != 0`: bit `i` of `m` is set. */
  predicate Bit(m: nat, i: nat) {
    (m / Pow2(i)) % 2 == 1
  }

  /** The touch channels below `n` whose bit is set in `mask`. */
  function ChannelsBelow(mask: Byte, n: nat): set<nat> {
    set i: nat | i < n && Bit(mask, i)
  }

  /** The touched channels: those among bits 0..7 that are set. */
  function Channels(mask: Byte): set<nat> {
    ChannelsBelow(mask, 8)
  }

  lemma ChannelsBelowStep(mask: Byte, n: nat)
    ensures ChannelsBelow(mask, n + 1) == ChannelsBelow(mask, n) + (if Bit(mask, n) then {n} else {})
    ensures n !in ChannelsBelow(mask, n)
  {
  }

  /** At most `n` of the first `n` channels can be touched. */
  lemma {:induction false} ChannelsBelowBound(mask: Byte, n: nat)
    ensures |ChannelsBelow(mask, n)| <= n
  {
    if n > 0 {
      ChannelsBelowBound(mask, n - 1);
      ChannelsBelowStep(mask, n - 1);
    }
  }

  /** `getTouchCount`: counts the set bits of the mask, one bit per iteration. */
  method GetTouchCount(touched: Byte) returns (touchCount: int)
    ensures touchCount == |Channels(touched)|
    ensures 0 <= touchCount <= 8
  {
    touchCount := 0;
    var i := 0;
    while i < 8
      invariant 0 <= i <= 8
      invariant touchCount == |ChannelsBelow(touched, i)|
    {
      ChannelsBelowStep(touched, i);
      if Bit(touched, i) {
        touchCount := touchCount + 1;
      }
      i := i + 1;
    }
    ChannelsBelowBound(touched, 8);
  }

  lemma Pow2Low(i: nat)
    requires i < 8
    ensures Pow2(i) == [1, 2, 4, 8, 16, 32, 64, 128][i]
  {
    if i > 0 { Pow2Low(i - 1); }
  }

  /** The bits of the three example masks 0x00, 0x0F and 0xFF. */
  lemma ExampleBits(i: nat)
    requires i < 8
    ensures !Bit(0x00, i)
    ensures Bit(0x0F, i) <==> i < 4
    ensures Bit(0xFF, i)
  {
    Pow2Low(i);
  }

  /** No channel touched: 0x00 counts 0. */
  lemma TouchCountNone()
    ensures |Channels(0x00)| == 0
  {
    forall i: nat | i < 8 ensures !Bit(0x00, i) { ExampleBits(i); }
    assert Channels(0x00) == {};
  }

  /** The low nibble: 0x0F counts 4. */
  lemma TouchCountLowNibble()
    ensures |Channels(0x0F)| == 4
  {
    forall i: nat | i < 8 ensures Bit(0x0F, i) <==> i < 4 { ExampleBits(i); }
    assert Channels(0x0F) == {0, 1, 2, 3};
  }

  /** Every channel touched: 0xFF counts 8. */
  lemma TouchCountAll()
    ensures |Channels(0xFF)| == 8
  {
    forall i: nat | i < 8 ensures Bit(0xFF, i) { ExampleBits(i); }
    assert Channels(0xFF) == {0, 1, 2, 3, 4, 5, 6, 7};
  }

  // ---------------------------------------------------------------------------
  // Fan servo

  /** C's integer `/`: the quotient truncated toward zero. */
  function TruncDiv(a: int, b: int): int
    requires b != 0
  {
    if a >= 0 then (if b > 0 then a / b else -(a / -b))
    else (if b > 0 then -((-a) / b) else (-a) / (-b))
  }

  /** The ESP32 core's `map(x, inMin, inMax, outMin, outMax)` on `long`: -1 for an empty input
      range, else the scaled offset with C's truncating division. */
  function ArduinoMap(x: int, inMin: int, inMax: int, outMin: int, outMax: int): int {
    if inMax == inMin then -1
    else TruncDiv((x - inMin) * (outMax - outMin), inMax - inMin) + outMin
  }

  /** The angle `controlServo` writes: centred (90) with no touch, else `map(c, 1, 8, 0, 180)`. */
  function ServoAngle(touchCount: int): int {
    if touchCount > 0 then ArduinoMap(touchCount, 1, 8, 0, 180) else 90
  }

  /** The angle is 90 for a count of zero (or below) and the truncated `(c-1)*180/7` otherwise. */
  lemma ServoAngleFormula(c: int)
    ensures c <= 0 ==> ServoAngle(c) == 90
    ensures c >= 1 ==> ServoAngle(c) == (c - 1) * 180 / 7
    ensures c >= 1 ==> 7 * ServoAngle(c) <= (c - 1) * 180 < 7 * ServoAngle(c) + 7
  {
  }

  /** For counts one to eight the angle stays within the servo's range. */
  lemma ServoAngleRange(c: int)
    requires 1 <= c <= 8
    ensures 0 <= ServoAngle(c) <= 180
  {
    ServoAngleFormula(c);
  }

  /** From one touch on, more touched channels never turn the fan servo back; no touch gives
      the centred 90, which is above the angles for one to four touches. */
  lemma ServoAngleMonotone(c: int, d: int)
    requires 1 <= c <= d
    ensures ServoAngle(c) <= ServoAngle(d)
    ensures d <= 4 ==> ServoAngle(0) > ServoAngle(d)
  {
    ServoAngleFormula(0);
    ServoAngleFormula(c);
    ServoAngleFormula(d);
    assert 7 * ServoAngle(c) <= (c - 1) * 180 <= (d - 1) * 180 < 7 * ServoAngle(d) + 7;
  }

  /** The whole table; count 2 gives 25 (truncated), not the rounded 26. */
  lemma ServoAngleTable()
    ensures ServoAngle(0) == 90
    ensures ServoAngle(1) == 0 && ServoAngle(2) == 25 && ServoAngle(3) == 51 && ServoAngle(4) == 77
    ensures ServoAngle(5) == 102 && ServoAngle(6) == 128 && ServoAngle(7) == 154 && ServoAngle(8) == 180
  {
  }

  // ---------------------------------------------------------------------------
  // Decimal text of an integer (Arduino `String(int)`)

  function DigitChar(d: int): (c: char)
    requires 0 <= d < 10
    ensures '0' <= c <= '9'
  {
    (48 + d) as char
  }

  /** The value of a string of decimal digits. */
  function DigitsValue(s: string): int
    requires forall k :: 0 <= k < |s| ==> '0' <= s[k] <= '9'
  {
    if s == [] then 0 else 10 * DigitsValue(s[..|s| - 1]) + (s[|s| - 1] as int - 48)
  }

  /** Base-ten digits of `n`, most significant first, without leading zeros. */
  function NatString(n: nat): (s: string)
    ensures |s| >= 1
    ensures forall k :: 0 <= k < |s| ==> '0' <= s[k] <= '9'
    ensures |s| > 1 ==> s[0] != '0'
  {
    if n < 10 then [DigitChar(n)] else NatString(n / 10) + [DigitChar(n % 10)]
  }

  /** `String(n)`: an optional minus sign followed by the digits of `|n|`. */
  function DecimalString(n: int): (s: string)
    ensures ',' !in s && ':' !in s
    ensures n >= 0 ==> forall k :: 0 <= k < |s| ==> '0' <= s[k] <= '9'
    ensures n < 0 ==> |s| >= 2 && s[0] == '-' && s[1..] == NatString(-n)
    ensures n >= 0 ==> s == NatString(n)
  {
    if n < 0 then "-" + NatString(-n) else NatString(n)
  }

  /** The digits read back as the number they were made from. */
  lemma {:induction false} NatStringValue(n: nat)
    ensures DigitsValue(NatString(n)) == n
  {
    if n >= 10 {
      NatStringValue(n / 10);
      var s := NatString(n);
      assert s[..|s| - 1] == NatString(n / 10);
    }
  }

  function Pow10(k: nat): (p: nat)
    ensures p >= 1
  {
    if k == 0 then 1 else 10 * Pow10(k - 1)
  }

  /** A number below `10^k` is written with at most `k` digits (and always at least one). */
  lemma {:induction false} NatStringLength(n: nat, k: nat)
    requires 1 <= k && n < Pow10(k)
    ensures |NatString(n)| <= k
  {
    if n >= 10 {
      assert Pow10(1) == 10;
      assert n / 10 < Pow10(k - 1);
      NatStringLength(n / 10, k - 1);
    }
  }

  // ---------------------------------------------------------------------------
  // Display

  /** The first line `updateDisplay` prints: the fan level, or "off" with no touch. */
  function FanLine(touchCount: int): string {
    "Fan lvl: " + (if touchCount > 0 then DecimalString(touchCount) else "off")
  }

  /** The display says "off" exactly when no channel is touched. */
  lemma FanLineOff(touchCount: int)
    ensures FanLine(touchCount) == "Fan lvl: off" <==> touchCount <= 0
  {
    if touchCount > 0 {
      var d := DecimalString(touchCount);
      assert FanLine(touchCount)[9..] == d;
      assert '0' <= d[0] <= '9';
      assert "Fan lvl: off"[9] == 'o';
    }
  }

  // ---------------------------------------------------------------------------
  // Alerts

  /** The sensor readings of one tick. */
  datatype Snapshot = Snapshot(
    touched: Byte, ldrValue: int,
    temperature: real, humidity: real,
    x: real, y: real, z: real)

  /** The six alert rules of `checkAlerts`. */
  datatype Alert = LowTemperature | LowHumidity | AbnormalX | AbnormalY | AbnormalZ | LowLight

  /** The rules in the order `checkAlerts` tries them. */
  const Rules: seq<Alert> := [LowTemperature, LowHumidity, AbnormalX, AbnormalY, AbnormalZ, LowLight]

  function Message(a: Alert): string {
    match a
    case LowTemperature => "Low temperature!"
    case LowHumidity => "Low humidity!"
    case AbnormalX => "Abnormal X-axis motion!"
    case AbnormalY => "Abnormal Y-axis motion!"
    case AbnormalZ => "Abnormal Z-axis motion!"
    case LowLight => "Low light level!"
  }

  /** The strict threshold test of each rule. */
  predicate Holds(a: Alert, s: Snapshot) {
    match a
    case LowTemperature => s.temperature < 5.0
    case LowHumidity => s.humidity < 5.0
    case AbnormalX => s.x < -0.3 || s.x > 0.3
    case AbnormalY => s.y < -0.3 || s.y > 0.3
    case AbnormalZ => s.z < 0.8
    case LowLight => s.ldrValue < 150
  }

  /** The first rule of `rules` that holds of `s`, if any. */
  function FirstMatch(rules: seq<Alert>, s: Snapshot): Option<Alert> {
    if rules == [] then None
    else if Holds(rules[0], s) then Some(rules[0])
    else FirstMatch(rules[1..], s)
  }

  /** First match wins: the result is a rule that holds and every earlier rule fails;
      there is no result exactly when no rule holds. */
  lemma {:induction false} FirstMatchSpec(rules: seq<Alert>, s: Snapshot)
    ensures FirstMatch(rules, s).None? <==> forall i :: 0 <= i < |rules| ==> !Holds(rules[i], s)
    ensures FirstMatch(rules, s).Some? ==>
      exists k :: 0 <= k < |rules| && rules[k] == FirstMatch(rules, s).value && Holds(rules[k], s) &&
        forall j :: 0 <= j < k ==> !Holds(rules[j], s)
  {
    if rules != [] && !Holds(rules[0], s) {
      FirstMatchSpec(rules[1..], s);
      var r := FirstMatch(rules[1..], s);
      if r.Some? {
        var k :| 0 <= k < |rules[1..]| && rules[1..][k] == r.value && Holds(rules[1..][k], s) &&
          forall j :: 0 <= j < k ==> !Holds(rules[1..][j], s);
        assert rules[k + 1] == r.value;
        assert forall j :: 0 <= j < k + 1 ==> !Holds(rules[j], s) by {
          forall j | 0 <= j < k + 1 ensures !Holds(rules[j], s) {
            if j > 0 { assert rules[j] == rules[1..][j - 1]; }
          }
        }
      } else {
        forall i | 0 <= i < |rules| ensures !Holds(rules[i], s) {
          if i > 0 { assert rules[i] == rules[1..][i - 1]; }
        }
      }
    }
  }

  /** `FirstMatch` on the rule table, unfolded: the if-chain `checkAlerts` is written as. */
  lemma FirstMatchOfRules(s: Snapshot)
    ensures FirstMatch(Rules, s) ==
      if Holds(LowTemperature, s) then Some(LowTemperature)
      else if Holds(LowHumidity, s) then Some(LowHumidity)
      else if Holds(AbnormalX, s) then Some(AbnormalX)
      else if Holds(AbnormalY, s) then Some(AbnormalY)
      else if Holds(AbnormalZ, s) then Some(AbnormalZ)
      else if Holds(LowLight, s) then Some(LowLight)
      else None
  {
    assert FirstMatch(Rules[6..], s) == None by { assert Rules[6..] == []; }
    assert Rules[5..][1..] == Rules[6..] && Rules[5] == LowLight;
    assert FirstMatch(Rules[5..], s) == if Holds(LowLight, s) then Some(LowLight) else None;
    assert Rules[4..][1..] == Rules[5..] && Rules[4] == AbnormalZ;
    assert FirstMatch(Rules[4..], s) == if Holds(AbnormalZ, s) then Some(AbnormalZ) else FirstMatch(Rules[5..], s);
    assert Rules[3..][1..] == Rules[4..] && Rules[3] == AbnormalY;
    assert FirstMatch(Rules[3..], s) == if Holds(AbnormalY, s) then Some(AbnormalY) else FirstMatch(Rules[4..], s);
    assert Rules[2..][1..] == Rules[3..] && Rules[2] == AbnormalX;
    assert FirstMatch(Rules[2..], s) == if Holds(AbnormalX, s) then Some(AbnormalX) else FirstMatch(Rules[3..], s);
    assert Rules[1..][1..] == Rules[2..] && Rules[1] == LowHumidity;
    assert FirstMatch(Rules[1..], s) == if Holds(LowHumidity, s) then Some(LowHumidity) else FirstMatch(Rules[2..], s);
    assert Rules[0] == LowTemperature;
  }

  /** `checkAlerts`: tries the rules in order; when one fires it returns true and overwrites the
      details with its message, otherwise it returns false and leaves the details untouched. */
  method CheckAlerts(s: Snapshot, alertDetails: string) returns (fired: bool, details: string)
    ensures fired <==> exists i :: 0 <= i < |Rules| && Holds(Rules[i], s)
    ensures fired ==> exists k :: (0 <= k < |Rules| && Holds(Rules[k], s) && details == Message(Rules[k]) &&
      forall j :: 0 <= j < k ==> !Holds(Rules[j], s))
    ensures !fired ==> details == alertDetails
    ensures fired == FirstMatch(Rules, s).Some?
    ensures fired ==> details == Message(FirstMatch(Rules, s).value)
  {
    FirstMatchSpec(Rules, s);
    FirstMatchOfRules(s);
    details := alertDetails;
    if s.temperature < 5.0 { return true, "Low temperature!"; }
    if s.humidity < 5.0 { return true, "Low humidity!"; }
    if s.x < -0.3 || s.x > 0.3 { return true, "Abnormal X-axis motion!"; }
    if s.y < -0.3 || s.y > 0.3 { return true, "Abnormal Y-axis motion!"; }
    if s.z < 0.8 { return true, "Abnormal Z-axis motion!"; }
    if s.ldrValue < 150 { return true, "Low light level!"; }
    return false, details;
  }

  /** Readings exactly at a threshold do not fire: every comparison is strict. */
  lemma ThresholdsAreStrict(touched: Byte)
    ensures FirstMatch(Rules, Snapshot(touched, 150, 5.0, 5.0, 0.3, -0.3, 0.8)).None?
    ensures FirstMatch(Rules, Snapshot(touched, 150, 5.0, 5.0, -0.3, 0.3, 0.8)).None?
  {
    FirstMatchOfRules(Snapshot(touched, 150, 5.0, 5.0, 0.3, -0.3, 0.8));
    FirstMatchOfRules(Snapshot(touched, 150, 5.0, 5.0, -0.3, 0.3, 0.8));
  }

  /** Readings inside every threshold raise no alert. */
  lemma SafeReadingsRaiseNoAlert(s: Snapshot)
    requires s.temperature >= 5.0 && s.humidity >= 5.0
    requires -0.3 <= s.x <= 0.3 && -0.3 <= s.y <= 0.3 && s.z >= 0.8 && s.ldrValue >= 150
    ensures FirstMatch(Rules, s).None?
  {
    FirstMatchOfRules(s);
  }

  /** A cold reading wins although nothing else is wrong; a tilted X axis wins over the
      later rules once the first two pass. */
  lemma AlertScenarios()
    ensures FirstMatch(Rules, Snapshot(0, 500, 3.0, 50.0, 0.0, 0.0, 1.0)) == Some(LowTemperature)
    ensures FirstMatch(Rules, Snapshot(0, 500, 20.0, 50.0, 0.5, 0.0, 1.0)) == Some(AbnormalX)
    ensures FirstMatch(Rules, Snapshot(0, 100, 3.0, 1.0, 0.5, 0.5, 0.0)) == Some(LowTemperature)
  {
    FirstMatchOfRules(Snapshot(0, 500, 3.0, 50.0, 0.0, 0.0, 1.0));
    FirstMatchOfRules(Snapshot(0, 500, 20.0, 50.0, 0.5, 0.0, 1.0));
    FirstMatchOfRules(Snapshot(0, 100, 3.0, 1.0, 0.5, 0.5, 0.0));
  }

  // ---------------------------------------------------------------------------
  // Telemetry string

  /** The keys of the telemetry string, in the order `loop` writes them. */
  const TelemetryKeys: seq<string> := ["Fan-lvl", "LDR", "Temp", "Hum", "X", "Y", "Z"]

  /** The string `loop` builds (src/main.cpp:271-273). The integers are written by Arduino's
      `String(int)`; the five float texts come from Arduino's `String(float)`. */
  function TelemetryString(touchCount: int, ldrValue: int,
                           temperature: string, humidity: string,
                           x: string, y: string, z: string): string
  {
    "Fan-lvl:" + DecimalString(touchCount) + ",LDR:" + DecimalString(ldrValue) +
    ",Temp:" + temperature + ",Hum:" + humidity +
    ",X:" + x + ",Y:" + y + ",Z:" + z
  }

  /** The telemetry of a snapshot; `fmt` is Arduino's `String(float)`. */
  function TelemetryOf(s: Snapshot, fmt: real -> string): string {
    TelemetryString(|Channels(s.touched)|, s.ldrValue, fmt(s.temperature), fmt(s.humidity),
                    fmt(s.x), fmt(s.y), fmt(s.z))
  }

  /** The value texts of a telemetry string, in key order. */
  function TelemetryValues(touchCount: int, ldrValue: int,
                           temperature: string, humidity: string,
                           x: string, y: string, z: string): seq<string>
  {
    [DecimalString(touchCount), DecimalString(ldrValue), temperature, humidity, x, y, z]
  }

  /** The `key:value` pairs of the telemetry, in order. */
  function TelemetryPairs(touchCount: int, ldrValue: int,
                          temperature: string, humidity: string,
                          x: string, y: string, z: string): seq<string>
  {
    ["Fan-lvl:" + DecimalString(touchCount), "LDR:" + DecimalString(ldrValue),
     "Temp:" + temperature, "Hum:" + humidity, "X:" + x, "Y:" + y, "Z:" + z]
  }

  /** The telemetry string is the comma-joined `key:value` pairs of the seven keys in order. */
  lemma TelemetryIsJoin(touchCount: int, ldrValue: int,
                        temperature: string, humidity: string,
                        x: string, y: string, z: string)
    ensures TelemetryString(touchCount, ldrValue, temperature, humidity, x, y, z) ==
      Text.Join(TelemetryPairs(touchCount, ldrValue, temperature, humidity, x, y, z), ',')
  {
    var p := TelemetryPairs(touchCount, ldrValue, temperature, humidity, x, y, z);
    var a, b := DecimalString(touchCount), DecimalString(ldrValue);
    var s1 := "Fan-lvl:" + a;
    assert s1 == Text.Join(p[..1], ',');
    Text.JoinStep(s1, p[..1], ",LDR:", b, p[1], ',');
    assert p[..1] + [p[1]] == p[..2];
    var s2 := s1 + ",LDR:" + b;
    Text.JoinStep(s2, p[..2], ",Temp:", temperature, p[2], ',');
    assert p[..2] + [p[2]] == p[..3];
    var s3 := s2 + ",Temp:" + temperature;
    Text.JoinStep(s3, p[..3], ",Hum:", humidity, p[3], ',');
    assert p[..3] + [p[3]] == p[..4];
    var s4 := s3 + ",Hum:" + humidity;
    Text.JoinStep(s4, p[..4], ",X:", x, p[4], ',');
    assert p[..4] + [p[4]] == p[..5];
    var s5 := s4 + ",X:" + x;
    Text.JoinStep(s5, p[..5], ",Y:", y, p[5], ',');
    assert p[..5] + [p[5]] == p[..6];
    var s6 := s5 + ",Y:" + y;
    Text.JoinStep(s6, p[..6], ",Z:", z, p[6], ',');
    assert p[..6] + [p[6]] == p;
  }

  /** `pair` reads as `key:value` to Python's `pair.split(":")`. */
  predicate SplitsInto(pair: string, key: string, value: string) {
    Text.Split(pair, ':') == [key, value]
  }

  /** A `key:value` pair whose key and value hold no `:` splits back into the two. */
  lemma SplitPair(key: string, value: string)
    requires ':' !in key && ':' !in value
    ensures SplitsInto(key + ":" + value, key, value)
  {
    Text.SplitFirst(key, value, ':');
    Text.SplitWithoutSeparator(value, ':');
  }

  /** With float texts free of `,` and `:`, splitting the telemetry on `,` gives the seven
      pairs, and each pair splits on `:` into its key and its value text. */
  lemma TelemetryFields(touchCount: int, ldrValue: int,
                        temperature: string, humidity: string,
                        x: string, y: string, z: string)
    requires ',' !in temperature && ',' !in humidity && ',' !in x && ',' !in y && ',' !in z
    requires ':' !in temperature && ':' !in humidity && ':' !in x && ':' !in y && ':' !in z
    ensures Text.Split(TelemetryString(touchCount, ldrValue, temperature, humidity, x, y, z), ',') ==
      TelemetryPairs(touchCount, ldrValue, temperature, humidity, x, y, z)
    ensures forall i :: 0 <= i < 7 ==>
      SplitsInto(TelemetryPairs(touchCount, ldrValue, temperature, humidity, x, y, z)[i],
                 TelemetryKeys[i], TelemetryValues(touchCount, ldrValue, temperature, humidity, x, y, z)[i])
  {
    var p := TelemetryPairs(touchCount, ldrValue, temperature, humidity, x, y, z);
    var v := TelemetryValues(touchCount, ldrValue, temperature, humidity, x, y, z);
    TelemetryIsJoin(touchCount, ldrValue, temperature, humidity, x, y, z);
    forall i | 0 <= i < 7
      ensures ',' !in p[i] && SplitsInto(p[i], TelemetryKeys[i], v[i])
    {
      TelemetryPairAt(touchCount, ldrValue, temperature, humidity, x, y, z, i);
    }
    Text.SplitJoin(p, ',');
  }

  /** The `i`-th pair is the `i`-th key, a colon and the `i`-th value text. */
  lemma TelemetryPairAt(touchCount: int, ldrValue: int,
                        temperature: string, humidity: string,
                        x: string, y: string, z: string, i: int)
    requires ',' !in temperature && ',' !in humidity && ',' !in x && ',' !in y && ',' !in z
    requires ':' !in temperature && ':' !in humidity && ':' !in x && ':' !in y && ':' !in z
    requires 0 <= i < 7
    ensures var p := TelemetryPairs(touchCount, ldrValue, temperature, humidity, x, y, z);
      ',' !in p[i] &&
      SplitsInto(p[i], TelemetryKeys[i], TelemetryValues(touchCount, ldrValue, temperature, humidity, x, y, z)[i])
  {
    var p := TelemetryPairs(touchCount, ldrValue, temperature, humidity, x, y, z);
    var v := TelemetryValues(touchCount, ldrValue, temperature, humidity, x, y, z);
    var key := TelemetryKeys[i];
    assert p[i] == key + ":" + v[i] by {
      if i == 0 { assert key == "Fan-lvl"; }
      else if i == 1 { assert key == "LDR"; assert "LDR:" == key + ":"; }
      else if i == 2 { assert key == "Temp"; assert "Temp:" == key + ":"; }
      else if i == 3 { assert key == "Hum"; assert "Hum:" == key + ":"; }
      else if i == 4 { assert key == "X"; assert "X:" == key + ":"; }
      else if i == 5 { assert key == "Y"; assert "Y:" == key + ":"; }
      else { assert key == "Z"; assert "Z:" == key + ":"; }
    }
    assert ':' !in key && ':' !in v[i] && ',' !in key && ',' !in v[i];
    SplitPair(key, v[i]);
  }

  // ---------------------------------------------------------------------------
  // One tick

  /** What one loop iteration does to the outside world, in order. */
  datatype Effect =
    | Display(fanLine: string)                  // updateDisplay (its first line)
    | Servo(angle: int)                         // controlServo
    | BleNotify(payload: string)                // sendBLEData while connected
    | ServerReport(statusCode: int, info: string) // sendDataToServer
    | Tone(frequencyHz: int, durationMs: int)   // tone on the buzzer
    | Delay(ms: int)                            // the end-of-tick delay

  const AlertPrefix: string := "ALERT: "

  /** What `sendBLEData` emits: the payload while a central is connected, nothing otherwise. */
  function BleSend(connected: bool, data: string): seq<Effect> {
    if connected then [BleNotify(data)] else []
  }

  /** The effects after the routine report: none without an alert, else the BLE alert, the 500
      report carrying the bare message, and the 300 Hz tone for one second. */
  function AlertEffects(connected: bool, alert: Option<Alert>): seq<Effect> {
    match alert
    case None => []
    case Some(a) => BleSend(connected, AlertPrefix + Message(a)) + [ServerReport(500, Message(a)), Tone(300, 1000)]
  }

  /** The effect sequence of one call of `loop` on snapshot `s`. */
  function TickEffects(connected: bool, s: Snapshot, fmt: real -> string): seq<Effect> {
    var count := |Channels(s.touched)|;
    var data := TelemetryOf(s, fmt);
    [Display(FanLine(count)), Servo(ServoAngle(count))] + BleSend(connected, data) + [ServerReport(200, data)] +
    AlertEffects(connected, FirstMatch(Rules, s)) + [Delay(1000)]
  }

  predicate IsReport(e: Effect, code: int) {
    e.ServerReport? && e.statusCode == code
  }

  /** Number of server reports with status `code`. */
  function Reports(effects: seq<Effect>, code: int): nat {
    if effects == [] then 0
    else (if IsReport(effects[0], code) then 1 else 0) + Reports(effects[1..], code)
  }

  lemma {:induction false} ReportsAppend(a: seq<Effect>, b: seq<Effect>, code: int)
    ensures Reports(a + b, code) == Reports(a, code) + Reports(b, code)
    decreases |a|
  {
    if a != [] {
      assert (a + b)[0] == a[0];
      assert (a + b)[1..] == a[1..] + b;
      ReportsAppend(a[1..], b, code);
      assert Reports(a + b, code) == (if IsReport(a[0], code) then 1 else 0) + Reports(a[1..] + b, code);
      assert Reports(a, code) == (if IsReport(a[0], code) then 1 else 0) + Reports(a[1..], code);
    } else {
      assert a + b == b;
    }
  }

  /** The reports with status `code` in one tick: the routine 200 report, and the 500 report
      when an alert fired. */
  lemma TickReportsWith(connected: bool, s: Snapshot, fmt: real -> string, code: int)
    ensures Reports(TickEffects(connected, s, fmt), code) ==
      (if code == 200 then 1 else 0) + (if code == 500 && FirstMatch(Rules, s).Some? then 1 else 0)
  {
    var count := |Channels(s.touched)|;
    var data := TelemetryOf(s, fmt);
    var head := [Display(FanLine(count)), Servo(ServoAngle(count))];
    var alert := AlertEffects(connected, FirstMatch(Rules, s));
    ReportsAppend(head + BleSend(connected, data) + [ServerReport(200, data)] + alert, [Delay(1000)], code);
    ReportsAppend(head + BleSend(connected, data) + [ServerReport(200, data)], alert, code);
    ReportsAppend(head + BleSend(connected, data), [ServerReport(200, data)], code);
    ReportsAppend(head, BleSend(connected, data), code);
    assert head[1..] == [Servo(ServoAngle(count))];
    assert Reports(head, code) == 0;
    assert Reports(BleSend(connected, data), code) == 0;
    assert Reports([ServerReport(200, data)], code) == if code == 200 then 1 else 0;
    assert Reports([Delay(1000)], code) == 0;
    if FirstMatch(Rules, s).Some? {
      var a := FirstMatch(Rules, s).value;
      var ble := BleSend(connected, AlertPrefix + Message(a));
      var rest := [ServerReport(500, Message(a)), Tone(300, 1000)];
      assert alert == ble + rest;
      ReportsAppend(ble, rest, code);
      assert rest[1..] == [Tone(300, 1000)];
      assert rest[1..][1..] == [];
      assert Reports(rest[1..], code) == 0;
      assert Reports(rest, code) == if code == 500 then 1 else 0;
      assert Reports(ble, code) == 0;
    }
  }

  /** Every tick reports 200 to the server exactly once, and 500 once if and only if an alert fired. */
  lemma TickReports(connected: bool, s: Snapshot, fmt: real -> string)
    ensures Reports(TickEffects(connected, s, fmt), 200) == 1
    ensures Reports(TickEffects(connected, s, fmt), 500) == if FirstMatch(Rules, s).Some? then 1 else 0
  {
    TickReportsWith(connected, s, fmt, 200);
    TickReportsWith(connected, s, fmt, 500);
  }

  /** The order of one tick: display, servo, telemetry over BLE (if connected), the 200 report
      with the same telemetry, then on an alert the prefixed BLE alert, the 500 report with the
      bare message after the 200 report, and the tone; the delay comes last. */
  lemma TickOrder(connected: bool, s: Snapshot, fmt: real -> string)
    ensures var e := TickEffects(connected, s, fmt);
      var count := |Channels(s.touched)|;
      var data := TelemetryOf(s, fmt);
      var b := if connected then 1 else 0;
      e[0] == Display(FanLine(count)) && e[1] == Servo(ServoAngle(count)) &&
      (connected ==> e[2] == BleNotify(data)) &&
      e[2 + b] == ServerReport(200, data) &&
      (FirstMatch(Rules, s).Some? ==>
        var msg := Message(FirstMatch(Rules, s).value);
        (connected ==> e[3 + b] == BleNotify(AlertPrefix + msg)) &&
        e[3 + 2 * b] == ServerReport(500, msg) &&
        e[4 + 2 * b] == Tone(300, 1000)) &&
      e[|e| - 1] == Delay(1000)
  {
    TickShape(connected, s, fmt);
  }

  /** The buzzer sounds in a tick exactly when an alert fired. */
  lemma TickToneIffAlert(connected: bool, s: Snapshot, fmt: real -> string)
    ensures var e := TickEffects(connected, s, fmt);
      (exists i :: 0 <= i < |e| && e[i].Tone?) <==> FirstMatch(Rules, s).Some?
  {
    TickShape(connected, s, fmt);
    var e := TickEffects(connected, s, fmt);
    if FirstMatch(Rules, s).None? {
      forall i | 0 <= i < |e| ensures !e[i].Tone? { }
    } else {
      assert e[if connected then 6 else 4].Tone?;
    }
  }

  /** Nothing reaches BLE while no central is connected. */
  lemma TickSilentWhenDisconnected(s: Snapshot, fmt: real -> string)
    ensures var e := TickEffects(false, s, fmt);
      forall i :: 0 <= i < |e| ==> !e[i].BleNotify?
  {
    TickShape(false, s, fmt);
  }

  /** The effects of one tick written out, for each connection state and alert outcome. */
  lemma TickShape(connected: bool, s: Snapshot, fmt: real -> string)
    ensures var count := |Channels(s.touched)|;
      var data := TelemetryOf(s, fmt);
      var head := [Display(FanLine(count)), Servo(ServoAngle(count))];
      TickEffects(connected, s, fmt) ==
        match FirstMatch(Rules, s)
        case None =>
          if connected then head + [BleNotify(data), ServerReport(200, data), Delay(1000)]
          else head + [ServerReport(200, data), Delay(1000)]
        case Some(a) =>
          if connected then
            head + [BleNotify(data), ServerReport(200, data), BleNotify(AlertPrefix + Message(a)),
                    ServerReport(500, Message(a)), Tone(300, 1000), Delay(1000)]
          else head + [ServerReport(200, data), ServerReport(500, Message(a)), Tone(300, 1000), Delay(1000)]
  {
  }

  lemma SnocTwo(a: seq<Effect>, b: seq<Effect>, x: Effect, y: Effect)
    ensures a + b + [x] + [y] == a + (b + [x, y])
  {
  }

  /** A tick's effects appended to a trace, one group at a time. */
  lemma TickEffectsAfter(start: seq<Effect>, connected: bool, s: Snapshot, fmt: real -> string)
    ensures var count := |Channels(s.touched)|;
      var data := TelemetryOf(s, fmt);
      start + TickEffects(connected, s, fmt) ==
      start + [Display(FanLine(count)), Servo(ServoAngle(count))] + BleSend(connected, data) +
      [ServerReport(200, data)] + AlertEffects(connected, FirstMatch(Rules, s)) + [Delay(1000)]
  {
  }

  // ---------------------------------------------------------------------------
  // The device state

  /** The firmware's global state: the BLE connection flag and, standing in for the
      outside world, the trace of effects emitted so far. */
  class Board {
    var deviceConnected: bool
    var trace: seq<Effect>

    /** Power-on: not connected, nothing emitted yet. */
    constructor ()
      ensures !deviceConnected && trace == []
    {
      deviceConnected := false;
      trace := [];
    }

    /** `MyServerCallbacks::onConnect`. */
    method OnConnect()
      modifies this
      ensures deviceConnected && trace == old(trace)
    {
      deviceConnected := true;
    }

    /** `MyServerCallbacks::onDisconnect`. */
    method OnDisconnect()
      modifies this
      ensures !deviceConnected && trace == old(trace)
    {
      deviceConnected := false;
    }

    /** `sendBLEData`: notifies exactly `data` while connected, emits nothing otherwise. */
    method SendBLEData(data: string)
      modifies this`trace
      ensures trace == old(trace) + BleSend(deviceConnected, data)
    {
      if deviceConnected {
        trace := trace + [BleNotify(data)];
      }
    }

    /** `sendDataToServer`: one HTTP report per call, whatever its outcome. */
    method SendDataToServer(statusCode: int, info: string)
      modifies this`trace
      ensures trace == old(trace) + [ServerReport(statusCode, info)]
    {
      trace := trace + [ServerReport(statusCode, info)];
    }

    /** `updateDisplay` (only its fan-level line is modelled). */
    method UpdateDisplay(touchCount: int)
      modifies this`trace
      ensures trace == old(trace) + [Display(FanLine(touchCount))]
    {
      trace := trace + [Display(FanLine(touchCount))];
    }

    /** `controlServo`. */
    method ControlServo(touchCount: int)
      modifies this`trace
      ensures trace == old(trace) + [Servo(ServoAngle(touchCount))]
    {
      trace := trace + [Servo(if touchCount > 0 then ArduinoMap(touchCount, 1, 8, 0, 180) else 90)];
    }

    /** `loop` on one snapshot of the sensors; `fmt` is Arduino's `String(float)`. */
    method Loop(s: Snapshot, fmt: real -> string)
      modifies this`trace
      ensures trace == old(trace) + TickEffects(deviceConnected, s, fmt)
    {
      ghost var start := trace;
      var touchCount := GetTouchCount(s.touched);
      UpdateDisplay(touchCount);
      ControlServo(touchCount);
      ghost var head := [Display(FanLine(touchCount)), Servo(ServoAngle(touchCount))];
      assert trace == start + head;
      var realTimeData := TelemetryString(touchCount, s.ldrValue, fmt(s.temperature), fmt(s.humidity),
                                          fmt(s.x), fmt(s.y), fmt(s.z));
      SendBLEData(realTimeData);
      SendDataToServer(200, realTimeData);
      ghost var routine := trace;
      assert routine == start + head + BleSend(deviceConnected, realTimeData) + [ServerReport(200, realTimeData)];
      var fired, alertDetails := CheckAlerts(s, "");
      ghost var alert := AlertEffects(deviceConnected, FirstMatch(Rules, s));
      if fired {
        SendBLEData(AlertPrefix + alertDetails);
        SendDataToServer(500, alertDetails);
        trace := trace + [Tone(300, 1000)];
        assert alert == BleSend(deviceConnected, AlertPrefix + alertDetails) + [ServerReport(500, alertDetails), Tone(300, 1000)];
        SnocTwo(routine, BleSend(deviceConnected, AlertPrefix + alertDetails), ServerReport(500, alertDetails), Tone(300, 1000));
      } else {
        assert alert == [];
      }
      trace := trace + [Delay(1000)];
      TickEffectsAfter(start, deviceConnected, s, fmt);
    }
  }
}

/** The device and the receiver together: the telemetry string the firmware builds is what
    `parse_info` reads back, and the routine report of a tick becomes one CSV row. */
module EndToEnd {
  import opened Wrappers
  import opened Text
  import F = Firmware
  import S = Server

  /** A float text the telemetry can carry unchanged: it holds no separator. */
  predicate Clean(text: string) {
    ',' !in text && ':' !in text
  }

  /** The five float texts of a snapshot are clean. */
  predicate CleanFloats(s: F.Snapshot, fmt: real -> string) {
    Clean(fmt(s.temperature)) && Clean(fmt(s.humidity)) && Clean(fmt(s.x)) && Clean(fmt(s.y)) && Clean(fmt(s.z))
  }

  /** The value texts of a snapshot's telemetry, in key order. */
  function SnapshotValues(s: F.Snapshot, fmt: real -> string): seq<string> {
    F.TelemetryValues(|F.Channels(s.touched)|, s.ldrValue, fmt(s.temperature), fmt(s.humidity),
                      fmt(s.x), fmt(s.y), fmt(s.z))
  }

  /** Python accepts the `i`-th value text: `int` reads the fan level, `float` the other six
      (the LDR reading included, since only "Fan-lvl" is read with `int`). */
  predicate ReadsAt(values: seq<string>, py: S.Python, i: int)
    requires 0 <= i < |values|
  {
    if i == 0 then py.toInt(values[0]).Some? else py.toFloat(values[i]).Some?
  }

  /** Python accepts all seven value texts. */
  predicate ReadsBack(values: seq<string>, py: S.Python) {
    |values| == 7 && forall i :: 0 <= i < 7 ==> ReadsAt(values, py, i)
  }

  /** The number the receiver stores for the `i`-th key. */
  function Stored(values: seq<string>, py: S.Python, i: int): S.Number
    requires 0 <= i < |values| && ReadsAt(values, py, i)
  {
    if i == 0 then S.IntNum(py.toInt(values[0]).value) else S.FloatNum(py.toFloat(values[i]).value)
  }

  /** The seven keys: free of whitespace, pairwise distinct, and only the first is "Fan-lvl". */
  lemma KeysShape()
    ensures |S.RowKeys| == 7 && F.TelemetryKeys == S.RowKeys
    ensures forall i, k :: 0 <= i < 7 && 0 <= k < |S.RowKeys[i]| ==> !IsSpace(S.RowKeys[i][k])
    ensures forall i, j :: 0 <= i < j < 7 ==> S.RowKeys[i] != S.RowKeys[j]
    ensures forall i :: 0 <= i < 7 ==> (S.RowKeys[i] == S.FanKey <==> i == 0)
  {
    var keys := S.RowKeys;
    assert keys[0] == "Fan-lvl" && keys[1] == "LDR" && keys[2] == "Temp" && keys[3] == "Hum";
    assert keys[4] == "X" && keys[5] == "Y" && keys[6] == "Z";
    forall i, k | 0 <= i < 7 && 0 <= k < |keys[i]| ensures !IsSpace(keys[i][k]) {
      NoSpaceInKey(keys[i], k);
    }
  }

  lemma NoSpaceInKey(key: string, k: int)
    requires key in ["Fan-lvl", "LDR", "Temp", "Hum", "X", "Y", "Z"]
    requires 0 <= k < |key|
    ensures !IsSpace(key[k])
  {
  }

  /** One `key:value` pair as `parse_info` reads it. */
  lemma PartOfPair(pair: string, key: string, value: string, py: S.Python)
    requires F.SplitsInto(pair, key, value)
    requires forall k :: 0 <= k < |key| ==> !IsSpace(key[k])
    ensures S.KeyOf(pair) == key
    ensures S.ParsePart(pair, py).Ok? <==>
      (if key == S.FanKey then py.toInt(value).Some? else py.toFloat(value).Some?)
    ensures S.ParsePart(pair, py).Ok? ==>
      S.ParsePart(pair, py).value.1 ==
        (if key == S.FanKey then S.IntNum(py.toInt(value).value) else S.FloatNum(py.toFloat(value).value))
  {
    StripIdentity(key);
    var pieces := Split(pair, ':');
    assert pieces[0] == key && pieces[1] == value;
  }

  lemma StripIdentity(key: string)
    requires forall k :: 0 <= k < |key| ==> !IsSpace(key[k])
    ensures Strip(key) == key
  {
  }

  /** How `parse_info` reads each part of the telemetry: the parts are the seven pairs, each
      stored under its key, read when Python accepts its value text. */
  lemma TelemetryParts(touchCount: int, ldrValue: int,
                       temperature: string, humidity: string,
                       x: string, y: string, z: string, py: S.Python)
    requires Clean(temperature) && Clean(humidity) && Clean(x) && Clean(y) && Clean(z)
    ensures var parts := Split(F.TelemetryString(touchCount, ldrValue, temperature, humidity, x, y, z), ',');
      var values := F.TelemetryValues(touchCount, ldrValue, temperature, humidity, x, y, z);
      |parts| == 7 &&
      forall i :: 0 <= i < 7 ==>
        S.KeyOf(parts[i]) == S.RowKeys[i] &&
        (S.ParsePart(parts[i], py).Ok? <==> ReadsAt(values, py, i)) &&
        (S.ParsePart(parts[i], py).Ok? ==> S.ParsePart(parts[i], py).value.1 == Stored(values, py, i))
  {
    var values := F.TelemetryValues(touchCount, ldrValue, temperature, humidity, x, y, z);
    var pairs := F.TelemetryPairs(touchCount, ldrValue, temperature, humidity, x, y, z);
    F.TelemetryFields(touchCount, ldrValue, temperature, humidity, x, y, z);
    KeysShape();
    forall i | 0 <= i < 7
      ensures S.KeyOf(pairs[i]) == S.RowKeys[i]
      ensures S.ParsePart(pairs[i], py).Ok? <==> ReadsAt(values, py, i)
      ensures S.ParsePart(pairs[i], py).Ok? ==> S.ParsePart(pairs[i], py).value.1 == Stored(values, py, i)
    {
      PartOfPair(pairs[i], S.RowKeys[i], values[i], py);
    }
  }

  /** The round trip from the firmware to the receiver: `parse_info` of the telemetry string
      succeeds exactly when Python reads the seven value texts, and then gives a dictionary
      over exactly the seven keys holding the fan level as an `int` and the six other
      readings as `float`s. */
  lemma TelemetryRoundTrip(touchCount: int, ldrValue: int,
                           temperature: string, humidity: string,
                           x: string, y: string, z: string, py: S.Python)
    requires Clean(temperature) && Clean(humidity) && Clean(x) && Clean(y) && Clean(z)
    ensures var info := F.TelemetryString(touchCount, ldrValue, temperature, humidity, x, y, z);
      var values := F.TelemetryValues(touchCount, ldrValue, temperature, humidity, x, y, z);
      (S.Decode(info, py).Ok? <==> ReadsBack(values, py)) &&
      (ReadsBack(values, py) ==>
        (forall k :: k in S.Decode(info, py).value <==> k in S.RowKeys) &&
        forall i :: 0 <= i < 7 ==> S.Decode(info, py).value[S.RowKeys[i]] == Stored(values, py, i))
  {
    var info := F.TelemetryString(touchCount, ldrValue, temperature, humidity, x, y, z);
    var values := F.TelemetryValues(touchCount, ldrValue, temperature, humidity, x, y, z);
    var parts := Split(info, ',');
    TelemetryParts(touchCount, ldrValue, temperature, humidity, x, y, z, py);
    KeysShape();
    S.DecodeOk(info, py);
    if ReadsBack(values, py) {
      assert S.Decode(info, py).Ok?;
      forall k ensures k in S.Decode(info, py).value <==> k in S.RowKeys {
        S.DecodeKeys(info, py, k);
        if k in S.RowKeys {
          var i :| 0 <= i < 7 && S.RowKeys[i] == k;
          assert S.KeyOf(parts[i]) == k;
        }
      }
      forall i | 0 <= i < 7 ensures S.Decode(info, py).value[S.RowKeys[i]] == Stored(values, py, i) {
        S.DecodeValue(info, py, i);
      }
    } else {
      var i :| 0 <= i < 7 && !ReadsAt(values, py, i);
      assert !S.ParsePart(parts[i], py).Ok?;
    }
  }

  /** The telemetry of a snapshot decodes to the seven readings. */
  lemma SnapshotDecodes(s: F.Snapshot, fmt: real -> string, py: S.Python)
    requires CleanFloats(s, fmt) && ReadsBack(SnapshotValues(s, fmt), py)
    ensures S.Decode(F.TelemetryOf(s, fmt), py).Ok?
    ensures S.HasRowKeys(S.Decode(F.TelemetryOf(s, fmt), py).value)
    ensures forall i :: 0 <= i < 7 ==>
      S.Decode(F.TelemetryOf(s, fmt), py).value[S.RowKeys[i]] == Stored(SnapshotValues(s, fmt), py, i)
  {
    TelemetryRoundTrip(|F.Channels(s.touched)|, s.ldrValue, fmt(s.temperature), fmt(s.humidity),
                       fmt(s.x), fmt(s.y), fmt(s.z), py);
    KeysShape();
  }

  /** A non-empty string of decimal digits. */
  predicate Digits(t: string) {
    |t| >= 1 && forall k :: 0 <= k < |t| ==> '0' <= t[k] <= '9'
  }

  /** Python's `int` reads a string of at most 15 decimal digits as its decimal value. */
  ghost predicate IntReadsDigits(py: S.Python) {
    forall t: string :: Digits(t) && |t| <= 15 ==> py.toInt(t) == Some(F.DigitsValue(t))
  }

  /** Python's `float` reads a string of at most 15 decimal digits as its decimal value (a
      double holds every such integer exactly). */
  ghost predicate FloatReadsDigits(py: S.Python) {
    forall t: string :: Digits(t) && |t| <= 15 ==> py.toFloat(t) == Some(F.DigitsValue(t) as real)
  }

  /** The stored fan level and light reading are Python's readings of the digit strings the
      firmware wrote. */
  lemma DecodedIntegers(s: F.Snapshot, fmt: real -> string, py: S.Python)
    requires s.ldrValue >= 0
    requires CleanFloats(s, fmt) && ReadsBack(SnapshotValues(s, fmt), py)
    ensures py.toInt(F.NatString(|F.Channels(s.touched)|)).Some? && py.toFloat(F.NatString(s.ldrValue)).Some?
    ensures S.Decode(F.TelemetryOf(s, fmt), py).Ok?
    ensures S.FanKey in S.Decode(F.TelemetryOf(s, fmt), py).value
    ensures S.Decode(F.TelemetryOf(s, fmt), py).value[S.FanKey] ==
      S.IntNum(py.toInt(F.NatString(|F.Channels(s.touched)|)).value)
    ensures "LDR" in S.Decode(F.TelemetryOf(s, fmt), py).value
    ensures S.Decode(F.TelemetryOf(s, fmt), py).value["LDR"] == S.FloatNum(py.toFloat(F.NatString(s.ldrValue)).value)
  {
    SnapshotDecodes(s, fmt, py);
    KeysShape();
    var values := SnapshotValues(s, fmt);
    assert values[0] == F.NatString(|F.Channels(s.touched)|);
    assert values[1] == F.NatString(s.ldrValue);
    assert ReadsAt(values, py, 0) && ReadsAt(values, py, 1);
    assert S.RowKeys[0] == S.FanKey && S.RowKeys[1] == "LDR";
  }

  /** `int` reads the fan level back: a count of at most eight is one digit. */
  lemma FanReads(n: nat, py: S.Python)
    requires IntReadsDigits(py) && n <= 8
    ensures py.toInt(F.NatString(n)) == Some(n)
  {
    F.NatStringValue(n);
    assert Digits(F.NatString(n)) && |F.NatString(n)| == 1;
  }

  /** `float` reads a 12-bit light reading back: it has at most four digits. */
  lemma LdrReads(n: nat, py: S.Python)
    requires FloatReadsDigits(py) && n < 4096
    ensures py.toFloat(F.NatString(n)) == Some(n as real)
  {
    F.NatStringValue(n);
    assert F.Pow10(4) == 10000;
    F.NatStringLength(n, 4);
    assert Digits(F.NatString(n));
  }

  /** The two integer readings survive the trip unchanged: when Python reads strings of at most
      15 digits as their decimal value, the receiver stores the touch count as the `int` under
      "Fan-lvl" and the 12-bit light reading as the `float` under "LDR". */
  lemma IntegerReadingsRoundTrip(s: F.Snapshot, fmt: real -> string, py: S.Python)
    requires IntReadsDigits(py) && FloatReadsDigits(py) && 0 <= s.ldrValue < 4096
    requires CleanFloats(s, fmt) && ReadsBack(SnapshotValues(s, fmt), py)
    ensures S.Decode(F.TelemetryOf(s, fmt), py).Ok?
    ensures S.FanKey in S.Decode(F.TelemetryOf(s, fmt), py).value
    ensures S.Decode(F.TelemetryOf(s, fmt), py).value[S.FanKey] == S.IntNum(|F.Channels(s.touched)|)
    ensures "LDR" in S.Decode(F.TelemetryOf(s, fmt), py).value
    ensures S.Decode(F.TelemetryOf(s, fmt), py).value["LDR"] == S.FloatNum(s.ldrValue as real)
  {
    DecodedIntegers(s, fmt, py);
    F.ChannelsBelowBound(s.touched, 8);
    FanReads(|F.Channels(s.touched)|, py);
    LdrReads(s.ldrValue, py);
  }

  /** A tick's routine report (`TickOrder` places it right after the BLE telemetry), received
      by `receive_data` at time `ts` with the query the firmware writes
      (`statusCode=200&info=<telemetry>`), is acknowledged and stores one row whose fields are
      the timestamp and the seven readings as Python reads and writes them. */
  lemma TickStoresRow(s: F.Snapshot, fmt: real -> string, py: S.Python, ts: string)
    requires py.toInt(F.DecimalString(200)) == Some(200)
    requires CleanFloats(s, fmt) && ReadsBack(SnapshotValues(s, fmt), py)
    requires ',' !in ts
    requires forall i :: 0 <= i < 7 ==> ',' !in py.show(Stored(SnapshotValues(s, fmt), py, i))
    ensures var out := S.Receive(S.StatusCodeArg(Some(F.DecimalString(200)), py),
                                 S.InfoArg(Some(F.TelemetryOf(s, fmt))), ts, py);
      out.response == S.Accepted && out.row.Some? &&
      var fields := Split(out.row.value, ',');
      |fields| == 8 && fields[0] == ts &&
      forall i :: 0 <= i < 7 ==> fields[i + 1] == py.show(Stored(SnapshotValues(s, fmt), py, i))
  {
    var data := F.TelemetryOf(s, fmt);
    var values := SnapshotValues(s, fmt);
    SnapshotDecodes(s, fmt, py);
    var decoded := S.Decode(data, py).value;
    forall i | 0 <= i < |S.RowKeys| ensures ',' !in py.show(decoded[S.RowKeys[i]]) {
      assert decoded[S.RowKeys[i]] == Stored(values, py, i);
    }
    S.RowSplits(ts, decoded, py);
    S.ReceiveRoutine(data, ts, py);
  }

  /** The alert report of a tick reaches the error log only: it is acknowledged and adds no
      row to the data file. */
  lemma AlertReportNotStored(connected: bool, s: F.Snapshot, fmt: real -> string, py: S.Python, ts: string)
    requires py.toInt(F.DecimalString(500)) == Some(500)
    requires F.FirstMatch(F.Rules, s).Some?
    ensures var msg := F.Message(F.FirstMatch(F.Rules, s).value);
      F.TickEffects(connected, s, fmt)[if connected then 5 else 3] == F.ServerReport(500, msg) &&
      S.Receive(S.StatusCodeArg(Some(F.DecimalString(500)), py), S.InfoArg(Some(msg)), ts, py) ==
        S.Outcome(S.Accepted, None)
  {
    F.TickOrder(connected, s, fmt);
    S.ReceiveOtherCodes(500, F.Message(F.FirstMatch(F.Rules, s).value), ts, py);
  }
}

/** The Flask receiver of the telemetry: `parse_info`, which turns a `key:value,...` string
    into a dictionary, and the upload handler, which routes on the status code and
    appends one CSV row per routine report to the data file. */
module Server {
  import opened Wrappers
  import opened Text

  /** The first line of the data file, written when the file does not exist yet. */
  const Header: string := "timestamp,fan_lvl,ldr,temp,hum,x,y,z"

  /** The one key whose value is read with `int`; every other key is read with `float`. */
  const FanKey: string := "Fan-lvl"

  /** A value `parse_info` stores: a Python `int` or a Python `float`. */
  datatype Number = IntNum(i: int) | FloatNum(r: real)

  /** The Python built-ins the receiver relies on, which are not part of this model:
      `int(text)` and `float(text)` (None where Python raises ValueError), and the text
      an f-string writes for a stored number. */
  datatype Python = Python(toInt: string -> Option<int>, toFloat: string -> Option<real>, show: Number -> string)

  /** Why one part of the info made `parse_info` raise. */
  datatype Cause =
    | Unpack(pieces: nat)        // `key, value = part.split(":")` got this many values, not two
    | InvalidInt(text: string)   // `int(value)` raised
    | InvalidFloat(text: string) // `float(value)` raised

  /** The ValueError `parse_info` raises: it quotes the whole info and the cause. */
  datatype ParseError = ParseError(info: string, cause: Cause)

  // ---------------------------------------------------------------------------
  // parse_info

  /** The key a part is stored under: the text before its colon, stripped. */
  function KeyOf(part: string): string {
    Strip(Split(part, ':')[0])
  }

  /** One iteration of `parse_info`'s loop: unpack the part into key and value, convert the
      value with `int` when the unstripped key is exactly "Fan-lvl" and with `float`
      otherwise, and give the stripped key with the converted value. */
  function ParsePart(part: string, py: Python): (r: Result<(string, Number), Cause>)
    ensures CountChar(part, ':') != 1 ==> r == Err(Unpack(CountChar(part, ':') + 1))
    ensures r.Ok? ==> CountChar(part, ':') == 1 && r.value.0 == KeyOf(part)
    ensures r.Ok? ==> (r.value.1.IntNum? <==> Split(part, ':')[0] == FanKey)
    ensures CountChar(part, ':') == 1 ==>
      var key, value := Split(part, ':')[0], Split(part, ':')[1];
      (r.Ok? <==> (if key == FanKey then py.toInt(value).Some? else py.toFloat(value).Some?)) &&
      (r.Err? ==> r.error == (if key == FanKey then InvalidInt(value) else InvalidFloat(value))) &&
      (r.Ok? ==> r.value.1 == (if key == FanKey then IntNum(py.toInt(value).value) else FloatNum(py.toFloat(value).value)))
  {
    var pieces := Split(part, ':');
    if |pieces| != 2 then Err(Unpack(|pieces|))
    else
      var key, value := pieces[0], pieces[1];
      if key != FanKey then
        match py.toFloat(value)
        case None => Err(InvalidFloat(value))
        case Some(f) => Ok((Strip(key), FloatNum(f)))
      else
        match py.toInt(value)
        case None => Err(InvalidInt(value))
        case Some(n) => Ok((Strip(key), IntNum(n)))
  }

  /** The loop of `parse_info` over the remaining parts, from the dictionary built so far:
      each part is stored in turn, a later key overwriting an earlier one; the first part
      that fails ends it. */
  function DecodeParts(parts: seq<string>, data: map<string, Number>, py: Python): Result<map<string, Number>, Cause>
    decreases |parts|
  {
    if parts == [] then Ok(data)
    else
      match ParsePart(parts[0], py)
      case Err(c) => Err(c)
      case Ok(kv) => DecodeParts(parts[1..], data[kv.0 := kv.1], py)
  }

  /** What `parse_info(info)` returns or raises. */
  function Decode(info: string, py: Python): Result<map<string, Number>, ParseError> {
    match DecodeParts(Split(info, ','), map[], py)
    case Ok(data) => Ok(data)
    case Err(c) => Err(ParseError(info, c))
  }

  /** `parse_info`: splits on ',', fills the dictionary part by part and raises the
      ValueError on the first part that does not parse. */
  method ParseInfo(info: string, py: Python) returns (r: Result<map<string, Number>, ParseError>)
    ensures r == Decode(info, py)
  {
    var parts := Split(info, ',');
    var data: map<string, Number> := map[];
    var i := 0;
    while i < |parts|
      invariant 0 <= i <= |parts|
      invariant DecodeParts(parts, map[], py) == DecodeParts(parts[i..], data, py)
    {
      assert parts[i..][1..] == parts[i + 1..];
      ghost var step := ParsePart(parts[i], py);
      assert DecodeParts(parts[i..], data, py) ==
        if step.Err? then Err(step.error) else DecodeParts(parts[i + 1..], data[step.value.0 := step.value.1], py);
      var pieces := Split(parts[i], ':');
      if |pieces| != 2 {
        return Err(ParseError(info, Unpack(|pieces|)));
      }
      var key, value := pieces[0], pieces[1];
      var number: Number;
      if key != FanKey {
        var f := py.toFloat(value);
        if f.None? {
          return Err(ParseError(info, InvalidFloat(value)));
        }
        number := FloatNum(f.value);
      } else {
        var n := py.toInt(value);
        if n.None? {
          return Err(ParseError(info, InvalidInt(value)));
        }
        number := IntNum(n.value);
      }
      data := data[Strip(key) := number];
      i := i + 1;
    }
    return Ok(data);
  }

  /** The loop succeeds exactly when every part parses. */
  lemma {:induction false} DecodePartsOk(parts: seq<string>, data: map<string, Number>, py: Python)
    ensures DecodeParts(parts, data, py).Ok? <==> forall i :: 0 <= i < |parts| ==> ParsePart(parts[i], py).Ok?
    decreases |parts|
  {
    if parts != [] {
      var r := ParsePart(parts[0], py);
      if r.Ok? {
        DecodePartsOk(parts[1..], data[r.value.0 := r.value.1], py);
        forall i | 0 < i < |parts| ensures parts[i] == parts[1..][i - 1] { }
      }
    }
  }

  /** The stripped keys of the parts. */
  function KeysOf(parts: seq<string>): set<string> {
    if parts == [] then {} else {KeyOf(parts[0])} + KeysOf(parts[1..])
  }

  /** A key is among `KeysOf(parts)` exactly when some part is stored under it. */
  lemma {:induction false} KeysOfMember(parts: seq<string>, k: string)
    ensures k in KeysOf(parts) <==> exists i :: 0 <= i < |parts| && KeyOf(parts[i]) == k
    decreases |parts|
  {
    if parts != [] {
      var rest := parts[1..];
      KeysOfMember(rest, k);
      if k in KeysOf(rest) {
        var i :| 0 <= i < |rest| && KeyOf(rest[i]) == k;
        assert parts[i + 1] == rest[i];
      }
      if exists i :: 0 <= i < |parts| && KeyOf(parts[i]) == k {
        var i :| 0 <= i < |parts| && KeyOf(parts[i]) == k;
        if i > 0 {
          assert rest[i - 1] == parts[i];
        }
      }
    }
  }

  /** The keys of the result: those already there and the stripped key of every part. */
  lemma {:induction false} DecodePartsKeys(parts: seq<string>, data: map<string, Number>, py: Python)
    requires DecodeParts(parts, data, py).Ok?
    ensures DecodeParts(parts, data, py).value.Keys == data.Keys + KeysOf(parts)
    decreases |parts|
  {
    if parts != [] {
      var r := ParsePart(parts[0], py);
      DecodePartsKeys(parts[1..], data[r.value.0 := r.value.1], py);
    }
  }

  /** A key no remaining part is stored under keeps the value it had. */
  lemma {:induction false} DecodePartsKeeps(parts: seq<string>, data: map<string, Number>, py: Python, k: string)
    requires DecodeParts(parts, data, py).Ok?
    requires k in data
    requires forall j :: 0 <= j < |parts| ==> KeyOf(parts[j]) != k
    ensures k in DecodeParts(parts, data, py).value && DecodeParts(parts, data, py).value[k] == data[k]
    decreases |parts|
  {
    if parts != [] {
      var r := ParsePart(parts[0], py);
      assert r.value.0 == KeyOf(parts[0]) != k;
      forall j | 0 <= j < |parts[1..]| ensures KeyOf(parts[1..][j]) != k {
        assert parts[1..][j] == parts[j + 1];
      }
      DecodePartsKeeps(parts[1..], data[r.value.0 := r.value.1], py, k);
    }
  }

  /** Later keys overwrite earlier ones: the value stored under a part's key is that part's
      value whenever no later part has the same key. */
  lemma {:induction false} DecodePartsLast(parts: seq<string>, data: map<string, Number>, py: Python, i: nat)
    requires DecodeParts(parts, data, py).Ok?
    requires i < |parts|
    requires forall j :: i < j < |parts| ==> KeyOf(parts[j]) != KeyOf(parts[i])
    ensures ParsePart(parts[i], py).Ok?
    ensures KeyOf(parts[i]) in DecodeParts(parts, data, py).value
    ensures DecodeParts(parts, data, py).value[KeyOf(parts[i])] == ParsePart(parts[i], py).value.1
    decreases |parts|
  {
    var r := ParsePart(parts[0], py);
    var next := data[r.value.0 := r.value.1];
    if i == 0 {
      forall j | 0 <= j < |parts[1..]| ensures KeyOf(parts[1..][j]) != KeyOf(parts[0]) {
        assert parts[1..][j] == parts[j + 1];
      }
      DecodePartsKeeps(parts[1..], next, py, KeyOf(parts[0]));
    } else {
      assert parts[1..][i - 1] == parts[i];
      forall j | i - 1 < j < |parts[1..]| ensures KeyOf(parts[1..][j]) != KeyOf(parts[1..][i - 1]) {
        assert parts[1..][j] == parts[j + 1];
      }
      DecodePartsLast(parts[1..], next, py, i - 1);
    }
  }

  /** `parse_info` succeeds exactly when every comma-separated part parses. */
  lemma DecodeOk(info: string, py: Python)
    ensures Decode(info, py).Ok? <==>
      forall i :: 0 <= i < |Split(info, ',')| ==> ParsePart(Split(info, ',')[i], py).Ok?
  {
    var parts := Split(info, ',');
    DecodePartsOk(parts, map[], py);
    if forall i :: 0 <= i < |parts| ==> ParsePart(parts[i], py).Ok? {
      assert DecodeParts(parts, map[], py).Ok?;
    } else {
      var i :| 0 <= i < |parts| && !ParsePart(parts[i], py).Ok?;
      assert DecodeParts(parts, map[], py).Err?;
      assert !ParsePart(Split(info, ',')[i], py).Ok?;
    }
  }

  /** `parse_info` raises whenever some part does not hold exactly one ':'. */
  lemma DecodeUnpackFails(info: string, py: Python, i: nat)
    requires i < |Split(info, ',')| && CountChar(Split(info, ',')[i], ':') != 1
    ensures Decode(info, py).Err?
  {
    DecodeOk(info, py);
    assert ParsePart(Split(info, ',')[i], py).Err?;
  }

  /** The keys of the dictionary `parse_info` returns are the stripped keys of the parts. */
  lemma DecodeKeys(info: string, py: Python, k: string)
    requires Decode(info, py).Ok?
    ensures k in Decode(info, py).value <==> exists i :: 0 <= i < |Split(info, ',')| && KeyOf(Split(info, ',')[i]) == k
  {
    var parts := Split(info, ',');
    assert Decode(info, py).value == DecodeParts(parts, map[], py).value;
    DecodePartsKeys(parts, map[], py);
    KeysOfMember(parts, k);
    if k in KeysOf(parts) {
      var i :| 0 <= i < |parts| && KeyOf(parts[i]) == k;
      assert KeyOf(Split(info, ',')[i]) == k;
    }
  }

  /** The value under a key is the one from the last part with that key. */
  lemma DecodeValue(info: string, py: Python, i: nat)
    requires Decode(info, py).Ok?
    requires i < |Split(info, ',')|
    requires forall j :: i < j < |Split(info, ',')| ==> KeyOf(Split(info, ',')[j]) != KeyOf(Split(info, ',')[i])
    ensures ParsePart(Split(info, ',')[i], py).Ok?
    ensures KeyOf(Split(info, ',')[i]) in Decode(info, py).value
    ensures Decode(info, py).value[KeyOf(Split(info, ',')[i])] == ParsePart(Split(info, ',')[i], py).value.1
  {
    var parts := Split(info, ',');
    assert Decode(info, py).value == DecodeParts(parts, map[], py).value;
    DecodePartsLast(parts, map[], py, i);
  }

  /** A single part `key:value` decodes to the one entry under the stripped key. */
  lemma DecodeSinglePart(key: string, value: string, py: Python)
    requires ':' !in key && ':' !in value && ',' !in key && ',' !in value
    requires ParsePart(key + [':'] + value, py).Ok?
    ensures Decode(key + [':'] + value, py) == Ok(map[Strip(key) := ParsePart(key + [':'] + value, py).value.1])
  {
    var part := key + [':'] + value;
    SplitWithoutSeparator(part, ',');
    var data := map[Strip(key) := ParsePart(part, py).value.1];
    assert [part][1..] == [];
    assert part == key + [':'] + value;
    SplitFirst(key, value, ':');
    SplitWithoutSeparator(value, ':');
    assert DecodeParts([part], map[], py) == DecodeParts([], data, py);
  }

  /** The `int`-or-`float` test looks at the key before stripping: a Fan-lvl key with
      whitespace in front is stored under "Fan-lvl" but read with `float`. */
  lemma PaddedFanKeyReadAsFloat(pad: string, value: string, py: Python, r: real)
    requires pad != [] && forall k :: 0 <= k < |pad| ==> IsSpace(pad[k])
    requires ':' !in value && ',' !in value
    requires py.toFloat(value) == Some(r)
    ensures Decode(pad + FanKey + [':'] + value, py) == Ok(map[FanKey := FloatNum(r)])
  {
    PaddedKey(pad);
    ParsePartFloat(pad + FanKey, value, py, r);
    DecodeSinglePart(pad + FanKey, value, py);
  }

  lemma PaddedKey(pad: string)
    requires pad != [] && forall k :: 0 <= k < |pad| ==> IsSpace(pad[k])
    ensures Strip(pad + FanKey) == FanKey && pad + FanKey != FanKey
    ensures ':' !in pad + FanKey && ',' !in pad + FanKey
  {
    var key := pad + FanKey;
    forall k | 0 <= k < |FanKey| ensures !IsSpace(FanKey[k]) { }
    StripLeading(pad, FanKey);
    forall k | 0 <= k < |key| ensures key[k] != ':' && key[k] != ',' {
      if k < |pad| { assert IsSpace(key[k]); } else { assert key[k] == FanKey[k - |pad|]; }
    }
  }

  /** A part whose key is not exactly "Fan-lvl" is read with `float`. */
  lemma ParsePartFloat(key: string, value: string, py: Python, r: real)
    requires ':' !in key && ':' !in value && key != FanKey
    requires py.toFloat(value) == Some(r)
    ensures ParsePart(key + [':'] + value, py) == Ok((Strip(key), FloatNum(r)))
  {
    SplitFirst(key, value, ':');
    SplitWithoutSeparator(value, ':');
  }

  // ---------------------------------------------------------------------------
  // The CSV row

  /** The dictionary keys the row reads after the timestamp, in column order. */
  const RowKeys: seq<string> := ["Fan-lvl", "LDR", "Temp", "Hum", "X", "Y", "Z"]

  /** The row the handler writes (without its newline), or the key whose lookup raises
      KeyError; the f-string reads the keys left to right, so it is the first missing one. */
  function CsvRow(timestamp: string, data: map<string, Number>, py: Python): (r: Result<string, string>)
    ensures r.Ok? <==> HasRowKeys(data)
    ensures r.Err? ==> exists i :: (0 <= i < |RowKeys| && r.error == RowKeys[i] && RowKeys[i] !in data &&
      forall j :: 0 <= j < i ==> RowKeys[j] in data)
  {
    if "Fan-lvl" !in data then assert RowKeys[0] == "Fan-lvl"; Err("Fan-lvl")
    else if "LDR" !in data then assert RowKeys[1] == "LDR"; Err("LDR")
    else if "Temp" !in data then assert RowKeys[2] == "Temp"; Err("Temp")
    else if "Hum" !in data then assert RowKeys[3] == "Hum"; Err("Hum")
    else if "X" !in data then assert RowKeys[4] == "X"; Err("X")
    else if "Y" !in data then assert RowKeys[5] == "Y"; Err("Y")
    else if "Z" !in data then assert RowKeys[6] == "Z"; Err("Z")
    else
      Ok(timestamp + "," + py.show(data["Fan-lvl"]) + "," + py.show(data["LDR"]) + "," +
         py.show(data["Temp"]) + "," + py.show(data["Hum"]) + "," + py.show(data["X"]) + "," +
         py.show(data["Y"]) + "," + py.show(data["Z"]))
  }

  /** Every key the row reads is in the dictionary. */
  predicate HasRowKeys(data: map<string, Number>) {
    forall i :: 0 <= i < |RowKeys| ==> RowKeys[i] in data
  }

  /** The eight fields of a row: the timestamp, then the seven values in column order. */
  function RowFields(timestamp: string, data: map<string, Number>, py: Python): seq<string>
    requires HasRowKeys(data)
  {
    [timestamp] + seq(|RowKeys|, i requires 0 <= i < |RowKeys| => py.show(data[RowKeys[i]]))
  }

  /** With no comma in the timestamp or the written values, the row splits on ',' into its
      eight fields: timestamp, fan_lvl, ldr, temp, hum, x, y, z. */
  lemma RowSplits(timestamp: string, data: map<string, Number>, py: Python)
    requires HasRowKeys(data)
    requires ',' !in timestamp
    requires forall i :: 0 <= i < |RowKeys| ==> ',' !in py.show(data[RowKeys[i]])
    ensures CsvRow(timestamp, data, py).Ok?
    ensures Split(CsvRow(timestamp, data, py).value, ',') == RowFields(timestamp, data, py)
  {
    RowIsJoin(timestamp, data, py);
    var f := RowFields(timestamp, data, py);
    forall i | 0 <= i < 8 ensures ',' !in f[i] {
      if i > 0 { assert f[i] == py.show(data[RowKeys[i - 1]]); }
    }
    SplitJoin(f, ',');
  }

  /** The row is its eight fields joined with ','. */
  lemma RowIsJoin(timestamp: string, data: map<string, Number>, py: Python)
    requires HasRowKeys(data)
    ensures CsvRow(timestamp, data, py).Ok?
    ensures CsvRow(timestamp, data, py).value == Join(RowFields(timestamp, data, py), ',')
    ensures |RowFields(timestamp, data, py)| == 8
  {
    var f := RowFields(timestamp, data, py);
    assert RowKeys[0] == "Fan-lvl" && RowKeys[1] == "LDR" && RowKeys[2] == "Temp" && RowKeys[3] == "Hum";
    assert RowKeys[4] == "X" && RowKeys[5] == "Y" && RowKeys[6] == "Z";
    assert |f| == 8 && f[0] == timestamp;
    assert f[1] == py.show(data["Fan-lvl"]) && f[2] == py.show(data["LDR"]) && f[3] == py.show(data["Temp"]);
    assert f[4] == py.show(data["Hum"]) && f[5] == py.show(data["X"]) && f[6] == py.show(data["Y"]);
    assert f[7] == py.show(data["Z"]);
    assert Join(f[..1], ',') == timestamp;
    JoinSnoc(f[..1], f[1], ','); assert f[..1] + [f[1]] == f[..2];
    JoinSnoc(f[..2], f[2], ','); assert f[..2] + [f[2]] == f[..3];
    JoinSnoc(f[..3], f[3], ','); assert f[..3] + [f[3]] == f[..4];
    JoinSnoc(f[..4], f[4], ','); assert f[..4] + [f[4]] == f[..5];
    JoinSnoc(f[..5], f[5], ','); assert f[..5] + [f[5]] == f[..6];
    JoinSnoc(f[..6], f[6], ','); assert f[..6] + [f[6]] == f[..7];
    JoinSnoc(f[..7], f[7], ','); assert f[..7] + [f[7]] == f[..8];
    assert f[..8] == f;
  }

  // ---------------------------------------------------------------------------
  // The upload handler

  /** Where `receive_data` sends a status code: 200 to parsing and storing, 500 to the
      error log, anything else to the "unknown" log. */
  datatype Route = Store | ErrorLog | UnknownLog

  function RouteOf(statusCode: int): (r: Route)
    ensures r == Store <==> statusCode == 200
    ensures r == ErrorLog <==> statusCode == 500
  {
    if statusCode == 200 then Store else if statusCode == 500 then ErrorLog else UnknownLog
  }

  /** What the handler's `except` turns into a 500 response. */
  datatype Failure = BadInfo(error: ParseError) | MissingKey(key: string)

  /** The JSON body: `{"message": ...}` or `{"error": str(e)}`. */
  datatype Body = Message(text: string) | Error(failure: Failure)

  datatype Response = Response(status: int, body: Body)

  /** The response to every request that did not raise. */
  const Accepted: Response := Response(200, Message("Data received successfully"))

  /** Flask's `request.args.get("statusCode", default=-1, type=int)`: the default when the
      argument is missing or `int` rejects it. */
  function StatusCodeArg(raw: Option<string>, py: Python): int {
    match raw
    case None => -1
    case Some(text) => py.toInt(text).GetOr(-1)
  }

  /** `request.args.get("info", default="", type=str)`. */
  function InfoArg(raw: Option<string>): string {
    raw.GetOr("")
  }

  /** A request's response, and the row it appends to the data file, if any. */
  datatype Outcome = Outcome(response: Response, row: Option<string>)

  /** `receive_data` on an already decoded status code and info, at time `timestamp`. */
  function Receive(statusCode: int, info: string, timestamp: string, py: Python): Outcome {
    match RouteOf(statusCode)
    case Store =>
      (match Decode(info, py)
       case Err(e) => Outcome(Response(500, Error(BadInfo(e))), None)
       case Ok(data) =>
         match CsvRow(timestamp, data, py)
         case Err(k) => Outcome(Response(500, Error(MissingKey(k))), None)
         case Ok(row) => Outcome(Accepted, Some(row)))
    case ErrorLog => Outcome(Accepted, None)
    case UnknownLog => Outcome(Accepted, None)
  }

  /** A 500 report, an unknown code or a missing one stores nothing and is acknowledged. */
  lemma ReceiveOtherCodes(statusCode: int, info: string, timestamp: string, py: Python)
    requires statusCode != 200
    ensures Receive(statusCode, info, timestamp, py) == Outcome(Accepted, None)
  {
  }

  /** A 200 report stores a row exactly when the info parses and holds all seven keys, and is
      then acknowledged; otherwise it is answered with 500 and stores nothing. */
  lemma ReceiveRoutine(info: string, timestamp: string, py: Python)
    ensures var out := Receive(200, info, timestamp, py);
      (out.row.Some? <==> Decode(info, py).Ok? && HasRowKeys(Decode(info, py).value)) &&
      (out.row.Some? ==> out.response == Accepted && out.row.value == CsvRow(timestamp, Decode(info, py).value, py).value) &&
      (out.row.None? ==> out.response.status == 500 && out.response.body.Error?) &&
      (Decode(info, py).Err? ==> out.response == Response(500, Error(BadInfo(Decode(info, py).error))))
  {
  }

  /** The data file, kept as its lines without their line ends. */
  class DataFile {
    var lines: seq<string>

    /** Start-up: an existing file is kept as it is; a missing one is created with the header. */
    constructor (existing: Option<seq<string>>)
      ensures lines == if existing.Some? then existing.value else [Header]
    {
      if existing.None? {
        lines := [Header];
      } else {
        lines := existing.value;
      }
    }

    predicate HasHeader()
      reads this
    {
      |lines| >= 1 && lines[0] == Header
    }

    /** `receive_data`: the response, and the file with at most the one row appended. */
    method ReceiveData(statusArg: Option<string>, infoArg: Option<string>, timestamp: string, py: Python)
      returns (response: Response)
      modifies this
      ensures var out := Receive(StatusCodeArg(statusArg, py), InfoArg(infoArg), timestamp, py);
        response == out.response &&
        lines == old(lines) + (if out.row.Some? then [out.row.value] else [])
      ensures old(lines) <= lines && |lines| <= |old(lines)| + 1
      ensures old(HasHeader()) ==> HasHeader()
    {
      var statusCode := StatusCodeArg(statusArg, py);
      var info := InfoArg(infoArg);
      if statusCode == 200 {
        var parsed := ParseInfo(info, py);
        if parsed.Err? {
          return Response(500, Error(BadInfo(parsed.error)));
        }
        var row := CsvRow(timestamp, parsed.value, py);
        if row.Err? {
          return Response(500, Error(MissingKey(row.error)));
        }
        lines := lines + [row.value];
      }
      return Accepted;
    }
  }
}

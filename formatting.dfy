/// What the two uploaders share: the weather record, the JSON-shaped request
/// body, the table of the nine forwarded fields, the pressure rule, the
/// envelope `{'observations': [data]}` and the `dateutc` rendering.
module Formatting {
  import opened Results
  import opened PyDict
  import UtcTime

  /// A record value: a number, or Python's None.
  datatype Val = Null | Num(r: real)

  /// A weewx record: observation name to value. Absent keys are absent.
  type Record = map<string, Val>

  /// The structure `json.dumps` serialises.
  datatype Json =
    | JNull
    | JNum(r: real)
    | JInt(i: int)
    | JStr(s: string)
    | JArray(items: seq<Json>)
    | JObject(members: Dict<Json>)

  datatype Error =
    | MissingDateTime        // KeyError: record_m['dateTime']
    | TimestampOutOfRange    // OverflowError / OSError from time.gmtime, OverflowError from time.strftime
    | NameError(name: string)

  /// What `get_post_body` returns: the body and its content type.
  datatype Payload = Payload(body: Json, contentType: string)

  const JsonContentType: string := "application/json"

  datatype Conversion = AsIs | HectopascalsToPascals

  /// One forwarded observation: its weewx name, the short name NowDawn
  /// sends, the long name Scenic sends, and how its value is converted.
  datatype FieldSpec = FieldSpec(source: string, shortName: string, longName: string, conversion: Conversion)

  /// The nine forwarded fields, in the order both uploaders insert them.
  const Fields: seq<FieldSpec> := [
    FieldSpec("outTemp", "temp", "temperature", AsIs),
    FieldSpec("windSpeed", "wind", "wind_speed", AsIs),
    FieldSpec("windDir", "winddir", "wind_direction", AsIs),
    FieldSpec("windGust", "gust", "gust", AsIs),
    FieldSpec("outHumidity", "rh", "humidity", AsIs),
    FieldSpec("dewpoint", "dewpoint", "dewpoint", AsIs),
    FieldSpec("barometer", "pressure", "pressure", HectopascalsToPascals),
    FieldSpec("hourRain", "precip", "hour_rain", AsIs),
    FieldSpec("UV", "uv", "ultraviolet", AsIs)
  ]

  /// The table's entries, one by one.
  lemma FieldsTable()
    ensures |Fields| == 9
    ensures Fields[0] == FieldSpec("outTemp", "temp", "temperature", AsIs)
    ensures Fields[1] == FieldSpec("windSpeed", "wind", "wind_speed", AsIs)
    ensures Fields[2] == FieldSpec("windDir", "winddir", "wind_direction", AsIs)
    ensures Fields[3] == FieldSpec("windGust", "gust", "gust", AsIs)
    ensures Fields[4] == FieldSpec("outHumidity", "rh", "humidity", AsIs)
    ensures Fields[5] == FieldSpec("dewpoint", "dewpoint", "dewpoint", AsIs)
    ensures Fields[6] == FieldSpec("barometer", "pressure", "pressure", HectopascalsToPascals)
    ensures Fields[7] == FieldSpec("hourRain", "precip", "hour_rain", AsIs)
    ensures Fields[8] == FieldSpec("UV", "uv", "ultraviolet", AsIs)
  {
  }

  /// No two fields share a short name or a long name, and no field name is
  /// one of the two header keys, so every insertion adds a new key.
  lemma FieldNamesDistinct()
    ensures forall i, j :: 0 <= i < j < |Fields| ==>
      Fields[i].shortName != Fields[j].shortName && Fields[i].longName != Fields[j].longName
    ensures forall i :: 0 <= i < |Fields| ==>
      Fields[i].shortName != "station" && Fields[i].shortName != "dateutc" &&
      Fields[i].longName != "station" && Fields[i].longName != "dateutc"
  {
  }

  /// The pressure rule: hPa to Pa by `100.0 *`, and None stays None.
  function Convert(c: Conversion, v: Val): (r: Val)
    ensures r.Null? <==> v.Null?
    ensures c.HectopascalsToPascals? && v.Num? ==> r.r == 100.0 * v.r
    ensures c.AsIs? ==> r == v
  {
    match c
    case AsIs => v
    case HectopascalsToPascals => if v.Null? then Null else Num(100.0 * v.r)
  }

  function ToJson(v: Val): Json
  {
    match v
    case Null => JNull
    case Num(r) => JNum(r)
  }

  /// The two entries every observation starts with.
  function Header(station: int, dateutc: string): Dict<Json>
  {
    [("station", JInt(station)), ("dateutc", JStr(dateutc))]
  }

  /// `{'observations': [data]}`.
  function Envelope(data: Dict<Json>): Json
  {
    JObject([("observations", JArray([JObject(data)]))])
  }

  /// The observation of a body shaped like an envelope, if it is one.
  function ObservationOf(body: Json): Option<Dict<Json>>
  {
    if body.JObject? && |body.members| == 1 && body.members[0].0 == "observations"
       && body.members[0].1.JArray? && |body.members[0].1.items| == 1
       && body.members[0].1.items[0].JObject?
    then Some(body.members[0].1.items[0].members)
    else None
  }

  /// The envelope holds exactly the one observation and nothing else.
  lemma EnvelopeRoundTrip(data: Dict<Json>)
    ensures ObservationOf(Envelope(data)) == Some(data)
    ensures Keys(Envelope(data).members) == ["observations"]
  {
  }

  /// The whole seconds `time.gmtime` takes from a `dateTime` value: a number
  /// is floored (CPython rounds towards minus infinity); None means "now".
  function EpochOf(v: Val, now: int): int
  {
    match v
    case Null => now
    case Num(r) => r.Floor
  }

  /// `time.strftime("%Y-%m-%d %H:%M:%S", time.gmtime(record_m['dateTime']))`.
  function DateUtc(rm: Record, now: int): Result<string, Error>
  {
    if "dateTime" !in rm then Err(MissingDateTime)
    else
      var t := EpochOf(rm["dateTime"], now);
      if UtcTime.Representable(t) && UtcTime.Renderable(UtcTime.Gmtime(t)) then
        UtcTime.GmtimeInverse(t);
        Ok(UtcTime.Strftime(UtcTime.Gmtime(t)))
      else Err(TimestampOutOfRange)
  }

  /// `dateutc` fails exactly when the record has no `dateTime`, gmtime
  /// cannot represent it or strftime cannot read its year back; otherwise it
  /// reads back as the very second that `dateTime` names.
  lemma DateUtcMeaning(rm: Record, now: int)
    ensures "dateTime" !in rm ==> DateUtc(rm, now) == Err(MissingDateTime)
    ensures "dateTime" in rm ==>
      var t := EpochOf(rm["dateTime"], now);
      && (DateUtc(rm, now).Err? <==> !UtcTime.Representable(t) || !UtcTime.Renderable(UtcTime.Gmtime(t)))
      && (DateUtc(rm, now).Ok? ==>
            var tm := UtcTime.ParseTimestamp(DateUtc(rm, now).value);
            tm.Some? && UtcTime.Valid(tm.value) && UtcTime.EpochSeconds(tm.value) == t)
  {
    if "dateTime" in rm {
      var t := EpochOf(rm["dateTime"], now);
      UtcTime.GmtimeInverse(t);
      UtcTime.ParseStrftime(UtcTime.Gmtime(t));
    }
  }

  /// 2147483648-01-01 00:00:00 UTC: gmtime represents it, since `tm_year`
  /// fits a C `int`, but strftime cannot read its full year back, so
  /// `dateutc` fails.
  lemma DateUtcYearOverflow()
    ensures UtcTime.Representable(67767976233532800)
    ensures DateUtc(map["dateTime" := Num(67767976233532800.0)], 0) == Err(TimestampOutOfRange)
  {
    var tm := UtcTime.Tm(0x8000_0000, 1, 1, 0, 0, 0);
    assert UtcTime.EpochSeconds(tm) == 67767976233532800;
    UtcTime.GmtimeOfEpochSeconds(tm);
  }

  /// `dateutc` depends on nothing in the record but `dateTime`.
  lemma DateUtcOnlyReadsDateTime(rm: Record, rm': Record, now: int)
    requires "dateTime" in rm <==> "dateTime" in rm'
    requires "dateTime" in rm ==> rm["dateTime"] == rm'["dateTime"]
    ensures DateUtc(rm, now) == DateUtc(rm', now)
  {
  }
}

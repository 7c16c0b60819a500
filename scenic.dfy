/// The Scenic uploader's request formatting (bin/user/scenic.py), in the
/// form its authors evidently intended: the URL carries the station number
/// and the API key; the observation always carries all eleven keys, a field
/// whose value is missing or None being sent as null.
module Scenic {
  import opened Results
  import opened PyDict
  import opened Formatting
  import Decimal

  /// `DEFAULT_URL` up to its first `%s`.
  const UrlPrefix: string := "https://api.scenicdata.com/station/"
  const KeySeparator: string := "/key/"

  /// `get_value(record, key)`: None when the record or the key is None or
  /// the key is absent, else the stored value (which may itself be None).
  function GetValue(record: Option<Record>, key: Option<string>): (r: Val)
    ensures r.Null? <==>
      record.None? || key.None? || key.value !in record.value || record.value[key.value].Null?
    ensures r.Num? ==> key.value in record.value && r == record.value[key.value]
  {
    if record.None? || key.None? then Null
    else if key.value in record.value then record.value[key.value]
    else Null
  }

  /// The value Scenic sends for the field f.
  function ValueOf(rm: Record, f: FieldSpec): Json
  {
    ToJson(Convert(f.conversion, GetValue(Some(rm), Some(f.source))))
  }

  /// `data[<long name>] = get_value(record_m, <source>)`, converted.
  function Fill(d: Dict<Json>, rm: Record, f: FieldSpec): Dict<Json>
  {
    Set(d, f.longName, ValueOf(rm, f))
  }

  /// The assignments for the fields fs, one after the other.
  function FillAll(d: Dict<Json>, rm: Record, fs: seq<FieldSpec>): Dict<Json>
    decreases |fs|
  {
    if fs == [] then d else FillAll(Fill(d, rm, fs[0]), rm, fs[1..])
  }

  /// One (long name, value) entry per field of fs, in order.
  function Filled(rm: Record, fs: seq<FieldSpec>): Dict<Json>
  {
    if fs == [] then [] else [(fs[0].longName, ValueOf(rm, fs[0]))] + Filled(rm, fs[1..])
  }

  /// The `data` dict `get_post_body` builds from the metric record: the
  /// header, then every field under its long name.
  function Observation(station: int, dateutc: string, rm: Record): Dict<Json>
  {
    Header(station, dateutc) + Filled(rm, Fields)
  }

  /// What `get_post_body` returns for the metric record rm.
  function PostBody(station: int, rm: Record, now: int): Result<Payload, Error>
  {
    match DateUtc(rm, now)
    case Err(e) => Err(e)
    case Ok(d) => Ok(Payload(Envelope(Observation(station, d, rm)), JsonContentType))
  }

  /// `DEFAULT_URL % (station, api_key)`: `%s` of an int is its decimal form.
  function Url(station: int, apiKey: string): string
  {
    UrlPrefix + Decimal.IntToString(station) + KeySeparator + apiKey
  }

  /// The position of the first '/' in s, or |s| if there is none.
  function FirstSlash(s: string): (i: nat)
    ensures i <= |s|
    ensures forall j :: 0 <= j < i ==> s[j] != '/'
    ensures i < |s| ==> s[i] == '/'
  {
    if s == [] || s[0] == '/' then 0 else 1 + FirstSlash(s[1..])
  }

  /// The station number and API key of a Scenic upload URL.
  function ParseUrl(url: string): Option<(int, string)>
  {
    if |url| < |UrlPrefix| || url[..|UrlPrefix|] != UrlPrefix then None
    else
      var rest := url[|UrlPrefix|..];
      var i := FirstSlash(rest);
      var tail := rest[i..];
      match Decimal.ParseInt(rest[..i])
      case None => None
      case Some(station) =>
        if |tail| >= |KeySeparator| && tail[..|KeySeparator|] == KeySeparator
        then Some((station, tail[|KeySeparator|..]))
        else None
  }

  /// The URL gives back the station number and the API key it was built from.
  lemma UrlRoundTrip(station: int, apiKey: string)
    ensures ParseUrl(Url(station, apiKey)) == Some((station, apiKey))
  {
    var digits := Decimal.IntToString(station);
    var url := Url(station, apiKey);
    assert url[..|UrlPrefix|] == UrlPrefix;
    var rest := url[|UrlPrefix|..];
    assert rest == digits + KeySeparator + apiKey;
    Decimal.IntToStringChars(station);
    assert rest[|digits|] == '/';
    assert FirstSlash(rest) == |digits|;
    assert rest[..|digits|] == digits;
    assert rest[|digits|..] == KeySeparator + apiKey;
    Decimal.ParseIntToString(station);
  }

  class ScenicThread {
    const apiKey: string
    const station: int
    const serverUrl: string
    const skipUpload: bool

    /// The fields `__init__` sets. The URL is built from the station and the
    /// API key: scenic.py:111 names an undefined `api` there (see module
    /// ScenicAsWritten). The queue, retry and staleness parameters go to the
    /// base class and are not part of this model.
    constructor (apiKey: string, station: int, skipUpload: bool)
      ensures this.apiKey == apiKey && this.station == station
      ensures this.serverUrl == Url(station, apiKey) && this.skipUpload == skipUpload
    {
      this.apiKey := apiKey;
      this.station := station;
      this.serverUrl := Url(station, apiKey);
      this.skipUpload := skipUpload;
    }

    /// The upload URL, from the thread's own station and API key (scenic.py:117
    /// names undefined globals instead; see module ScenicAsWritten).
    method FormatUrl(record: Record) returns (url: string)
      ensures url == Url(station, apiKey)
      ensures ParseUrl(url) == Some((station, apiKey))
    {
      url := UrlPrefix + Decimal.IntToString(station) + KeySeparator + apiKey;
      UrlRoundTrip(station, apiKey);
    }

    /// Converts the record with `toMetric` (weewx's `to_METRICWX`), builds
    /// the observation and wraps it in the envelope.
    method GetPostBody(record: Record, toMetric: Record -> Record, now: int) returns (r: Result<Payload, Error>)
      ensures r == PostBody(station, toMetric(record), now)
    {
      var rm := toMetric(record);
      var date := DateUtc(rm, now);
      if date.Err? {
        return Err(date.error);
      }
      var data := BuildObservation(date.value, rm);
      r := Ok(Payload(Envelope(data), JsonContentType));
    }

    /// The `data` dict of `get_post_body`: the header, then one assignment
    /// per forwarded field in table order.
    method BuildObservation(dateutc: string, rm: Record) returns (data: Dict<Json>)
      ensures data == Observation(station, dateutc, rm)
    {
      data := Header(station, dateutc);
      ghost var d0 := data;
      TableStep(data, rm, 0);
      data := Set(data, "temperature", ToJson(GetValue(Some(rm), Some("outTemp"))));
      ghost var d1 := data;
      TableStep(data, rm, 1);
      data := Set(data, "wind_speed", ToJson(GetValue(Some(rm), Some("windSpeed"))));
      ghost var d2 := data;
      TableStep(data, rm, 2);
      data := Set(data, "wind_direction", ToJson(GetValue(Some(rm), Some("windDir"))));
      ghost var d3 := data;
      TableStep(data, rm, 3);
      data := Set(data, "gust", ToJson(GetValue(Some(rm), Some("windGust"))));
      ghost var d4 := data;
      TableStep(data, rm, 4);
      data := Set(data, "humidity", ToJson(GetValue(Some(rm), Some("outHumidity"))));
      ghost var d5 := data;
      TableStep(data, rm, 5);
      data := Set(data, "dewpoint", ToJson(GetValue(Some(rm), Some("dewpoint"))));
      ghost var d6 := data;
      TableStep(data, rm, 6);
      var barometric := GetValue(Some(rm), Some("barometer"));
      if barometric == Null {
        data := Set(data, "pressure", JNull);
      } else {
        data := Set(data, "pressure", JNum(100.0 * barometric.r));
      }
      assert data == Fill(d6, rm, Fields[6]);
      ghost var d7 := data;
      TableStep(data, rm, 7);
      data := Set(data, "hour_rain", ToJson(GetValue(Some(rm), Some("hourRain"))));
      ghost var d8 := data;
      TableStep(data, rm, 8);
      data := Set(data, "ultraviolet", ToJson(GetValue(Some(rm), Some("UV"))));
      Chain(station, dateutc, rm, d0, d1, d2, d3, d4, d5, d6, d7, d8, data);
    }
  }

  /// Entry k of the table is the k-th assignment of `get_post_body`.
  lemma TableStep(d: Dict<Json>, rm: Record, k: int)
    requires 0 <= k < 9
    ensures k == 0 ==> Fill(d, rm, Fields[0]) == Set(d, "temperature", ToJson(GetValue(Some(rm), Some("outTemp"))))
    ensures k == 1 ==> Fill(d, rm, Fields[1]) == Set(d, "wind_speed", ToJson(GetValue(Some(rm), Some("windSpeed"))))
    ensures k == 2 ==> Fill(d, rm, Fields[2]) == Set(d, "wind_direction", ToJson(GetValue(Some(rm), Some("windDir"))))
    ensures k == 3 ==> Fill(d, rm, Fields[3]) == Set(d, "gust", ToJson(GetValue(Some(rm), Some("windGust"))))
    ensures k == 4 ==> Fill(d, rm, Fields[4]) == Set(d, "humidity", ToJson(GetValue(Some(rm), Some("outHumidity"))))
    ensures k == 5 ==> Fill(d, rm, Fields[5]) == Set(d, "dewpoint", ToJson(GetValue(Some(rm), Some("dewpoint"))))
    ensures k == 6 ==>
      var b := GetValue(Some(rm), Some("barometer"));
      Fill(d, rm, Fields[6]) == if b == Null then Set(d, "pressure", JNull) else Set(d, "pressure", JNum(100.0 * b.r))
    ensures k == 7 ==> Fill(d, rm, Fields[7]) == Set(d, "hour_rain", ToJson(GetValue(Some(rm), Some("hourRain"))))
    ensures k == 8 ==> Fill(d, rm, Fields[8]) == Set(d, "ultraviolet", ToJson(GetValue(Some(rm), Some("UV"))))
  {
    FieldsTable();
  }

  /// Nine table steps from the header make the observation.
  lemma Chain(station: int, dateutc: string, rm: Record, d0: Dict<Json>, d1: Dict<Json>, d2: Dict<Json>,
              d3: Dict<Json>, d4: Dict<Json>, d5: Dict<Json>, d6: Dict<Json>, d7: Dict<Json>,
              d8: Dict<Json>, d9: Dict<Json>)
    requires d0 == Header(station, dateutc)
    requires d1 == Fill(d0, rm, Fields[0])
    requires d2 == Fill(d1, rm, Fields[1])
    requires d3 == Fill(d2, rm, Fields[2])
    requires d4 == Fill(d3, rm, Fields[3])
    requires d5 == Fill(d4, rm, Fields[4])
    requires d6 == Fill(d5, rm, Fields[5])
    requires d7 == Fill(d6, rm, Fields[6])
    requires d8 == Fill(d7, rm, Fields[7])
    requires d9 == Fill(d8, rm, Fields[8])
    ensures Observation(station, dateutc, rm) == d9
  {
    FieldsTable();
    Unroll(d0, rm, Fields);
    FoldIsObservation(station, dateutc, rm);
  }

  /// The steps applied to the header give the observation.
  lemma FoldIsObservation(station: int, dateutc: string, rm: Record)
    ensures FillAll(Header(station, dateutc), rm, Fields) == Observation(station, dateutc, rm)
  {
    FieldNamesDistinct();
    FillAllAppends(Header(station, dateutc), rm, Fields);
  }

  /// Nine assignments, spelled out one by one.
  lemma Unroll(d: Dict<Json>, rm: Record, fs: seq<FieldSpec>)
    requires |fs| == 9
    ensures FillAll(d, rm, fs) ==
      Fill(Fill(Fill(Fill(Fill(Fill(Fill(Fill(Fill(d,
        rm, fs[0]), rm, fs[1]), rm, fs[2]), rm, fs[3]), rm, fs[4]),
        rm, fs[5]), rm, fs[6]), rm, fs[7]), rm, fs[8])
  {
    var d1 := Fill(d, rm, fs[0]);
    var d2 := Fill(d1, rm, fs[1]);
    var d3 := Fill(d2, rm, fs[2]);
    var d4 := Fill(d3, rm, fs[3]);
    var d5 := Fill(d4, rm, fs[4]);
    var d6 := Fill(d5, rm, fs[5]);
    var d7 := Fill(d6, rm, fs[6]);
    var d8 := Fill(d7, rm, fs[7]);
    FillAllFrom(d, rm, fs, 0);
    FillAllFrom(d1, rm, fs, 1);
    FillAllFrom(d2, rm, fs, 2);
    FillAllFrom(d3, rm, fs, 3);
    FillAllFrom(d4, rm, fs, 4);
    FillAllFrom(d5, rm, fs, 5);
    FillAllFrom(d6, rm, fs, 6);
    FillAllFrom(d7, rm, fs, 7);
    FillAllFrom(d8, rm, fs, 8);
    assert fs[9..] == [];
    assert fs[0..] == fs;
  }

  lemma FillAllFrom(d: Dict<Json>, rm: Record, fs: seq<FieldSpec>, k: int)
    requires 0 <= k < |fs|
    ensures FillAll(d, rm, fs[k..]) == FillAll(Fill(d, rm, fs[k]), rm, fs[k + 1..])
  {
    assert fs[k..][1..] == fs[k + 1..];
  }

  // -----------------------------------------------------------------------
  // Assigning the fields to fresh keys appends their entries

  function LongNames(fs: seq<FieldSpec>): (names: seq<string>)
    ensures |names| == |fs|
  {
    if fs == [] then [] else [fs[0].longName] + LongNames(fs[1..])
  }

  predicate DistinctLongNames(fs: seq<FieldSpec>)
  {
    forall i, j :: 0 <= i < j < |fs| ==> fs[i].longName != fs[j].longName
  }

  lemma DistinctLongNamesTail(fs: seq<FieldSpec>)
    requires fs != [] && DistinctLongNames(fs)
    ensures DistinctLongNames(fs[1..])
    ensures forall j :: 0 <= j < |fs[1..]| ==> fs[1..][j].longName != fs[0].longName
  {
    forall i, j | 0 <= i < j < |fs[1..]| ensures fs[1..][i].longName != fs[1..][j].longName {
      assert fs[1..][i] == fs[i + 1] && fs[1..][j] == fs[j + 1];
    }
    forall j | 0 <= j < |fs[1..]| ensures fs[1..][j].longName != fs[0].longName {
      assert fs[1..][j] == fs[j + 1];
    }
  }

  lemma {:induction false} FilledKeys(rm: Record, fs: seq<FieldSpec>)
    ensures Keys(Filled(rm, fs)) == LongNames(fs)
  {
    if fs != [] {
      FilledKeys(rm, fs[1..]);
      KeysAppend([(fs[0].longName, ValueOf(rm, fs[0]))], Filled(rm, fs[1..]));
    }
  }

  lemma {:induction false} LongNamesIndex(fs: seq<FieldSpec>, j: int)
    requires 0 <= j < |LongNames(fs)|
    ensures |LongNames(fs)| == |fs| && LongNames(fs)[j] == fs[j].longName
  {
    if j > 0 {
      LongNamesIndex(fs[1..], j - 1);
    }
  }

  lemma LongNamesDistinct(fs: seq<FieldSpec>)
    requires DistinctLongNames(fs)
    ensures Distinct(LongNames(fs))
  {
    forall i, j | 0 <= i < j < |LongNames(fs)| ensures LongNames(fs)[i] != LongNames(fs)[j] {
      LongNamesIndex(fs, i);
      LongNamesIndex(fs, j);
    }
  }

  lemma FillFresh(d: Dict<Json>, rm: Record, f: FieldSpec)
    requires f.longName !in Keys(d)
    ensures Fill(d, rm, f) == d + [(f.longName, ValueOf(rm, f))]
  {
  }

  /// Assigning fields whose names are new keys appends their entries.
  lemma {:induction false} FillAllAppends(d: Dict<Json>, rm: Record, fs: seq<FieldSpec>)
    requires DistinctLongNames(fs)
    requires forall j :: 0 <= j < |fs| ==> fs[j].longName !in Keys(d)
    ensures FillAll(d, rm, fs) == d + Filled(rm, fs)
    decreases |fs|
  {
    if fs == [] {
      assert d + [] == d;
    } else {
      var e := [(fs[0].longName, ValueOf(rm, fs[0]))];
      FillFresh(d, rm, fs[0]);
      KeysAppend(d, e);
      DistinctLongNamesTail(fs);
      forall j | 0 <= j < |fs[1..]| ensures fs[1..][j].longName !in Keys(d + e) {
        assert fs[1..][j] == fs[j + 1];
      }
      FillAllAppends(d + e, rm, fs[1..]);
      assert d + e + Filled(rm, fs[1..]) == d + Filled(rm, fs);
    }
  }

  /// Lookup of the long name of fs[i] in the entries.
  lemma {:induction false} FilledGet(rm: Record, fs: seq<FieldSpec>, i: int)
    requires DistinctLongNames(fs) && 0 <= i < |fs|
    ensures Get(Filled(rm, fs), fs[i].longName) == Some(ValueOf(rm, fs[i]))
  {
    var e := [(fs[0].longName, ValueOf(rm, fs[0]))];
    GetAppend(e, Filled(rm, fs[1..]), fs[i].longName);
    DistinctLongNamesTail(fs);
    if i > 0 {
      assert fs[1..][i - 1] == fs[i];
      FilledGet(rm, fs[1..], i - 1);
    }
  }

  /// Entries whose values agree for every field are equal.
  lemma {:induction false} FilledDependsOnValues(rm1: Record, rm2: Record, fs: seq<FieldSpec>)
    requires forall j :: 0 <= j < |fs| ==>
      GetValue(Some(rm1), Some(fs[j].source)) == GetValue(Some(rm2), Some(fs[j].source))
    ensures Filled(rm1, fs) == Filled(rm2, fs)
  {
    if fs != [] {
      assert GetValue(Some(rm1), Some(fs[0].source)) == GetValue(Some(rm2), Some(fs[0].source));
      forall j | 0 <= j < |fs[1..]| ensures
        GetValue(Some(rm1), Some(fs[1..][j].source)) == GetValue(Some(rm2), Some(fs[1..][j].source))
      {
        assert fs[1..][j] == fs[j + 1];
      }
      FilledDependsOnValues(rm1, rm2, fs[1..]);
    }
  }

  // -----------------------------------------------------------------------
  // What the Scenic observation holds

  /// The long names of the nine forwarded fields, in table order.
  const FieldLongNames: seq<string> := ["temperature", "wind_speed", "wind_direction", "gust",
    "humidity", "dewpoint", "pressure", "hour_rain", "ultraviolet"]

  /// The eleven keys, in the order `get_post_body` assigns them.
  const ObservationKeyOrder: seq<string> := ["station", "dateutc"] + FieldLongNames

  /// Whatever the record, the observation has exactly the eleven keys, in
  /// order, none twice.
  lemma ObservationKeys(station: int, dateutc: string, rm: Record)
    ensures Keys(Observation(station, dateutc, rm)) == ObservationKeyOrder
    ensures |Observation(station, dateutc, rm)| == 11
    ensures DistinctKeys(Observation(station, dateutc, rm))
  {
    FieldNamesDistinct();
    HeaderThenAll(station, dateutc, rm, Fields);
    LongNamesOfFields();
  }

  /// The header followed by the entries of a table with distinct long
  /// names, none of them a header key, repeats no key.
  lemma HeaderThenAll(station: int, dateutc: string, rm: Record, fs: seq<FieldSpec>)
    requires DistinctLongNames(fs)
    requires forall j :: 0 <= j < |fs| ==> fs[j].longName != "station" && fs[j].longName != "dateutc"
    ensures Keys(Header(station, dateutc) + Filled(rm, fs)) == ["station", "dateutc"] + LongNames(fs)
    ensures DistinctKeys(Header(station, dateutc) + Filled(rm, fs))
  {
    KeysAppend(Header(station, dateutc), Filled(rm, fs));
    FilledKeys(rm, fs);
    LongNamesDistinct(fs);
    var names := LongNames(fs);
    forall j | 0 <= j < |names| ensures names[j] !in ["station", "dateutc"] {
      LongNamesIndex(fs, j);
    }
    DistinctConcat(["station", "dateutc"], names);
    DistinctKeysFromKeys(Header(station, dateutc) + Filled(rm, fs));
  }

  lemma LongNamesOfFields()
    ensures LongNames(Fields) == FieldLongNames
  {
    FieldsTable();
    LongNamesOfNine(Fields);
  }

  lemma LongNamesOfNine(fs: seq<FieldSpec>)
    requires |fs| == 9
    ensures LongNames(fs) == [fs[0].longName, fs[1].longName, fs[2].longName, fs[3].longName,
      fs[4].longName, fs[5].longName, fs[6].longName, fs[7].longName, fs[8].longName]
  {
    forall j | 0 <= j < 9 ensures LongNames(fs)[j] == fs[j].longName {
      LongNamesIndex(fs, j);
    }
  }

  /// `station` and `dateutc` always lead the observation.
  lemma ObservationHeader(station: int, dateutc: string, rm: Record)
    ensures |Observation(station, dateutc, rm)| >= 2
    ensures Observation(station, dateutc, rm)[0] == ("station", JInt(station))
    ensures Observation(station, dateutc, rm)[1] == ("dateutc", JStr(dateutc))
  {
  }

  /// Field i always carries the converted value of its source key, null when
  /// the key is absent or holds None.
  lemma ObservationField(station: int, dateutc: string, rm: Record, i: int)
    requires 0 <= i < |Fields|
    ensures Get(Observation(station, dateutc, rm), Fields[i].longName)
         == Some(ToJson(Convert(Fields[i].conversion, if Fields[i].source in rm then rm[Fields[i].source] else Null)))
  {
    FieldNamesDistinct();
    GetAppend(Header(station, dateutc), Filled(rm, Fields), Fields[i].longName);
    FilledGet(rm, Fields, i);
  }

  /// Pressure is null without a barometer value and 100 times the
  /// barometer otherwise.
  lemma ObservationPressure(station: int, dateutc: string, rm: Record)
    ensures "barometer" !in rm ==> Get(Observation(station, dateutc, rm), "pressure") == Some(JNull)
    ensures "barometer" in rm && rm["barometer"].Null? ==>
      Get(Observation(station, dateutc, rm), "pressure") == Some(JNull)
    ensures "barometer" in rm && rm["barometer"].Num? ==>
      Get(Observation(station, dateutc, rm), "pressure") == Some(JNum(100.0 * rm["barometer"].r))
  {
    ObservationField(station, dateutc, rm, 6);
    FieldsTable();
    var v := if "barometer" in rm then rm["barometer"] else Null;
    var p := Convert(HectopascalsToPascals, v);
    assert Get(Observation(station, dateutc, rm), "pressure") == Some(ToJson(p));
    if v.Num? {
      assert p == Num(100.0 * v.r);
    }
  }

  /// Scenic cannot tell an absent key from a key holding None: records whose
  /// forwarded values agree up to that difference give the same observation.
  lemma AbsentLikeNone(station: int, dateutc: string, rm1: Record, rm2: Record)
    requires forall i :: 0 <= i < |Fields| ==>
      GetValue(Some(rm1), Some(Fields[i].source)) == GetValue(Some(rm2), Some(Fields[i].source))
    ensures Observation(station, dateutc, rm1) == Observation(station, dateutc, rm2)
  {
    FilledDependsOnValues(rm1, rm2, Fields);
  }

  /// The body is the envelope of the observation, typed `application/json`;
  /// it fails exactly when `dateutc` does, with the same error.
  lemma PostBodyShape(station: int, rm: Record, now: int)
    ensures PostBody(station, rm, now).Ok? <==> DateUtc(rm, now).Ok?
    ensures PostBody(station, rm, now).Err? ==> PostBody(station, rm, now).error == DateUtc(rm, now).error
    ensures PostBody(station, rm, now).Ok? ==>
      && PostBody(station, rm, now).value.contentType == "application/json"
      && ObservationOf(PostBody(station, rm, now).value.body)
           == Some(Observation(station, DateUtc(rm, now).value, rm))
  {
    if DateUtc(rm, now).Ok? {
      EnvelopeRoundTrip(Observation(station, DateUtc(rm, now).value, rm));
    }
  }
}

/// The NowDawn uploader's request formatting (bin/user/nowdawn.py): the URL
/// carries the API key; the observation carries `station`, `dateutc` and a
/// short-named entry for each forwarded field whose key the metric record
/// has, in table order. Presence is by key: a key holding None is sent as null.
module NowDawn {
  import opened Results
  import opened PyDict
  import opened Formatting

  const DefaultUrl: string := "https://stations.nowdawn.com"

  /// `if <source> in record_m: data[<short name>] = <converted value>`.
  function Insert(d: Dict<Json>, rm: Record, f: FieldSpec): Dict<Json>
  {
    if f.source in rm then Set(d, f.shortName, ToJson(Convert(f.conversion, rm[f.source]))) else d
  }

  /// The insertions for the fields fs, one after the other.
  function InsertAll(d: Dict<Json>, rm: Record, fs: seq<FieldSpec>): Dict<Json>
    decreases |fs|
  {
    if fs == [] then d else InsertAll(Insert(d, rm, fs[0]), rm, fs[1..])
  }

  /// NowDawn's entry for the field f: one pair, or none when the key is absent.
  function Entry(rm: Record, f: FieldSpec): Dict<Json>
  {
    if f.source in rm then [(f.shortName, ToJson(Convert(f.conversion, rm[f.source])))] else []
  }

  function Emitted(rm: Record, fs: seq<FieldSpec>): Dict<Json>
  {
    if fs == [] then [] else Entry(rm, fs[0]) + Emitted(rm, fs[1..])
  }

  /// The short names of the fields in fs whose key the record has, in order.
  function PresentShortNames(rm: Record, fs: seq<FieldSpec>): seq<string>
  {
    if fs == [] then []
    else (if fs[0].source in rm then [fs[0].shortName] else []) + PresentShortNames(rm, fs[1..])
  }

  /// The `data` dict `get_post_body` builds from the metric record: the
  /// header, then the entries of the present fields.
  function Observation(station: int, dateutc: string, rm: Record): Dict<Json>
  {
    Header(station, dateutc) + Emitted(rm, Fields)
  }

  /// What `get_post_body` returns for the metric record rm.
  function PostBody(station: int, rm: Record, now: int): Result<Payload, Error>
  {
    match DateUtc(rm, now)
    case Err(e) => Err(e)
    case Ok(d) => Ok(Payload(Envelope(Observation(station, d, rm)), JsonContentType))
  }

  /// The API key of a NowDawn upload URL.
  function ApiKeyOfUrl(url: string): Option<string>
  {
    var prefix := DefaultUrl + "/";
    if |url| >= |prefix| && url[..|prefix|] == prefix then Some(url[|prefix|..]) else None
  }

  class NowDawnThread {
    const apiKey: string
    const station: int
    const serverUrl: string
    const skipUpload: bool

    /// The fields `__init__` sets. The queue, retry and staleness parameters
    /// go to the base class and are not part of this model; `station` and
    /// `skipUpload` arrive already coerced by `to_int` and `to_bool`.
    constructor (apiKey: string, station: int, skipUpload: bool)
      ensures this.apiKey == apiKey && this.station == station
      ensures this.serverUrl == DefaultUrl && this.skipUpload == skipUpload
    {
      this.apiKey := apiKey;
      this.station := station;
      this.serverUrl := DefaultUrl;
      this.skipUpload := skipUpload;
    }

    /// The upload URL: the server followed by the API key, whatever the record.
    method FormatUrl(record: Record) returns (url: string)
      ensures url == DefaultUrl + "/" + apiKey
      ensures ApiKeyOfUrl(url) == Some(apiKey)
    {
      url := DefaultUrl + "/" + apiKey;
      assert url[..|DefaultUrl + "/"|] == DefaultUrl + "/";
    }

    /// Converts the record with `toMetric` (weewx's `to_METRICWX`), then
    /// builds the observation from the header by one conditional insertion
    /// per forwarded field, and wraps it in the envelope.
    method GetPostBody(record: Record, toMetric: Record -> Record, now: int) returns (r: Result<Payload, Error>)
      ensures r == PostBody(station, toMetric(record), now)
    {
      var rm := toMetric(record);
      var date := DateUtc(rm, now);
      if date.Err? {
        return Err(date.error);
      }
      var data := BuildObservation(date.value, rm);
      r := Ok(Payload(Envelope(data), JsonContentType));
    }

    /// The `data` dict of `get_post_body`: the header, then one conditional
    /// insertion per forwarded field in table order.
    method BuildObservation(dateutc: string, rm: Record) returns (data: Dict<Json>)
      ensures data == Observation(station, dateutc, rm)
    {
      data := Header(station, dateutc);
      ghost var d0 := data;
      TableStep(data, rm, 0);
      if "outTemp" in rm {
        data := Set(data, "temp", ToJson(rm["outTemp"]));
      }
      assert data == Insert(d0, rm, Fields[0]);
      ghost var d1 := data;
      TableStep(data, rm, 1);
      if "windSpeed" in rm {
        data := Set(data, "wind", ToJson(rm["windSpeed"]));
      }
      assert data == Insert(d1, rm, Fields[1]);
      ghost var d2 := data;
      TableStep(data, rm, 2);
      if "windDir" in rm {
        data := Set(data, "winddir", ToJson(rm["windDir"]));
      }
      assert data == Insert(d2, rm, Fields[2]);
      ghost var d3 := data;
      TableStep(data, rm, 3);
      if "windGust" in rm {
        data := Set(data, "gust", ToJson(rm["windGust"]));
      }
      assert data == Insert(d3, rm, Fields[3]);
      ghost var d4 := data;
      TableStep(data, rm, 4);
      if "outHumidity" in rm {
        data := Set(data, "rh", ToJson(rm["outHumidity"]));
      }
      assert data == Insert(d4, rm, Fields[4]);
      ghost var d5 := data;
      TableStep(data, rm, 5);
      if "dewpoint" in rm {
        data := Set(data, "dewpoint", ToJson(rm["dewpoint"]));
      }
      assert data == Insert(d5, rm, Fields[5]);
      ghost var d6 := data;
      TableStep(data, rm, 6);
      if "barometer" in rm {
        if rm["barometer"] != Null {
          data := Set(data, "pressure", JNum(100.0 * rm["barometer"].r));
        } else {
          data := Set(data, "pressure", JNull);
        }
      }
      assert data == Insert(d6, rm, Fields[6]);
      ghost var d7 := data;
      TableStep(data, rm, 7);
      if "hourRain" in rm {
        data := Set(data, "precip", ToJson(rm["hourRain"]));
      }
      assert data == Insert(d7, rm, Fields[7]);
      ghost var d8 := data;
      TableStep(data, rm, 8);
      if "UV" in rm {
        data := Set(data, "uv", ToJson(rm["UV"]));
      }
      assert data == Insert(d8, rm, Fields[8]);
      Chain(station, dateutc, rm, d0, d1, d2, d3, d4, d5, d6, d7, d8, data);
    }
  }

  /// Entry k of the table is the k-th literal `if` of `get_post_body`.
  lemma TableStep(d: Dict<Json>, rm: Record, k: int)
    requires 0 <= k < 9
    ensures k == 0 ==> Insert(d, rm, Fields[0]) == if "outTemp" in rm then Set(d, "temp", ToJson(rm["outTemp"])) else d
    ensures k == 1 ==> Insert(d, rm, Fields[1]) == if "windSpeed" in rm then Set(d, "wind", ToJson(rm["windSpeed"])) else d
    ensures k == 2 ==> Insert(d, rm, Fields[2]) == if "windDir" in rm then Set(d, "winddir", ToJson(rm["windDir"])) else d
    ensures k == 3 ==> Insert(d, rm, Fields[3]) == if "windGust" in rm then Set(d, "gust", ToJson(rm["windGust"])) else d
    ensures k == 4 ==> Insert(d, rm, Fields[4]) == if "outHumidity" in rm then Set(d, "rh", ToJson(rm["outHumidity"])) else d
    ensures k == 5 ==> Insert(d, rm, Fields[5]) == if "dewpoint" in rm then Set(d, "dewpoint", ToJson(rm["dewpoint"])) else d
    ensures k == 6 ==> Insert(d, rm, Fields[6]) == if "barometer" in rm then (if rm["barometer"] != Null then Set(d, "pressure", JNum(100.0 * rm["barometer"].r)) else Set(d, "pressure", JNull)) else d
    ensures k == 7 ==> Insert(d, rm, Fields[7]) == if "hourRain" in rm then Set(d, "precip", ToJson(rm["hourRain"])) else d
    ensures k == 8 ==> Insert(d, rm, Fields[8]) == if "UV" in rm then Set(d, "uv", ToJson(rm["UV"])) else d
  {
    FieldsTable();
  }

  /// Nine table steps from the header make the observation.
  lemma Chain(station: int, dateutc: string, rm: Record, d0: Dict<Json>, d1: Dict<Json>, d2: Dict<Json>, d3: Dict<Json>, d4: Dict<Json>, d5: Dict<Json>, d6: Dict<Json>, d7: Dict<Json>, d8: Dict<Json>, d9: Dict<Json>)
    requires d0 == Header(station, dateutc)
    requires d1 == Insert(d0, rm, Fields[0])
    requires d2 == Insert(d1, rm, Fields[1])
    requires d3 == Insert(d2, rm, Fields[2])
    requires d4 == Insert(d3, rm, Fields[3])
    requires d5 == Insert(d4, rm, Fields[4])
    requires d6 == Insert(d5, rm, Fields[5])
    requires d7 == Insert(d6, rm, Fields[6])
    requires d8 == Insert(d7, rm, Fields[7])
    requires d9 == Insert(d8, rm, Fields[8])
    ensures Observation(station, dateutc, rm) == d9
  {
    FieldsTable();
    Unroll(d0, rm, Fields);
    FoldIsObservation(station, dateutc, rm);
  }

  /// The steps applied to the header give the observation.
  lemma FoldIsObservation(station: int, dateutc: string, rm: Record)
    ensures InsertAll(Header(station, dateutc), rm, Fields) == Observation(station, dateutc, rm)
  {
    FieldNamesDistinct();
    InsertAllAppends(Header(station, dateutc), rm, Fields);
  }

  /// Nine insertions, spelled out one by one.
  lemma Unroll(d: Dict<Json>, rm: Record, fs: seq<FieldSpec>)
    requires |fs| == 9
    ensures InsertAll(d, rm, fs) ==
      Insert(Insert(Insert(Insert(Insert(Insert(Insert(Insert(Insert(d,
        rm, fs[0]), rm, fs[1]), rm, fs[2]), rm, fs[3]), rm, fs[4]),
        rm, fs[5]), rm, fs[6]), rm, fs[7]), rm, fs[8])
  {
    var d1 := Insert(d, rm, fs[0]);
    var d2 := Insert(d1, rm, fs[1]);
    var d3 := Insert(d2, rm, fs[2]);
    var d4 := Insert(d3, rm, fs[3]);
    var d5 := Insert(d4, rm, fs[4]);
    var d6 := Insert(d5, rm, fs[5]);
    var d7 := Insert(d6, rm, fs[6]);
    var d8 := Insert(d7, rm, fs[7]);
    InsertAllFrom(d, rm, fs, 0);
    InsertAllFrom(d1, rm, fs, 1);
    InsertAllFrom(d2, rm, fs, 2);
    InsertAllFrom(d3, rm, fs, 3);
    InsertAllFrom(d4, rm, fs, 4);
    InsertAllFrom(d5, rm, fs, 5);
    InsertAllFrom(d6, rm, fs, 6);
    InsertAllFrom(d7, rm, fs, 7);
    InsertAllFrom(d8, rm, fs, 8);
    assert fs[9..] == [];
    assert fs[0..] == fs;
  }

  lemma InsertAllFrom(d: Dict<Json>, rm: Record, fs: seq<FieldSpec>, k: int)
    requires 0 <= k < |fs|
    ensures InsertAll(d, rm, fs[k..]) == InsertAll(Insert(d, rm, fs[k]), rm, fs[k + 1..])
  {
    assert fs[k..][1..] == fs[k + 1..];
  }

  // -----------------------------------------------------------------------
  // Inserting the fields under fresh keys appends their entries

  predicate DistinctShortNames(fs: seq<FieldSpec>)
  {
    forall i, j :: 0 <= i < j < |fs| ==> fs[i].shortName != fs[j].shortName
  }

  lemma DistinctShortNamesTail(fs: seq<FieldSpec>)
    requires fs != [] && DistinctShortNames(fs)
    ensures DistinctShortNames(fs[1..])
    ensures forall j :: 0 <= j < |fs[1..]| ==> fs[1..][j].shortName != fs[0].shortName
  {
    forall i, j | 0 <= i < j < |fs[1..]| ensures fs[1..][i].shortName != fs[1..][j].shortName {
      assert fs[1..][i] == fs[i + 1] && fs[1..][j] == fs[j + 1];
    }
    forall j | 0 <= j < |fs[1..]| ensures fs[1..][j].shortName != fs[0].shortName {
      assert fs[1..][j] == fs[j + 1];
    }
  }

  lemma {:induction false} EmittedKeys(rm: Record, fs: seq<FieldSpec>)
    ensures Keys(Emitted(rm, fs)) == PresentShortNames(rm, fs)
  {
    if fs != [] {
      EmittedKeys(rm, fs[1..]);
      KeysAppend(Entry(rm, fs[0]), Emitted(rm, fs[1..]));
    }
  }

  /// Every present short name belongs to a field of fs whose key is present.
  lemma {:induction false} PresentShortNamesOnly(rm: Record, fs: seq<FieldSpec>, k: string)
    requires k in PresentShortNames(rm, fs)
    ensures exists j :: 0 <= j < |fs| && fs[j].shortName == k && fs[j].source in rm
  {
    if !(fs[0].source in rm && k == fs[0].shortName) {
      PresentShortNamesOnly(rm, fs[1..], k);
      var j :| 0 <= j < |fs[1..]| && fs[1..][j].shortName == k && fs[1..][j].source in rm;
      assert fs[j + 1] == fs[1..][j];
    }
  }

  /// The present short names of a table with distinct names are distinct.
  lemma {:induction false} PresentShortNamesDistinct(rm: Record, fs: seq<FieldSpec>)
    requires DistinctShortNames(fs)
    ensures Distinct(PresentShortNames(rm, fs))
  {
    if fs != [] {
      DistinctShortNamesTail(fs);
      var rest := PresentShortNames(rm, fs[1..]);
      PresentShortNamesDistinct(rm, fs[1..]);
      var head := if fs[0].source in rm then [fs[0].shortName] else [];
      forall j | 0 <= j < |rest| ensures rest[j] !in head {
        PresentShortNamesOnly(rm, fs[1..], rest[j]);
      }
      DistinctConcat(head, rest);
    }
  }

  /// Inserting fields whose names are new keys appends their entries.
  lemma {:induction false} InsertAllAppends(d: Dict<Json>, rm: Record, fs: seq<FieldSpec>)
    requires DistinctShortNames(fs)
    requires forall j :: 0 <= j < |fs| ==> fs[j].shortName !in Keys(d)
    ensures InsertAll(d, rm, fs) == d + Emitted(rm, fs)
    decreases |fs|
  {
    if fs == [] {
      assert d + [] == d;
    } else {
      var e := Entry(rm, fs[0]);
      InsertFresh(d, rm, fs[0]);
      KeysAppend(d, e);
      DistinctShortNamesTail(fs);
      forall j | 0 <= j < |fs[1..]| ensures fs[1..][j].shortName !in Keys(d + e) {
        assert fs[1..][j] == fs[j + 1];
      }
      InsertAllAppends(d + e, rm, fs[1..]);
      assert d + e + Emitted(rm, fs[1..]) == d + Emitted(rm, fs);
    }
  }

  lemma InsertFresh(d: Dict<Json>, rm: Record, f: FieldSpec)
    requires f.shortName !in Keys(d)
    ensures Insert(d, rm, f) == d + Entry(rm, f)
  {
  }

  /// Lookup of the short name of fs[i] in the entries.
  lemma {:induction false} EmittedGet(rm: Record, fs: seq<FieldSpec>, i: int)
    requires DistinctShortNames(fs) && 0 <= i < |fs|
    ensures Get(Emitted(rm, fs), fs[i].shortName)
         == if fs[i].source in rm then Some(ToJson(Convert(fs[i].conversion, rm[fs[i].source]))) else None
  {
    var k := fs[i].shortName;
    GetAppend(Entry(rm, fs[0]), Emitted(rm, fs[1..]), k);
    DistinctShortNamesTail(fs);
    if i > 0 {
      assert fs[1..][i - 1] == fs[i];
      EmittedGet(rm, fs[1..], i - 1);
    } else if k in Keys(Emitted(rm, fs[1..])) {
      EmittedKeys(rm, fs[1..]);
      PresentShortNamesOnly(rm, fs[1..], k);
      assert false;
    }
  }

  // -----------------------------------------------------------------------
  // What the NowDawn observation holds

  /// The header followed by the entries of a table with distinct names,
  /// none of them a header key, repeats no key.
  lemma HeaderThenEntries(station: int, dateutc: string, rm: Record, fs: seq<FieldSpec>)
    requires DistinctShortNames(fs)
    requires forall j :: 0 <= j < |fs| ==> fs[j].shortName != "station" && fs[j].shortName != "dateutc"
    ensures Keys(Header(station, dateutc) + Emitted(rm, fs)) == ["station", "dateutc"] + PresentShortNames(rm, fs)
    ensures DistinctKeys(Header(station, dateutc) + Emitted(rm, fs))
  {
    KeysAppend(Header(station, dateutc), Emitted(rm, fs));
    EmittedKeys(rm, fs);
    var names := PresentShortNames(rm, fs);
    PresentShortNamesDistinct(rm, fs);
    forall j | 0 <= j < |names| ensures names[j] !in ["station", "dateutc"] {
      PresentShortNamesOnly(rm, fs, names[j]);
    }
    DistinctConcat(["station", "dateutc"], names);
    DistinctKeysFromKeys(Header(station, dateutc) + Emitted(rm, fs));
  }

  /// Keys: station, dateutc, then the short names of the present fields in
  /// table order; no key twice.
  lemma ObservationKeys(station: int, dateutc: string, rm: Record)
    ensures Keys(Observation(station, dateutc, rm)) == ["station", "dateutc"] + PresentShortNames(rm, Fields)
    ensures DistinctKeys(Observation(station, dateutc, rm))
  {
    FieldNamesDistinct();
    HeaderThenEntries(station, dateutc, rm, Fields);
  }

  /// `station` and `dateutc` always lead the observation.
  lemma ObservationHeader(station: int, dateutc: string, rm: Record)
    ensures |Observation(station, dateutc, rm)| >= 2
    ensures Observation(station, dateutc, rm)[0] == ("station", JInt(station))
    ensures Observation(station, dateutc, rm)[1] == ("dateutc", JStr(dateutc))
  {
  }

  /// Field i is sent exactly when its source key is present, by key and not
  /// by value, and then it carries the converted value.
  lemma ObservationField(station: int, dateutc: string, rm: Record, i: int)
    requires 0 <= i < |Fields|
    ensures Fields[i].shortName in Keys(Observation(station, dateutc, rm)) <==> Fields[i].source in rm
    ensures Get(Observation(station, dateutc, rm), Fields[i].shortName)
         == if Fields[i].source in rm then Some(ToJson(Convert(Fields[i].conversion, rm[Fields[i].source]))) else None
  {
    FieldNamesDistinct();
    GetAppend(Header(station, dateutc), Emitted(rm, Fields), Fields[i].shortName);
    EmittedGet(rm, Fields, i);
  }

  /// Pressure is absent without a barometer key, null for a None barometer,
  /// and 100 times the barometer otherwise.
  lemma ObservationPressure(station: int, dateutc: string, rm: Record)
    ensures "barometer" !in rm ==> Get(Observation(station, dateutc, rm), "pressure") == None
    ensures "barometer" in rm && rm["barometer"].Null? ==>
      Get(Observation(station, dateutc, rm), "pressure") == Some(JNull)
    ensures "barometer" in rm && rm["barometer"].Num? ==>
      Get(Observation(station, dateutc, rm), "pressure") == Some(JNum(100.0 * rm["barometer"].r))
  {
    ObservationField(station, dateutc, rm, 6);
    FieldsTable();
  }

  predicate HasNull(d: Dict<Json>)
  {
    exists j :: 0 <= j < |d| && d[j].1 == JNull
  }

  /// Some field of fs has its key present with a None value.
  predicate NullSource(rm: Record, fs: seq<FieldSpec>)
  {
    exists i :: 0 <= i < |fs| && fs[i].source in rm && rm[fs[i].source] == Null
  }

  lemma HasNullAppend(a: Dict<Json>, b: Dict<Json>)
    ensures HasNull(a + b) <==> HasNull(a) || HasNull(b)
  {
    if HasNull(a + b) {
      var j :| 0 <= j < |a + b| && (a + b)[j].1 == JNull;
      if j >= |a| { assert b[j - |a|] == (a + b)[j]; }
      else { assert a[j] == (a + b)[j]; }
    }
    if HasNull(b) {
      var j :| 0 <= j < |b| && b[j].1 == JNull;
      assert (a + b)[j + |a|] == b[j];
    }
    if HasNull(a) {
      var j :| 0 <= j < |a| && a[j].1 == JNull;
      assert (a + b)[j] == a[j];
    }
  }

  lemma NullSourceCons(rm: Record, fs: seq<FieldSpec>)
    requires fs != []
    ensures NullSource(rm, fs) <==>
      (fs[0].source in rm && rm[fs[0].source] == Null) || NullSource(rm, fs[1..])
  {
    if NullSource(rm, fs[1..]) {
      var i :| 0 <= i < |fs[1..]| && fs[1..][i].source in rm && rm[fs[1..][i].source] == Null;
      assert fs[i + 1] == fs[1..][i];
    }
    if NullSource(rm, fs) {
      var i :| 0 <= i < |fs| && fs[i].source in rm && rm[fs[i].source] == Null;
      if i > 0 { assert fs[1..][i - 1] == fs[i]; }
    }
  }

  lemma {:induction false} EmittedNull(rm: Record, fs: seq<FieldSpec>)
    ensures HasNull(Emitted(rm, fs)) <==> NullSource(rm, fs)
  {
    if fs != [] {
      var e := Entry(rm, fs[0]);
      EmittedNull(rm, fs[1..]);
      HasNullAppend(e, Emitted(rm, fs[1..]));
      NullSourceCons(rm, fs);
      if HasNull(e) {
        var j :| 0 <= j < |e| && e[j].1 == JNull;
      }
      if fs[0].source in rm && rm[fs[0].source] == Null {
        assert e[0].1 == JNull;
      }
    }
  }

  /// The observation holds a null exactly when some forwarded key is present
  /// with a None value.
  lemma ObservationNulls(station: int, dateutc: string, rm: Record)
    ensures HasNull(Observation(station, dateutc, rm)) <==> NullSource(rm, Fields)
  {
    var h := Header(station, dateutc);
    HasNullAppend(h, Emitted(rm, Fields));
    EmittedNull(rm, Fields);
  }

  /// A record with none of the forwarded keys yields just station and dateutc.
  lemma ObservationOfBareRecord(station: int, dateutc: string, rm: Record)
    requires forall i :: 0 <= i < |Fields| ==> Fields[i].source !in rm
    ensures Observation(station, dateutc, rm) == Header(station, dateutc)
  {
    NoneEmitted(rm, Fields);
  }

  lemma {:induction false} NoneEmitted(rm: Record, fs: seq<FieldSpec>)
    requires forall i :: 0 <= i < |fs| ==> fs[i].source !in rm
    ensures Emitted(rm, fs) == []
  {
    if fs != [] {
      assert fs[0].source !in rm;
      forall i | 0 <= i < |fs[1..]| ensures fs[1..][i].source !in rm {
        assert fs[1..][i] == fs[i + 1];
      }
      NoneEmitted(rm, fs[1..]);
    }
  }

  /// When only the first field's key is present, only its name is sent.
  lemma OnlyFirstPresent(rm: Record, fs: seq<FieldSpec>)
    requires fs != [] && fs[0].source in rm
    requires forall j :: 1 <= j < |fs| ==> fs[j].source !in rm
    ensures PresentShortNames(rm, fs) == [fs[0].shortName]
  {
    forall j | 0 <= j < |fs[1..]| ensures fs[1..][j].source !in rm {
      assert fs[1..][j] == fs[j + 1];
    }
    NoneEmitted(rm, fs[1..]);
    EmittedKeys(rm, fs[1..]);
  }

  /// The body is the envelope of the observation, typed `application/json`;
  /// it fails exactly when `dateutc` does, with the same error.
  lemma PostBodyShape(station: int, rm: Record, now: int)
    ensures PostBody(station, rm, now).Ok? <==> DateUtc(rm, now).Ok?
    ensures PostBody(station, rm, now).Err? ==> PostBody(station, rm, now).error == DateUtc(rm, now).error
    ensures PostBody(station, rm, now).Ok? ==>
      && PostBody(station, rm, now).value.contentType == "application/json"
      && ObservationOf(PostBody(station, rm, now).value.body)
           == Some(Observation(station, DateUtc(rm, now).value, rm))
  {
    if DateUtc(rm, now).Ok? {
      EnvelopeRoundTrip(Observation(station, DateUtc(rm, now).value, rm));
    }
  }

  /// With a key-preserving unit conversion, field i is sent exactly when
  /// the record handed to the uploader has its source key.
  lemma SentIffInRecord(station: int, dateutc: string, record: Record, toMetric: Record -> Record, i: int)
    requires forall r :: toMetric(r).Keys == r.Keys
    requires 0 <= i < |Fields|
    ensures Fields[i].shortName in Keys(Observation(station, dateutc, toMetric(record))) <==> Fields[i].source in record
  {
    ObservationField(station, dateutc, toMetric(record), i);
    assert toMetric(record).Keys == record.Keys;
  }
}

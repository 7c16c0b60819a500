/// How the two uploaders' observations relate for the same metric record:
/// the same header, the same failures, and for each forwarded field the
/// same value under the other name, except that Scenic sends null where
/// NowDawn leaves the key out.
module Agreement {
  import opened Results
  import opened PyDict
  import opened Formatting
  import NowDawn
  import Scenic

  /// Both observations start with the same station and dateutc entries.
  lemma SameHeader(station: int, dateutc: string, rm: Record)
    ensures NowDawn.Observation(station, dateutc, rm)[..2] == Scenic.Observation(station, dateutc, rm)[..2]
    ensures NowDawn.Observation(station, dateutc, rm)[..2] == Header(station, dateutc)
  {
    NowDawn.ObservationHeader(station, dateutc, rm);
    Scenic.ObservationHeader(station, dateutc, rm);
  }

  /// Field i: what NowDawn sends under the short name Scenic sends under the
  /// long name; where NowDawn sends nothing, Scenic sends null.
  lemma FieldAgreement(station: int, dateutc: string, rm: Record, i: int)
    requires 0 <= i < |Fields|
    ensures var sent := Get(NowDawn.Observation(station, dateutc, rm), Fields[i].shortName);
      && (sent.Some? ==> Get(Scenic.Observation(station, dateutc, rm), Fields[i].longName) == sent)
      && (sent.None? ==> Get(Scenic.Observation(station, dateutc, rm), Fields[i].longName) == Some(JNull))
  {
    NowDawn.ObservationField(station, dateutc, rm, i);
    Scenic.ObservationField(station, dateutc, rm, i);
    var v := if Fields[i].source in rm then rm[Fields[i].source] else Null;
    assert v == Null ==> Convert(Fields[i].conversion, v) == Null;
  }

  /// The two request bodies fail together, with the same error, and both
  /// are typed `application/json` when they succeed.
  lemma SameOutcome(station: int, rm: Record, now: int)
    ensures NowDawn.PostBody(station, rm, now).Ok? <==> Scenic.PostBody(station, rm, now).Ok?
    ensures NowDawn.PostBody(station, rm, now).Err? ==>
      NowDawn.PostBody(station, rm, now).error == Scenic.PostBody(station, rm, now).error
    ensures NowDawn.PostBody(station, rm, now).Ok? ==>
      NowDawn.PostBody(station, rm, now).value.contentType == Scenic.PostBody(station, rm, now).value.contentType
  {
    NowDawn.PostBodyShape(station, rm, now);
    Scenic.PostBodyShape(station, rm, now);
  }

  /// The keys of the record both `__main__` blocks queue. Its `humidity`,
  /// `wind_speed` and `wind_direction` are not the weewx names the uploaders
  /// read (`outHumidity`, `windSpeed`, `windDir`).
  const DiagnosticKeys: set<string> :=
    {"dateTime", "usUnits", "outTemp", "inTemp", "humidity", "wind_speed", "wind_direction"}

  /// For that record, under a unit conversion that keeps keys: NowDawn sends
  /// only station, dateutc and temp; Scenic sends its eleven keys, with
  /// temperature the only non-null field, so humidity, wind speed and wind
  /// direction are null although the record has keys by those names.
  lemma DiagnosticRecord(station: int, dateutc: string, record: Record, toMetric: Record -> Record)
    requires forall r :: toMetric(r).Keys == r.Keys
    requires record.Keys == DiagnosticKeys
    ensures Keys(NowDawn.Observation(station, dateutc, toMetric(record))) == ["station", "dateutc", "temp"]
    ensures Get(Scenic.Observation(station, dateutc, toMetric(record)), "temperature")
         == Some(ToJson(toMetric(record)["outTemp"]))
    ensures Get(Scenic.Observation(station, dateutc, toMetric(record)), "humidity") == Some(JNull)
    ensures Get(Scenic.Observation(station, dateutc, toMetric(record)), "wind_speed") == Some(JNull)
    ensures Get(Scenic.Observation(station, dateutc, toMetric(record)), "wind_direction") == Some(JNull)
    ensures Keys(Scenic.Observation(station, dateutc, toMetric(record))) == Scenic.ObservationKeyOrder
    ensures Get(Scenic.Observation(station, dateutc, toMetric(record)), "gust") == Some(JNull)
    ensures Get(Scenic.Observation(station, dateutc, toMetric(record)), "dewpoint") == Some(JNull)
    ensures Get(Scenic.Observation(station, dateutc, toMetric(record)), "pressure") == Some(JNull)
    ensures Get(Scenic.Observation(station, dateutc, toMetric(record)), "hour_rain") == Some(JNull)
    ensures Get(Scenic.Observation(station, dateutc, toMetric(record)), "ultraviolet") == Some(JNull)
  {
    var rm := toMetric(record);
    assert rm.Keys == DiagnosticKeys;
    FieldsTable();
    assert forall j :: 1 <= j < |Fields| ==> Fields[j].source !in rm;
    NowDawn.ObservationKeys(station, dateutc, rm);
    NowDawn.OnlyFirstPresent(rm, Fields);
    Scenic.ObservationField(station, dateutc, rm, 0);
    Scenic.ObservationField(station, dateutc, rm, 1);
    Scenic.ObservationField(station, dateutc, rm, 2);
    Scenic.ObservationField(station, dateutc, rm, 4);
    Scenic.ObservationKeys(station, dateutc, rm);
    Scenic.ObservationField(station, dateutc, rm, 3);
    Scenic.ObservationField(station, dateutc, rm, 5);
    Scenic.ObservationField(station, dateutc, rm, 6);
    Scenic.ObservationField(station, dateutc, rm, 7);
    Scenic.ObservationField(station, dateutc, rm, 8);
  }
}

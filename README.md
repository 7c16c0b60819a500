# NowDawn and Scenic uploaders: request formatting

This project models how the two weewx uploader extensions in this repository
turn a weewx archive record into an HTTP POST:

- `bin/user/nowdawn.py`. `NowDawnThread` posts to
  `https://stations.nowdawn.com/<api key>`. Its body is the JSON object
  `{"observations": [data]}`. `data` holds `station`, `dateutc` and a
  short-named entry (`temp`, `wind`, `winddir`, `gust`, `rh`, `dewpoint`,
  `pressure`, `precip`, `uv`) for each forwarded observation whose key the
  metric record has.
- `bin/user/scenic.py`. `ScenicThread` is meant to post to
  `https://api.scenicdata.com/station/<station>/key/<api key>`, which is the
  form modelled here. As written, `scenic.py:111` and `scenic.py:117` raise
  NameError instead (see "## Findings"). Its body has
  the same envelope, but `data` always holds all eleven keys: `station`,
  `dateutc`, then `temperature`, `wind_speed`, `wind_direction`, `gust`,
  `humidity`, `dewpoint`, `pressure`, `hour_rain` and `ultraviolet`, each
  read through `get_value`. A missing or None value is sent as null.

Both uploaders convert the record with weewx's `to_METRICWX` first. Both
render `dateTime` with `time.strftime("%Y-%m-%d %H:%M:%S", time.gmtime(...))`.
Both send barometric pressure in pascals (`100.0 *` the hPa value). Both
return the content type `application/json`.

Modules:

- `Results`: `Option` and `Result`.
- `Decimal`: `%s` of an int, and reading it back.
- `PyDict`: an insertion-ordered Python dict with string keys.
- `UtcTime`: `time.gmtime` as the inverse of the POSIX "seconds since the
  Epoch" formula (section 4.16 of the Base Definitions of POSIX.1-2017),
  plus the `%Y-%m-%d %H:%M:%S` rendering.
- `Formatting`: the record, the JSON value, the table of the nine forwarded
  fields, the pressure rule, the envelope and `dateutc`.
- `NowDawn` and `Scenic`: the two thread classes and the specification
  functions their methods are proved against.
- `Agreement`: how the two observations relate for the same record.
- `ScenicAsWritten`: the two URL expressions of `scenic.py` exactly as
  written, with Python's name lookup (locals, module globals, builtins).

Each `BuildObservation` method is written the way the source builds `data`:
start from the two-entry header, then perform nine dict assignments in
source order, the NowDawn ones guarded by `in`. Each method is proved equal
to a declarative `Observation` function. The lemmas then state what that
observation contains.

The `data` dict is a sequence of key/value pairs in insertion order, which
is the order `json.dumps` writes the members in. Assigning a key that is
already present keeps its place, and a new key is appended (`PyDict.Set`).

NowDawn decides by key, not by value: it copies the value of any forwarded
key that is present, so a present key holding None is sent as null
(`bin/user/nowdawn.py:116-136`, see `NowDawn.ObservationNulls`).

## Model

| member | source | states |
|---|---|---|
| PyDict.SetGet | bin/user/nowdawn.py:116-117 | `d[k] = v` makes `d[k]` read v and leaves every other key's value as it was. An existing key keeps its position; a new key is appended. Distinct keys stay distinct |
| PyDict.KeysAppend | bin/user/nowdawn.py:111-136 | The key order of a concatenation is the first dict's keys followed by the second's |
| PyDict.GetAppend | bin/user/nowdawn.py:111-136 | Lookup in a concatenation finds the first dict's entry when it has the key, and otherwise the second's |
| Decimal.ParseIntToString | bin/user/scenic.py:42 | The decimal text `%s` gives for any int (with a minus sign when negative) reads back as that int |
| Decimal.IntToStringChars | bin/user/scenic.py:42 | `%s` of an int is made of decimal digits, plus a leading '-' for a negative int, and contains no '/' |
| UtcTime.GmtimeInverse | bin/user/nowdawn.py:113-114 | `gmtime(t)` is a valid broken-down UTC time (month 1-12, day within the month with leap years, hour < 24, minute and second < 60), and its seconds since the Epoch are exactly t |
| UtcTime.GmtimeOfEpochSeconds | bin/user/nowdawn.py:113-114 | Every valid broken-down time is what `gmtime` returns for its own seconds since the Epoch |
| UtcTime.EpochSecondsInjective | bin/user/nowdawn.py:113-114 | Two valid broken-down times with the same seconds since the Epoch are the same time |
| UtcTime.RepresentableNearEpoch | bin/user/nowdawn.py:113-114 | Every timestamp within 2^55 seconds of the Epoch fits a 64-bit time_t, and both its year minus 1900 and its year fit a C int, so neither `gmtime` nor `strftime` fails on it |
| UtcTime.ParseStrftime | bin/user/nowdawn.py:113 | The `%Y-%m-%d %H:%M:%S` rendering parses back to the broken-down time it came from |
| UtcTime.StrftimeLayout | bin/user/nowdawn.py:113 | For years 1000-9999 `dateutc` is 19 characters: '-' at 4 and 7, ' ' at 10, ':' at 13 and 16, and a digit everywhere else |
| Formatting.FieldNamesDistinct | bin/user/scenic.py:127-140 | No two forwarded fields share a NowDawn name or a Scenic name, and none is `station` or `dateutc`, so every field assignment adds a new key |
| Formatting.Convert | bin/user/nowdawn.py:128-132 | The pressure rule: a None barometer stays None, a number becomes 100 times itself, and every other field is copied unchanged |
| Formatting.EnvelopeRoundTrip | bin/user/nowdawn.py:138-140 | `{'observations': [data]}` has the single key `observations`, and its single observation is `data` |
| Formatting.DateUtcMeaning | bin/user/nowdawn.py:113-114 | No `dateTime` key gives a KeyError. Otherwise `dateutc` fails exactly when `gmtime` cannot represent the floored timestamp or `strftime` cannot read its year back into a C int. When it succeeds, it parses back to a valid time whose seconds since the Epoch are that timestamp |
| Formatting.DateUtcYearOverflow | bin/user/nowdawn.py:113-114 | 2147483648-01-01 00:00:00 UTC is within `gmtime`'s range, yet `dateutc` fails for it, because its year does not fit the C int `strftime` reads it into |
| Formatting.DateUtcOnlyReadsDateTime | bin/user/nowdawn.py:113-114 | Two records that agree on `dateTime` (presence and value) give the same `dateutc` or the same error |
| NowDawn.NowDawnThread.constructor | bin/user/nowdawn.py:98-102 | Stores the API key, the integer station and skip flag; the server URL is `https://stations.nowdawn.com` |
| NowDawn.NowDawnThread.FormatUrl | bin/user/nowdawn.py:104-106 | The URL is the server, '/', then the API key, whatever the record, and the API key is recovered from it |
| NowDawn.NowDawnThread.GetPostBody | bin/user/nowdawn.py:108-142 | The result is `PostBody` of the converted record: the envelope of the observation with content type `application/json`, or the `dateutc` error |
| NowDawn.NowDawnThread.BuildObservation | bin/user/nowdawn.py:111-136 | The nine guarded assignments build exactly `Observation`: the header, then the entries of the present fields in order |
| NowDawn.TableStep | bin/user/nowdawn.py:116-136 | Each literal guarded assignment of the method is the table-driven insertion of the k-th field |
| NowDawn.InsertAllAppends | bin/user/nowdawn.py:116-136 | Guarded insertions of fields with new, distinct names append exactly the entries of the present fields |
| NowDawn.ObservationKeys | bin/user/nowdawn.py:111-136 | The keys are `station`, `dateutc`, then the short names of the present fields in source order, with no key twice |
| NowDawn.ObservationHeader | bin/user/nowdawn.py:111-115 | The first entry is `station` with the configured integer, and the second is `dateutc` |
| NowDawn.ObservationField | bin/user/nowdawn.py:116-136 | Field i is sent if and only if its source key is in the metric record (by key, not by value), and then it carries the converted value |
| NowDawn.ObservationPressure | bin/user/nowdawn.py:128-132 | `pressure` is absent without a `barometer` key, null for a None barometer, and 100 times the barometer otherwise |
| NowDawn.ObservationNulls | bin/user/nowdawn.py:116-136 | The observation holds a null if and only if some forwarded key is present with a None value |
| NowDawn.ObservationOfBareRecord | bin/user/nowdawn.py:111-136 | A record with none of the nine forwarded keys gives just `station` and `dateutc` |
| NowDawn.PostBodyShape | bin/user/nowdawn.py:108-142 | The body succeeds exactly when `dateutc` does, with the same error otherwise. On success its content type is `application/json` and its single observation is `Observation` |
| NowDawn.SentIffInRecord | bin/user/nowdawn.py:110-136 | With a unit conversion that keeps keys, field i is sent if and only if the record handed to the uploader has its source key |
| Scenic.GetValue | bin/user/scenic.py:56-64 | Total. The result is None exactly when the record or the key is None, the key is absent, or the stored value is None. A number is the stored value |
| Scenic.UrlRoundTrip | bin/user/scenic.py:42 | `DEFAULT_URL % (station, api_key)` gives back the station number and the API key it was built from |
| Scenic.ScenicThread.constructor | bin/user/scenic.py:109-113 | Stores the API key, the integer station and skip flag; the server URL is `DEFAULT_URL` filled with the station and the API key |
| Scenic.ScenicThread.FormatUrl | bin/user/scenic.py:115-117 | The URL is `DEFAULT_URL` filled with the thread's station and API key, and both parse back out of it |
| Scenic.ScenicThread.GetPostBody | bin/user/scenic.py:119-146 | The result is `PostBody` of the converted record: the envelope of the observation with content type `application/json`, or the `dateutc` error |
| Scenic.ScenicThread.BuildObservation | bin/user/scenic.py:121-140 | The nine assignments (pressure through its None test) build exactly `Observation`: the header, then every field's converted `get_value` |
| Scenic.TableStep | bin/user/scenic.py:127-140 | Each literal assignment of the method, the pressure `if` included, is the table-driven assignment of the k-th field |
| Scenic.FillAllAppends | bin/user/scenic.py:127-140 | Assigning fields with new, distinct long names appends one entry per field, in order |
| Scenic.ObservationKeys | bin/user/scenic.py:121-140 | Whatever the record, the keys are exactly the eleven in fixed order (`station`, `dateutc`, `temperature`, ..., `ultraviolet`), none twice |
| Scenic.ObservationHeader | bin/user/scenic.py:122-126 | The first entry is `station` with the configured integer, and the second is `dateutc` |
| Scenic.ObservationField | bin/user/scenic.py:127-140 | Field i is always present. It carries the converted value of its source key, which is null for None, or null when the key is absent |
| Scenic.ObservationPressure | bin/user/scenic.py:133-137 | `pressure` is null without a barometer value and 100 times the barometer otherwise |
| Scenic.AbsentLikeNone | bin/user/scenic.py:127-140 | Records whose nine `get_value` results agree give the same observation, so an absent key and a key holding None cannot be told apart |
| Scenic.PostBodyShape | bin/user/scenic.py:119-146 | The body succeeds exactly when `dateutc` does, with the same error otherwise. On success its content type is `application/json` and its single observation is `Observation` |
| Agreement.SameHeader | bin/user/scenic.py:122-126 | Both uploaders' observations start with the same `station` and `dateutc` entries |
| Agreement.FieldAgreement | bin/user/scenic.py:127-140 | Where NowDawn sends a value under the short name, Scenic sends the same value under the long name. Where NowDawn sends nothing, Scenic sends null |
| Agreement.SameOutcome | bin/user/scenic.py:119-146 | For the same record both bodies fail together with the same error, and share the content type when they succeed |
| Agreement.DiagnosticRecord | bin/user/scenic.py:158-160 | For the record the `__main__` blocks queue, NowDawn sends only `station`, `dateutc` and `temp`. Scenic sends its eleven keys in order, with `temperature` the record's value and every other field null, `humidity`, `wind_speed` and `wind_direction` included, because those record keys are not the weewx names read |
| ScenicAsWritten.Resolve | bin/user/scenic.py:117 | A name read inside a method raises NameError exactly when it is neither a local, a module global (including `__name__` and `__doc__`) nor one of Python's builtins; otherwise the innermost scope holding it gives its value |
| ScenicAsWritten.FormatDefaultUrl | bin/user/scenic.py:117 | Formatting `DEFAULT_URL` with two names fails exactly when one of them fails to resolve |
| ScenicAsWritten.InitRaisesNameError | bin/user/scenic.py:111 | As written, every `ScenicThread(...)` raises NameError for `api` |
| ScenicAsWritten.InitFindsSuper | bin/user/scenic.py:99 | `super`, which `__init__` calls before line 111, is no local or global of scenic.py but resolves as a builtin, so `__init__` gets as far as line 111 |
| ScenicAsWritten.InitUrlIntended | bin/user/scenic.py:111 | With `api_key` in place of `api`, line 111 yields `Scenic.Url(station, api_key)`, which parses back to both values |
| ScenicAsWritten.FormatUrlRaisesNameError | bin/user/scenic.py:117 | As written, every `format_url` call raises NameError for `station`, which is read first; `api_key` would fail as well |

## Left out

- The upload queue, the worker thread, retries, the staleness check, `skip_upload`'s effect and logging (`info`) are left out. They are the weewx `RESTThread` base class's business, not request formatting.
- The `NowDawn` and `Scenic` service classes are left out: configuration lookup, binding to `NEW_ARCHIVE_RECORD` and queueing. Only the thread classes are modelled. `scenic.py:83` names `NowDawnThread`, which `scenic.py` neither defines nor imports, so constructing the Scenic service with a configured `api_key` raises NameError and starts no thread.
- `to_METRICWX` is weewx's unit conversion and is not part of this model. `GetPostBody` takes it as a parameter. Lemmas that speak of the original record assume only that it keeps the record's keys.
- `to_int` and `to_bool` are weewx helpers and are not part of this model. The constructors take the station as an int and the skip flag as a bool, as the helpers return them. Defaults of the constructor parameters are not modelled either: the caller passes every value.
- `json.dumps` is modelled up to its JSON value (`Formatting.Json`), with members in insertion order. The bytes it writes are not modelled, nor how it prints floats.
- Record values are modelled as exact reals (`Formatting.Val`). IEEE double rounding of `100.0 * barometer` is not modelled.
- `time.gmtime(None)` reads the clock. The current time is a parameter (`now`).
- The range limits are those of CPython on glibc: `gmtime` needs a 64-bit `time_t` and a C `int` `tm_year`, and `strftime` needs the full year in a C `int`. glibc's `%Y` prints the year unpadded.
- The weewx version check against `REQUIRED_WEEWX` (`StrictVersion`), the `__main__` blocks (except the record they queue, see `Agreement.DiagnosticRecord`) and `install.py` are left out.
- Scenic.ScenicThread.constructor: line 111 formats the raw `station` argument, before `to_int`. The constructor formats the int that `to_int` returns. The two print the same for an int argument, but not for every string: `"007"` or `"+1"` prints as given, while `to_int` makes it 7 or 1.

## Findings

| source | as written | input that shows it | evidently intended | confidence | as-written member | corrected member |
|---|---|---|---|---|---|---|
| bin/user/scenic.py:111 | `self.server_url = DEFAULT_URL % (station, api)`: there is no name `api` in `__init__`, in the module or among the builtins | any construction, e.g. `ScenicThread(q, api_key='ABC123', station=0)`: NameError `api` | `DEFAULT_URL % (station, api_key)`, giving `https://api.scenicdata.com/station/0/key/ABC123` | high, not executed | ScenicAsWritten.InitRaisesNameError | ScenicAsWritten.InitUrlIntended |
| bin/user/scenic.py:117 | `return DEFAULT_URL % (station, api_key)`: neither name is a local, a global or a builtin of `format_url` | any call, e.g. `format_url(record)` on any thread: NameError `station` | `DEFAULT_URL % (self.station, self.api_key)` | high, not executed | ScenicAsWritten.FormatUrlRaisesNameError | Scenic.ScenicThread.FormatUrl |

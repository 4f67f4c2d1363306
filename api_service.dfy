/** The weather client of src/apiService.js: validation of the query,
    classification of a failed provider reply into a `WeatherApiError`, and
    normalisation of a successful reply into the widget's `Weather` record.
    The network round trip itself is an input (`Fetched`), so that every
    function here is total and deterministic. */
module ApiService {
  import opened Wrappers
  import opened Text

  /** The `code` tag of a `WeatherApiError`. */
  datatype ErrorKind =
    | Unknown
    | Validation
    | Network
    | Parse
    | NotFound
    | Unauthorized
    | RateLimit
    | Data
    | Http(status: int)

  /** The string the source stores in `code`: a fixed tag, or `HTTP_`
      followed by the status in decimal. */
  function CodeText(k: ErrorKind): (r: string)
    ensures r != [] && (k.Http? <==> r[0] == 'H')
    ensures k.Http? ==> |r| > 5 && r[..5] == "HTTP_" && IsIntText(r[5..]) && ParseInt(r[5..]) == k.status
  {
    match k
    case Unknown => "UNKNOWN"
    case Validation => "VALIDATION"
    case Network => "NETWORK"
    case Parse => "PARSE"
    case NotFound => "NOT_FOUND"
    case Unauthorized => "UNAUTHORIZED"
    case RateLimit => "RATE_LIMIT"
    case Data => "DATA"
    case Http(s) => "HTTP_" + IntToString(s)
  }

  /** Distinct kinds have distinct code strings, so the `code` of an error
      identifies its kind. */
  lemma CodeTextInjective(k1: ErrorKind, k2: ErrorKind)
    requires CodeText(k1) == CodeText(k2)
    ensures k1 == k2
  {
    if k1.Http? && k2.Http? {
      assert CodeText(k1)[5..] == CodeText(k2)[5..];
    }
  }

  /** `{ status, waCode }` attached to an error derived from the reply. */
  datatype Details = Details(status: int, waCode: Option<int>)

  datatype WeatherApiError = WeatherApiError(message: string, code: ErrorKind, details: Option<Details>)

  /** What a call may throw: a `WeatherApiError`, or any other exception
      (a property read on a missing object raises a `TypeError`). */
  datatype Failure = ApiFailure(err: WeatherApiError) | TypeError

  // ----- the provider's JSON, as far as the client reads it -----

  /** `error: { code, message }` of a provider reply. */
  datatype ProviderError = ProviderError(code: Option<int>, message: Option<string>)

  datatype Location = Location(name: string, country: string, tzId: string, lat: real, lon: real)
  datatype Condition = Condition(text: Option<string>, icon: Option<string>)
  /** `air_quality`, of which only `us-epa-index` is read. */
  datatype AirQuality = AirQuality(usEpaIndex: Option<int>)
  datatype Current = Current(tempC: real, feelslikeC: real, uv: real,
                             condition: Option<Condition>, airQuality: Option<AirQuality>)
  datatype DayFields = DayFields(maxtempC: Option<real>, mintempC: Option<real>, uv: Option<real>)
  datatype AstroFields = AstroFields(sunrise: Option<string>, sunset: Option<string>, moonPhase: Option<string>)
  datatype Hour = Hour(time: Option<string>, tempC: real, feelslikeC: real, uv: real)
  datatype ForecastDay = ForecastDay(day: Option<DayFields>, astro: Option<AstroFields>, hour: Option<seq<Hour>>)
  datatype Forecast = Forecast(forecastday: Option<seq<ForecastDay>>)
  datatype Body = Body(error: Option<ProviderError>, location: Option<Location>,
                       current: Option<Current>, forecast: Option<Forecast>)

  /** The outcome of `fetchJson`: the transport failed, the body was not
      JSON, or a reply with its `ok` flag, status and parsed body. */
  datatype Fetched = NetworkFailure | ParseFailure | Reply(ok: bool, status: int, data: Body)

  // ----- the normalised record -----

  datatype CurrentWeather = CurrentWeather(temp: real, feelsLike: real, uv: real,
                                           conditionText: string, iconUrl: string)
  datatype DaySummary = DaySummary(max: Option<real>, min: Option<real>, uv: Option<real>)
  datatype Astro = Astro(sunrise: Option<string>, sunset: Option<string>, moonPhase: Option<string>)
  datatype Aqi = Aqi(usEpaIndex: Option<int>)
  datatype HourPoint = HourPoint(time: Option<string>, hhmm: string, temp: real, feelsLike: real, uv: real)
  datatype Weather = Weather(title: string, tzId: string, lat: real, lon: real,
                             current: CurrentWeather, day: DaySummary, astro: Astro,
                             aqi: Aqi, hourly: seq<HourPoint>)

  // ----- error classification -----

  /** The kinds that are derived from a failed reply (never from validation,
      transport, parsing or missing forecast data). */
  predicate FromReply(k: ErrorKind) {
    k.NotFound? || k.Unauthorized? || k.RateLimit? || k.Http?
  }

  /** The provider-code table: 1006 is an unknown location, 2006/2007/2008
      are the invalid, disabled and over-quota key variants. */
  function ProviderKind(code: Option<int>): (k: Option<ErrorKind>)
    ensures k.Some? <==> code.Some? && code.value in {1006, 2006, 2007, 2008}
    ensures k.Some? ==> (k.value.NotFound? <==> code.value == 1006)
    ensures k.Some? ==> k.value.NotFound? || k.value.Unauthorized?
  {
    match code
    case None => None
    case Some(c) =>
      if c == 1006 then Some(NotFound)
      else if c == 2006 || c == 2007 || c == 2008 then Some(Unauthorized)
      else None
  }

  /** The error raised for a reply that is not ok or carries `error`. */
  function Classify(status: int, wa: Option<ProviderError>): (e: WeatherApiError)
    ensures FromReply(e.code)
    ensures e.details == Some(Details(status, if wa.Some? then wa.value.code else None))
    ensures e.message != ""
  {
    var code := if wa.Some? then wa.value.code else None;
    var message := if wa.Some? then wa.value.message else None;
    var kind :=
      match ProviderKind(code)
      case Some(k) => k
      case None =>
        if status == 401 then Unauthorized
        else if status == 429 then RateLimit
        else Http(status);
    var text := if message.Some? && message.value != "" then message.value else "HTTP " + IntToString(status);
    WeatherApiError(text, kind, Some(Details(status, code)))
  }

  /** A mapped provider code decides the kind, whatever the HTTP status. */
  lemma ProviderCodeWins(status: int, code: int, message: Option<string>)
    requires code in {1006, 2006, 2007, 2008}
    ensures var k := Classify(status, Some(ProviderError(Some(code), message))).code;
      (code == 1006 ==> k == NotFound) && (code != 1006 ==> k == Unauthorized)
  {
  }

  /** Without a mapped provider code the HTTP status decides: 401, 429, and
      `HTTP_<status>` for every other status, 200 included. */
  lemma StatusFallback(status: int, wa: Option<ProviderError>)
    requires wa.None? || ProviderKind(wa.value.code).None?
    ensures var k := Classify(status, wa).code;
      (status == 401 ==> k == Unauthorized)
      && (status == 429 ==> k == RateLimit)
      && (status != 401 && status != 429 ==> k == Http(status) && CodeText(k) == "HTTP_" + IntToString(status))
  {
  }

  /** The message is the provider's own one, or `HTTP <status>` without it. */
  lemma ClassifyMessage(status: int, wa: Option<ProviderError>)
    ensures var m := Classify(status, wa).message;
      if wa.Some? && wa.value.message.Some? && wa.value.message.value != ""
      then m == wa.value.message.value
      else m == "HTTP " + IntToString(status)
  {
  }

  // ----- field mapping -----

  /** `condition.icon`: a protocol-relative URL gets `https:` in front, any
      other non-empty icon is kept, a missing or empty one becomes "". */
  function IconUrl(icon: Option<string>): (r: string)
    ensures r == "" <==> icon.None? || icon.value == ""
    ensures icon.Some? && StartsWith(icon.value, "//") ==> r == "https:" + icon.value
    ensures icon.Some? && !StartsWith(icon.value, "//") ==> r == icon.value
  {
    if icon.Some? && icon.value != "" then
      if StartsWith(icon.value, "//") then "https:" + icon.value else icon.value
    else ""
  }

  /** No icon URL produced by the client is protocol-relative. */
  lemma IconUrlNeverProtocolRelative(icon: Option<string>)
    ensures !StartsWith(IconUrl(icon), "//")
  {
    if icon.Some? && StartsWith(icon.value, "//") {
      assert IconUrl(icon)[0] == 'h';
    }
  }

  /** `h.time?.split(' ')?.[1] || ''`: the second space-separated field of
      the hour's time stamp, or "" when there is none. */
  function HhMm(time: Option<string>): (r: string)
    ensures ' ' !in r
    ensures time.None? ==> r == ""
    ensures time.Some? && ' ' !in time.value ==> r == ""
  {
    match time
    case None => ""
    case Some(t) =>
      var parts := Split(t, ' ');
      if |parts| >= 2 then parts[1]
      else
        assert ' ' !in t ==> parts == [t] by {
          if ' ' !in t { SplitNone(t, ' '); }
        }
        ""
  }

  /** `hhmm` is the second space-separated field: for a stamp
      "date clock" followed by nothing or by more space-separated fields,
      it is `clock`. */
  lemma HhMmOfStamp(date: string, clock: string, rest: string)
    requires ' ' !in date && ' ' !in clock
    requires rest == [] || rest[0] == ' '
    ensures HhMm(Some(date + " " + clock + rest)) == clock
  {
    assert date + " " + clock + rest == date + [' '] + (clock + rest);
    SplitSecondField(date, ' ', clock, rest);
  }

  function ToHourPoint(h: Hour): (p: HourPoint)
    ensures p.time == h.time && p.temp == h.tempC && p.feelsLike == h.feelslikeC && p.uv == h.uv
    ensures p.hhmm == HhMm(h.time)
  {
    HourPoint(h.time, HhMm(h.time), h.tempC, h.feelslikeC, h.uv)
  }

  /** `(f.hour || []).map(...)`: same length and order as the provider's
      hour list; empty when the list is absent. */
  function Hourly(hour: Option<seq<Hour>>): (r: seq<HourPoint>)
    ensures hour.None? ==> r == []
    ensures hour.Some? ==>
              |r| == |hour.value| && forall i {:trigger r[i]} :: 0 <= i < |r| ==> r[i] == ToHourPoint(hour.value[i])
  {
    match hour
    case None => []
    case Some(hs) => seq(|hs|, i requires 0 <= i < |hs| => ToHourPoint(hs[i]))
  }

  /** `data.forecast?.forecastday?.[0]`. */
  function FirstDay(data: Body): (r: Option<ForecastDay>)
    ensures r.Some? <==> data.forecast.Some? && data.forecast.value.forecastday.Some?
                         && |data.forecast.value.forecastday.value| > 0
    ensures r.Some? ==> r.value == data.forecast.value.forecastday.value[0]
  {
    if data.forecast.Some? && data.forecast.value.forecastday.Some?
       && |data.forecast.value.forecastday.value| > 0
    then Some(data.forecast.value.forecastday.value[0])
    else None
  }

  const NoForecast := WeatherApiError("No forecast data.", Data, None)

  /** Maps a provider reply taken as successful to the internal record:
      DATA without a first forecast day, a TypeError when the location or
      current block is missing, the `Weather` record otherwise. */
  function Normalise(data: Body): (r: Result<Weather, Failure>)
    ensures FirstDay(data).None? ==> r == Failure(ApiFailure(NoForecast))
    ensures r.Failure? ==> r.error == TypeError || r.error == ApiFailure(NoForecast)
    ensures FirstDay(data).Some? && (data.location.None? || data.current.None?) ==> r == Failure(TypeError)
    ensures r.Success? <==> FirstDay(data).Some? && data.location.Some? && data.current.Some?
    ensures r.Success? ==>
      var w, loc, cur, f := r.value, data.location.value, data.current.value, FirstDay(data).value;
      && w.title == loc.name + ", " + loc.country
      && w.tzId == loc.tzId && w.lat == loc.lat && w.lon == loc.lon
      && w.current.temp == cur.tempC && w.current.feelsLike == cur.feelslikeC && w.current.uv == cur.uv
      && (cur.condition.None? ==> w.current.conditionText == "" && w.current.iconUrl == "")
      && (cur.condition.Some? ==>
            w.current.iconUrl == IconUrl(cur.condition.value.icon)
            && (w.current.conditionText == "" <==> cur.condition.value.text in {None, Some("")})
            && (w.current.conditionText != "" ==> cur.condition.value.text == Some(w.current.conditionText)))
      && (f.day.None? ==> w.day == DaySummary(None, None, None))
      && (f.day.Some? ==>
            w.day.max == f.day.value.maxtempC && w.day.min == f.day.value.mintempC && w.day.uv == f.day.value.uv)
      && (f.astro.None? ==> w.astro == Astro(None, None, None))
      && (f.astro.Some? ==>
            w.astro.sunrise == f.astro.value.sunrise && w.astro.sunset == f.astro.value.sunset
            && w.astro.moonPhase == f.astro.value.moonPhase)
      && (cur.airQuality.None? ==> w.aqi.usEpaIndex.None?)
      && (cur.airQuality.Some? ==> w.aqi.usEpaIndex == cur.airQuality.value.usEpaIndex)
      && w.hourly == Hourly(f.hour)
      && (f.hour.None? ==> w.hourly == [])
      && (f.hour.Some? ==>
            |w.hourly| == |f.hour.value|
            && forall i :: 0 <= i < |w.hourly| ==>
                 w.hourly[i].time == f.hour.value[i].time && w.hourly[i].hhmm == HhMm(f.hour.value[i].time))
  {
    match FirstDay(data)
    case None => Failure(ApiFailure(NoForecast))
    case Some(f) =>
      if data.location.None? || data.current.None? then Failure(TypeError)
      else
        var loc, cur := data.location.value, data.current.value;
        var text := if cur.condition.Some? then cur.condition.value.text else None;
        var icon := if cur.condition.Some? then cur.condition.value.icon else None;
        var day := match f.day
          case None => DaySummary(None, None, None)
          case Some(d) => DaySummary(d.maxtempC, d.mintempC, d.uv);
        var astro := match f.astro
          case None => Astro(None, None, None)
          case Some(a) => Astro(a.sunrise, a.sunset, a.moonPhase);
        var aqi := if cur.airQuality.Some? then cur.airQuality.value.usEpaIndex else None;
        Success(Weather(
          loc.name + ", " + loc.country, loc.tzId, loc.lat, loc.lon,
          CurrentWeather(cur.tempC, cur.feelslikeC, cur.uv,
                         if text.Some? && text.value != "" then text.value else "",
                         IconUrl(icon)),
          day, astro, Aqi(aqi), Hourly(f.hour)))
  }

  /** The error thrown for an empty query, before any request is built. */
  const MissingCity := WeatherApiError("City name is required.", Validation, None)

  /** `getWeatherByCity(q)` once `fetchJson` has produced `fetched`. */
  function GetWeatherByCity(q: string, fetched: Fetched): (r: Result<Weather, Failure>)
    ensures q == "" ==> r == Failure(ApiFailure(MissingCity))
    ensures q != "" && fetched.NetworkFailure? ==> r.Failure? && r.error.ApiFailure? && r.error.err.code == Network
    ensures q != "" && fetched.ParseFailure? ==> r.Failure? && r.error.ApiFailure? && r.error.err.code == Parse
    ensures q != "" && fetched.Reply? ==>
      ((!fetched.ok || fetched.data.error.Some?)
       <==> (r.Failure? && r.error.ApiFailure? && FromReply(r.error.err.code)))
    ensures q != "" && fetched.Reply? ==>
      r == if !fetched.ok || fetched.data.error.Some?
           then Failure(ApiFailure(Classify(fetched.status, fetched.data.error)))
           else Normalise(fetched.data)
    ensures r.Success? ==> q != "" && fetched.Reply? && fetched.ok && fetched.data.error.None?
    ensures r.Failure? && r.error.ApiFailure? ==> (r.error.err.code == Validation <==> q == "")
  {
    if q == "" then Failure(ApiFailure(MissingCity))
    else match fetched
      case NetworkFailure => Failure(ApiFailure(WeatherApiError("Network error.", Network, None)))
      case ParseFailure => Failure(ApiFailure(WeatherApiError("Invalid response.", Parse, None)))
      case Reply(ok, status, data) =>
        if !ok || data.error.Some? then Failure(ApiFailure(Classify(status, data.error)))
        else Normalise(data)
  }

  /** Whatever the provider answers, a weather record the client returns
      never carries a protocol-relative icon URL. */
  lemma SuccessIconNotProtocolRelative(q: string, fetched: Fetched)
    requires GetWeatherByCity(q, fetched).Success?
    ensures !StartsWith(GetWeatherByCity(q, fetched).value.current.iconUrl, "//")
  {
    var data := fetched.data;
    var cur := data.current.value;
    if cur.condition.Some? {
      IconUrlNeverProtocolRelative(cur.condition.value.icon);
    } else {
      IconUrlNeverProtocolRelative(None);
    }
  }

  /** An empty query fails the same way whatever the network would answer:
      no request depends on it. */
  lemma EmptyQueryNeedsNoRequest(f1: Fetched, f2: Fetched)
    ensures GetWeatherByCity("", f1) == GetWeatherByCity("", f2)
    ensures GetWeatherByCity("", f1).error.err.code == Validation
  {
  }

  /** A provider reply with error code 1006 is NOT_FOUND, whatever the
      status; one with 2006-2008 is UNAUTHORIZED. */
  lemma ProviderCodeDecidesReply(q: string, ok: bool, status: int, code: int, message: Option<string>, data: Body)
    requires q != "" && code in {1006, 2006, 2007, 2008}
    requires data.error == Some(ProviderError(Some(code), message))
    ensures var r := GetWeatherByCity(q, Reply(ok, status, data));
      r.Failure? && r.error.ApiFailure?
      && r.error.err.code == (if code == 1006 then NotFound else Unauthorized)
      && r.error.err.details == Some(Details(status, Some(code)))
  {
    ProviderCodeWins(status, code, message);
  }

  /** A 429 reply without a structured error is RATE_LIMIT. */
  lemma RateLimitReply(q: string, data: Body)
    requires q != "" && data.error.None?
    ensures var r := GetWeatherByCity(q, Reply(false, 429, data));
      r.Failure? && r.error.ApiFailure? && r.error.err.code == RateLimit
      && r.error.err.message == "HTTP 429"
  {
    assert IntToString(429) == "429" by {
      assert NatToString(42) == "42" by { assert NatToString(4) == "4"; }
    }
  }

  /** A successful reply whose first forecast day is missing fails with DATA. */
  lemma MissingDayIsData(q: string, status: int, data: Body)
    requires q != "" && data.error.None? && FirstDay(data).None?
    ensures GetWeatherByCity(q, Reply(true, status, data)) == Failure(ApiFailure(NoForecast))
  {
  }
}

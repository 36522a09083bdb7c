/** The request-handling core of the weather server: resolve a city name to
    coordinates with a geocoding service, fetch the hourly forecast for those
    coordinates, and turn it into the display record the page is rendered
    from. Any error ends the request with an internal-server-error response.

    The two HTTP calls (with their JSON decoding) are passed in as functions
    from the request to a `Result`; the formatting of a 64-bit float as text
    is passed in as a function on the float's bit pattern. */
module WeatherApp {

  import opened Wrappers
  import Query

  // ---------------------------------------------------------------- values

  /** An IEEE-754 binary64 value, kept as its bit pattern. */
  datatype F64 = F64(bits: bv64)

  /** The error every stage reports: an `anyhow::Error` seen through its
      display text. */
  datatype AppError = AppError(message: string)

  datatype LatLong = LatLong(latitude: F64, longitude: F64)

  /** The decoded body of the geocoding call. */
  datatype GeoResponse = GeoResponse(results: seq<LatLong>)

  /** The `city` query parameter of a `/weather` request. */
  datatype WeatherQuery = WeatherQuery(city: string)

  datatype Hourly = Hourly(time: seq<string>, temperature2m: seq<F64>)

  /** The decoded body of the forecast call. */
  datatype WeatherResponse =
    WeatherResponse(latitude: F64, longitude: F64, timezone: string, hourly: Hourly)

  /** One row of the rendered page. */
  datatype Forecast = Forecast(date: string, temperature: string)

  /** What the weather page is rendered from. */
  datatype WeatherDisplay = WeatherDisplay(city: string, forecasts: seq<Forecast>)

  /** An HTTP response made of a status code and a text body. */
  datatype Response = Response(status: int, body: string)

  /** The geocoding call: from the request URL to the decoded body or an error. */
  type GeoApi = string -> Result<GeoResponse, AppError>

  /** The forecast call: from the coordinates to the decoded body or an error. */
  type ForecastApi = LatLong -> Result<WeatherResponse, AppError>

  /** How a temperature is written on the page (`f64::to_string`). */
  type Formatter = F64 -> string

  // ------------------------------------------------------ error responses

  const InternalServerError := 500
  const ErrorPrefix := "Something went wrong: "

  /** Every application error becomes a 500 whose body is the fixed prefix
      followed by the error's message, which can be read back from it. */
  function IntoResponse(e: AppError): (r: Response)
    ensures r.status == InternalServerError
    ensures |r.body| == |ErrorPrefix| + |e.message|
    ensures r.body[..|ErrorPrefix|] == ErrorPrefix
    ensures r.body[|ErrorPrefix|..] == e.message
  {
    Response(InternalServerError, ErrorPrefix + e.message)
  }

  /** Reading the message back out of an error response body: there is one
      exactly when the body is the prefix followed by some message, and it is
      that message. */
  function MessageOf(body: string): (m: Option<string>)
    ensures m.Some? ==> body == ErrorPrefix + m.value
    ensures m.Some? <==> exists msg :: body == ErrorPrefix + msg
  {
    if |body| >= |ErrorPrefix| && body[..|ErrorPrefix|] == ErrorPrefix
    then
      assert body == ErrorPrefix + body[|ErrorPrefix|..];
      Some(body[|ErrorPrefix|..])
    else None
  }

  /** The message survives the conversion to a response. */
  lemma IntoResponseKeepsMessage(e: AppError)
    ensures MessageOf(IntoResponse(e).body) == Some(e.message)
  {
  }

  /** Distinct errors give distinct responses. */
  lemma IntoResponseInjective(e1: AppError, e2: AppError)
    requires IntoResponse(e1) == IntoResponse(e2)
    ensures e1 == e2
  {
  }

  // ------------------------------------------------------- display mapper

  function Min(a: int, b: int): int {
    if a <= b then a else b
  }

  /** The pairs of `a[i]` and `b[i]` for every index both sequences have. */
  function Zip<A, B>(a: seq<A>, b: seq<B>): (r: seq<(A, B)>)
    ensures |r| == Min(|a|, |b|)
    ensures forall i :: 0 <= i < |r| ==> r[i] == (a[i], b[i])
  {
    if |a| == 0 || |b| == 0 then [] else [(a[0], b[0])] + Zip(a[1..], b[1..])
  }

  /** `WeatherDisplay::new`: the city is kept, and each (time, temperature)
      pair of the hourly series becomes one forecast row, in order; the
      longer of the two series is cut to the shorter one. */
  function NewWeatherDisplay(city: string, response: WeatherResponse, show: Formatter)
    : (d: WeatherDisplay)
    ensures d.city == city
    ensures |d.forecasts| == Min(|response.hourly.time|, |response.hourly.temperature2m|)
    ensures forall i :: 0 <= i < |d.forecasts| ==>
              d.forecasts[i] == Forecast(response.hourly.time[i], show(response.hourly.temperature2m[i]))
  {
    var pairs := Zip(response.hourly.time, response.hourly.temperature2m);
    WeatherDisplay(city, seq(|pairs|, i requires 0 <= i < |pairs| => Forecast(pairs[i].0, show(pairs[i].1))))
  }

  /** The same forecast with the reading at `date` appended to both series. */
  function WithReading(response: WeatherResponse, date: string, temp: F64): WeatherResponse {
    response.(hourly := Hourly(response.hourly.time + [date], response.hourly.temperature2m + [temp]))
  }

  /** An aligned series of N readings gives exactly N rows. */
  lemma AlignedSeriesGivesOneRowPerReading(city: string, response: WeatherResponse, show: Formatter)
    requires |response.hourly.time| == |response.hourly.temperature2m|
    ensures |NewWeatherDisplay(city, response, show).forecasts| == |response.hourly.time|
  {
  }

  /** Appending one aligned reading appends exactly its row at the end. */
  lemma AppendReadingAppendsRow(city: string, response: WeatherResponse, date: string, temp: F64, show: Formatter)
    requires |response.hourly.time| == |response.hourly.temperature2m|
    ensures NewWeatherDisplay(city, WithReading(response, date, temp), show).forecasts
         == NewWeatherDisplay(city, response, show).forecasts + [Forecast(date, show(temp))]
  {
  }

  /** The readings beyond the shorter series play no part in the display. */
  lemma SurplusReadingsIgnored(city: string, response: WeatherResponse, show: Formatter)
    ensures
      var n := Min(|response.hourly.time|, |response.hourly.temperature2m|);
      NewWeatherDisplay(city, response, show)
        == NewWeatherDisplay(city, response.(hourly := Hourly(response.hourly.time[..n], response.hourly.temperature2m[..n])), show)
  {
  }

  // ------------------------------------------------------- geocode lookup

  /** The geocoding URL up to and including the `?` that opens its query. */
  const GeocodeBase := "https://geocoding-api.open-meteo.com/v1/search?"
  const NameKey := "name="
  const GeocodePrefix := GeocodeBase + NameKey
  const GeocodeSuffix := "&count=1&language=en&format=json"
  const NoResults := AppError("No results found")

  /** The geocoding request URL: the city is inserted verbatim, with no
      percent-encoding, between the fixed prefix and suffix. */
  function GeocodeEndpoint(city: string): (url: string)
    ensures |url| == |GeocodePrefix| + |city| + |GeocodeSuffix|
    ensures url[..|GeocodePrefix|] == GeocodePrefix
    ensures url[|GeocodePrefix|..|GeocodePrefix| + |city|] == city
    ensures url[|GeocodePrefix| + |city|..] == GeocodeSuffix
  {
    GeocodePrefix + city + GeocodeSuffix
  }

  /** The city a geocoding URL asks for: there is one exactly when the URL
      is the prefix, some city and the suffix, and it is that city. */
  function CityOfEndpoint(url: string): (city: Option<string>)
    ensures city.Some? ==> url == GeocodePrefix + city.value + GeocodeSuffix
    ensures (exists c :: url == GeocodePrefix + c + GeocodeSuffix) ==> city.Some?
  {
    if && |url| >= |GeocodePrefix| + |GeocodeSuffix|
       && url[..|GeocodePrefix|] == GeocodePrefix
       && url[|url| - |GeocodeSuffix|..] == GeocodeSuffix
    then
      var c := url[|GeocodePrefix|..|url| - |GeocodeSuffix|];
      assert url == GeocodePrefix + c + GeocodeSuffix;
      Some(c)
    else None
  }

  /** The city is read back unchanged from its request, so distinct cities
      give distinct requests. */
  lemma EndpointRoundTrip(city: string)
    ensures CityOfEndpoint(GeocodeEndpoint(city)) == Some(city)
  {
  }

  /** Every URL of that shape is the request for the city read from it. */
  lemma EndpointOfCity(url: string)
    requires CityOfEndpoint(url).Some?
    ensures GeocodeEndpoint(CityOfEndpoint(url).value) == url
  {
  }

  /** The query string of the geocoding request: what follows the base. */
  function GeocodeQuery(city: string): string {
    NameKey + city + GeocodeSuffix
  }

  lemma EndpointIsBaseThenQuery(city: string)
    ensures GeocodeEndpoint(city) == GeocodeBase + GeocodeQuery(city)
  {
  }

  lemma SuffixParameters()
    ensures GeocodeSuffix == "&" + "count=1" + "&" + "language=en" + "&" + "format=json"
    ensures Query.Separator !in "count=1"
    ensures Query.Separator !in "language=en"
    ensures Query.Separator !in "format=json"
  {
  }

  /** Cutting `a&b&c&d` at its separators gives back the four pieces. */
  lemma FourParameters(a: string, b: string, c: string, d: string)
    requires Query.Separator !in a && Query.Separator !in b
    requires Query.Separator !in c && Query.Separator !in d
    ensures Query.Split(a + "&" + b + "&" + c + "&" + d) == [a, b, c, d]
  {
    var cd := c + "&" + d;
    var bcd := b + "&" + cd;
    Query.SplitWithoutSeparator(d);
    Query.SplitAfterPrefix(c, d);
    assert Query.Split(cd) == [c, d];
    Query.SplitAfterPrefix(b, cd);
    assert Query.Split(bcd) == [b, c, d];
    Query.SplitAfterPrefix(a, bcd);
    assert a + "&" + b + "&" + c + "&" + d == a + "&" + bcd;
  }

  /** For a city without `&`, the raw query string, cut at `&`, gives the
      four intended parameters, the first carrying the city verbatim. */
  lemma GeocodeQueryParameters(city: string)
    requires Query.Separator !in city
    ensures Query.Split(GeocodeQuery(city))
         == [NameKey + city, "count=1", "language=en", "format=json"]
  {
    SuffixParameters();
    assert Query.Separator !in NameKey;
    assert GeocodeQuery(city) == (NameKey + city) + "&" + "count=1" + "&" + "language=en" + "&" + "format=json";
    FourParameters(NameKey + city, "count=1", "language=en", "format=json");
  }

  /** Because the city is not encoded, an `&` in it ends the `name`
      piece of the raw query string there, and the rest of the city becomes
      a piece of its own. */
  lemma AmpersandInCityAddsParameter(place: string, extra: string)
    requires Query.Separator !in place && Query.Separator !in extra
    ensures Query.Split(GeocodeQuery(place + "&" + extra))
         == [NameKey + place, extra, "count=1", "language=en", "format=json"]
  {
    var rest := extra + "&" + "count=1" + "&" + "language=en" + "&" + "format=json";
    assert Query.Split(rest) == [extra, "count=1", "language=en", "format=json"] by {
      SuffixParameters();
      FourParameters(extra, "count=1", "language=en", "format=json");
    }
    assert GeocodeQuery(place + "&" + extra) == (NameKey + place) + "&" + rest by {
      SuffixParameters();
    }
    assert Query.Separator !in NameKey + place;
    Query.SplitAfterPrefix(NameKey + place, rest);
  }

  /** `Vec::get`: the element at `i`, if there is one. */
  function Get<T>(s: seq<T>, i: nat): (r: Option<T>)
    ensures r.Some? <==> i < |s|
    ensures r.Some? ==> r.value == s[i]
  {
    if i < |s| then Some(s[i]) else None
  }

  /** `anyhow::Context` on an `Option`: a missing value becomes the error. */
  function Context<T>(o: Option<T>, e: AppError): (r: Result<T, AppError>)
    ensures r.Success? <==> o.Some?
    ensures r.Success? ==> r.value == o.value
    ensures r.Failure? ==> r.error == e
  {
    match o
    case Some(v) => Success(v)
    case None => Failure(e)
  }

  /** The first-match selection at the end of the geocode lookup: it fails
      with "No results found" exactly when there are no results, and
      otherwise returns the first one unchanged. */
  function FirstMatch(results: seq<LatLong>): (r: Result<LatLong, AppError>)
    ensures r.Failure? <==> |results| == 0
    ensures r.Failure? ==> r.error == NoResults
    ensures r.Success? ==> r.value == results[0]
  {
    Context(Get(results, 0), NoResults)
  }

  /** `fetch_lat_long`: one geocoding request for the city, then the first
      match of the decoded results. It succeeds exactly when the request
      succeeds with at least one match; a failed request passes its error on,
      and an empty answer fails with "No results found". */
  function FetchLatLong(city: string, geoApi: GeoApi): (r: Result<LatLong, AppError>)
    ensures var answer := geoApi(GeocodeEndpoint(city));
            r.Success? <==> answer.Success? && |answer.value.results| > 0
    ensures var answer := geoApi(GeocodeEndpoint(city));
            r.Success? ==> r.value == answer.value.results[0]
    ensures var answer := geoApi(GeocodeEndpoint(city));
            answer.Failure? ==> r.error == answer.error
    ensures var answer := geoApi(GeocodeEndpoint(city));
            answer.Success? && answer.value.results == [] ==> r.error == NoResults
  {
    var response :- geoApi(GeocodeEndpoint(city));
    FirstMatch(response.results)
  }

  /** `fetch_weather`: the decoded forecast for the coordinates, passed on
      unchanged, or the error of the request. */
  function FetchWeather(latLong: LatLong, forecastApi: ForecastApi): (r: Result<WeatherResponse, AppError>)
    ensures r == forecastApi(latLong)
  {
    var response :- forecastApi(latLong);
    Success(response)
  }

  // ------------------------------------------------------------- pipeline

  /** The `/weather` handler: resolve, then fetch, then build the display;
      the first failing stage ends the request with its error. */
  function Weather(params: WeatherQuery, geoApi: GeoApi, forecastApi: ForecastApi, show: Formatter)
    : (r: Result<WeatherDisplay, AppError>)
    ensures r.Failure? <==>
              FetchLatLong(params.city, geoApi).Failure?
              || FetchWeather(FetchLatLong(params.city, geoApi).value, forecastApi).Failure?
    ensures FetchLatLong(params.city, geoApi).Failure? ==>
              r == Failure(FetchLatLong(params.city, geoApi).error)
    ensures FetchLatLong(params.city, geoApi).Success?
            && FetchWeather(FetchLatLong(params.city, geoApi).value, forecastApi).Failure? ==>
              r == Failure(FetchWeather(FetchLatLong(params.city, geoApi).value, forecastApi).error)
    ensures r.Success? ==>
              r.value == NewWeatherDisplay(params.city, FetchWeather(FetchLatLong(params.city, geoApi).value, forecastApi).value, show)
  {
    var latLong :- FetchLatLong(params.city, geoApi);
    var weather :- FetchWeather(latLong, forecastApi);
    Success(NewWeatherDisplay(params.city, weather, show))
  }

  /** When resolution fails, the forecast service is never consulted: any
      two forecast services give the same result. */
  lemma ResolveFailureSkipsForecast(
    params: WeatherQuery, geoApi: GeoApi, f1: ForecastApi, f2: ForecastApi, show: Formatter)
    requires FetchLatLong(params.city, geoApi).Failure?
    ensures Weather(params, geoApi, f1, show) == Weather(params, geoApi, f2, show)
  {
  }

  /** When resolution succeeds, the forecast service is consulted only at
      the resolved coordinates. */
  lemma ForecastConsultedOnlyAtResolvedPoint(
    params: WeatherQuery, geoApi: GeoApi, f1: ForecastApi, f2: ForecastApi, show: Formatter)
    requires FetchLatLong(params.city, geoApi).Success?
    requires f1(FetchLatLong(params.city, geoApi).value) == f2(FetchLatLong(params.city, geoApi).value)
    ensures Weather(params, geoApi, f1, show) == Weather(params, geoApi, f2, show)
  {
  }

  /** An empty geocoding result ends the request with "No results found",
      whatever the forecast service would have answered. */
  lemma NoGeocodeResultsFails(params: WeatherQuery, geoApi: GeoApi, forecastApi: ForecastApi, show: Formatter)
    requires geoApi(GeocodeEndpoint(params.city)).Success?
    requires geoApi(GeocodeEndpoint(params.city)).value.results == []
    ensures Weather(params, geoApi, forecastApi, show) == Failure(NoResults)
  {
  }

  /** When both calls succeed, the result is the display built from the
      forecast returned for the first geocoding match. */
  lemma BothStagesSucceed(params: WeatherQuery, geoApi: GeoApi, forecastApi: ForecastApi, show: Formatter)
    requires geoApi(GeocodeEndpoint(params.city)).Success?
    requires |geoApi(GeocodeEndpoint(params.city)).value.results| > 0
    requires forecastApi(geoApi(GeocodeEndpoint(params.city)).value.results[0]).Success?
    ensures Weather(params, geoApi, forecastApi, show)
         == Success(NewWeatherDisplay(params.city,
                      forecastApi(geoApi(GeocodeEndpoint(params.city)).value.results[0]).value, show))
  {
  }

  // ------------------------------------------------------------ scenarios

  const London := LatLong(F64(0x4049_C000_0000_0000), F64(0xBFBE_B851_EB85_1EB8)) // 51.5, -0.12
  const FivePointTwo := F64(0x4014_CCCC_CCCC_CCCD)                               // 5.2

  /** London resolves, one reading at midnight: one row with that reading. */
  lemma LondonScenario(geoApi: GeoApi, forecastApi: ForecastApi, show: Formatter, forecast: WeatherResponse)
    requires geoApi(GeocodeEndpoint("London")) == Success(GeoResponse([London]))
    requires forecast.hourly == Hourly(["2024-01-01T00:00"], [FivePointTwo])
    requires forecastApi(London) == Success(forecast)
    requires show(FivePointTwo) == "5.2"
    ensures Weather(WeatherQuery("London"), geoApi, forecastApi, show)
         == Success(WeatherDisplay("London", [Forecast("2024-01-01T00:00", "5.2")]))
  {
    BothStagesSucceed(WeatherQuery("London"), geoApi, forecastApi, show);
    var d := NewWeatherDisplay("London", forecast, show);
    assert d.forecasts[0] == Forecast("2024-01-01T00:00", "5.2");
    assert d.forecasts == [Forecast("2024-01-01T00:00", "5.2")];
  }

  /** A failing forecast call (a body that does not decode, say) ends the
      request with a 500 carrying that call's message. */
  lemma ForecastFailureResponse(
    params: WeatherQuery, geoApi: GeoApi, forecastApi: ForecastApi, show: Formatter, e: AppError)
    requires geoApi(GeocodeEndpoint(params.city)).Success?
    requires |geoApi(GeocodeEndpoint(params.city)).value.results| > 0
    requires forecastApi(geoApi(GeocodeEndpoint(params.city)).value.results[0]) == Failure(e)
    ensures Weather(params, geoApi, forecastApi, show) == Failure(e)
    ensures IntoResponse(e).status == InternalServerError
    ensures MessageOf(IntoResponse(e).body) == Some(e.message)
  {
  }
}

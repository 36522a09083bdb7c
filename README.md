# Weather lookup server: verified model of its request pipeline

The server answers `/weather?city=…`. It asks the Open-Meteo geocoding
service for the city's coordinates and takes the first match. It then asks
the Open-Meteo forecast service for the hourly temperature series at those
coordinates. Each (time, temperature) pair becomes one row of a
`WeatherDisplay`, and the page is rendered from that record. Any error the
`weather` handler returns becomes an HTTP 500 response whose body is
`Something went wrong: ` followed by the error's message.

The model is pure, as the source is: datatypes for the records, functions for
the stages, and lemmas for what the stages promise.

- `wrappers.dfy`, module `Wrappers`: `Option`, plus a `Result` that supports
  `:-`, so the source's `?` operator is written with `:-`.
- `query.dfy`, module `Query`: a reference reading of a URL query string. It
  cuts the string at `&` and proves that joining the pieces back gives the
  original string. It is used to state which parameters the geocoding request
  carries.
- `weather_app.dfy`, module `WeatherApp`: the records of `src/main.rs`, plus:
  - the error response;
  - the display mapper (`WeatherDisplay::new`);
  - the geocoding URL;
  - first-match selection;
  - the two fetch stages;
  - the `weather` handler;
  - the end-to-end scenarios.

The effectful parts are parameters:
- The geocoding call (HTTP GET plus JSON decoding) is a function `GeoApi` from
  the request URL to `Result<GeoResponse, AppError>`.
- The forecast call is a function `ForecastApi` from the coordinates to
  `Result<WeatherResponse, AppError>`.
- Writing a float as text (`f64::to_string`) is a function `Formatter` on
  `F64`. `F64` is a 64-bit IEEE-754 value kept as its bit pattern.

Because these are parameters, "the forecast service is not consulted" is
stated as independence: the pipeline's result is the same for any two
forecast services.

Two facts about the code shape the model:
- Every error the handler returns gives status 500, including "No results
  found", because the code has one error type (an `anyhow::Error` seen
  through its message).
- The city is inserted into the geocoding URL verbatim, with no
  percent-encoding. `AmpersandInCityAddsParameter` proves the consequence: an
  `&` in the city splits the raw query string into an extra piece.

## Model

| member | source | states |
|---|---|---|
| `WeatherApp.IntoResponse` | src/main.rs:11-19 | every error gives status 500 and a body made of the fixed prefix followed by the error's message |
| `WeatherApp.MessageOf` | src/main.rs:15 | a body yields a message exactly when it is the fixed prefix followed by some message, and the message yielded is that one |
| `WeatherApp.IntoResponseKeepsMessage` | src/main.rs:15 | the error's message can be read back from the response body unchanged |
| `WeatherApp.IntoResponseInjective` | src/main.rs:12-18 | distinct errors give distinct responses |
| `WeatherApp.Zip` | src/main.rs:98-102 | pairing two series gives min(length, length) pairs, and pair i holds element i of each series |
| `WeatherApp.NewWeatherDisplay` | src/main.rs:95-110 | the city is kept unchanged; there are min(\|time\|, \|temperature_2m\|) rows, and row i carries time i and the formatted temperature i, so order is kept |
| `WeatherApp.AlignedSeriesGivesOneRowPerReading` | src/main.rs:98-107 | series of equal length N give exactly N rows |
| `WeatherApp.AppendReadingAppendsRow` | src/main.rs:101-107 | appending one aligned reading to both series appends exactly its row at the end |
| `WeatherApp.SurplusReadingsIgnored` | src/main.rs:101-102 | readings past the end of the shorter series do not affect the display |
| `WeatherApp.GeocodeEndpoint` | src/main.rs:114-117 | the request URL is the fixed prefix, then the city verbatim, then the fixed suffix |
| `WeatherApp.CityOfEndpoint` | src/main.rs:114-117 | a URL yields a city exactly when it is the fixed prefix, some city and the fixed suffix, and the city yielded is the one that rebuilds the URL |
| `WeatherApp.EndpointRoundTrip` | src/main.rs:114-117 | the city is read back unchanged from its request URL |
| `WeatherApp.EndpointOfCity` | src/main.rs:114-117 | every URL of that shape is the request for the city read from it |
| `WeatherApp.EndpointIsBaseThenQuery` | src/main.rs:115 | the request URL is the search base followed by the query string |
| `WeatherApp.GeocodeQueryParameters` | src/main.rs:114-117 | for a city without `&`, the raw query string cut at `&` gives `name=<city>`, `count=1`, `language=en`, `format=json`, in that order |
| `WeatherApp.AmpersandInCityAddsParameter` | src/main.rs:114-117 | for a city `p&x`, the raw query string cut at `&` gives `name=p`, then `x` as a piece of its own, then the three fixed parameters |
| `WeatherApp.Get` | src/main.rs:119 | `Vec::get` gives an element exactly for an index in range, and that element is the one at the index |
| `WeatherApp.Context` | src/main.rs:119 | `context` turns no value into the given error and keeps a present value unchanged |
| `WeatherApp.FirstMatch` | src/main.rs:119 | the selection fails with "No results found" if and only if there are no results; otherwise it returns the first result unchanged |
| `WeatherApp.FetchLatLong` | src/main.rs:113-120 | the lookup succeeds exactly when the geocoding request succeeds with at least one match, and then returns the first match; a failed request passes its error on; an empty answer fails with "No results found" |
| `WeatherApp.FetchWeather` | src/main.rs:122-129 | the forecast service's answer for the coordinates is passed on unchanged, whether it is a success or an error |
| `WeatherApp.Weather` | src/main.rs:82-87 | the handler fails exactly when the lookup or the forecast fetch fails; a failed lookup's error is the result; a failed fetch after a good lookup gives that fetch's error; on success the result is the display built from the fetched forecast |
| `WeatherApp.ResolveFailureSkipsForecast` | src/main.rs:83-84 | after a failed lookup, the result is the same for any forecast service, so the service is never consulted |
| `WeatherApp.ForecastConsultedOnlyAtResolvedPoint` | src/main.rs:83-84 | after a good lookup, the forecast service matters only through its answer at the resolved coordinates |
| `WeatherApp.NoGeocodeResultsFails` | src/main.rs:83 | an empty geocoding answer ends the request with "No results found", whatever the forecast service would answer |
| `WeatherApp.BothStagesSucceed` | src/main.rs:83-86 | when both calls succeed, the result is the display built for the city from the forecast for the first match |
| `WeatherApp.LondonScenario` | src/main.rs:82-110 | London at (51.5, -0.12) with one reading of 5.2 at midnight gives exactly one row, ("2024-01-01T00:00", "5.2"), under city "London" |
| `WeatherApp.ForecastFailureResponse` | src/main.rs:82-87 | a failing forecast call (a body that does not decode, say) ends the request with that error, which is answered with status 500 and a body from which its message reads back |

## Left out

- Network calls and JSON decoding (`reqwest::get`, `.json::<…>()`, the serde
  derives). They are parameters of the model (`GeoApi`, `ForecastApi`), and a
  decode failure is just an error with some message.
- The `Query<WeatherQuery>` extractor: a request without a `city` parameter,
  or whose query does not decode, is rejected by axum with its own 400
  response before the handler runs. `Weather` starts from an extracted
  `WeatherQuery`.
- How the geocoding URL is parsed before it is sent. The parameter lemmas
  read the raw query string cut at `&`. They ignore `#` starting a fragment
  (which would drop the fixed parameters), the removal of tabs and newlines
  by the URL parser, and percent-decoding by the service.
- Asynchrony: the two `.await`s are modelled as ordinary sequential calls.
  There is no timeout or cancellation in the source.
- Float values and formatting. `f64::to_string` is the `Formatter` parameter.
  The forecast URL at src/main.rs:123-126 formats floats, so `ForecastApi` is
  keyed on the coordinates rather than on a URL string.
- `date.to_string()` on a `String` copies it, so the model takes the date
  unchanged.
- The conversion `From<E> for AppError` and `anyhow` error chains. An error is
  its display message, and the conversion at each `?` is the identity.
- Response headers: `into_response` on a `(StatusCode, String)` pair also sets
  a plain-text content type. Only the status and body are modelled.
- The HTML templates (`IndexTemplate`, rendering of `weather.html`), the
  constant `index` and `stats` handlers, the router, the TCP bind and the
  tokio runtime. None of them carries logic beyond plumbing.

/**
  Forecast-map construction of `fetchWeatherForecast`: given the decoded
  answers of the forecast service and of the reverse-geocoding service, build
  the dictionary from each forecast date to that day's `WeatherData`.
  The two requests themselves are not modelled; their answers are inputs.
 */
module Weather {
  import opened Wrappers
  import opened Sequences

  /** One day of forecast, as the decision engine reads it. */
  datatype WeatherData = WeatherData(
    temperature: real,    // degrees Celsius
    isRaining: bool,
    isSnowing: bool,
    windSpeed: real,      // km/h
    precipitation: real,  // mm
    cityName: string,
    date: string)         // YYYY-MM-DD

  /** The decoded `daily` object of the forecast answer: one array per
      requested quantity, position `i` describing the day `time[i]`. */
  datatype Daily = Daily(
    time: seq<string>,
    temperatureMax: seq<real>,
    temperatureMin: seq<real>,
    precipitationSum: seq<real>,
    rainSum: seq<real>,
    showersSum: seq<real>,
    snowfallSum: seq<real>,
    windSpeedMax: seq<real>)
  {
    /** Every quantity has a value for every listed day. */
    predicate Complete() {
      var n := |time|;
      n <= |temperatureMax| && n <= |temperatureMin| && n <= |precipitationSum| &&
      n <= |rainSum| && n <= |showersSum| && n <= |snowfallSum| && n <= |windSpeedMax|
    }
  }

  /** The forecast answer: whether the response was `ok`, and its `daily` part. */
  datatype ForecastResponse = ForecastResponse(ok: bool, daily: Daily)

  /** The reverse-geocoding answer: whether the response was `ok`, and the
      three place names it may carry. */
  datatype CityResponse = CityResponse(
    ok: bool,
    city: Option<string>,
    locality: Option<string>,
    principalSubdivision: Option<string>)

  const UnknownLocation: string := "Unknown Location"

  // ---------------------------------------------------------------------
  // City name

  /** A JavaScript string value that is truthy: present and not empty. */
  predicate Truthy(v: Option<string>) {
    v.Some? && v.value != ""
  }

  /** The first candidate that is present and not empty, else the fallback. */
  function FirstTruthy(candidates: seq<Option<string>>, fallback: string): (r: string)
    ensures fallback != "" ==> r != ""
    decreases |candidates|
  {
    if candidates == [] then fallback
    else if Truthy(candidates[0]) then candidates[0].value
    else FirstTruthy(candidates[1..], fallback)
  }

  /** The chain of `||` yields the first truthy candidate, and the fallback
      exactly when there is none. */
  lemma {:induction false} FirstTruthySpec(candidates: seq<Option<string>>, fallback: string)
    ensures (forall k :: 0 <= k < |candidates| ==> !Truthy(candidates[k])) ==>
              FirstTruthy(candidates, fallback) == fallback
    ensures forall k :: 0 <= k < |candidates| && Truthy(candidates[k]) &&
                        (forall j :: 0 <= j < k ==> !Truthy(candidates[j])) ==>
              FirstTruthy(candidates, fallback) == candidates[k].value
    decreases |candidates|
  {
    if candidates != [] {
      var rest := candidates[1..];
      FirstTruthySpec(rest, fallback);
      assert forall k :: 1 <= k < |candidates| ==> candidates[k] == rest[k - 1];
      forall k | 0 <= k < |candidates| && Truthy(candidates[k]) &&
                 (forall j :: 0 <= j < k ==> !Truthy(candidates[j]))
        ensures FirstTruthy(candidates, fallback) == candidates[k].value
      {
        if k > 0 {
          assert !Truthy(candidates[0]);
          assert forall j :: 0 <= j < k - 1 ==> !Truthy(rest[j]) by {
            forall j | 0 <= j < k - 1 ensures !Truthy(rest[j]) {
              assert rest[j] == candidates[j + 1];
            }
          }
          assert Truthy(rest[k - 1]) && rest[k - 1] == candidates[k];
        }
      }
    }
  }

  /** The `cityName` every entry carries: the first truthy of city, locality
      and principal subdivision of an `ok` answer, and "Unknown Location"
      otherwise. */
  function CityName(city: CityResponse): (name: string)
    ensures name != ""
    ensures !city.ok ==> name == UnknownLocation
  {
    if city.ok then
      FirstTruthy([city.city, city.locality, city.principalSubdivision], UnknownLocation)
    else UnknownLocation
  }

  /** The three cases of the name fallback of an `ok` answer. */
  lemma CityNameOrder(city: CityResponse)
    requires city.ok
    ensures Truthy(city.city) ==> CityName(city) == city.city.value
    ensures !Truthy(city.city) && Truthy(city.locality) ==> CityName(city) == city.locality.value
    ensures !Truthy(city.city) && !Truthy(city.locality) && Truthy(city.principalSubdivision) ==>
              CityName(city) == city.principalSubdivision.value
    ensures !Truthy(city.city) && !Truthy(city.locality) && !Truthy(city.principalSubdivision) ==>
              CityName(city) == UnknownLocation
  {
    var c := [city.city, city.locality, city.principalSubdivision];
    FirstTruthySpec(c, UnknownLocation);
    assert c[0] == city.city && c[1] == city.locality && c[2] == city.principalSubdivision;
  }

  // ---------------------------------------------------------------------
  // The forecast map

  /** The entry the loop stores for day `i`. */
  function Day(daily: Daily, i: nat, cityName: string): WeatherData
    requires daily.Complete() && i < |daily.time|
  {
    WeatherData(
      temperature := (daily.temperatureMax[i] + daily.temperatureMin[i]) / 2.0,
      isRaining := daily.rainSum[i] > 0.0 || daily.showersSum[i] > 0.0,
      isSnowing := daily.snowfallSum[i] > 0.0,
      windSpeed := daily.windSpeedMax[i],
      precipitation := daily.precipitationSum[i],
      cityName := cityName,
      date := daily.time[i])
  }

  /** The temperature of a day is the midpoint of its extremes; rain means
      rain or showers, whatever the precipitation total says; snow means a
      positive snowfall; wind and precipitation are copied. */
  lemma DaySpec(daily: Daily, i: nat, cityName: string)
    requires daily.Complete() && i < |daily.time|
    ensures var d := Day(daily, i, cityName);
      d.temperature - daily.temperatureMin[i] == daily.temperatureMax[i] - d.temperature &&
      (daily.temperatureMin[i] <= daily.temperatureMax[i] ==>
         daily.temperatureMin[i] <= d.temperature <= daily.temperatureMax[i]) &&
      (d.isRaining <==> daily.rainSum[i] > 0.0 || daily.showersSum[i] > 0.0) &&
      (d.isSnowing <==> daily.snowfallSum[i] > 0.0) &&
      d.windSpeed == daily.windSpeedMax[i] && d.precipitation == daily.precipitationSum[i] &&
      d.date == daily.time[i] && d.cityName == cityName
  {
  }

  /** The precipitation total plays no part in `isRaining`. */
  lemma RainIgnoresPrecipitation(daily: Daily, precipitation: seq<real>, i: nat, cityName: string)
    requires daily.Complete() && i < |daily.time| && |daily.time| <= |precipitation|
    ensures daily.(precipitationSum := precipitation).Complete()
    ensures Day(daily.(precipitationSum := precipitation), i, cityName).isRaining ==
            Day(daily, i, cityName).isRaining
  {
  }

  /** The dictionary after the loop has stored days `0 .. j - 1`, each
      assignment overwriting what an earlier equal date left. */
  function ForecastUpTo(daily: Daily, cityName: string, j: nat): map<string, WeatherData>
    requires daily.Complete() && j <= |daily.time|
    decreases j
  {
    if j == 0 then map[]
    else ForecastUpTo(daily, cityName, j - 1)[daily.time[j - 1] := Day(daily, j - 1, cityName)]
  }

  /** The dictionary `fetchWeatherForecast` returns for a complete answer. */
  function Forecast(daily: Daily, cityName: string): map<string, WeatherData>
    requires daily.Complete()
  {
    ForecastUpTo(daily, cityName, |daily.time|)
  }

  /** Reference reading of the dictionary over the first `j` days: every
      date listed there maps to the entry of its last occurrence. */
  function LastDayMap(daily: Daily, cityName: string, j: nat): map<string, WeatherData>
    requires daily.Complete() && j <= |daily.time|
  {
    map d | d in daily.time[..j] :: Day(daily, LastIndex(daily.time[..j], d), cityName)
  }

  /** One more day extends the reference map by that day's entry. */
  lemma LastDayMapSnoc(daily: Daily, cityName: string, j: nat)
    requires daily.Complete() && 0 < j <= |daily.time|
    ensures LastDayMap(daily, cityName, j) ==
            LastDayMap(daily, cityName, j - 1)[daily.time[j - 1] := Day(daily, j - 1, cityName)]
  {
    var init, d := daily.time[..j - 1], daily.time[j - 1];
    assert daily.time[..j] == init + [d];
    var m1 := LastDayMap(daily, cityName, j);
    var m2 := LastDayMap(daily, cityName, j - 1)[d := Day(daily, j - 1, cityName)];
    assert forall x :: x in init + [d] <==> x in init || x == d;
    assert m1.Keys == m2.Keys;
    forall x | x in m1.Keys ensures m1[x] == m2[x] {
      LastIndexSnoc(init, d, x);
    }
  }

  lemma {:induction false} ForecastUpToIsLastDayMap(daily: Daily, cityName: string, j: nat)
    requires daily.Complete() && j <= |daily.time|
    ensures ForecastUpTo(daily, cityName, j) == LastDayMap(daily, cityName, j)
    decreases j
  {
    if j == 0 {
      assert daily.time[..0] == [];
      assert LastDayMap(daily, cityName, 0) == map[];
    } else {
      ForecastUpToIsLastDayMap(daily, cityName, j - 1);
      LastDayMapSnoc(daily, cityName, j);
    }
  }

  /** The map has one key per listed date; the entry under a date carries
      that date and the shared city name; and a day with no later duplicate
      is the one stored under its date, so a later duplicate overwrites an
      earlier one. */
  lemma ForecastSpec(daily: Daily, cityName: string)
    requires daily.Complete()
    ensures Forecast(daily, cityName).Keys == set d | d in daily.time
    ensures forall d :: d in Forecast(daily, cityName) ==>
              Forecast(daily, cityName)[d].date == d && Forecast(daily, cityName)[d].cityName == cityName
    ensures forall i :: 0 <= i < |daily.time| && daily.time[i] !in daily.time[i + 1..] ==>
              Forecast(daily, cityName)[daily.time[i]] == Day(daily, i, cityName)
  {
    var time := daily.time;
    ForecastUpToIsLastDayMap(daily, cityName, |time|);
    assert time[..|time|] == time;
    forall i | 0 <= i < |time| && time[i] !in time[i + 1..]
      ensures LastIndex(time, time[i]) == i
    {
    }
  }

  /** `fetchWeatherForecast` once both answers are known: no coordinates or a
      failed forecast request give null; otherwise the loop fills the map
      over `daily.time`, every entry carrying the one city name. */
  method FetchWeatherForecast(lat: Option<real>, lon: Option<real>,
                              forecast: ForecastResponse, city: CityResponse)
    returns (r: Option<map<string, WeatherData>>)
    requires forecast.ok ==> forecast.daily.Complete()
    ensures r.None? <==> lat.None? || lon.None? || !forecast.ok
    ensures r.Some? ==> r.value == Forecast(forecast.daily, CityName(city))
  {
    if lat.None? || lon.None? {
      return None;
    }
    if !forecast.ok {
      return None;
    }
    var daily := forecast.daily;
    var cityName := UnknownLocation;
    if city.ok {
      cityName := FirstTruthy([city.city, city.locality, city.principalSubdivision], UnknownLocation);
    }
    var forecastMap: map<string, WeatherData> := map[];
    var i := 0;
    while i < |daily.time|
      invariant 0 <= i <= |daily.time|
      invariant forecastMap == ForecastUpTo(daily, cityName, i)
    {
      var date := daily.time[i];
      var avgTemp := (daily.temperatureMax[i] + daily.temperatureMin[i]) / 2.0;
      var isRaining := daily.rainSum[i] > 0.0 || daily.showersSum[i] > 0.0;
      var isSnowing := daily.snowfallSum[i] > 0.0;
      forecastMap := forecastMap[date := WeatherData(
        temperature := avgTemp,
        isRaining := isRaining,
        isSnowing := isSnowing,
        windSpeed := daily.windSpeedMax[i],
        precipitation := daily.precipitationSum[i],
        cityName := cityName,
        date := date)];
      i := i + 1;
    }
    return Some(forecastMap);
  }
}

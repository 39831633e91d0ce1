# Commute decider: a verified model of its core

The commute decider recommends, for each day, whether to walk, cycle or
drive. It does this in four steps:

1. It reads the user's day plan from a published spreadsheet (CSV).
2. It builds a date-keyed weather forecast from a forecast service's daily
   arrays and a reverse-geocoded city name.
3. It fetches three routes and estimates cycling and walking times from the
   car route when those fetches look wrong.
4. It scores the three methods with a fixed sequence of rules.

This project models those four transformations in Dafny and proves what
each one promises. Every network answer is an input value.

Modules:

- `Wrappers`: `Option`.
- `Sequences`: the last index of a value in a sequence (the "later key
  wins" of a dictionary filled in order).
- `JsString`: the JavaScript string operations the spreadsheet reader
  relies on, with the semantics JavaScript gives them:
  - `trim` and `toLowerCase`;
  - `split` on one character, and the removal of every `"`;
  - `parseInt(s, 10)`: leading white space, an optional sign, then the
    longest run of digits, otherwise NaN (here `None`).
- `Sheets` (lib/sheets.ts):
  - `ParseCSV` is the line loop. It is proved to produce exactly
    `CsvRecords`, a function stated line by line.
  - `ParseLine` is the character loop, proved against `Fields`, a
    definition in terms of the unquoted commas of the line.
  - `BuildRawRow` fills the header-to-cell dictionary.
  - `GetVal`, `ParseNumber` and `ParseBoolean` are functions.
- `Weather` (lib/weather.ts):
  - `FetchWeatherForecast` mirrors `fetchWeatherForecast` once both answers
    are known. The city-name fallback is reassigned conditionally, and the
    `for` loop inserts one entry per day.
  - It is proved against `Forecast`. `ForecastUpToIsLastDayMap` shows that
    every date maps to the entry of its last occurrence. `ForecastSpec`
    gives the keys, the date and city name of each entry, and the entry of
    a date that does not recur.
- `Routing` (lib/routing.ts):
  - `Results` is the `results` object. `EstimateMissing` overwrites its
    cycling and walking fields in place.
  - `Fallback` is the reference function, described rule by rule in
    `FallbackSpec`.
- `DecisionEngine` (lib/decisionEngine.ts):
  - The rules form a table: `Fires` says when a rule fires, and `ChangeOf`
    says what it does to each score.
  - `Outcome` tries the rules in order. `MakeDecision` is the straight-line
    code of `makeDecision`, proved to compute exactly the table's scores
    and reasoning and the winner of `SelectWinner`'s `forEach` loop.
  - Properties of the table are proved as lemmas:
    - mutual exclusion of the `else if` pairs;
    - the effect of each rule group;
    - at most eight reasoning entries;
    - per-method independence;
    - vetoes that are not final.

The reasoning list holds one `Rule` tag per reasoning string the source
pushes. Tag and string correspond one to one, in the same order.

## Model

A reference function with no contract of its own has no row. The row of
the lemma about it describes it: `Trim` in `TrimSpec`, `Headers` in
`HeadersShape`, `CleanField` in `CleanFieldWithoutQuotes`, `Fields` in
`FieldsShape`, `CsvRecords` in `CsvRecordsShape`, `Day` in `DaySpec`,
`Fallback` in `FallbackSpec`, and `Fires` and `ChangeOf` in `OutcomeSpec` and
the effect lemmas.

| member | source | states |
|---|---|---|
| Sequences.LastIndex | lib/sheets.ts:63-65 | the index returned holds the value, and no later index does (a later header overwrites an earlier one in `rawData`) |
| Sequences.LastIndexSnoc | lib/weather.ts:63-71 | appending a value makes it the last occurrence of itself and leaves every other value's last occurrence unchanged |
| JsString.TrimSpec | lib/sheets.ts:30 | `trim` never lengthens, keeps only characters of its input, leaves no white space at either end, and is empty exactly when the input is all white space |
| JsString.TrimIsSlice | lib/sheets.ts:49 | the result is a slice of the input between an all-white-space prefix and an all-white-space suffix, and does not start or end with white space |
| JsString.TrimIdempotent | lib/sheets.ts:49 | trimming twice is trimming once |
| JsString.ToLower | lib/sheets.ts:34 | same length, every character lowered, no upper-case letter left |
| JsString.RemoveAll | lib/sheets.ts:34 | `replace(/"/g, '')` leaves no `"` |
| JsString.RemoveAllSpec | lib/sheets.ts:34 | removing a character keeps every other character with its multiplicity |
| JsString.RemoveAllAbsent | lib/sheets.ts:34 | removing a character that does not occur changes nothing |
| JsString.IndexOf | lib/sheets.ts:30-34 | the first index of a character that occurs: it holds the character and no earlier index does (where `split` cuts) |
| JsString.RemoveAllConcat | lib/sheets.ts:30 | removing a character from a concatenation removes it from each part |
| JsString.Split | lib/sheets.ts:34 | `split` on one character yields at least one part and no part contains the separator |
| JsString.SplitAfterFirst | lib/sheets.ts:30 | a text that starts with a separator-free piece and a separator splits into that piece followed by the split of the rest |
| JsString.JoinSplit | lib/sheets.ts:34 | joining the parts of a split with the separator gives back the text |
| JsString.SplitCount | lib/sheets.ts:34 | a split has one part more than the separator has occurrences |
| JsString.LeadingDigits | lib/sheets.ts:90 | the longest prefix of digits |
| JsString.ParseInt | lib/sheets.ts:90 | `parseInt` of all-white-space text is NaN; a number is read only when the text holds a digit |
| JsString.ParseSigned | lib/sheets.ts:90 | after the white space, a number is read exactly when a digit comes first or after one sign; a `-` gives a value at most 0, otherwise at least 0 |
| JsString.NatToString | lib/sheets.ts:75 | the decimal numeral of a natural number has no leading zero |
| JsString.NumeralValue | lib/sheets.ts:75 | a numeral's digits have the value it was written from |
| JsString.ParseIntOfNumeral | lib/sheets.ts:90 | `parseInt` reads back a numeral followed by anything that is not a digit |
| JsString.ParseIntOfNegativeNumeral | lib/sheets.ts:90 | `parseInt` reads back a negative numeral |
| JsString.ParseSignedValue | lib/sheets.ts:90 | an optional `-` or `+`, a run of digits (leading zeros allowed) and a tail that does not start with a digit give the value of the digits, negated after `-` |
| JsString.ParseIntValue | lib/sheets.ts:90 | `parseInt` gives the same value on such text, for example `+7`, `007` and `-7 km` |
| JsString.ParseIntSkipsSpace | lib/sheets.ts:90 | `parseInt` skips leading white space |
| Sheets.SplitLines | lib/sheets.ts:30 | splitting on `\r?\n` yields one line more than the text has line feeds |
| Sheets.SplitLinesRoundTrip | lib/sheets.ts:30 | for text without carriage returns, joining the lines with line feeds gives back the text |
| Sheets.SplitLinesCrlf | lib/sheets.ts:30 | for text whose every carriage return precedes a line feed (CRLF, LF or mixed), the lines are the split of the text at line feeds once its carriage returns are removed |
| Sheets.SplitKeepsContent | lib/sheets.ts:30 | every line consists of characters of the text |
| Sheets.NonBlank | lib/sheets.ts:30 | filtering never lengthens the list of lines |
| Sheets.NonBlankMembers | lib/sheets.ts:30 | a line survives the filter exactly when it is one of the split lines and is not all white space |
| Sheets.NonBlankOne | lib/sheets.ts:30 | a single line is kept exactly when it is not all white space |
| Sheets.NonBlankConcat | lib/sheets.ts:30 | the filter of a concatenation is the concatenation of the filters, so kept lines stay in order and keep their repeats |
| Sheets.NormalizeHeader | lib/sheets.ts:34 | a header name holds no `"` and no upper-case letter |
| Sheets.HeadersShape | lib/sheets.ts:34 | there is one header per comma of the first line, plus one, each trimmed, lower-cased and stripped of quotes |
| Sheets.InQuotesParity | lib/sheets.ts:43-47 | the quote state at a position is on exactly when an odd number of `"` precede it |
| Sheets.NextSeparator | lib/sheets.ts:48 | the next unquoted comma lies within the line |
| Sheets.NextSeparatorSpec | lib/sheets.ts:48 | the next unquoted comma: none exists after the start, or it is the first one |
| Sheets.StripEdgeQuotes | lib/sheets.ts:49 | a field wrapped in `"` loses exactly those two; one quoted at one end only loses just that quote; one without `"`, or with no `"` at either end, is unchanged; a lone `"` becomes empty; at most two characters go, and only from an end that is a `"` |
| Sheets.Unescape | lib/sheets.ts:49 | the `""` replacement never lengthens and keeps every other character with its multiplicity |
| Sheets.UnescapeEscape | lib/sheets.ts:49 | the replacement undoes the doubling of every quote: each `""` becomes one `"` and everything else is kept |
| Sheets.UnescapeWithoutQuotes | lib/sheets.ts:49 | the `""` replacement changes nothing in text without `"` |
| Sheets.CleanFieldWithoutQuotes | lib/sheets.ts:49 | for a field without `"` the clean-up is just `trim` |
| Sheets.Unquoted | lib/sheets.ts:46-53 | the characters the loop appends to `current` never include `"` |
| Sheets.UnquotedIsRemoveAll | lib/sheets.ts:46-53 | a field's raw text is its slice of the line with every `"` removed |
| Sheets.RawFieldsCount | lib/sheets.ts:44-56 | a line has one raw field more than it has unquoted commas |
| Sheets.RawFieldsWithoutQuotes | lib/sheets.ts:46-53 | no raw field contains `"` |
| Sheets.FieldsShape | lib/sheets.ts:44-56 | the fields are one more than the unquoted commas; each is its raw field trimmed and holds no `"` |
| Sheets.CleanAllAt | lib/sheets.ts:49 | each cleaned field is the clean-up of its raw field |
| Sheets.PushField | lib/sheets.ts:49-50 | pushing the cleaned `current` extends the result by one cleaned field |
| Sheets.ParseLine | lib/sheets.ts:40-57 | the character loop returns exactly `Fields(line)`: one more field than unquoted commas, none holding `"` |
| Sheets.LastCellMapSnoc | lib/sheets.ts:63-65 | adding a header sets its key to its own cell and keeps the rest |
| Sheets.RawRowUpToIsLastCellMap | lib/sheets.ts:63-65 | the `forEach` over headers gives each header the cell of its last occurrence |
| Sheets.RawRowLastWins | lib/sheets.ts:62-65 | the keys are exactly the headers; a header that does not recur maps to its own cell, or `""` when the line is short |
| Sheets.BuildRawRow | lib/sheets.ts:62-65 | the `forEach` loop fills exactly `RawRow(headers, values)` |
| Sheets.GetVal | lib/sheets.ts:67-72 | undefined exactly when no alias is a header; otherwise the value of the first alias that is one, even when that value is `""` |
| Sheets.OrElse | lib/sheets.ts:75-81 | `v \|\| d`: a present non-empty value is kept; undefined or `""` gives the default; a non-empty default gives a non-empty result |
| Sheets.ParseNumber | lib/sheets.ts:88-93 | a missing or empty value, or one without a leading integer, gives the fallback; otherwise the integer, lifted to `min` below it and cut to `max` above it, and always in [min, max] |
| Sheets.ParseNumberOfNumeral | lib/sheets.ts:88-93 | a numeral inside the bounds is read back, and one above them gives the maximum |
| Sheets.ParseNumberOfNegative | lib/sheets.ts:88-93 | a negative numeral below the minimum gives the minimum |
| Sheets.ParseBoolean | lib/sheets.ts:95-99 | true exactly when the value is `true`, `yes` or `1` in any letter case; missing gives false |
| Sheets.ToUserData | lib/sheets.ts:74-82 | the gas level lies in [0, 100], urgency in [1, 10], and the date is never empty |
| Sheets.ToUserDataSpec | lib/sheets.ts:74-82 | the date is the date cell, or `Row i` when it is missing or blank; origin and destination are their cells, or `""`; a missing gas or urgency cell gives 100 or 1; no meeting or budget alias means false |
| Sheets.RecordOf | lib/sheets.ts:62-82 | the record built from a parsed line is `RowOf` of that line |
| Sheets.Records | lib/sheets.ts:39-83 | one record per data line read so far |
| Sheets.RecordsAt | lib/sheets.ts:74-82 | record `i - 1` is read from data line `i` with row number `i` |
| Sheets.RowsInRange | lib/sheets.ts:77-79 | every record's gas level, urgency and date are within bounds |
| Sheets.CsvRecordsShape | lib/sheets.ts:29-86 | fewer than two non-blank lines give no records; otherwise there is exactly one record per data line, in order, each in bounds (the `values.length === 0` skip never fires) |
| Sheets.ReadLine | lib/sheets.ts:59-82 | one loop step appends the next line's record |
| Sheets.ReadRecords | lib/sheets.ts:39-83 | the loop over data lines produces exactly the records of every data line |
| Sheets.ParseCSV | lib/sheets.ts:29-86 | `parseCSV` returns exactly `CsvRecords(text)` |
| Weather.FirstTruthy | lib/weather.ts:41 | a `\|\|` chain with a non-empty last operand is never empty |
| Weather.FirstTruthySpec | lib/weather.ts:41 | the chain gives the first truthy candidate, or the fallback when none is truthy |
| Weather.CityName | lib/weather.ts:38-42 | the city name is never empty, and is `Unknown Location` when the city answer is not ok |
| Weather.CityNameOrder | lib/weather.ts:41 | city, then locality, then principal subdivision, then `Unknown Location` |
| Weather.DaySpec | lib/weather.ts:48-71 | temperature is the mean of max and min, and lies between them when min does not exceed max; raining exactly when rain or showers are positive; snowing exactly when snowfall is positive; wind and precipitation copied; date and city name set |
| Weather.RainIgnoresPrecipitation | lib/weather.ts:60 | changing the precipitation sums never changes `isRaining` |
| Weather.LastDayMapSnoc | lib/weather.ts:63-71 | one more day sets its date to that day's entry and keeps the rest |
| Weather.ForecastUpToIsLastDayMap | lib/weather.ts:47-72 | after `j` days each date maps to the entry of its last occurrence so far |
| Weather.ForecastSpec | lib/weather.ts:47-72 | the keys are exactly the dates; each entry carries its own date and the shared city name; a date that does not recur maps to its own day |
| Weather.FetchWeatherForecast | lib/weather.ts:14-74 | null exactly when a coordinate is missing or the forecast answer is not ok; otherwise the loop's map is `Forecast` with the fallback city name |
| Routing.Round | lib/routing.ts:30 | `Math.round` gives the integer within half of its argument, rounding a half up |
| Routing.RoundMonotone | lib/routing.ts:30 | rounding keeps order |
| Routing.Estimate | lib/routing.ts:28-31 | an estimate keeps the car distance and takes as its time the whole number within half of distance over speed (`Math.round`); the time is never negative for a non-negative distance |
| Routing.FallbackSpec | lib/routing.ts:23-41 | car as fetched; no car means nothing changes; a missing or car-length result becomes the estimate at 5.3 or 1.4 m/s; any other result is kept; the two replacements are independent |
| Routing.FallbackIdempotent | lib/routing.ts:26-39 | applying the fallback to its own output changes nothing |
| Routing.EstimateOrder | lib/routing.ts:30-37 | an estimated ride never takes longer than an estimated walk |
| Routing.Results.constructor | lib/routing.ts:23 | the object holds the three fetched results |
| Routing.Results.EstimateMissing | lib/routing.ts:26-39 | the two in-place overwrites leave the object holding exactly `Fallback` of its old value |
| Routing.GetCommuteTimes | lib/routing.ts:23-41 | the returned results are `Fallback` of the three fetches |
| DecisionEngine.Rank | lib/decisionEngine.ts:99 | the position of each method in the key order Walk, Bike, Car |
| DecisionEngine.RuleIndex | lib/decisionEngine.ts:23-93 | the position of each rule in the order the code tries them |
| DecisionEngine.TriedScores | lib/decisionEngine.ts:23-93 | at every point the scores are the recorded rules replayed on the baseline 100s |
| DecisionEngine.TriedInOrder | lib/decisionEngine.ts:23-93 | the reasoning lists only rules already tried, in rule order, each at most once |
| DecisionEngine.TriedMembers | lib/decisionEngine.ts:23-93 | the reasoning holds exactly the rules tried so far that fired |
| DecisionEngine.OutcomeSpec | lib/decisionEngine.ts:18-93 | a rule is in the reasoning exactly when it fires; the reasoning is in rule order; the final scores are the fired rules replayed on 100, 100, 100 |
| DecisionEngine.ReasoningBound | lib/decisionEngine.ts:26-92 | the reasoning never holds more than eight entries |
| DecisionEngine.NoRuleFires | lib/decisionEngine.ts:13-17 | when no rule fires the reasoning is empty, all three scores stay 100 and Walk wins |
| DecisionEngine.NothingTried | lib/decisionEngine.ts:13-18 | when no rule fires the state never leaves its start |
| DecisionEngine.PrecipitationEffect | lib/decisionEngine.ts:23-31 | heavy precipitation or snow sets Walk and Bike to 0; otherwise rain takes 30 from Walk and 50 from Bike; Car untouched |
| DecisionEngine.IceEffect | lib/decisionEngine.ts:34-37 | ice sets Bike to 0, discarding any rain penalty, and leaves Walk and Car |
| DecisionEngine.GasEffect | lib/decisionEngine.ts:40-46 | below 5 Car becomes 0, from 5 to 14 it loses 30, from 15 it is unchanged; Walk and Bike untouched |
| DecisionEngine.TemperatureEffect | lib/decisionEngine.ts:51-59 | below 5 or above 30 Walk and Bike lose 20; from 15 to 25 Walk gains 10 and Bike 15; otherwise no change |
| DecisionEngine.SoftDeltas | lib/decisionEngine.ts:62-93 | wind, laziness, urgency and budget add their fixed deltas |
| DecisionEngine.ReplayPerMethod | lib/decisionEngine.ts:23-93 | each method's final score depends only on that method's own changes |
| DecisionEngine.ScoreWithoutVeto | lib/decisionEngine.ts:23-93 | a score never set to 0 ends at its start plus every delta |
| DecisionEngine.ScoreAfterVeto | lib/decisionEngine.ts:23-93 | a score ends at its last assigned value plus every later delta |
| DecisionEngine.VetoNotFinal | lib/decisionEngine.ts:23-93 | a vetoed method ends at 0 plus the deltas of the rules that fire after the veto |
| DecisionEngine.NoVeto | lib/decisionEngine.ts:13-93 | a method never vetoed ends at 100 plus the deltas of the rules that fire |
| DecisionEngine.SameTriggersSameScore | lib/decisionEngine.ts:23-93 | two situations in which every rule that changes a method fires alike give that method equal scores |
| DecisionEngine.CarIgnoresWeather | lib/decisionEngine.ts:23-66 | the weather never changes the car's score |
| DecisionEngine.ActiveIgnoresGas | lib/decisionEngine.ts:40-46 | the gas level never changes the walking or cycling score |
| DecisionEngine.BudgetLiftsVetoedWalk | lib/decisionEngine.ts:23-93 | after heavy precipitation, budget mode alone lifts Walk and Bike from 0 to 20 |
| DecisionEngine.VetoedBikeCanWin | lib/decisionEngine.ts:23-104 | a Bike vetoed by heavy precipitation can still be the recommendation |
| DecisionEngine.TiesGoToWalk | lib/decisionEngine.ts:96-106 | equal scores (all zero, say) give Walk, not the Car the selection starts from |
| DecisionEngine.Winner | lib/decisionEngine.ts:96-104 | the winner has the highest score and is strictly ahead of every earlier method |
| DecisionEngine.WinnerUnique | lib/decisionEngine.ts:96-104 | only one method has both winner properties |
| DecisionEngine.SelectWinner | lib/decisionEngine.ts:96-104 | the `forEach` with strict `>` from -Infinity returns the maximum, ties going to the earliest of Walk, Bike, Car; the initial Car never survives |
| DecisionEngine.HardConstraints | lib/decisionEngine.ts:23-46 | the code of the hard constraints does exactly what the first five rules of the table do |
| DecisionEngine.WeatherFactors | lib/decisionEngine.ts:51-66 | the temperature and wind code does exactly what the next three rules do |
| DecisionEngine.PersonalFactors | lib/decisionEngine.ts:70-93 | the laziness, urgency and budget code does exactly what the last three rules do |
| DecisionEngine.MakeDecision | lib/decisionEngine.ts:12-114 | the returned scores and reasoning are the table's outcome and the best method is their winner |

## Left out

- Network access is not modelled. This covers `fetchSheetData`, the two
  `fetch` calls and the JSON decoding in `fetchWeatherForecast`, and the
  three `fetchRoute` calls. Their results are parameters of the model.
- Logging is not modelled: the two `console.error` calls of
  `fetchWeatherForecast` (lib/weather.ts:31, :76) only write to the console.
- The `try`/`catch` of `fetchWeatherForecast` (lib/weather.ts:75-78) is not
  modelled. It turns a network or decoding failure into null, and there is
  no such failure once the answers are inputs.
- Weather.FetchWeatherForecast: requires every daily array to be at least as
  long as `daily.time` when the forecast answer is ok. With a shorter array
  JavaScript reads `undefined` and computes NaN, which reals cannot
  represent.
- Numbers are Dafny reals and integers, not IEEE-754 doubles. NaN, infinities
  and rounding of `/` are not modelled. `-Infinity` in the winner loop is
  `Bound.NegInfinity`.
- DecisionEngine.MakeDecision: the reasoning is a list of rule tags, not the
  message strings. The temperature interpolated into the extreme-temperature
  message is not modelled.
- DecisionEngine.MakeDecision: the laziness factor is an optional input.
  `UserData` has no `laziness` field, so the source reads `undefined`.
  `undefined > 7` is false, so the rule fires only when a value is given and
  exceeds 7.
- DecisionEngine.MakeDecision: the straight-line code is split into three
  methods, one per section of the source, which are called in order
  (`HardConstraints`, `WeatherFactors`, `PersonalFactors`). The statements
  are those of the source.
- JsString.ToLower: lowers ASCII letters only. Unicode case mapping is not
  modelled. It matters only for header names and boolean words outside
  ASCII.
- The `any` typing of `rawData` is modelled as a `map<string, string>`. A
  header that appears twice keeps the last cell, as in the source. A header
  named `__proto__` is an ordinary key here, while JavaScript's object
  assignment ignores it; no alias has that name, so no record differs.
- `earlyMeeting` is parsed and stored but nothing in the modelled code reads
  it.

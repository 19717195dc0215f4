# Brazilian economic dashboard: a verified Dafny model of its core

This project models the logic behind a dashboard of Brazilian economic indicators (IPCA,
Selic, exchange rate, primary deficit, IOF revenue, GDP and unemployment). It covers
seven pieces:

- **Event detector** (`DetectorEventos`). It marks peaks and valleys, abrupt percentage
  changes and reversals of the moving-average trend. It then merges candidates closer than
  30 days, keeping the more significant one.
- **Forecaster** (`PrevisorSeriesTemporal`), without the Prophet library itself. This covers
  data preparation, periodicity detection from the median gap between dates, the choice of
  seasonalities, horizon and frequency, and the output table that labels rows historical
  or predicted and puts actual values in place of fitted ones. It also covers the four
  module-level normalisers (`processar_dados_*`).
- **IBGE extractor.** It parses quarter labels (`2023 1º trimestre`, `1º trimestre 2023`) into
  dates, and renames, converts, cleans and sorts the GDP and unemployment tables.
- **BCB extractor.** It turns each `{data: dd/mm/yyyy, valor: "1,5"}` item into
  `{data: yyyy-mm-dd, valor: 1.5}` and skips malformed items. It also keeps the map of series
  codes to names.
- **In-memory cache** with a time to live.
- **Configuration store**, addressed by dot-separated keys.
- **Chart helpers:** the choice of the value column of a merged frame, and the wording of a
  correlation coefficient.

Conventions used throughout:

- **Dates.** A date is the day number `date.toordinal()` gives it (module `Calendar`). A
  difference of dates is therefore `(a - b).days`.
- **Missing values.** A pandas missing value is `Null`, `None` or `NaN`.
- **Frames.** A data frame is a list of column names plus rows mapping column to cell
  (module `Frames`).
- **Sorting.** `sort_values` is a stable insertion sort by an integer key.

Layout, one module per file:

| module | models |
|---|---|
| `Base` | the Option type |
| `Text` | the string functions the core relies on: `split`, `title`, `replace`, `int()`, `float()` |
| `Calendar` | proleptic Gregorian day numbers |
| `IsoDate` | `strftime('%Y-%m-%d')` and its parser |
| `Frames` | cells, frames and sorting |
| `EventDetector` | `eventos.py` |
| `Forecaster` | `previsao.py` |
| `Ibge` | `ibge.py` |
| `Bcb` | `bcb.py` |
| `TtlCache` | `cache.py` |
| `ConfigStore` | `config.py` |
| `Display` | `exibidores.py` |

Where the source loops or changes state, the model does the same:

- The event detectors, the proximity filter, periodicity detection, the BCB item loop,
  configuration `get`/`set`, cache purging and statistics, and the normalisers' value-column
  search are methods with loops. Each is proved equal to a specification function, and
  the properties are proved about that function.
- The forecaster, the BCB series map, the cache and the configuration store are classes
  whose methods update their fields.

Where the code and its written description disagree, the model follows the code:

- **Rolling standard deviation of zero.** The event thresholds treat it as a threshold of
  zero: any positive margin is an event. They do not treat it as "no event".
- **Proximity filter.** It does not always keep the first candidate. A later candidate
  within 30 days can replace it (`EventDetector.FirstCandidateReplaced`).

## Model

| member | source | states |
|---|---|---|
| EventDetector.DetectPeaksValleys | src/dados/processadores/eventos.py:85-135 | the loop over interior points returns exactly the peak/valley candidates `PeaksValleys` defines |
| EventDetector.PeaksValleysExactly | src/dados/processadores/eventos.py:102-133 | an event is reported iff some interior point is a strict local maximum (minimum) whose margin over the larger (smaller) neighbour exceeds the threshold, and it carries that point's date and value; fewer than 3 points give none |
| EventDetector.PeakValleyExclusive | src/dados/processadores/eventos.py:114-133 | a point is never both a peak and a valley, so each point yields at most one event |
| EventDetector.DetectAbruptChanges | src/dados/processadores/eventos.py:137-186 | the loop over percentage changes returns exactly `AbruptChanges` |
| EventDetector.ScanChanges | src/dados/processadores/eventos.py:160-186 | the loop over the rows after the first, given the percentage changes and the limit, appends exactly the increases and decreases `AbruptUpTo` lists for all rows |
| EventDetector.AbruptChangesExactly | src/dados/processadores/eventos.py:154-184 | an event is reported iff the change at some point after the first is not NaN and is above the limit (sharp increase), or is not above it and below its negation (sharp decrease), with the limit `2 * sensitivity * mean |pct|` computed with infinities and NaN as pandas does |
| EventDetector.AbruptTestsExclusive | src/dados/processadores/eventos.py:169-184 | for a non-negative sensitivity no change is both above the limit and below its negation |
| EventDetector.NonNegativeSum | src/dados/processadores/eventos.py:158-159 | the sum of absolute changes behind the limit is never negative |
| EventDetector.DetectTrendReversals | src/dados/processadores/eventos.py:188-246 | the loop with the remembered previous delta returns exactly `TrendReversals` |
| EventDetector.ScanTrend | src/dados/processadores/eventos.py:217-246 | the loop from `window` on, remembering the previous delta of the trend column, appends exactly the reversals `TrendUpTo` lists for the deltas of that column |
| EventDetector.TrendReversalsExactly | src/dados/processadores/eventos.py:205-244 | a reversal is reported iff the series has at least 6 points and, at some index from `window + 3` on, the trend delta changes sign strictly with a jump above the threshold; the kind follows the sign of the earlier delta |
| EventDetector.Step | src/dados/processadores/eventos.py:270-293 | one candidate appends exactly when it is at least the minimum gap after the last kept event; within the gap it replaces the last kept event exactly when it supersedes it (a higher peak over a peak, a lower valley over a valley, any other same-kind event, an abrupt change over a non-abrupt event) and is dropped otherwise |
| EventDetector.StepNeverWeakens | src/dados/processadores/eventos.py:280-293 | within the gap the number of kept events is unchanged, a kept peak (valley) is kept unless the candidate is a higher peak (lower valley) or an abrupt change, and a kept abrupt change is never given up for an event of another kind |
| EventDetector.FilterCloseEvents | src/dados/processadores/eventos.py:248-295 | the filtering loop returns exactly `ProximityFilter` |
| EventDetector.WalkCandidates | src/dados/processadores/eventos.py:267-295 | starting from the first sorted candidate, the pass over the others keeps exactly `FilterPrefix` of all of them |
| EventDetector.ProximityFilterSubsequence | src/dados/processadores/eventos.py:260-295 | the filtered events are an in-order subsequence of the date-sorted candidates, non-empty and no longer than the input |
| EventDetector.ProximityFilterSpacing | src/dados/processadores/eventos.py:264-293 | for a non-negative gap the result is sorted by date and every two kept events are at least the gap apart |
| EventDetector.StepSpaced | src/dados/processadores/eventos.py:278-293 | appending or replacing the last kept event keeps the kept list sorted and spaced |
| EventDetector.ProximityFilterMembers | src/dados/processadores/eventos.py:260-295 | every kept event is one of the candidates |
| EventDetector.FirstCandidateReplaced | src/dados/processadores/eventos.py:267-289 | a higher peak nine days after the first one replaces it: the first candidate is not always kept |
| EventDetector.DetectEvents | src/dados/processadores/eventos.py:31-83 | an empty frame or a missing column gives no events; otherwise the result is sorted by date, any two events are at least 30 days apart, and each event has the date and value of a row of the input |
| EventDetector.DetectProperties | src/dados/processadores/eventos.py:53-81 | the same three properties of the full pipeline, as a lemma about `Detect` |
| EventDetector.CandidateOnSeries | src/dados/processadores/eventos.py:65-72 | every candidate of the three detectors is a point of the sorted series |
| EventDetector.PointFromRow | src/dados/processadores/eventos.py:49-53 | every point of the sorted series comes from a row of the input frame |
| Forecaster.Forecaster.constructor | src/dados/processadores/previsao.py:31-50 | the settings are stored and there is no model, prepared data or periodicity yet |
| Forecaster.Forecaster.PrepareData | src/dados/processadores/previsao.py:53-93 | an empty frame or a missing column returns no rows and changes nothing; otherwise the prepared series is the present `(ds, y)` pairs sorted by date, and the periodicity is detected from it |
| Forecaster.PreparedSeries | src/dados/processadores/previsao.py:67-90 | the prepared series is sorted by date, holds exactly the pairs of rows whose date and value are both present, and holds each pair once per row that gives it (`dropna` keeps duplicates) |
| Forecaster.PresentPoints | src/dados/processadores/previsao.py:76-81 | the rows with both cells present give one point each, in row order (an increasing list of exactly those rows), each point occurring once per row that gives it |
| Forecaster.Forecaster.DetectPeriodicity | src/dados/processadores/previsao.py:95-134 | the loop collecting positive gaps among the first ten rows sets the periodicity `PeriodicityOf` defines |
| Forecaster.PeriodicityUnknownIff | src/dados/processadores/previsao.py:102-115 | the periodicity is unknown iff there are fewer than two rows or no sampled gap is positive |
| Forecaster.ConstantCadence | src/dados/processadores/previsao.py:107-134 | a series with a constant gap of `d` days is classified by `d` itself |
| Forecaster.ConstantGaps | src/dados/processadores/previsao.py:107-111 | with a constant positive gap every sampled gap is kept and equals it |
| Forecaster.MedianBetween | src/dados/processadores/previsao.py:118 | the median lies between the smallest and the largest gap |
| Forecaster.ClassifyMonotone | src/dados/processadores/previsao.py:120-134 | a larger median gap never gives a finer periodicity, and a median always gives a known one |
| Forecaster.PositiveGaps | src/dados/processadores/previsao.py:107-111 | at most `k - 1` gaps are collected and all are positive |
| Forecaster.Forecaster.Train | src/dados/processadores/previsao.py:136-181 | without data it fails and keeps the model; otherwise it succeeds iff the fit does, storing the interval width, the seasonality switches and the extra seasonalities of the periodicity, or clearing the model when the fit fails |
| Forecaster.SeasonalitiesByCadence | src/dados/processadores/previsao.py:160-170 | weekly seasonality exactly for daily or weekly data; a 365.25-day yearly one exactly up to monthly data; a 4-period yearly one exactly for quarterly or half-yearly data; none for annual or unknown data; never two yearly ones |
| Forecaster.Forecaster.Predict | src/dados/processadores/previsao.py:183-231 | no request without a model; otherwise the frequency of the periodicity and the given number of periods, or the horizon in years times the periods per year |
| Forecaster.HorizonSpansYears | src/dados/processadores/previsao.py:199-255 | the frequency table and the periods-per-year table agree: the default number of periods at the chosen frequency spans between 364 and 365.25 days per year of horizon, measured with Gregorian mean step lengths that the source itself does not hold |
| Forecaster.Forecaster.ForecastData | src/dados/processadores/previsao.py:257-316 | no forecast gives an empty table; otherwise the table `ForecastTable` defines, sorted by date |
| Forecaster.ForecastTableRows | src/dados/processadores/previsao.py:276-313 | a row is historical iff there is prepared data and its date is not after the last prepared date; without history every row is predicted; each row comes from a forecast row with its date and bounds, and its value is an actual value of that date when history is merged and one exists, and the prediction otherwise |
| Forecaster.ForecastTableKeeps | src/dados/processadores/previsao.py:276-313 | every forecast row that is not filtered out as historical appears with its date and bounds |
| Forecaster.MergeActualsRows | src/dados/processadores/previsao.py:292-306 | the left merge only changes values, and only to an actual value of the same date |
| Forecaster.MergeActualsKeeps | src/dados/processadores/previsao.py:292-306 | a row without actuals survives the merge unchanged, and a row with actuals appears with each actual value of its date |
| Forecaster.MergeRowCopies | src/dados/processadores/previsao.py:292-306 | the left merge of one row gives the row itself when no prepared row has its date; otherwise one copy per prepared row of that date, each actual value occurring as often as its `(date, value)` pair occurs among the prepared rows |
| Forecaster.OnlyPredicted | src/dados/processadores/previsao.py:308-310 | the filter keeps exactly the predicted rows |
| Forecaster.MaxDate | src/dados/processadores/previsao.py:286 | the last date is the date of some row and not before any row's date |
| Forecaster.ActualsOn | src/dados/processadores/previsao.py:298-303 | the actual values found for a date are the prepared values of that date, each once per prepared row holding it |
| Forecaster.FirstPresent | src/dados/processadores/previsao.py:514-519 | the value column is the first candidate name the frame has, and there is none iff it has none |
| Forecaster.SelectValueColumn | src/dados/processadores/previsao.py:514-524 | the search loop with `break` finds the column `FirstPresent` defines |
| Forecaster.CoercedPoints | src/dados/processadores/previsao.py:526-533 | a point is kept iff some row's date coerces to its date and its value converts to its value; the kept rows give one point each, in row order, each point occurring once per row that gives it |
| Forecaster.NormaliseSeriesPoints | src/dados/processadores/previsao.py:481-539 | an empty frame or a frame without a date or value column gives an empty series; otherwise the series holds exactly the rows whose date and value both convert, each point once per row that gives it |
| Forecaster.NormaliseSeries | src/dados/processadores/previsao.py:385-431 | the normalised series is sorted by date |
| Forecaster.CoerceWrittenDate | src/dados/processadores/previsao.py:414-416 | an ISO date written by the BCB extractor is read back as the same day |
| Ibge.QuarterMonth | src/dados/extratores/ibge.py:134-143 | a recognised quarter text gives the last month of a quarter |
| Ibge.QuarterMonthFirstDigit | src/dados/extratores/ibge.py:134-143 | quarter `q` is chosen iff the text contains digit `q` and no smaller quarter digit |
| Ibge.QuarterWordMonth | src/dados/extratores/ibge.py:134-143 | the ordinal `qº` is recognised as quarter `q` |
| Ibge.YearWord | src/dados/extratores/ibge.py:130 | a four-digit year token reads back as the year |
| Ibge.GdpLabelRoundTrip | src/dados/extratores/ibge.py:116-151 | the label `yyyy qº trimestre` converts to the first day of the quarter's last month |
| Ibge.PnadLabelRoundTrip | src/dados/extratores/ibge.py:230-265 | the label `qº trimestre yyyy` converts to the first day of the quarter's last month |
| Ibge.QuarterDateShape | src/dados/extratores/ibge.py:128-147 | every converted date is the first day of March, June, September or December of a valid year |
| Ibge.GdpQuarterDateCases | src/dados/extratores/ibge.py:126-151 | fewer than two words, a first word that is not an integer or a second word naming no quarter give None; an accepted label gives day 1 of the quarter's last month in the year its first word names |
| Ibge.PnadQuarterDateCases | src/dados/extratores/ibge.py:240-265 | fewer than two words, a last word that is not an integer or a first word naming no quarter give None; an accepted label gives day 1 of the quarter's last month in the year its last word names |
| Ibge.QuarterDateNonText | src/dados/extratores/ibge.py:126-151 | a cell that is not a text (its `split` raises) gives None in both converters |
| Ibge.QuarterDateParts | src/dados/extratores/ibge.py:140-147 | a quarter date exists exactly when the year parsed, the text names a quarter and day 1 of that quarter's last month is a valid date; that day is then the result |
| Ibge.ConvertedPoints | src/dados/extratores/ibge.py:94-105 | a point is kept iff some row's label converts to its date and its value converts to its value; the kept rows give one point each, in row order, each point occurring once per row that gives it |
| Ibge.ConvertedFacts | src/dados/extratores/ibge.py:94-105 | for any label parser, the conversion keeps a point iff some row's label parses to its date and its value converts to its value, once per such row and in row order |
| Ibge.ProcessQuarterSeriesPoints | src/dados/extratores/ibge.py:81-113 | `V` and the code column are renamed when both are present; the processing fails (KeyError) exactly when `data` or `valor` is then missing; otherwise the result is sorted and holds exactly the converted rows, each point once per row that gives it (the same holds for the survey table, ibge.py:195-227) |
| Bcb.ParseBcbDate | src/dados/extratores/bcb.py:133-134 | an accepted `dd/mm/yyyy` text is a valid calendar date |
| Bcb.ParseFormatBcbDate | src/dados/extratores/bcb.py:133-134 | every valid date written as `dd/mm/yyyy` parses back to itself |
| Bcb.AcceptedDate | src/dados/extratores/bcb.py:133-135 | an accepted item had a text date, and its ISO output reads back as the date parsed from it |
| Bcb.DecimalComma | src/dados/extratores/bcb.py:137-139 | a Brazilian decimal `i,f` is read as the number `i.f` |
| Bcb.ProcessOne | src/dados/extratores/bcb.py:131-152 | one item gives the outcome `ProcessItem` defines |
| Bcb.ProcessItems | src/dados/extratores/bcb.py:118-153 | the item loop returns exactly `ProcessAll` |
| Bcb.ProcessLoop | src/dados/extratores/bcb.py:130-153 | the item loop, given each item's result, returns what `Collect` gives for all of them: it stops at the first fatal item and appends the accepted ones in order |
| Bcb.ProcessAt | src/dados/extratores/bcb.py:133-149 | the `try` block on the `i`-th item yields that item's result |
| Bcb.ProcessAllShape | src/dados/extratores/bcb.py:118-153 | the call raises iff some item has no text date or a non-text value; otherwise the result is every accepted item, once each and in input order, so it is no longer than the input |
| Bcb.CollectRaises | src/dados/extratores/bcb.py:131-151 | after `k` items the call has raised iff one of them was fatal |
| Bcb.BcbExtractor.AddSeries | src/dados/extratores/bcb.py:155-164 | the code maps to the new name and every other code is unchanged |
| Bcb.BcbExtractor.RemoveSeries | src/dados/extratores/bcb.py:166-181 | returns whether the code was present, and removes exactly that code |
| IsoDate.ParseFormatIso | src/dados/extratores/bcb.py:135 | every valid date written as `yyyy-mm-dd` parses back to itself |
| IsoDate.FormatParseIso | src/dados/extratores/bcb.py:135 | every accepted ISO text is the writing of the date it parses to |
| Calendar.OrdinalOrder | src/dados/processadores/eventos.py:53 | day numbers follow calendar order, so sorting by day number sorts by date |
| Frames.SortBy | src/dados/processadores/eventos.py:53 | the sort returns a date-sorted permutation of its input |
| Frames.FilterMapFacts | src/dados/processadores/previsao.py:81 | dropping the rows a conversion rejects keeps one value per accepted row, in row order, each value occurring once per row converted to it |
| TtlCache.Cache.Get | src/utils/cache.py:30-50 | an absent key gives None; an entry past its expiry time gives None and is deleted; otherwise the value is returned and nothing changes |
| TtlCache.Cache.Set | src/utils/cache.py:52-68 | the key maps to the value, created now and expiring `ttl` seconds from now (the default when none is given), replacing any earlier entry |
| TtlCache.Cache.Clear | src/utils/cache.py:70-73 | the cache is empty |
| TtlCache.Cache.PurgeExpired | src/utils/cache.py:75-91 | exactly the expired entries are removed, and their number is returned |
| TtlCache.Cache.Stats | src/utils/cache.py:93-110 | the total is the number of entries, the valid ones are those not past expiry, and valid plus expired is the total; the expired count is what a purge would remove |
| TtlCache.KeysPartition | src/utils/cache.py:100-108 | live and expired keys partition the keys, so their counts add up to the total |
| TtlCache.SetThenGet | src/utils/cache.py:46-50 | a stored value is returned by every `get` up to and including its expiry time |
| TtlCache.SetThenGetLate | src/utils/cache.py:46-48 | after its expiry time a stored value is gone and `get` deletes it |
| TtlCache.ExpiryIsFinal | src/utils/cache.py:46-48 | once a key answers None it answers None at every later time |
| TtlCache.GetIsTransparent | src/utils/cache.py:46-48 | the deletion done by `get` changes no answer now or later |
| TtlCache.PurgeIsTransparent | src/utils/cache.py:82-89 | purging changes no answer now or later and leaves the live entries untouched |
| TtlCache.PurgeLeavesNoneExpired | src/utils/cache.py:82-91 | right after a purge nothing is expired |
| ConfigStore.Configurator.constructor | src/utils/config.py:17-84 | the store starts from the shipped default tree |
| ConfigStore.Configurator.Get | src/utils/config.py:86-104 | the cursor loop gives the value along the dot-separated path, or the default when a segment is missing or an intermediate value is not a dictionary |
| ConfigStore.Configurator.Set | src/utils/config.py:106-126 | a successful walk stores the value along the path, creating missing dictionaries; a blocked walk leaves the store unchanged |
| ConfigStore.AssignWalk | src/utils/config.py:115-124 | the walk down the path, creating missing dictionaries and storing the value under the last segment, gives exactly `Assign`, None when it meets a non-dictionary |
| ConfigStore.AssignThenLookup | src/utils/config.py:116-124 | after a successful `set(k, v)`, `get(k)` gives `v`, and a path under `k` gives what it gives inside `v` |
| ConfigStore.AssignFrame | src/utils/config.py:116-124 | a successful `set(k, v)` leaves every path neither on nor under `k` unchanged |
| ConfigStore.AssignCreatesPath | src/utils/config.py:119-122 | after a successful `set` every proper prefix of the key holds a dictionary |
| ConfigStore.AssignFailsIff | src/utils/config.py:119-126 | `set` fails exactly when a proper prefix of the key holds something other than a dictionary |
| ConfigStore.LookupAppend | src/utils/config.py:99-102 | looking up `p + q` is looking up `q` from where `p` leads |
| ConfigStore.Configurator.GetIndicatorConfig | src/utils/config.py:128-143 | the answer is `get('indicadores.<id>')` with the default indicator configuration |
| ConfigStore.IndicatorConfigOf | src/utils/config.py:138-143 | for an identifier without a dot, the stored entry when there is one, otherwise the title-cased name, empty unit, colour `#666666` and description `Indicador <id>` |
| ConfigStore.Configurator.ListIndicators | src/utils/config.py:145-156 | the answer is `Listing`, None when the source raises |
| ConfigStore.ListingAgrees | src/utils/config.py:152-156 | the listing has exactly the stored identifiers, and each name is the `nome` of its configuration or the title-cased identifier |
| Display.ConfiguredColumn | src/visualizacao/componentes/exibidores.py:407-411 | the configured column is used iff it is a non-empty name whose suffixed form is a column |
| Display.FirstCommon | src/visualizacao/componentes/exibidores.py:414-417 | the first of the common names whose suffixed form is a column, none iff no such form is a column |
| Display.NumericCandidates | src/visualizacao/componentes/exibidores.py:420-423 | exactly the columns that end with the suffix, are not the suffixed `data`/`ano` and are numeric, the first of them first in column order |
| Display.FindValueColumn | src/visualizacao/componentes/exibidores.py:394-428 | a chosen column is a column of the frame and ends with the suffix |
| Display.FindValueColumnCases | src/visualizacao/componentes/exibidores.py:406-428 | the configured column wins, then the first common one, then the first numeric candidate in column order; none iff none of the three exists |
| Display.PlainValueColumn | src/visualizacao/componentes/exibidores.py:414-417 | without a suffix and without a configured column, a `valor` column is chosen |
| Display.StrengthMonotone | src/visualizacao/componentes/exibidores.py:353-358 | the strength word never weakens as the absolute coefficient grows |
| Display.StrengthTiers | src/visualizacao/componentes/exibidores.py:353-358 | weak below 0.3 in absolute value, moderate from 0.3 to below 0.7, strong from 0.7 |
| Display.LabelSign | src/visualizacao/componentes/exibidores.py:360-363 | the label ends in ` negativa` iff the coefficient is negative and in ` positiva` iff it is positive |
| Display.LabelNegation | src/visualizacao/componentes/exibidores.py:353-363 | negating the coefficient keeps the strength and swaps the sign word |
| Display.UndefinedCorrelationIsStrong | src/visualizacao/componentes/exibidores.py:353-363 | as written, a NaN coefficient is labelled `Correlação forte`, a wording no defined coefficient receives |
| Display.CorrelationLabel | src/visualizacao/componentes/exibidores.py:353-363 | the corrected wording: none exactly for NaN, the source's wording for every defined coefficient |

## Left out

- Prophet itself: fitting, prediction, cross-validation and `avaliar_modelo`. A fit is a
  boolean parameter and a forecast is an input list of `(ds, yhat, lower, upper)` rows.
- `prever` called from `obter_dados_previsao` when no forecast is passed: it needs Prophet.
  The model takes the forecast as an argument.
- Rolling standard deviation and the other floating-point statistics of the detector. The
  mean of the rolling standard deviation is a parameter (None when it is NaN), and
  arithmetic is exact on reals.
- NaN inside the detector's value column. The detector's input is a well-typed frame:
  dates in the date column and numbers in the value column.
- EventDetector.DetectEvents: requires that every row holds a date and a number (when both
  columns exist), because the model has no NaN arithmetic for missing cells.
- Forecaster.Forecaster.PrepareData: requires that the two columns hold dates, numbers or
  missing cells. Other cell types would make pandas raise or coerce.
- Event descriptions and other display texts, logging, and the unused `media_movel`.
- The line-213 guard of the trend detector. For a series of at least six points it can
  never return.
- Tie order in sorting. pandas' default sort is not stable; the model's is.
- HTTP requests, file reading and writing, `os.makedirs`, environment lookups, the
  dashboard page and the exporters.
- List-of-dictionaries input to the `processar_dados_*` normalisers. Only the frame input
  is modelled.
- Frames that hold duplicate column names after renaming (`V`/`D2C` next to an existing
  `valor`/`data`, or a date column equal to the value column).
- Date texts other than ISO `yyyy-mm-dd` in `pd.to_datetime`. A numeric cell in a date
  column (pandas reads it as nanoseconds since the epoch) reads as missing. A date cell
  in a value column reads as missing.
- The spellings `inf`/`nan` accepted by `float()` and `pd.to_numeric`.
- Non-ASCII digits accepted by `int()` and `strptime`.
- Unicode case mapping in `str.title()`: ASCII letters only.
- Years below 1000 in `strftime('%Y')`, whose padding is platform-dependent. The model
  pads to four digits.
- TtlCache.Cache.Set: the creation time and expiry are computed from one `now`. The source
  reads the clock twice.
- `tamanho_mb` in the cache statistics: it measures `len(str(...))` of the dictionary.
- Aliasing in the configuration store: `get` returns the stored dictionary itself, which a
  caller could then mutate. The model's tree is a value.
- ConfigStore.Configurator.Set: stops at the first non-dictionary on the path. The source
  stops there or one step later (a substring test on a text), with the same result.
- Values of types other than dictionary, text and integer in the configuration.
- The shipped configuration is stated by the constructor. No lemma evaluates lookups in it.
- Display: which columns have a numeric type is a parameter (`is_numeric_dtype`), and
  columns are assumed distinct.
- The Pearson coefficient itself (`Series.corr`) is an input, defined or NaN.

## Findings

| source | as written | input that shows it | evidently intended | confidence | as-written member | corrected member |
|---|---|---|---|---|---|---|
| src/visualizacao/componentes/exibidores.py:353-363 | all comparisons with NaN are false, so an undefined coefficient falls to the last tier and gets no sign | two series with fewer than two common rows, or one constant series: `corr` is NaN, and the label reads `Correlação forte` | an undefined coefficient is reported as undefined, not as a strong correlation | not executed | Display.UndefinedCorrelationIsStrong | Display.CorrelationLabel |

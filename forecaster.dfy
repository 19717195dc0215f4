/** The bookkeeping of `PrevisorSeriesTemporal` (src/dados/processadores/previsao.py)
    around the Prophet library: preparing the `ds, y` series, classifying its cadence,
    choosing seasonalities, the default horizon and pandas frequency, the "not trained"
    guards, assembling the output table from a forecast, and the four `processar_dados_*`
    normalisers. Prophet itself is outside the model: fitting is a boolean outcome
    given by the caller and a forecast is an input sequence of rows. */
module Forecaster {
  import opened Base
  import opened Frames
  import opened Text
  import opened Calendar
  import opened IsoDate

  /** `diaria`, `semanal`, `quinzenal`, `mensal`, `trimestral`, `semestral`, `anual`,
      `desconhecida`. */
  datatype Periodicity = Daily | Weekly | Fortnightly | Monthly | Quarterly | SemiAnnual | Annual | Unknown

  /** Position of a known cadence from the shortest to the longest. */
  function Rank(p: Periodicity): nat {
    match p
    case Daily => 0
    case Weekly => 1
    case Fortnightly => 2
    case Monthly => 3
    case Quarterly => 4
    case SemiAnnual => 5
    case Annual => 6
    case Unknown => 7
  }

  // ===========================================================================
  // Periodicity detection (previsao.py:95-134)

  /** The classification of a median day gap through the thresholds 1, 7, 15, 45, 100
      and 200 days. */
  function Classify(m: real): (p: Periodicity)
    ensures p != Unknown
  {
    if m <= 1.0 then Daily
    else if m <= 7.0 then Weekly
    else if m <= 15.0 then Fortnightly
    else if m <= 45.0 then Monthly
    else if m <= 100.0 then Quarterly
    else if m <= 200.0 then SemiAnnual
    else Annual
  }

  /** A longer median gap never gives a shorter cadence, and it always gives a known one. */
  lemma ClassifyMonotone(a: real, b: real)
    requires a <= b
    ensures Rank(Classify(a)) <= Rank(Classify(b)) < Rank(Unknown)
  {
  }

  /** The number of leading rows whose consecutive gaps are inspected: `min(10, n)`. */
  function SampleSize(n: nat): nat {
    if n < 10 then n else 10
  }

  /** The positive day gaps between consecutive rows among the first `k` rows. */
  function PositiveGaps(rows: seq<Point>, k: int): (gaps: seq<int>)
    requires 1 <= k <= |rows|
    ensures |gaps| <= k - 1
    ensures forall g :: g in gaps ==> g > 0
  {
    if k == 1 then []
    else
      var gap := rows[k - 1].date - rows[k - 2].date;
      PositiveGaps(rows, k - 1) + (if gap > 0 then [gap] else [])
  }

  function IntKey(x: int): int { x }

  /** `np.median`: the middle element of the sorted values, or the mean of the two middle
      elements for an even count. */
  function Median(s: seq<int>): real
    requires |s| > 0
  {
    var t := SortBy(s, IntKey);
    if |t| % 2 == 1 then t[|t| / 2] as real
    else (t[|t| / 2 - 1] + t[|t| / 2]) as real / 2.0
  }

  /** The median lies between two of the values. */
  lemma MedianBetween(s: seq<int>)
    requires |s| > 0
    ensures exists i :: 0 <= i < |s| && s[i] as real <= Median(s)
    ensures exists j :: 0 <= j < |s| && Median(s) <= s[j] as real
  {
    var t := SortBy(s, IntKey);
    var hi := t[|t| / 2];
    var lo := if |t| % 2 == 1 then hi else t[|t| / 2 - 1];
    assert lo <= hi;
    SortByMembers(s, IntKey, lo);
    SortByMembers(s, IntKey, hi);
    var i :| 0 <= i < |s| && s[i] == lo;
    var j :| 0 <= j < |s| && s[j] == hi;
  }

  function PeriodicityOf(rows: seq<Point>): Periodicity {
    if |rows| < 2 then Unknown
    else
      var gaps := PositiveGaps(rows, SampleSize(|rows|));
      if gaps == [] then Unknown else Classify(Median(gaps))
  }

  /** The cadence is unknown exactly when there are fewer than two rows or no forward step
      among the first ten rows. */
  lemma {:induction false} PeriodicityUnknownIff(rows: seq<Point>)
    ensures PeriodicityOf(rows) == Unknown <==>
      |rows| < 2 || forall i :: 1 <= i < SampleSize(|rows|) ==> rows[i].date <= rows[i - 1].date
  {
    if |rows| >= 2 {
      var gaps := PositiveGaps(rows, SampleSize(|rows|));
      NoPositiveGapIff(rows, SampleSize(|rows|));
      if gaps != [] {
        assert PeriodicityOf(rows) == Classify(Median(gaps));
      }
    }
  }

  lemma {:induction false} NoPositiveGapIff(rows: seq<Point>, k: int)
    requires 1 <= k <= |rows|
    ensures PositiveGaps(rows, k) == [] <==> forall i :: 1 <= i < k ==> rows[i].date <= rows[i - 1].date
  {
    if k > 1 {
      NoPositiveGapIff(rows, k - 1);
    }
  }

  /** A series sampled at a constant forward step of `d` days is classified by `d`. */
  lemma ConstantCadence(rows: seq<Point>, d: int)
    requires |rows| >= 2 && d > 0
    requires forall i :: 1 <= i < |rows| ==> rows[i].date - rows[i - 1].date == d
    ensures PeriodicityOf(rows) == Classify(d as real)
  {
    var gaps := PositiveGaps(rows, SampleSize(|rows|));
    ConstantGaps(rows, SampleSize(|rows|), d);
    MedianBetween(gaps);
    var i :| 0 <= i < |gaps| && gaps[i] as real <= Median(gaps);
    var j :| 0 <= j < |gaps| && Median(gaps) <= gaps[j] as real;
    assert gaps[i] in gaps && gaps[j] in gaps;
    assert Median(gaps) == d as real;
    assert PeriodicityOf(rows) == Classify(Median(gaps));
  }

  lemma {:induction false} ConstantGaps(rows: seq<Point>, k: int, d: int)
    requires 1 <= k <= |rows| && d > 0
    requires forall i :: 1 <= i < |rows| ==> rows[i].date - rows[i - 1].date == d
    ensures |PositiveGaps(rows, k)| == k - 1
    ensures forall g :: g in PositiveGaps(rows, k) ==> g == d
  {
    if k > 1 {
      ConstantGaps(rows, k - 1, d);
    }
  }

  // ===========================================================================
  // Seasonalities, horizon and frequency tables (previsao.py:163-170, 199-215, 240-255)

  datatype Seasonality = Seasonality(name: string, period: real, fourierOrder: nat)

  /** The seasonalities `treinar` adds for a cadence (`None`: never detected). */
  function Seasonalities(p: Periodicity): seq<Seasonality> {
    (if p == Daily || p == Weekly then [Seasonality("weekly", 7.0, 3)] else [])
    + (if Rank(p) <= Rank(Monthly) then [Seasonality("yearly", 365.25, 5)] else [])
    + (if p == Quarterly || p == SemiAnnual then [Seasonality("yearly", 4.0, 3)] else [])
  }

  /** Weekly seasonality only for daily and weekly data; a single yearly one with period
      365.25 up to monthly data and period 4 for quarterly and half-yearly data; nothing
      for annual or unknown cadences. */
  lemma SeasonalitiesByCadence(p: Periodicity)
    ensures var r := Seasonalities(p);
      && (Seasonality("weekly", 7.0, 3) in r <==> p == Daily || p == Weekly)
      && (Seasonality("yearly", 365.25, 5) in r <==> p in {Daily, Weekly, Fortnightly, Monthly})
      && (Seasonality("yearly", 4.0, 3) in r <==> p == Quarterly || p == SemiAnnual)
      && (r == [] <==> p == Annual || p == Unknown)
      && |set s | s in r && s.name == "yearly"| <= 1
  {
    var r := Seasonalities(p);
    if Rank(p) <= Rank(Monthly) {
      assert Seasonality("yearly", 365.25, 5) in r;
      assert (set s | s in r && s.name == "yearly") == {Seasonality("yearly", 365.25, 5)};
    } else if p == Quarterly || p == SemiAnnual {
      assert (set s | s in r && s.name == "yearly") == {Seasonality("yearly", 4.0, 3)};
    } else {
      assert (set s | s in r && s.name == "yearly") == {};
    }
  }

  /** Periods per year of the default horizon. */
  function PeriodsPerYear(p: Periodicity): int {
    match p
    case Daily => 365
    case Weekly => 52
    case Fortnightly => 26
    case Monthly => 12
    case Quarterly => 4
    case SemiAnnual => 2
    case Annual => 1
    case Unknown => 12
  }

  function DefaultPeriods(p: Periodicity, horizonYears: int): int {
    horizonYears * PeriodsPerYear(p)
  }

  /** `_obter_frequencia_pandas`. */
  function Frequency(p: Periodicity): string {
    match p
    case Daily => "D"
    case Weekly => "W"
    case Fortnightly => "2W"
    case Monthly => "M"
    case Quarterly => "Q"
    case SemiAnnual => "6M"
    case Annual => "Y"
    case Unknown => "M"
  }

  /** The mean length in days of one step of a pandas frequency in the Gregorian calendar
      (a month is 365.25 / 12 days, and so on). The source holds no such table: it serves
      only to check that the frequency table and the periods-per-year table of `prever`
      agree with each other. */
  function NominalDays(freq: string): real {
    if freq == "D" then 1.0
    else if freq == "W" then 7.0
    else if freq == "2W" then 14.0
    else if freq == "M" then 30.4375
    else if freq == "Q" then 91.3125
    else if freq == "6M" then 182.625
    else if freq == "Y" then 365.25
    else 0.0
  }

  /** The two tables of `prever` agree: the default number of periods, stepped at the
      chosen frequency, spans the horizon, between 364 and 365.25 days per year of
      horizon, whatever the cadence. */
  lemma HorizonSpansYears(p: Periodicity, horizonYears: nat)
    ensures var span := DefaultPeriods(p, horizonYears) as real * NominalDays(Frequency(p));
            364.0 * horizonYears as real <= span <= 365.25 * horizonYears as real
  {
  }

  // ===========================================================================
  // Output table (previsao.py:257-316)

  /** One row of the Prophet forecast: `ds, yhat, yhat_lower, yhat_upper`. */
  datatype ForecastRow = ForecastRow(ds: int, yhat: real, lower: real, upper: real)

  /** `histórico` or `previsão`. */
  datatype RowKind = Historical | Predicted

  datatype OutputRow = OutputRow(date: int, value: real, lower: real, upper: real, kind: RowKind)

  function OutputDate(r: OutputRow): int { r.date }

  /** `dados_preparados['ds'].max()`. */
  function MaxDate(rows: seq<Point>): (m: int)
    requires |rows| > 0
    ensures exists i :: 0 <= i < |rows| && rows[i].date == m
    ensures forall i :: 0 <= i < |rows| ==> rows[i].date <= m
  {
    if |rows| == 1 then rows[0].date
    else
      var m := MaxDate(rows[..|rows| - 1]);
      assert forall i :: 0 <= i < |rows| - 1 ==> rows[..|rows| - 1][i] == rows[i];
      if rows[|rows| - 1].date > m then rows[|rows| - 1].date else m
  }

  function Label(f: seq<ForecastRow>, kind: int -> RowKind): (r: seq<OutputRow>)
    ensures |r| == |f|
    ensures forall i :: 0 <= i < |f| ==> r[i] == OutputRow(f[i].ds, f[i].yhat, f[i].lower, f[i].upper, kind(f[i].ds))
  {
    seq(|f|, i requires 0 <= i < |f| => OutputRow(f[i].ds, f[i].yhat, f[i].lower, f[i].upper, kind(f[i].ds)))
  }

  /** The actual values recorded on `date`, in order of the prepared rows. */
  function ActualsOn(prepared: seq<Point>, date: int): (ys: seq<real>)
    ensures forall y :: y in ys <==> Point(date, y) in prepared
    ensures forall y :: multiset(ys)[y] == multiset(prepared)[Point(date, y)]
  {
    if prepared == [] then []
    else
      var last := prepared[|prepared| - 1];
      assert prepared == prepared[..|prepared| - 1] + [last];
      ActualsOn(prepared[..|prepared| - 1], date) + (if last.date == date then [last.value] else [])
  }

  /** Copies of `r`, one per value of `ys`, each carrying that value. */
  function WithValues(r: OutputRow, ys: seq<real>): (out: seq<OutputRow>)
    ensures |out| == |ys|
    ensures forall k :: 0 <= k < |ys| ==> out[k] == r.(value := ys[k])
  {
    if ys == [] then [] else WithValues(r, ys[..|ys| - 1]) + [r.(value := ys[|ys| - 1])]
  }

  /** Each value of `ys` gives its copy of `r` as many times as it occurs in `ys`. */
  lemma {:induction false} WithValuesCount(r: OutputRow, ys: seq<real>, y: real)
    ensures multiset(WithValues(r, ys))[r.(value := y)] == multiset(ys)[y]
  {
    if ys != [] {
      var n := |ys| - 1;
      WithValuesCount(r, ys[..n], y);
      assert ys == ys[..n] + [ys[n]];
      assert r.(value := ys[n]) == r.(value := y) <==> ys[n] == y;
    }
  }

  /** The left merge on `data` for one row, followed by the masked overwrite of `valor`:
      one copy of the row per prepared row of the same date, carrying that actual value,
      or the row unchanged when there is none. */
  function MergeRow(r: OutputRow, prepared: seq<Point>): (out: seq<OutputRow>)
    ensures |out| >= 1
  {
    var ys := ActualsOn(prepared, r.date);
    if ys == [] then [r] else WithValues(r, ys)
  }

  /** The merge of one row: the row itself when no prepared row has its date; otherwise
      one copy per prepared row of that date, so each actual value `y` appears as often as
      `(date, y)` occurs among the prepared rows, and the number of copies is the number of
      such rows. */
  lemma MergeRowCopies(r: OutputRow, prepared: seq<Point>, y: real)
    ensures ActualsOn(prepared, r.date) == [] ==> MergeRow(r, prepared) == [r]
    ensures ActualsOn(prepared, r.date) != [] ==>
      multiset(MergeRow(r, prepared))[r.(value := y)] == multiset(prepared)[Point(r.date, y)]
    ensures ActualsOn(prepared, r.date) != [] ==>
      |MergeRow(r, prepared)| == |multiset(ActualsOn(prepared, r.date))| &&
      forall o :: o in MergeRow(r, prepared) ==> o == r.(value := o.value) && Point(r.date, o.value) in prepared
  {
    var ys := ActualsOn(prepared, r.date);
    if ys != [] {
      WithValuesCount(r, ys, y);
      forall o | o in MergeRow(r, prepared)
        ensures o == r.(value := o.value) && Point(r.date, o.value) in prepared
      {
        var k :| 0 <= k < |ys| && WithValues(r, ys)[k] == o;
        assert ys[k] in ys;
      }
    }
  }

  function MergeActuals(rows: seq<OutputRow>, prepared: seq<Point>): seq<OutputRow> {
    if rows == [] then []
    else MergeActuals(rows[..|rows| - 1], prepared) + MergeRow(rows[|rows| - 1], prepared)
  }

  function OnlyPredicted(rows: seq<OutputRow>): (r: seq<OutputRow>)
    ensures forall o :: o in r <==> o in rows && o.kind == Predicted
  {
    if rows == [] then []
    else
      var last := rows[|rows| - 1];
      assert rows == rows[..|rows| - 1] + [last];
      OnlyPredicted(rows[..|rows| - 1]) + (if last.kind == Predicted then [last] else [])
  }

  function HistoricalUpTo(last: int): int -> RowKind {
    d => if d <= last then Historical else Predicted
  }

  function AllPredicted(): int -> RowKind {
    d => Predicted
  }

  /** `obter_dados_previsao` for a forecast the caller supplies. */
  function ForecastTable(prepared: Option<seq<Point>>, forecast: seq<ForecastRow>, includeHistory: bool): seq<OutputRow> {
    if forecast == [] then []
    else if prepared.Some? && prepared.value != [] then
      var labelled := Label(forecast, HistoricalUpTo(MaxDate(prepared.value)));
      var rows := if includeHistory then MergeActuals(labelled, prepared.value) else OnlyPredicted(labelled);
      SortBy(rows, OutputDate)
    else
      SortBy(Label(forecast, AllPredicted()), OutputDate)
  }

  /** The series `treinar` fits: the given one, or else the prepared one; it must exist
      and be non-empty. */
  predicate HasSeries(data: Option<seq<Point>>, prepared: Option<seq<Point>>) {
    var series := if data.Some? then data else prepared;
    series.Some? && series.value != []
  }

  predicate HasHistory(prepared: Option<seq<Point>>) {
    prepared.Some? && prepared.value != []
  }

  /** Every merged row comes from one forecast row with its date, bounds and label, and
      holds an actual value of that date when there is one, the prediction otherwise. */
  lemma {:induction false} MergeActualsRows(rows: seq<OutputRow>, prepared: seq<Point>, o: OutputRow)
    requires o in MergeActuals(rows, prepared)
    ensures exists r :: (r in rows && o == r.(value := o.value) &&
      (if ActualsOn(prepared, r.date) == [] then o.value == r.value else Point(r.date, o.value) in prepared))
  {
    var init := rows[..|rows| - 1];
    var r := rows[|rows| - 1];
    if o in MergeActuals(init, prepared) {
      MergeActualsRows(init, prepared, o);
      var r' :| r' in init && o == r'.(value := o.value) &&
        (if ActualsOn(prepared, r'.date) == [] then o.value == r'.value else Point(r'.date, o.value) in prepared);
      assert r' in rows;
    } else {
      var ys := ActualsOn(prepared, r.date);
      assert o in MergeRow(r, prepared);
      if ys != [] {
        var k :| 0 <= k < |ys| && o == r.(value := ys[k]);
        assert ys[k] in ys;
      }
    }
  }

  /** Every input row is represented in the merge, with each actual value of its date. */
  lemma {:induction false} MergeActualsKeeps(rows: seq<OutputRow>, prepared: seq<Point>, r: OutputRow)
    requires r in rows
    ensures ActualsOn(prepared, r.date) == [] ==> r in MergeActuals(rows, prepared)
    ensures forall y :: Point(r.date, y) in prepared ==> r.(value := y) in MergeActuals(rows, prepared)
  {
    var init := rows[..|rows| - 1];
    if r in init {
      MergeActualsKeeps(init, prepared, r);
    } else {
      assert r == rows[|rows| - 1];
      var ys := ActualsOn(prepared, r.date);
      forall y | Point(r.date, y) in prepared
        ensures r.(value := y) in MergeActuals(rows, prepared)
      {
        var k :| 0 <= k < |ys| && ys[k] == y;
        assert MergeRow(r, prepared)[k] == r.(value := y);
      }
    }
  }

  /** Labels: a row is historical exactly when prepared data exists and its date is not
      after the last prepared date. Values: with history included, a row holds an actual
      value exactly on prepared dates, the prediction elsewhere; bounds stay predicted.
      Without history only predicted rows remain. The table is sorted by date. */
  lemma ForecastTableRows(prepared: Option<seq<Point>>, forecast: seq<ForecastRow>, includeHistory: bool, o: OutputRow)
    requires o in ForecastTable(prepared, forecast, includeHistory)
    ensures o.kind == Historical <==> HasHistory(prepared) && o.date <= MaxDate(prepared.value)
    ensures !includeHistory ==> o.kind == Predicted
    ensures exists f :: (f in forecast && o.date == f.ds && o.lower == f.lower && o.upper == f.upper &&
      if includeHistory && HasHistory(prepared) && ActualsOn(prepared.value, f.ds) != []
      then Point(f.ds, o.value) in prepared.value
      else o.value == f.yhat)
  {
    if HasHistory(prepared) {
      var p := prepared.value;
      var labelled := Label(forecast, HistoricalUpTo(MaxDate(p)));
      if includeHistory {
        SortByMembers(MergeActuals(labelled, p), OutputDate, o);
        MergedRowsFrom(p, forecast, o);
      } else {
        SortByMembers(OnlyPredicted(labelled), OutputDate, o);
        PredictedRowsFrom(p, forecast, o);
        var f :| f in forecast && o == OutputRow(f.ds, f.yhat, f.lower, f.upper, Predicted);
        assert o.value == f.yhat;
      }
    } else {
      SortByMembers(Label(forecast, AllPredicted()), OutputDate, o);
      AllPredictedRowsFrom(forecast, o);
      var f :| f in forecast && o == OutputRow(f.ds, f.yhat, f.lower, f.upper, Predicted);
      assert o.value == f.yhat;
    }
  }

  /** A row of the merged table (history included) comes from one forecast row, holding an
      actual value of its date when there is one; it is historical up to the last prepared
      date. */
  lemma MergedRowsFrom(p: seq<Point>, forecast: seq<ForecastRow>, o: OutputRow)
    requires p != [] && o in MergeActuals(Label(forecast, HistoricalUpTo(MaxDate(p))), p)
    ensures o.kind == Historical <==> o.date <= MaxDate(p)
    ensures exists f :: (f in forecast && o.date == f.ds && o.lower == f.lower && o.upper == f.upper &&
      if ActualsOn(p, f.ds) != [] then Point(f.ds, o.value) in p else o.value == f.yhat)
  {
    var labelled := Label(forecast, HistoricalUpTo(MaxDate(p)));
    MergeActualsRows(labelled, p, o);
    var r :| r in labelled && o == r.(value := o.value) &&
      (if ActualsOn(p, r.date) == [] then o.value == r.value else Point(r.date, o.value) in p);
    LabelFrom(forecast, HistoricalUpTo(MaxDate(p)), r);
  }

  /** A labelled row is a forecast row with its label. */
  lemma LabelFrom(forecast: seq<ForecastRow>, kind: int -> RowKind, r: OutputRow)
    requires r in Label(forecast, kind)
    ensures exists f :: f in forecast && r == OutputRow(f.ds, f.yhat, f.lower, f.upper, kind(f.ds))
  {
    var labelled := Label(forecast, kind);
    var i :| 0 <= i < |labelled| && labelled[i] == r;
    assert forecast[i] in forecast;
  }

  /** A row left when history is excluded is a predicted forecast row after the last
      prepared date. */
  lemma PredictedRowsFrom(p: seq<Point>, forecast: seq<ForecastRow>, o: OutputRow)
    requires p != [] && o in OnlyPredicted(Label(forecast, HistoricalUpTo(MaxDate(p))))
    ensures o.kind == Predicted && o.date > MaxDate(p)
    ensures exists f :: f in forecast && o == OutputRow(f.ds, f.yhat, f.lower, f.upper, Predicted)
  {
    var labelled := Label(forecast, HistoricalUpTo(MaxDate(p)));
    var i :| 0 <= i < |labelled| && labelled[i] == o;
    assert forecast[i] in forecast;
  }

  /** Without prepared data every row is a predicted forecast row. */
  lemma AllPredictedRowsFrom(forecast: seq<ForecastRow>, o: OutputRow)
    requires o in Label(forecast, AllPredicted())
    ensures exists f :: f in forecast && o == OutputRow(f.ds, f.yhat, f.lower, f.upper, Predicted)
  {
    var labelled := Label(forecast, AllPredicted());
    var i :| 0 <= i < |labelled| && labelled[i] == o;
    assert forecast[i] in forecast;
  }

  /** No forecast row is lost except predicted-away history: each one appears (with its
      date) unless history is excluded and the row is historical. */
  lemma ForecastTableKeeps(prepared: Option<seq<Point>>, forecast: seq<ForecastRow>, includeHistory: bool, f: ForecastRow)
    requires f in forecast
    requires includeHistory || !HasHistory(prepared) || f.ds > MaxDate(prepared.value)
    ensures exists o :: (o in ForecastTable(prepared, forecast, includeHistory) && o.date == f.ds &&
      o.lower == f.lower && o.upper == f.upper)
  {
    var i :| 0 <= i < |forecast| && forecast[i] == f;
    if HasHistory(prepared) {
      var labelled := Label(forecast, HistoricalUpTo(MaxDate(prepared.value)));
      var r := labelled[i];
      assert r in labelled;
      var rows := if includeHistory then MergeActuals(labelled, prepared.value) else OnlyPredicted(labelled);
      var o: OutputRow;
      if includeHistory {
        MergeActualsKeeps(labelled, prepared.value, r);
        var ys := ActualsOn(prepared.value, r.date);
        if ys == [] {
          o := r;
        } else {
          assert ys[0] in ys;
          o := r.(value := ys[0]);
        }
      } else {
        o := r;
      }
      assert o in rows;
      assert o in multiset(rows);
      assert o in SortBy(rows, OutputDate);
    } else {
      var labelled := Label(forecast, AllPredicted());
      var o := labelled[i];
      assert o in multiset(labelled);
      assert o in SortBy(labelled, OutputDate);
    }
  }

  // ===========================================================================
  // The forecaster object (previsao.py:27-316)

  const DefaultConfidence := 0.95
  const DefaultHorizonYears := 2

  /** The settings `treinar` gives to Prophet: interval width, the built-in weekly and
      yearly switches, and the extra seasonalities. */
  datatype ModelConfig = ModelConfig(intervalWidth: real, weekly: bool, yearly: bool, extra: seq<Seasonality>)

  /** What `prever` hands to Prophet: the number of future periods and their frequency. */
  datatype ForecastRequest = ForecastRequest(periods: int, frequency: string)

  /** `True` where the frame holds a date column and a value column whose cells are a
      date or missing, and a number or missing. */
  predicate SeriesCells(f: Frame, dateColumn: string, valueColumn: string) {
    forall row :: row in f.rows ==>
      (CellAt(row, dateColumn).Day? || CellAt(row, dateColumn).Null?) &&
      (CellAt(row, valueColumn).Number? || CellAt(row, valueColumn).Null?)
  }

  /** The `(ds, y)` point of one row, when both cells are present. */
  function PresentOf(dateColumn: string, valueColumn: string): Row -> Option<Point> {
    row =>
      var d, v := CellAt(row, dateColumn), CellAt(row, valueColumn);
      if d.Day? && v.Number? then Some(Point(d.d, v.x)) else None
  }

  /** The rows with both cells present, as `(ds, y)` points: one per such row, in input
      order (`dropna` keeps duplicate rows). */
  function PresentPoints(rows: seq<Row>, dateColumn: string, valueColumn: string): (r: seq<Point>)
    ensures forall p :: p in r <==>
      exists row :: row in rows && CellAt(row, dateColumn) == Day(p.date) && CellAt(row, valueColumn) == Number(p.value)
    ensures forall p :: multiset(r)[p] == |RowsYielding(rows, PresentOf(dateColumn, valueColumn), p)|
    ensures exists idx :: ListsAccepted(r, rows, PresentOf(dateColumn, valueColumn), idx)
  {
    FilterMapFacts(rows, PresentOf(dateColumn, valueColumn));
    FilterMap(rows, PresentOf(dateColumn, valueColumn))
  }

  /** `preparar_dados`' result on a frame that has both columns: only `ds`/`y`, no
      missing values, one point per such row, sorted by date. */
  function PreparedSeries(f: Frame, dateColumn: string, valueColumn: string): (r: seq<Point>)
    ensures SortedBy(r, PointDate)
    ensures forall p :: p in r <==>
      exists row :: row in f.rows && CellAt(row, dateColumn) == Day(p.date) && CellAt(row, valueColumn) == Number(p.value)
    ensures forall p :: multiset(r)[p] == |RowsYielding(f.rows, PresentOf(dateColumn, valueColumn), p)|
  {
    var kept := PresentPoints(f.rows, dateColumn, valueColumn);
    var r := SortBy(kept, PointDate);
    assert forall p :: p in r <==> p in kept by {
      forall p ensures p in r <==> p in kept {
        assert p in r <==> p in multiset(r);
        assert p in kept <==> p in multiset(kept);
      }
    }
    r
  }

  class Forecaster {
    const confidence: real
    const horizonYears: int
    const weeklySeasonality: bool
    const yearlySeasonality: bool
    /** `modelo`: the configuration of the fitted Prophet model, if any. */
    var model: Option<ModelConfig>
    var prepared: Option<seq<Point>>
    var periodicity: Option<Periodicity>

    constructor(confidence: real, horizonYears: int, weeklySeasonality: bool, yearlySeasonality: bool)
      ensures this.confidence == confidence && this.horizonYears == horizonYears
      ensures this.weeklySeasonality == weeklySeasonality && this.yearlySeasonality == yearlySeasonality
      ensures model == None && prepared == None && periodicity == None
    {
      this.confidence := confidence;
      this.horizonYears := horizonYears;
      this.weeklySeasonality := weeklySeasonality;
      this.yearlySeasonality := yearlySeasonality;
      model := None;
      prepared := None;
      periodicity := None;
    }

    /** The cadence the tables read; never detected behaves as unknown. */
    function Cadence(): Periodicity
      reads this
    {
      periodicity.GetOr(Unknown)
    }

    /** `preparar_dados`: an empty frame or a missing column gives an empty result and
        leaves the object as it was; otherwise the prepared series is stored and its
        cadence detected. */
    method PrepareData(f: Frame, dateColumn: string, valueColumn: string) returns (rows: seq<Point>)
      requires SeriesCells(f, dateColumn, valueColumn)
      modifies this
      ensures model == old(model)
      ensures IsEmpty(f) || !HasColumn(f, dateColumn) || !HasColumn(f, valueColumn) ==>
        rows == [] && prepared == old(prepared) && periodicity == old(periodicity)
      ensures !(IsEmpty(f) || !HasColumn(f, dateColumn) || !HasColumn(f, valueColumn)) ==>
        rows == PreparedSeries(f, dateColumn, valueColumn) &&
        prepared == Some(rows) && periodicity == Some(PeriodicityOf(rows))
    {
      if IsEmpty(f) || !HasColumn(f, dateColumn) || !HasColumn(f, valueColumn) {
        return [];
      }
      rows := PreparedSeries(f, dateColumn, valueColumn);
      DetectPeriodicity(rows);
      prepared := Some(rows);
    }

    /** `_detectar_periodicidade`: collects the positive gaps of the first ten rows and
        classifies their median. */
    method DetectPeriodicity(rows: seq<Point>)
      modifies this
      ensures periodicity == Some(PeriodicityOf(rows))
      ensures model == old(model) && prepared == old(prepared)
    {
      if |rows| < 2 {
        periodicity := Some(Unknown);
        return;
      }
      var gaps: seq<int> := [];
      var n := SampleSize(|rows|);
      for i := 1 to n
        invariant gaps == PositiveGaps(rows, i)
      {
        var gap := rows[i].date - rows[i - 1].date;
        if gap > 0 {
          gaps := gaps + [gap];
        }
      }
      if gaps == [] {
        periodicity := Some(Unknown);
        return;
      }
      periodicity := Some(Classify(Median(gaps)));
    }

    /** `treinar`: with neither given nor prepared data (or an empty series) it fails and
        leaves the model as it was; otherwise it configures the model for the detected
        cadence and keeps it if the fit succeeds, dropping it if the fit fails. */
    method Train(data: Option<seq<Point>>, fitSucceeds: bool) returns (ok: bool)
      modifies this
      ensures prepared == old(prepared) && periodicity == old(periodicity)
      ensures !HasSeries(data, old(prepared)) ==> !ok && model == old(model)
      ensures HasSeries(data, old(prepared)) ==> ok == fitSucceeds
      ensures HasSeries(data, old(prepared)) && fitSucceeds ==>
        model == Some(ModelConfig(confidence, weeklySeasonality, yearlySeasonality, Seasonalities(Cadence())))
      ensures HasSeries(data, old(prepared)) && !fitSucceeds ==> model == None
    {
      var series := data;
      if series.None? {
        series := prepared;
      }
      if series.None? || series.value == [] {
        return false;
      }
      model := Some(ModelConfig(confidence, weeklySeasonality, yearlySeasonality, Seasonalities(Cadence())));
      if !fitSucceeds {
        model := None;
        return false;
      }
      return true;
    }

    /** `prever` up to the Prophet call: nothing without a trained model; otherwise the
        given number of periods, or the default horizon for the cadence, at the cadence's
        pandas frequency. */
    method Predict(periods: Option<int>) returns (request: Option<ForecastRequest>)
      ensures model.None? <==> request.None?
      ensures request.Some? ==> request.value.frequency == Frequency(Cadence())
      ensures request.Some? && periods.Some? ==> request.value.periods == periods.value
      ensures request.Some? && periods.None? ==>
        request.value.periods == horizonYears * PeriodsPerYear(Cadence())
    {
      if model.None? {
        return None;
      }
      var n := if periods.Some? then periods.value else DefaultPeriods(Cadence(), horizonYears);
      return Some(ForecastRequest(n, Frequency(Cadence())));
    }

    /** `obter_dados_previsao` for a forecast already at hand (`None` when `prever`
        produced nothing). */
    method ForecastData(forecast: Option<seq<ForecastRow>>, includeHistory: bool) returns (table: seq<OutputRow>)
      ensures forecast.None? ==> table == []
      ensures forecast.Some? ==> table == ForecastTable(prepared, forecast.value, includeHistory)
      ensures SortedBy(table, OutputDate)
    {
      if forecast.None? || forecast.value == [] {
        return [];
      }
      table := ForecastTable(prepared, forecast.value, includeHistory);
    }
  }

  // ===========================================================================
  // processar_dados_* (previsao.py:385-596)

  /** `pd.to_datetime(..., errors='coerce')` on one cell: a date stays, an ISO text is
      read when pandas can represent it, anything else is missing. */
  function CoerceDate(c: Cell): Option<int> {
    match c
    case Day(d) => Some(d)
    case Text(s) =>
      var t := ParseIso(s);
      if t.Some? && InTimestampRange(t.value) then Some(Ordinal(t.value.year, t.value.month, t.value.day)) else None
    case _ => None
  }

  /** pandas timestamps span 1677-09-21 00:12:43 to 2262-04-11 23:47:16; a midnight date
      is representable from 22 September 1677 to 11 April 2262. */
  predicate InTimestampRange(t: Ymd)
    requires IsValid(t)
  {
    (t.year, t.month, t.day) == (1677, 9, 22) || (t.year, t.month, t.day) == (2262, 4, 11) ||
    (Before(1677, 9, 22, t.year, t.month, t.day) && Before(t.year, t.month, t.day, 2262, 4, 11))
  }

  /** The first of `candidates` that is a column of `f`. */
  function FirstPresent(f: Frame, candidates: seq<string>): (r: Option<string>)
    ensures r.None? <==> forall c :: c in candidates ==> !HasColumn(f, c)
    ensures r.Some? ==> exists k :: (0 <= k < |candidates| && candidates[k] == r.value &&
      HasColumn(f, r.value) && forall j :: 0 <= j < k ==> !HasColumn(f, candidates[j]))
  {
    if candidates == [] then None
    else if HasColumn(f, candidates[0]) then Some(candidates[0])
    else
      var r := FirstPresent(f, candidates[1..]);
      assert forall c :: c in candidates ==> c == candidates[0] || c in candidates[1..];
      if r.Some? then
        var k :| 0 <= k < |candidates[1..]| && candidates[1..][k] == r.value &&
          HasColumn(f, r.value) && forall j :: 0 <= j < k ==> !HasColumn(f, candidates[1..][j]);
        assert candidates[k + 1] == r.value;
        r
      else r
  }

  /** The `for col in [...]: if col in df.columns: coluna_valor = col; break` search of the
      deficit and IOF normalisers. */
  method SelectValueColumn(f: Frame, candidates: seq<string>) returns (column: Option<string>)
    ensures column == FirstPresent(f, candidates)
  {
    column := None;
    var i := 0;
    while i < |candidates|
      invariant 0 <= i <= |candidates|
      invariant FirstPresent(f, candidates) == FirstPresent(f, candidates[i..])
    {
      assert candidates[i..][1..] == candidates[i + 1..];
      if HasColumn(f, candidates[i]) {
        column := Some(candidates[i]);
        break;
      }
      i := i + 1;
    }
  }

  /** One row's `data` and value after coercion, when both are present. */
  function CoercedOf(valueColumn: string): Row -> Option<Point> {
    row =>
      var d, v := CoerceDate(CellAt(row, "data")), ToNumeric(CellAt(row, valueColumn));
      if d.Some? && v.Some? then Some(Point(d.value, v.value)) else None
  }

  /** The coerced rows without missing values: one point per such row, in input order. */
  function CoercedPoints(rows: seq<Row>, valueColumn: string): (r: seq<Point>)
    ensures forall p :: p in r <==>
      exists row :: row in rows && CoerceDate(CellAt(row, "data")) == Some(p.date) &&
        ToNumeric(CellAt(row, valueColumn)) == Some(p.value)
    ensures forall p :: multiset(r)[p] == |RowsYielding(rows, CoercedOf(valueColumn), p)|
    ensures exists idx :: ListsAccepted(r, rows, CoercedOf(valueColumn), idx)
  {
    FilterMapFacts(rows, CoercedOf(valueColumn));
    FilterMap(rows, CoercedOf(valueColumn))
  }

  /** The shared pipeline: an empty frame, a missing `data` column or no value column gives
      an empty series; otherwise `data` and the first present value column are coerced,
      rows with a missing value are dropped and the rest is sorted by date. */
  function NormaliseSeries(f: Frame, candidates: seq<string>): (r: seq<Point>)
    ensures SortedBy(r, PointDate)
  {
    if IsEmpty(f) || !HasColumn(f, "data") then []
    else
      var column := FirstPresent(f, candidates);
      if column.None? then [] else SortBy(CoercedPoints(f.rows, column.value), PointDate)
  }

  /** `processar_dados_pib` and `processar_dados_desemprego` require `data` and `valor`. */
  function ProcessGdp(f: Frame): seq<Point> { NormaliseSeries(f, ["valor"]) }
  function ProcessUnemployment(f: Frame): seq<Point> { NormaliseSeries(f, ["valor"]) }
  function ProcessDeficit(f: Frame): seq<Point> { NormaliseSeries(f, ["valor", "deficit", "deficit_primario"]) }
  function ProcessIof(f: Frame): seq<Point> { NormaliseSeries(f, ["valor", "iof", "arrecadacao"]) }

  /** A normalised series is empty when the frame is, when `data` is missing or when none
      of the value columns is present; otherwise its points are exactly the rows whose
      date and value both coerce, read from the first present value column, each point
      occurring once per row that gives it. */
  lemma NormaliseSeriesPoints(f: Frame, candidates: seq<string>, p: Point)
    ensures IsEmpty(f) || !HasColumn(f, "data") || (forall c :: c in candidates ==> !HasColumn(f, c)) ==>
      NormaliseSeries(f, candidates) == []
    ensures !IsEmpty(f) && HasColumn(f, "data") && FirstPresent(f, candidates).Some? ==>
      (p in NormaliseSeries(f, candidates) <==>
        exists row :: row in f.rows && CoerceDate(CellAt(row, "data")) == Some(p.date) &&
          ToNumeric(CellAt(row, FirstPresent(f, candidates).value)) == Some(p.value))
    ensures !IsEmpty(f) && HasColumn(f, "data") && FirstPresent(f, candidates).Some? ==>
      multiset(NormaliseSeries(f, candidates))[p] == |RowsYielding(f.rows, CoercedOf(FirstPresent(f, candidates).value), p)|
  {
    if !IsEmpty(f) && HasColumn(f, "data") && FirstPresent(f, candidates).Some? {
      var kept := CoercedPoints(f.rows, FirstPresent(f, candidates).value);
      assert p in SortBy(kept, PointDate) <==> p in multiset(SortBy(kept, PointDate));
      assert p in kept <==> p in multiset(kept);
    }
  }

  /** A `YYYY-MM-DD` text written by the BCB normaliser is read back as the same day by
      the series normalisers, within the pandas timestamp range. */
  lemma CoerceWrittenDate(t: Ymd)
    requires IsValid(t) && InTimestampRange(t)
    ensures CoerceDate(Text(FormatIso(t))) == Some(Ordinal(t.year, t.month, t.day))
  {
    ParseFormatIso(t);
  }
}

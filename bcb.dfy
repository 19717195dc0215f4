/** The BCB extractor's normaliser and series map (src/dados/extratores/bcb.py): SGS
    items `{"data": "dd/mm/yyyy", "valor": "1,23"}` become `{"data": "yyyy-mm-dd",
    "valor": 1.23}`; items whose date or value does not parse are skipped. The HTTP
    request and the file writes are not part of this model. */
module Bcb {
  import opened Base
  import opened Text
  import opened Calendar
  import opened IsoDate

  /** A JSON value of an SGS item: the API sends texts; anything else (a number, null)
      has no `replace` and makes `strptime` raise TypeError. */
  datatype Json = JString(s: string) | JOther

  type Item = map<string, Json>

  datatype ProcessedItem = ProcessedItem(date: string, value: real)

  /** What processing a whole list yields: the processed items, or an exception that
      `_processar_dados` does not catch (TypeError or AttributeError). */
  datatype Outcome = Processed(items: seq<ProcessedItem>) | Raised

  /** What one item yields: accepted, skipped (ValueError, caught), or fatal. */
  datatype ItemResult = Accepted(item: ProcessedItem) | Skipped | Fatal

  // ---------------------------------------------------------------------------
  // strptime(s, '%d/%m/%Y')

  /** `%d`: `3[01]|[12]\d|0[1-9]|[1-9]| [1-9]`, i.e. one or two digits naming 1 to 31,
      or a space and one non-zero digit. */
  function DayField(t: string): Option<int> {
    if |t| == 2 && t[0] == ' ' && IsDigit(t[1]) && t[1] != '0' then Some(DigitValue(t[1]))
    else if 1 <= |t| <= 2 && AllDigits(t) && 1 <= DigitsValue(t) <= 31 then Some(DigitsValue(t))
    else None
  }

  /** `%m`: `1[0-2]|0[1-9]|[1-9]`, one or two digits naming 1 to 12. */
  function MonthField(t: string): Option<int> {
    if 1 <= |t| <= 2 && AllDigits(t) && 1 <= DigitsValue(t) <= 12 then Some(DigitsValue(t)) else None
  }

  /** `%Y`: exactly four digits. */
  function YearField(t: string): Option<int> {
    if |t| == 4 && AllDigits(t) then Some(DigitsValue(t)) else None
  }

  /** The whole text must match `%d/%m/%Y` and name a date `datetime` accepts; `None`
      stands for the ValueError. */
  function ParseBcbDate(s: string): (r: Option<Ymd>)
    ensures r.Some? ==> IsValid(r.value)
  {
    var parts := SplitOn(s, '/');
    if |parts| != 3 then None
    else
      var d, m, y := DayField(parts[0]), MonthField(parts[1]), YearField(parts[2]);
      if d.None? || m.None? || y.None? then None
      else
        var t := Ymd(y.value, m.value, d.value);
        if IsValid(t) then Some(t) else None
  }

  /** The SGS form of a date: `dd/mm/yyyy`. */
  function FormatBcbDate(t: Ymd): string
    requires IsValid(t)
  {
    Padded(t.day, 2) + "/" + Padded(t.month, 2) + "/" + Padded(t.year, 4)
  }

  /** Every date written the SGS way is read back as itself. */
  lemma ParseFormatBcbDate(t: Ymd)
    requires IsValid(t)
    ensures ParseBcbDate(FormatBcbDate(t)) == Some(t)
  {
    var dd, mm, yyyy := Padded(t.day, 2), Padded(t.month, 2), Padded(t.year, 4);
    NoSeparatorInDigits(dd);
    NoSeparatorInDigits(mm);
    NoSeparatorInDigits(yyyy);
    SplitOnNoSeparator(yyyy, '/');
    SplitOnPiece(mm, yyyy, '/');
    SplitOnPiece(dd, mm + "/" + yyyy, '/');
    assert FormatBcbDate(t) == dd + "/" + (mm + "/" + yyyy);
    assert dd[0] != ' ';
  }

  lemma NoSeparatorInDigits(s: string)
    requires AllDigits(s)
    ensures '/' !in s
  {
  }

  // ---------------------------------------------------------------------------
  // One item (bcb.py:133-149)

  /** `float(item.get('valor', '0').replace(',', '.'))`: `None` is the ValueError. */
  function ItemValue(valor: string): Option<real> {
    ParseDecimal(ReplaceChar(valor, ',', '.'), true)
  }

  function ProcessItem(item: Item): ItemResult {
    if "data" !in item || !item["data"].JString? then Fatal
    else
      var date := ParseBcbDate(item["data"].s);
      if date.None? then Skipped
      else
        var valor := if "valor" in item then item["valor"] else JString("0");
        if !valor.JString? then Fatal
        else
          var value := ItemValue(valor.s);
          if value.None? then Skipped
          else Accepted(ProcessedItem(FormatIso(date.value), value.value))
  }

  /** An accepted item's date is the ISO text of the very date its `dd/mm/yyyy` named. */
  lemma AcceptedDate(item: Item)
    requires ProcessItem(item).Accepted?
    ensures "data" in item && item["data"].JString?
    ensures ParseIso(ProcessItem(item).item.date) == ParseBcbDate(item["data"].s)
  {
    ParseFormatIso(ParseBcbDate(item["data"].s).value);
  }

  /** A decimal-comma value `i,f` (digits on both sides) reads as `i + f / 10^|f|`. */
  lemma DecimalComma(i: string, f: string)
    requires |i| > 0 && AllDigits(i) && |f| > 0 && AllDigits(f)
    ensures ItemValue(i + "," + f) == Some(PointValue(i, f))
  {
    var s := i + "," + f;
    assert ReplaceChar(s, ',', '.') == i + "." + f;
    ParseDecimalPoint(i, f, true);
  }

  // ---------------------------------------------------------------------------
  // The list (bcb.py:118-153)

  /** The outcome of the loop over the first `k` per-item results: it stops at the first
      fatal one; skipped items leave no trace. */
  function Collect(results: seq<ItemResult>, k: int): Outcome
    requires 0 <= k <= |results|
  {
    if k == 0 then Processed([])
    else
      var before := Collect(results, k - 1);
      var r := results[k - 1];
      if before.Raised? || r.Fatal? then Raised
      else if r.Accepted? then Processed(before.items + [r.item])
      else before
  }

  function Results(items: seq<Item>): (rs: seq<ItemResult>)
    ensures |rs| == |items|
    ensures forall i :: 0 <= i < |items| ==> rs[i] == ProcessItem(items[i])
  {
    seq(|items|, i requires 0 <= i < |items| => ProcessItem(items[i]))
  }

  function ProcessAll(items: seq<Item>): Outcome {
    Collect(Results(items), |items|)
  }

  /** Once an item has raised, the whole list has. */
  lemma {:induction false} RaisedSticks(results: seq<ItemResult>, i: int, k: int)
    requires 0 <= i <= k <= |results| && Collect(results, i).Raised?
    ensures Collect(results, k).Raised?
    decreases k - i
  {
    if i < k {
      RaisedSticks(results, i + 1, k);
    }
  }

  /** The `try` block of one iteration: parse the date, then the value. */
  method ProcessOne(item: Item) returns (r: ItemResult)
    ensures r == ProcessItem(item)
  {
    if "data" !in item || !item["data"].JString? {
      return Fatal;
    }
    var date := ParseBcbDate(item["data"].s);
    if date.None? {
      return Skipped;
    }
    var valor := if "valor" in item then item["valor"] else JString("0");
    if !valor.JString? {
      return Fatal;
    }
    var value := ItemValue(valor.s);
    if value.None? {
      return Skipped;
    }
    return Accepted(ProcessedItem(FormatIso(date.value), value.value));
  }

  /** `_processar_dados`: items that raise ValueError are skipped; a TypeError or
      AttributeError ends the whole call. */
  method ProcessItems(items: seq<Item>) returns (outcome: Outcome)
    ensures outcome == ProcessAll(items)
  {
    outcome := ProcessLoop(items, Results(items));
  }

  /** `results` holds the per-item results of `items`. */
  ghost predicate ResultsOf(items: seq<Item>, results: seq<ItemResult>) {
    |results| == |items| &&
    forall j {:trigger ProcessItem(items[j])} :: 0 <= j < |items| ==> results[j] == ProcessItem(items[j])
  }

  /** The loop of `_processar_dados`, checked against the per-item results `results`. */
  method ProcessLoop(items: seq<Item>, ghost results: seq<ItemResult>) returns (outcome: Outcome)
    requires ResultsOf(items, results)
    ensures outcome == Collect(results, |items|)
  {
    var processed: seq<ProcessedItem> := [];
    var i := 0;
    while i < |items|
      invariant 0 <= i <= |items|
      invariant Collect(results, i) == Processed(processed)
    {
      var r := ProcessAt(items, results, i);
      CollectStep(results, i, processed);
      if r.Fatal? {
        RaisedAfter(results, i);
        return Raised;
      }
      if r.Accepted? {
        processed := processed + [r.item];
      }
      i := i + 1;
    }
    return Processed(processed);
  }

  /** The `try` block on the `i`-th item yields its entry in `results`. */
  method ProcessAt(items: seq<Item>, ghost results: seq<ItemResult>, i: int) returns (r: ItemResult)
    requires ResultsOf(items, results) && 0 <= i < |items|
    ensures r == results[i]
  {
    r := ProcessOne(items[i]);
  }

  /** One more iteration of the loop, after items that all went through. */
  lemma CollectStep(results: seq<ItemResult>, i: int, processed: seq<ProcessedItem>)
    requires 0 <= i < |results| && Collect(results, i) == Processed(processed)
    ensures Collect(results, i + 1) ==
      (if results[i].Fatal? then Raised
       else if results[i].Accepted? then Processed(processed + [results[i].item])
       else Processed(processed))
  {
  }

  lemma RaisedAfter(results: seq<ItemResult>, i: int)
    requires 0 <= i < |results| && results[i].Fatal?
    ensures Collect(results, |results|).Raised?
  {
    RaisedSticks(results, i + 1, |results|);
  }

  /** The loop raises exactly when some item is fatal. */
  lemma {:induction false} CollectRaises(results: seq<ItemResult>, k: int)
    requires 0 <= k <= |results|
    ensures Collect(results, k).Raised? <==> exists i :: 0 <= i < k && results[i].Fatal?
  {
    if k > 0 {
      CollectRaises(results, k - 1);
    }
  }

  /** `idx` lists, in increasing order, the positions among the first `k` whose results
      were accepted as the successive elements of `out`, and every accepted position is
      listed. */
  ghost predicate AcceptedAt(results: seq<ItemResult>, out: seq<ProcessedItem>, idx: seq<int>, k: int) {
    && |idx| == |out|
    && (forall j :: 0 <= j < |idx| ==> 0 <= idx[j] < k && k <= |results| && results[idx[j]] == Accepted(out[j]))
    && (forall i, j :: 0 <= i < j < |idx| ==> idx[i] < idx[j])
    && (forall i :: 0 <= i < k && i < |results| && results[i].Accepted? ==> i in idx)
  }

  lemma {:induction false} CollectIndices(results: seq<ItemResult>, k: int) returns (idx: seq<int>)
    requires 0 <= k <= |results| && Collect(results, k).Processed?
    ensures AcceptedAt(results, Collect(results, k).items, idx, k)
  {
    if k == 0 {
      idx := [];
    } else {
      var previous := CollectIndices(results, k - 1);
      if results[k - 1].Accepted? {
        idx := previous + [k - 1];
      } else {
        idx := previous;
      }
    }
  }

  /** The list raises exactly when some item is fatal (no `data` text, or a `valor` that
      is not a text); otherwise the output is every accepted item, once each, in input
      order, so it is no longer than the input. */
  lemma ProcessAllShape(items: seq<Item>)
    ensures ProcessAll(items).Raised? <==> exists i :: 0 <= i < |items| && ProcessItem(items[i]).Fatal?
    ensures ProcessAll(items).Processed? ==>
      (exists idx :: AcceptedAt(Results(items), ProcessAll(items).items, idx, |items|)) &&
      |ProcessAll(items).items| <= |items|
  {
    var results := Results(items);
    CollectRaises(results, |items|);
    if ProcessAll(items).Processed? {
      var idx := CollectIndices(results, |items|);
      IncreasingAtLeastIndex(idx);
      if |idx| > 0 {
        assert idx[|idx| - 1] >= |idx| - 1;
      }
    }
  }

  lemma {:induction false} IncreasingAtLeastIndex(idx: seq<int>)
    requires forall j :: 0 <= j < |idx| ==> 0 <= idx[j]
    requires forall i, j :: 0 <= i < j < |idx| ==> idx[i] < idx[j]
    ensures forall j :: 0 <= j < |idx| ==> idx[j] >= j
  {
    if |idx| > 0 {
      IncreasingAtLeastIndex(idx[..|idx| - 1]);
      assert forall j :: 0 <= j < |idx| - 1 ==> idx[..|idx| - 1][j] == idx[j];
      if |idx| > 1 {
        assert idx[|idx| - 2] >= |idx| - 2;
      }
    }
  }

  // ---------------------------------------------------------------------------
  // The series map (bcb.py:155-181)

  class BcbExtractor {
    /** Series codes of the SGS and their names. */
    var series: map<string, string>

    constructor(series: map<string, string>)
      ensures this.series == series
    {
      this.series := series;
    }

    /** `adicionar_serie`: the code now names `name`, every other entry is unchanged. */
    method AddSeries(code: string, name: string)
      modifies this
      ensures series == old(series)[code := name]
      ensures code in series && series[code] == name
      ensures forall c :: c != code ==> ((c in series <==> c in old(series)) &&
        (c in series ==> series[c] == old(series)[c]))
    {
      series := series[code := name];
    }

    /** `remover_serie`: true exactly when the code was present; afterwards it is absent
        and every other entry is unchanged. */
    method RemoveSeries(code: string) returns (removed: bool)
      modifies this
      ensures removed <==> code in old(series)
      ensures series == old(series) - {code}
      ensures code !in series
      ensures !removed ==> series == old(series)
    {
      if code in series {
        series := series - {code};
        return true;
      }
      return false;
    }
  }
}

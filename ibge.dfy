/** The IBGE extractor's pure part (src/dados/extratores/ibge.py): the two quarter-label
    converters of the SIDRA tables (GDP labels such as "2023 1º trimestre", PNAD labels
    such as "1º trimestre 2023") and the processing of a raw table into a `data, valor`
    series. The HTTP request and the JSON files are not part of this model. */
module Ibge {
  import opened Base
  import opened Text
  import opened Calendar
  import opened Frames

  /** The month a quarter text stands for: the texts are tested in turn for containing
      1, 2, 3 and 4, giving the last month of that quarter (3, 6, 9, 12). */
  function QuarterMonth(t: string): (m: Option<int>)
    ensures m.Some? ==> m.value in {3, 6, 9, 12}
  {
    if '1' in t then Some(3)
    else if '2' in t then Some(6)
    else if '3' in t then Some(9)
    else if '4' in t then Some(12)
    else None
  }

  /** The first of the digits 1 to 4 a quarter text holds decides the quarter. */
  lemma QuarterMonthFirstDigit(t: string, q: int)
    requires 1 <= q <= 4
    ensures QuarterMonth(t) == Some(3 * q) <==>
      DigitChar(q) in t && forall p :: 1 <= p < q ==> DigitChar(p) !in t
  {
    assert DigitChar(1) == '1' && DigitChar(2) == '2' && DigitChar(3) == '3' && DigitChar(4) == '4';
  }

  /** Day 1 of the quarter's month in the parsed year, when `datetime` accepts it. */
  function QuarterDate(year: Option<int>, quarterText: string): (r: Option<int>)
  {
    var month := QuarterMonth(quarterText);
    if year.None? || month.None? || !IsValidDate(year.value, month.value, 1) then None
    else Some(Ordinal(year.value, month.value, 1))
  }

  /** `_converter_trimestre_para_data`: year from the first word, quarter from the second;
      a cell that is not a text (the `split` raises) gives `None`. */
  function GdpQuarterDate(c: Cell): Option<int> {
    match c
    case Text(s) =>
      var parts := SplitWhitespace(s);
      if |parts| >= 2 then QuarterDate(ParseInt(parts[0]), parts[1]) else None
    case _ => None
  }

  /** `_converter_trimestre_pnad_para_data`: year from the last word, quarter from the
      first. */
  function PnadQuarterDate(c: Cell): Option<int> {
    match c
    case Text(s) =>
      var parts := SplitWhitespace(s);
      if |parts| >= 2 then QuarterDate(ParseInt(parts[|parts| - 1]), parts[0]) else None
    case _ => None
  }

  /** A quarter date exists exactly when the year parsed, the text names a quarter and
      `datetime` accepts day 1 of its month; it is then that day. */
  lemma QuarterDateParts(year: Option<int>, quarterText: string)
    ensures QuarterDate(year, quarterText).Some? <==>
      year.Some? && QuarterMonth(quarterText).Some? && IsValidDate(year.value, QuarterMonth(quarterText).value, 1)
    ensures QuarterDate(year, quarterText).Some? ==>
      QuarterDate(year, quarterText) == Some(Ordinal(year.value, QuarterMonth(quarterText).value, 1))
  {
  }

  /** `_converter_trimestre_para_data` gives None for fewer than two words, for a first
      word that is not an integer, and for a second word naming no quarter; a date it
      gives is day 1 of that quarter's last month in the year the first word names. */
  lemma GdpQuarterDateCases(s: string)
    ensures |SplitWhitespace(s)| < 2 ==> GdpQuarterDate(Text(s)) == None
    ensures |SplitWhitespace(s)| >= 2 && ParseInt(SplitWhitespace(s)[0]).None? ==> GdpQuarterDate(Text(s)) == None
    ensures |SplitWhitespace(s)| >= 2 && QuarterMonth(SplitWhitespace(s)[1]).None? ==> GdpQuarterDate(Text(s)) == None
    ensures GdpQuarterDate(Text(s)).Some? ==>
      var w := SplitWhitespace(s);
      |w| >= 2 && ParseInt(w[0]).Some? && QuarterMonth(w[1]).Some? &&
      IsValidDate(ParseInt(w[0]).value, QuarterMonth(w[1]).value, 1) &&
      GdpQuarterDate(Text(s)) == Some(Ordinal(ParseInt(w[0]).value, QuarterMonth(w[1]).value, 1))
  {
    var w := SplitWhitespace(s);
    if |w| >= 2 {
      QuarterDateParts(ParseInt(w[0]), w[1]);
    }
  }

  /** `_converter_trimestre_pnad_para_data`: the same with the year in the last word and
      the quarter in the first. */
  lemma PnadQuarterDateCases(s: string)
    ensures |SplitWhitespace(s)| < 2 ==> PnadQuarterDate(Text(s)) == None
    ensures var w := SplitWhitespace(s);
      |w| >= 2 && ParseInt(w[|w| - 1]).None? ==> PnadQuarterDate(Text(s)) == None
    ensures |SplitWhitespace(s)| >= 2 && QuarterMonth(SplitWhitespace(s)[0]).None? ==> PnadQuarterDate(Text(s)) == None
    ensures PnadQuarterDate(Text(s)).Some? ==>
      var w := SplitWhitespace(s);
      |w| >= 2 && ParseInt(w[|w| - 1]).Some? && QuarterMonth(w[0]).Some? &&
      IsValidDate(ParseInt(w[|w| - 1]).value, QuarterMonth(w[0]).value, 1) &&
      PnadQuarterDate(Text(s)) == Some(Ordinal(ParseInt(w[|w| - 1]).value, QuarterMonth(w[0]).value, 1))
  {
    var w := SplitWhitespace(s);
    if |w| >= 2 {
      QuarterDateParts(ParseInt(w[|w| - 1]), w[0]);
    }
  }

  /** A cell that is not a text gives None in both converters. */
  lemma QuarterDateNonText(c: Cell)
    requires !c.Text?
    ensures GdpQuarterDate(c) == None && PnadQuarterDate(c) == None
  {
  }

  /** The label word of quarter `q`: "1º" to "4º". */
  function QuarterWord(q: int): (w: string)
    requires 1 <= q <= 4
  {
    [DigitChar(q), 'º']
  }

  lemma QuarterWordMonth(q: int)
    requires 1 <= q <= 4
    ensures QuarterMonth(QuarterWord(q)) == Some(3 * q)
    ensures |QuarterWord(q)| > 0 && NoSpace(QuarterWord(q))
  {
    assert DigitChar(1) == '1' && DigitChar(2) == '2' && DigitChar(3) == '3' && DigitChar(4) == '4';
    assert forall k :: 0 <= k < 2 ==> QuarterWord(q)[k] != 'º' || !IsSpace('º');
  }

  lemma YearWord(y: int)
    requires MinYear <= y <= MaxYear
    ensures var w := Padded(y, 4);
            |w| > 0 && NoSpace(w) && ParseInt(w) == Some(y)
  {
    var w := Padded(y, 4);
    ParseIntOfDigits(w);
  }

  /** A GDP label "YYYY Nº trimestre" is read as day 1 of the quarter's last month. */
  lemma GdpLabelRoundTrip(y: int, q: int)
    requires MinYear <= y <= MaxYear && 1 <= q <= 4
    ensures GdpQuarterDate(Text(JoinSpaced([Padded(y, 4), QuarterWord(q), "trimestre"]))) == Some(Ordinal(y, 3 * q, 1))
  {
    YearWord(y);
    QuarterWordMonth(q);
    SplitJoinSpaced([Padded(y, 4), QuarterWord(q), "trimestre"]);
  }

  /** A PNAD label "Nº trimestre YYYY" is read as day 1 of the quarter's last month. */
  lemma PnadLabelRoundTrip(y: int, q: int)
    requires MinYear <= y <= MaxYear && 1 <= q <= 4
    ensures PnadQuarterDate(Text(JoinSpaced([QuarterWord(q), "trimestre", Padded(y, 4)]))) == Some(Ordinal(y, 3 * q, 1))
  {
    YearWord(y);
    QuarterWordMonth(q);
    SplitJoinSpaced([QuarterWord(q), "trimestre", Padded(y, 4)]);
  }

  /** A converted label is always day 1 of March, June, September or December of a year
      `datetime` accepts. */
  lemma QuarterDateShape(year: Option<int>, quarterText: string)
    requires QuarterDate(year, quarterText).Some?
    ensures exists y, m :: (MinYear <= y <= MaxYear && m in {3, 6, 9, 12} && IsValidDate(y, m, 1) &&
      QuarterDate(year, quarterText) == Some(Ordinal(y, m, 1)))
  {
    var y, m := year.value, QuarterMonth(quarterText).value;
    assert IsValidDate(y, m, 1);
  }

  /** The label converter a series uses: PNAD labels or GDP labels. */
  function LabelParser(pnad: bool): Cell -> Option<int> {
    if pnad then PnadQuarterDate else GdpQuarterDate
  }

  /** One raw row's `(data, valor)` after conversion, when both are present. */
  function ConvertedOf(dateColumn: string, valueColumn: string, parseLabel: Cell -> Option<int>): Row -> Option<Point> {
    row =>
      var d := parseLabel(CellAt(row, dateColumn));
      var v := ToNumeric(CellAt(row, valueColumn));
      if d.Some? && v.Some? then Some(Point(d.value, v.value)) else None
  }

  /** A row converts to a point exactly when its label parses to the point's date and its
      value cell converts to the point's value. */
  lemma ConvertedRow(dateColumn: string, valueColumn: string, parseLabel: Cell -> Option<int>, row: Row, p: Point)
    ensures ConvertedOf(dateColumn, valueColumn, parseLabel)(row) == Some(p) <==>
      parseLabel(CellAt(row, dateColumn)) == Some(p.date) && ToNumeric(CellAt(row, valueColumn)) == Some(p.value)
  {
  }

  /** A point comes out of the conversion exactly when some row's label converts to its
      date and its value cell converts to its value. */
  lemma ConvertedMember(rows: seq<Row>, dateColumn: string, valueColumn: string, parseLabel: Cell -> Option<int>, p: Point)
    ensures p in FilterMap(rows, ConvertedOf(dateColumn, valueColumn, parseLabel)) <==>
      exists row :: row in rows &&
        parseLabel(CellAt(row, dateColumn)) == Some(p.date) &&
        ToNumeric(CellAt(row, valueColumn)) == Some(p.value)
  {
    var f := ConvertedOf(dateColumn, valueColumn, parseLabel);
    FilterMapMembers(rows, f, p);
    if p in FilterMap(rows, f) {
      var k :| 0 <= k < |rows| && f(rows[k]) == Some(p);
      ConvertedRow(dateColumn, valueColumn, parseLabel, rows[k], p);
      assert rows[k] in rows;
    }
    if exists row :: (row in rows &&
      parseLabel(CellAt(row, dateColumn)) == Some(p.date) &&
      ToNumeric(CellAt(row, valueColumn)) == Some(p.value))
    {
      var row :| row in rows &&
        parseLabel(CellAt(row, dateColumn)) == Some(p.date) &&
        ToNumeric(CellAt(row, valueColumn)) == Some(p.value);
      var k :| 0 <= k < |rows| && rows[k] == row;
      ConvertedRow(dateColumn, valueColumn, parseLabel, row, p);
    }
  }

  /** What the conversion keeps: the points of the converting rows, once per such row,
      in row order. */
  lemma ConvertedFacts(rows: seq<Row>, dateColumn: string, valueColumn: string, parseLabel: Cell -> Option<int>)
    ensures forall p: Point :: p in FilterMap(rows, ConvertedOf(dateColumn, valueColumn, parseLabel)) <==>
      exists row :: row in rows &&
        parseLabel(CellAt(row, dateColumn)) == Some(p.date) &&
        ToNumeric(CellAt(row, valueColumn)) == Some(p.value)
    ensures forall p ::
      multiset(FilterMap(rows, ConvertedOf(dateColumn, valueColumn, parseLabel)))[p] ==
        |RowsYielding(rows, ConvertedOf(dateColumn, valueColumn, parseLabel), p)|
    ensures exists idx ::
      ListsAccepted(FilterMap(rows, ConvertedOf(dateColumn, valueColumn, parseLabel)), rows,
        ConvertedOf(dateColumn, valueColumn, parseLabel), idx)
  {
    FilterMapFacts(rows, ConvertedOf(dateColumn, valueColumn, parseLabel));
    forall p: Point ensures p in FilterMap(rows, ConvertedOf(dateColumn, valueColumn, parseLabel)) <==>
      exists row :: row in rows &&
        parseLabel(CellAt(row, dateColumn)) == Some(p.date) &&
        ToNumeric(CellAt(row, valueColumn)) == Some(p.value)
    {
      ConvertedMember(rows, dateColumn, valueColumn, parseLabel, p);
    }
  }

  /** The converted rows without missing values: one point per such row, in input order. */
  function ConvertedPoints(rows: seq<Row>, dateColumn: string, valueColumn: string, pnad: bool): (r: seq<Point>)
    ensures forall p :: p in r <==>
      exists row :: row in rows &&
        LabelParser(pnad)(CellAt(row, dateColumn)) == Some(p.date) &&
        ToNumeric(CellAt(row, valueColumn)) == Some(p.value)
    ensures forall p :: multiset(r)[p] == |RowsYielding(rows, ConvertedOf(dateColumn, valueColumn, LabelParser(pnad)), p)|
    ensures exists idx :: ListsAccepted(r, rows, ConvertedOf(dateColumn, valueColumn, LabelParser(pnad)), idx)
  {
    ConvertedFacts(rows, dateColumn, valueColumn, LabelParser(pnad));
    FilterMap(rows, ConvertedOf(dateColumn, valueColumn, LabelParser(pnad)))
  }

  /** `_processar_dados_pib` (`codeColumn` "D2C", GDP labels) and
      `_processar_dados_desemprego` (`codeColumn` "D3C", PNAD labels): the SIDRA columns
      `V` and the code column are renamed to `valor` and `data` when both exist; a
      missing `data` or `valor` column makes `dropna` raise KeyError (`None` here);
      otherwise the converted rows with both values present, sorted by date. */
  function ProcessQuarterSeries(f: Frame, codeColumn: string, pnad: bool): Option<seq<Point>> {
    var renamed := HasColumn(f, "V") && HasColumn(f, codeColumn);
    var dateColumn := if renamed then codeColumn else "data";
    var valueColumn := if renamed then "V" else "valor";
    if !HasColumn(f, dateColumn) || !HasColumn(f, valueColumn) then None
    else Some(SortBy(ConvertedPoints(f.rows, dateColumn, valueColumn, pnad), PointDate))
  }

  function ProcessGdp(f: Frame): Option<seq<Point>> { ProcessQuarterSeries(f, "D2C", false) }
  function ProcessUnemployment(f: Frame): Option<seq<Point>> { ProcessQuarterSeries(f, "D3C", true) }

  /** The processed series fails exactly when the (renamed) `data` or `valor` column is
      missing; otherwise it is sorted by date and holds one point per row whose label
      converts and whose value is numeric. */
  lemma ProcessQuarterSeriesPoints(f: Frame, codeColumn: string, pnad: bool, p: Point)
    ensures var renamed := HasColumn(f, "V") && HasColumn(f, codeColumn);
            var dateColumn := if renamed then codeColumn else "data";
            var valueColumn := if renamed then "V" else "valor";
            var r := ProcessQuarterSeries(f, codeColumn, pnad);
            && (r.None? <==> !HasColumn(f, dateColumn) || !HasColumn(f, valueColumn))
            && (r.Some? ==> SortedBy(r.value, PointDate))
            && (r.Some? ==> (p in r.value <==> p in ConvertedPoints(f.rows, dateColumn, valueColumn, pnad)))
            && (r.Some? ==> multiset(r.value)[p] == |RowsYielding(f.rows, ConvertedOf(dateColumn, valueColumn, LabelParser(pnad)), p)|)
  {
    var r := ProcessQuarterSeries(f, codeColumn, pnad);
    if r.Some? {
      var renamed := HasColumn(f, "V") && HasColumn(f, codeColumn);
      var kept := ConvertedPoints(f.rows, if renamed then codeColumn else "data", if renamed then "V" else "valor", pnad);
      assert p in r.value <==> p in multiset(r.value);
      assert p in kept <==> p in multiset(kept);
    }
  }
}

/** Tabular data as the core sees it once pandas is abstracted away: a frame is an ordered
    list of column names plus rows, each row a map from column name to cell; a column a
    row does not mention holds a missing value. Also holds the stable sort by an integer
    key that stands for `DataFrame.sort_values`. */
module Frames {
  import opened Base
  import opened Text

  /** One pandas cell: a missing value, a number, a date (as a day number, see
      module Calendar) or a text. */
  datatype Cell = Null | Number(x: real) | Day(d: int) | Text(s: string)

  type Row = map<string, Cell>

  datatype Frame = Frame(columns: seq<string>, rows: seq<Row>)

  /** One point of a standardised `data, valor` series. */
  datatype Point = Point(date: int, value: real)

  /** `DataFrame.empty`: true when either axis has length zero. */
  predicate IsEmpty(f: Frame) {
    |f.columns| == 0 || |f.rows| == 0
  }

  predicate HasColumn(f: Frame, c: string) {
    c in f.columns
  }

  /** The cell of `row` in column `c`; an absent key reads as missing. */
  function CellAt(row: Row, c: string): Cell {
    if c in row then row[c] else Null
  }

  /** `pd.to_numeric(..., errors='coerce')` on one cell: a number stays, a text is read
      as pandas reads a decimal literal, anything else is missing. */
  function ToNumeric(c: Cell): Option<real> {
    match c
    case Number(x) => Some(x)
    case Text(s) => ParseDecimal(s, false)
    case _ => None
  }

  // ---------------------------------------------------------------------------
  // Sorting by an integer key

  predicate SortedBy<T>(s: seq<T>, key: T -> int) {
    forall i, j :: 0 <= i < j < |s| ==> key(s[i]) <= key(s[j])
  }

  /** Inserts `x` into the sorted `s` after every element whose key is not larger. */
  function InsertBy<T>(x: T, s: seq<T>, key: T -> int): (r: seq<T>)
    requires SortedBy(s, key)
    ensures SortedBy(r, key)
    ensures multiset(r) == multiset(s) + multiset{x}
    ensures |r| == |s| + 1
    ensures forall y :: y in r ==> y == x || y in s
  {
    if s == [] || key(x) < key(s[0]) then
      [x] + s
    else
      var rest := InsertBy(x, s[1..], key);
      assert s == [s[0]] + s[1..];
      SortedTailBound(s, key);
      SortedCons(s[0], rest, key);
      [s[0]] + rest
  }

  /** The head of a sorted sequence has the smallest key. */
  lemma SortedTailBound<T>(s: seq<T>, key: T -> int)
    requires SortedBy(s, key) && |s| > 0
    ensures forall y :: y in s[1..] ==> key(s[0]) <= key(y)
  {
    forall y | y in s[1..] ensures key(s[0]) <= key(y) {
      var m :| 0 <= m < |s[1..]| && s[1..][m] == y;
      assert s[m + 1] == y;
    }
  }

  /** A head whose key bounds every key of a sorted tail extends it to a sorted sequence. */
  lemma SortedCons<T>(h: T, t: seq<T>, key: T -> int)
    requires SortedBy(t, key) && forall y :: y in t ==> key(h) <= key(y)
    ensures SortedBy([h] + t, key)
  {
    forall i, j | 0 <= i < j < |[h] + t| ensures key(([h] + t)[i]) <= key(([h] + t)[j]) {
      assert ([h] + t)[j] == t[j - 1];
      if i > 0 {
        assert ([h] + t)[i] == t[i - 1];
      } else {
        assert t[j - 1] in t;
      }
    }
  }

  /** Stable insertion sort: the model of `sort_values` on one date column. */
  function SortBy<T>(s: seq<T>, key: T -> int): (r: seq<T>)
    ensures SortedBy(r, key)
    ensures multiset(r) == multiset(s)
    ensures |r| == |s|
  {
    if s == [] then []
    else
      assert s == s[..|s| - 1] + [s[|s| - 1]];
      InsertBy(s[|s| - 1], SortBy(s[..|s| - 1], key), key)
  }

  /** Every element of a sorted copy is an element of the original. */
  lemma SortByMembers<T>(s: seq<T>, key: T -> int, x: T)
    requires x in SortBy(s, key)
    ensures x in s
  {
    var r := SortBy(s, key);
    assert x in multiset(r);
  }

  // ---------------------------------------------------------------------------
  // Keeping the rows a conversion accepts (`dropna` after a coercion)

  /** The converted rows, in row order, leaving out those `f` rejects. */
  function FilterMap<R, T>(rows: seq<R>, f: R -> Option<T>): seq<T> {
    if rows == [] then []
    else
      var x := f(rows[|rows| - 1]);
      FilterMap(rows[..|rows| - 1], f) + (if x.Some? then [x.value] else [])
  }

  /** The positions among `rows` that `f` converts to `p`. */
  ghost function RowsYielding<R, T>(rows: seq<R>, f: R -> Option<T>, p: T): set<int> {
    set k | 0 <= k < |rows| && f(rows[k]) == Some(p)
  }

  /** `idx` lists, in increasing order, the rows `f` converts, and `r[j]` is the conversion
      of row `idx[j]`: one element per accepted row, in row order. */
  ghost predicate ListsAccepted<R, T>(r: seq<T>, rows: seq<R>, f: R -> Option<T>, idx: seq<int>) {
    && |idx| == |r|
    && (forall j :: 0 <= j < |idx| ==> 0 <= idx[j] < |rows| && f(rows[idx[j]]) == Some(r[j]))
    && (forall i, j :: 0 <= i < j < |idx| ==> idx[i] < idx[j])
    && (forall k :: 0 <= k < |rows| && f(rows[k]).Some? ==> k in idx)
  }

  lemma {:induction false} FilterMapIndices<R, T>(rows: seq<R>, f: R -> Option<T>) returns (idx: seq<int>)
    ensures ListsAccepted(FilterMap(rows, f), rows, f, idx)
  {
    if rows == [] {
      idx := [];
    } else {
      var n := |rows| - 1;
      var idx0 := FilterMapIndices(rows[..n], f);
      assert rows == rows[..n] + [rows[n]];
      idx := ListsAcceptedSnoc(FilterMap(rows[..n], f), rows[..n], rows[n], f, idx0);
    }
  }

  /** One more row extends the listing by its conversion, if any. */
  lemma ListsAcceptedSnoc<R, T>(r: seq<T>, rows: seq<R>, x: R, f: R -> Option<T>, idx0: seq<int>)
    returns (idx: seq<int>)
    requires ListsAccepted(r, rows, f, idx0)
    ensures ListsAccepted(r + (if f(x).Some? then [f(x).value] else []), rows + [x], f, idx)
  {
    var rows', r' := rows + [x], r + (if f(x).Some? then [f(x).value] else []);
    idx := if f(x).Some? then idx0 + [|rows|] else idx0;
    forall j | 0 <= j < |idx|
      ensures 0 <= idx[j] < |rows'| && f(rows'[idx[j]]) == Some(r'[j])
    {
      if j < |idx0| {
        assert idx[j] == idx0[j] && rows'[idx0[j]] == rows[idx0[j]] && r'[j] == r[j];
      }
    }
    forall k | 0 <= k < |rows'| && f(rows'[k]).Some? ensures k in idx {
      if k < |rows| {
        assert rows'[k] == rows[k] && k in idx0;
      }
    }
  }

  /** Each value occurs in the result once per row converted to it. */
  lemma {:induction false} FilterMapCount<R, T>(rows: seq<R>, f: R -> Option<T>, p: T)
    ensures multiset(FilterMap(rows, f))[p] == |RowsYielding(rows, f, p)|
  {
    if rows != [] {
      var n := |rows| - 1;
      FilterMapCount(rows[..n], f, p);
      var x := f(rows[n]);
      var tail := if x.Some? then [x.value] else [];
      assert FilterMap(rows, f) == FilterMap(rows[..n], f) + tail;
      assert multiset(FilterMap(rows, f)) == multiset(FilterMap(rows[..n], f)) + multiset(tail);
      RowsYieldingSnoc(rows, f, p);
    }
  }

  /** The last row adds itself to the rows converted to `p` when it is one of them. */
  lemma RowsYieldingSnoc<R, T>(rows: seq<R>, f: R -> Option<T>, p: T)
    requires |rows| > 0
    ensures |RowsYielding(rows, f, p)| ==
      |RowsYielding(rows[..|rows| - 1], f, p)| + (if f(rows[|rows| - 1]) == Some(p) then 1 else 0)
  {
    var n := |rows| - 1;
    var all, before := RowsYielding(rows, f, p), RowsYielding(rows[..n], f, p);
    forall k ensures k in all <==> k in before || (k == n && f(rows[n]) == Some(p)) {
      if 0 <= k < n {
        assert rows[..n][k] == rows[k];
      }
    }
    if f(rows[n]) == Some(p) {
      assert all == before + {n};
    } else {
      assert all == before;
    }
  }

  /** A value is in the result iff some row converts to it. */
  lemma FilterMapMembers<R, T>(rows: seq<R>, f: R -> Option<T>, p: T)
    ensures p in FilterMap(rows, f) <==> exists k :: 0 <= k < |rows| && f(rows[k]) == Some(p)
  {
    FilterMapCount(rows, f, p);
    if exists k :: 0 <= k < |rows| && f(rows[k]) == Some(p) {
      var k :| 0 <= k < |rows| && f(rows[k]) == Some(p);
      assert k in RowsYielding(rows, f, p);
    } else {
      assert RowsYielding(rows, f, p) == {};
    }
  }

  /** What the row filter guarantees: each value once per row converted to it, membership
      by some row, and row order. */
  lemma FilterMapFacts<R, T>(rows: seq<R>, f: R -> Option<T>)
    ensures forall p :: multiset(FilterMap(rows, f))[p] == |RowsYielding(rows, f, p)|
    ensures forall p :: p in FilterMap(rows, f) <==> exists k :: 0 <= k < |rows| && f(rows[k]) == Some(p)
    ensures exists idx :: ListsAccepted(FilterMap(rows, f), rows, f, idx)
  {
    forall p ensures multiset(FilterMap(rows, f))[p] == |RowsYielding(rows, f, p)| {
      FilterMapCount(rows, f, p);
    }
    forall p ensures p in FilterMap(rows, f) <==> exists k :: 0 <= k < |rows| && f(rows[k]) == Some(p) {
      FilterMapMembers(rows, f, p);
    }
    var idx := FilterMapIndices(rows, f);
  }

  function PointDate(p: Point): int { p.date }
}

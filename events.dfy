/** The event detector of `DetectorEventos` (src/dados/processadores/eventos.py): three
    independent rules run over a date-sorted copy of a series (peak/valley against the
    neighbours, abrupt percent change, trend reversal on a moving average), then a
    proximity filter walks the date-sorted candidates once and keeps, replaces or drops
    each one relative to the last kept event.

    The rolling standard deviation (12 samples, at least 3) is pandas float numerics
    with a square root; the rules only use its mean, which the caller passes in as
    `meanStd` (`None` when pandas' mean is NaN, i.e. no window had three samples). */
module EventDetector {
  import opened Base
  import opened Frames

  /** `pico`, `vale`, `aumento_abrupto`, `queda_abrupta`, `inversao_alta_baixa`,
      `inversao_baixa_alta`. */
  datatype Kind = Peak | Valley | SharpIncrease | SharpDecrease | ReversalUpToDown | ReversalDownToUp

  datatype Event = Event(date: int, value: real, kind: Kind)

  /** `dias_minimos`, the default spacing of `_filtrar_eventos_proximos`. */
  const MinGapDays := 30

  function EventDate(e: Event): int { e.date }

  predicate IsAbrupt(k: Kind) {
    k == SharpIncrease || k == SharpDecrease
  }

  /** A comparison `x > limiar` where a NaN threshold (`None`) makes it false. */
  predicate Exceeds(x: real, threshold: Option<real>) {
    threshold.Some? && x > threshold.value
  }

  /** `mean(desvio_padrao) * sensibilidade`; NaN stays NaN. */
  function StdThreshold(meanStd: Option<real>, sensitivity: real): Option<real> {
    if meanStd.Some? then Some(meanStd.value * sensitivity) else None
  }

  /** The event that rule-index `i` of the sorted series `v` produces. */
  function EventAt(v: seq<Point>, i: int, k: Kind): Event
    requires 0 <= i < |v|
  {
    Event(v[i].date, v[i].value, k)
  }

  function Max(a: real, b: real): real { if a >= b then a else b }
  function Min(a: real, b: real): real { if a <= b then a else b }

  // ===========================================================================
  // Rule 1: peaks and valleys (eventos.py:85-135)

  predicate IsPeakAt(v: seq<Point>, i: int, threshold: Option<real>)
    requires 1 <= i < |v| - 1
  {
    && v[i].value > v[i - 1].value && v[i].value > v[i + 1].value
    && Exceeds(v[i].value - Max(v[i - 1].value, v[i + 1].value), threshold)
  }

  predicate IsValleyAt(v: seq<Point>, i: int, threshold: Option<real>)
    requires 1 <= i < |v| - 1
  {
    && v[i].value < v[i - 1].value && v[i].value < v[i + 1].value
    && Exceeds(Min(v[i - 1].value, v[i + 1].value) - v[i].value, threshold)
  }

  /** What one iteration of the peak/valley loop appends: the two tests are independent
      `if`s in the source. */
  function PeakValleyAt(v: seq<Point>, i: int, threshold: Option<real>): seq<Event>
    requires 1 <= i < |v| - 1
  {
    (if IsPeakAt(v, i, threshold) then [EventAt(v, i, Peak)] else [])
    + (if IsValleyAt(v, i, threshold) then [EventAt(v, i, Valley)] else [])
  }

  /** The events of the interior indices `1 <= i < k`. */
  function PeaksValleysUpTo(v: seq<Point>, threshold: Option<real>, k: int): seq<Event>
    requires 1 <= k <= |v| - 1
  {
    if k == 1 then [] else PeaksValleysUpTo(v, threshold, k - 1) + PeakValleyAt(v, k - 1, threshold)
  }

  function PeaksValleys(v: seq<Point>, threshold: Option<real>): seq<Event> {
    if |v| < 3 then [] else PeaksValleysUpTo(v, threshold, |v| - 1)
  }

  /** `_detectar_picos_vales` on the sorted working copy `v`. */
  method DetectPeaksValleys(v: seq<Point>, threshold: Option<real>) returns (events: seq<Event>)
    ensures events == PeaksValleys(v, threshold)
  {
    events := [];
    if |v| < 3 {
      return;
    }
    var i := 1;
    while i < |v| - 1
      invariant 1 <= i <= |v| - 1
      invariant events == PeaksValleysUpTo(v, threshold, i)
    {
      var current, before, after := v[i].value, v[i - 1].value, v[i + 1].value;
      var found: seq<Event> := [];
      if current > before && current > after {
        if current - Max(before, after) > threshold.GetOr(0.0) && threshold.Some? {
          found := found + [Event(v[i].date, current, Peak)];
        }
      }
      if current < before && current < after {
        if Min(before, after) - current > threshold.GetOr(0.0) && threshold.Some? {
          found := found + [Event(v[i].date, current, Valley)];
        }
      }
      events := events + found;
      i := i + 1;
    }
  }

  /** A peak can never be a valley, so each index yields at most one event. */
  lemma PeakValleyExclusive(v: seq<Point>, i: int, threshold: Option<real>)
    requires 1 <= i < |v| - 1
    ensures !(IsPeakAt(v, i, threshold) && IsValleyAt(v, i, threshold))
    ensures |PeakValleyAt(v, i, threshold)| <= 1
  {
  }

  /** Exactly the interior indices that stand out from both neighbours by more than the
      threshold produce an event, and each event carries that row's date and value. */
  lemma {:induction false} PeaksValleysUpToExactly(v: seq<Point>, threshold: Option<real>, k: int, e: Event)
    requires 1 <= k <= |v| - 1
    ensures e in PeaksValleysUpTo(v, threshold, k) <==>
      exists i :: 1 <= i < k &&
        ((IsPeakAt(v, i, threshold) && e == EventAt(v, i, Peak)) ||
         (IsValleyAt(v, i, threshold) && e == EventAt(v, i, Valley)))
  {
    if k > 1 {
      PeaksValleysUpToExactly(v, threshold, k - 1, e);
    }
  }

  lemma PeaksValleysExactly(v: seq<Point>, threshold: Option<real>, e: Event)
    ensures e in PeaksValleys(v, threshold) <==>
      exists i :: 1 <= i < |v| - 1 &&
        ((IsPeakAt(v, i, threshold) && e == EventAt(v, i, Peak)) ||
         (IsValleyAt(v, i, threshold) && e == EventAt(v, i, Valley)))
  {
    if |v| >= 3 {
      PeaksValleysUpToExactly(v, threshold, |v| - 1, e);
    }
  }

  // ===========================================================================
  // Rule 2: abrupt percent change (eventos.py:137-186)

  /** A float that can be infinite or NaN: `pct_change` divides by the previous value,
      and a zero there gives an infinity (or NaN for 0/0). */
  datatype XReal = Finite(r: real) | PosInf | NegInf | NaN

  function XNeg(a: XReal): XReal {
    match a
    case Finite(r) => Finite(-r)
    case PosInf => NegInf
    case NegInf => PosInf
    case NaN => NaN
  }

  function XAbs(a: XReal): XReal {
    match a
    case Finite(r) => Finite(if r < 0.0 then -r else r)
    case NegInf => PosInf
    case _ => a
  }

  /** `a * k` for a finite factor `k` (an infinity times zero is NaN). */
  function XScale(a: XReal, k: real): XReal {
    match a
    case Finite(r) => Finite(r * k)
    case PosInf => if k > 0.0 then PosInf else if k < 0.0 then NegInf else NaN
    case NegInf => if k > 0.0 then NegInf else if k < 0.0 then PosInf else NaN
    case NaN => NaN
  }

  /** IEEE `a > b`: false whenever either side is NaN. */
  predicate XGreater(a: XReal, b: XReal) {
    match (a, b)
    case (NaN, _) => false
    case (_, NaN) => false
    case (Finite(x), Finite(y)) => x > y
    case (PosInf, _) => b != PosInf
    case (_, NegInf) => a != NegInf
    case _ => false
  }

  predicate XLess(a: XReal, b: XReal) {
    XGreater(b, a)
  }

  /** `pct_change() * 100` at one row: `(cur / prev - 1) * 100`. */
  function PctChange(prev: real, cur: real): XReal {
    if prev != 0.0 then Finite((cur / prev - 1.0) * 100.0)
    else if cur > 0.0 then PosInf
    else if cur < 0.0 then NegInf
    else NaN
  }

  /** The `variacao_pct` column: NaN on the first row. */
  function PctColumn(v: seq<Point>): (pct: seq<XReal>)
    ensures |pct| == |v|
  {
    seq(|v|, i requires 0 <= i < |v| => if i == 0 then NaN else PctChange(v[i - 1].value, v[i].value))
  }

  function SumFinite(s: seq<XReal>): real {
    if s == [] then 0.0
    else SumFinite(s[..|s| - 1]) + (if s[|s| - 1].Finite? then s[|s| - 1].r else 0.0)
  }

  function CountDefined(s: seq<XReal>): nat {
    if s == [] then 0 else CountDefined(s[..|s| - 1]) + (if s[|s| - 1] == NaN then 0 else 1)
  }

  predicate HasInfinity(s: seq<XReal>) {
    exists k :: 0 <= k < |s| && (s[k] == PosInf || s[k] == NegInf)
  }

  /** pandas `mean()` of values that are non-negative or +inf, skipping NaN. */
  function MeanSkipNaN(s: seq<XReal>): XReal {
    if CountDefined(s) == 0 then NaN
    else if HasInfinity(s) then PosInf
    else Finite(SumFinite(s) / CountDefined(s) as real)
  }

  /** `limiar = variacao_pct.abs().mean() * sensibilidade * 2`. */
  function AbruptThreshold(pct: seq<XReal>, sensitivity: real): XReal {
    XScale(XScale(MeanSkipNaN(seq(|pct|, k requires 0 <= k < |pct| => XAbs(pct[k]))), sensitivity), 2.0)
  }

  /** What one iteration of the abrupt-change loop appends (`if` / `elif`). */
  function AbruptAt(v: seq<Point>, pct: seq<XReal>, limit: XReal, i: int): seq<Event>
    requires 0 <= i < |v| == |pct|
  {
    if pct[i] == NaN then []
    else if XGreater(pct[i], limit) then [EventAt(v, i, SharpIncrease)]
    else if XLess(pct[i], XNeg(limit)) then [EventAt(v, i, SharpDecrease)]
    else []
  }

  function AbruptUpTo(v: seq<Point>, pct: seq<XReal>, limit: XReal, k: int): seq<Event>
    requires 1 <= k <= |v| == |pct|
  {
    if k == 1 then [] else AbruptUpTo(v, pct, limit, k - 1) + AbruptAt(v, pct, limit, k - 1)
  }

  function AbruptChanges(v: seq<Point>, sensitivity: real): seq<Event> {
    var pct := PctColumn(v);
    if |v| < 2 then [] else AbruptUpTo(v, pct, AbruptThreshold(pct, sensitivity), |v|)
  }

  /** `_detectar_mudancas_abruptas` on the sorted working copy `v`. */
  method DetectAbruptChanges(v: seq<Point>, sensitivity: real) returns (events: seq<Event>)
    ensures events == AbruptChanges(v, sensitivity)
  {
    events := [];
    if |v| < 2 {
      return;
    }
    var pct := PctColumn(v);
    var limit := AbruptThreshold(pct, sensitivity);
    events := ScanChanges(v, pct, limit);
  }

  /** The loop of `_detectar_mudancas_abruptas` over the rows after the first, given the
      `variacao_pct` column and the threshold. */
  method ScanChanges(v: seq<Point>, pct: seq<XReal>, limit: XReal) returns (events: seq<Event>)
    requires 1 <= |v| == |pct|
    ensures events == AbruptUpTo(v, pct, limit, |v|)
  {
    events := [];
    var i := 1;
    while i < |v|
      invariant 1 <= i <= |v|
      invariant events == AbruptUpTo(v, pct, limit, i)
    {
      AbruptStep(v, pct, limit, i);
      var change := pct[i];
      if change == NaN {
        i := i + 1;
        continue;
      }
      if XGreater(change, limit) {
        events := events + [Event(v[i].date, v[i].value, SharpIncrease)];
      } else if XLess(change, XNeg(limit)) {
        events := events + [Event(v[i].date, v[i].value, SharpDecrease)];
      }
      i := i + 1;
    }
  }

  /** One more row of the abrupt-change loop appends that row's event, if any. */
  lemma AbruptStep(v: seq<Point>, pct: seq<XReal>, limit: XReal, i: int)
    requires 1 <= i < |v| == |pct|
    ensures AbruptUpTo(v, pct, limit, i + 1) == AbruptUpTo(v, pct, limit, i) +
      (if pct[i] == NaN then []
       else if XGreater(pct[i], limit) then [Event(v[i].date, v[i].value, SharpIncrease)]
       else if XLess(pct[i], XNeg(limit)) then [Event(v[i].date, v[i].value, SharpDecrease)]
       else [])
  {
  }

  /** Exactly the rows after the first whose percent change is above the threshold
      (increase) or, failing that, below its negation (decrease) produce an event. */
  lemma {:induction false} AbruptUpToExactly(v: seq<Point>, pct: seq<XReal>, limit: XReal, k: int, e: Event)
    requires 1 <= k <= |v| == |pct|
    ensures e in AbruptUpTo(v, pct, limit, k) <==>
      exists i :: 1 <= i < k && pct[i] != NaN &&
        ((XGreater(pct[i], limit) && e == EventAt(v, i, SharpIncrease)) ||
         (!XGreater(pct[i], limit) && XLess(pct[i], XNeg(limit)) && e == EventAt(v, i, SharpDecrease)))
  {
    if k > 1 {
      AbruptUpToExactly(v, pct, limit, k - 1, e);
    }
  }

  lemma AbruptChangesExactly(v: seq<Point>, sensitivity: real, e: Event)
    ensures var pct := PctColumn(v);
            var limit := AbruptThreshold(pct, sensitivity);
            e in AbruptChanges(v, sensitivity) <==>
              exists i :: 1 <= i < |v| && pct[i] != NaN &&
                ((XGreater(pct[i], limit) && e == EventAt(v, i, SharpIncrease)) ||
                 (!XGreater(pct[i], limit) && XLess(pct[i], XNeg(limit)) && e == EventAt(v, i, SharpDecrease)))
  {
    if |v| >= 2 {
      AbruptUpToExactly(v, PctColumn(v), AbruptThreshold(PctColumn(v), sensitivity), |v|, e);
    }
  }

  /** With a non-negative sensitivity the two abrupt tests can never both hold. */
  lemma AbruptTestsExclusive(pct: seq<XReal>, sensitivity: real, x: XReal)
    requires sensitivity >= 0.0
    ensures var limit := AbruptThreshold(pct, sensitivity);
            !(XGreater(x, limit) && XLess(x, XNeg(limit)))
  {
    var abs := seq(|pct|, k requires 0 <= k < |pct| => XAbs(pct[k]));
    NonNegativeSum(abs);
  }

  lemma {:induction false} NonNegativeSum(s: seq<XReal>)
    requires forall k :: 0 <= k < |s| ==> s[k] != NegInf && (s[k].Finite? ==> s[k].r >= 0.0)
    ensures SumFinite(s) >= 0.0
  {
    if s != [] {
      NonNegativeSum(s[..|s| - 1]);
    }
  }

  // ===========================================================================
  // Rule 3: trend reversal (eventos.py:188-246)

  /** `janela = min(6, len(df) // 3)`. */
  function Window(n: nat): nat {
    if 6 <= n / 3 then 6 else n / 3
  }

  function SumValues(s: seq<Point>): real {
    if s == [] then 0.0 else SumValues(s[..|s| - 1]) + s[|s| - 1].value
  }

  /** One row of the `tendencia` column: `rolling(window=w, min_periods=w).mean()`. */
  function RollingMean(v: seq<Point>, w: nat, i: int): Option<real>
    requires 1 <= w && 0 <= i < |v|
  {
    if i >= w - 1 then Some(SumValues(v[i - w + 1..i + 1]) / w as real) else None
  }

  /** The `tendencia` column. */
  function TrendColumn(v: seq<Point>, w: nat): (t: seq<Option<real>>)
    requires 1 <= w
    ensures |t| == |v|
  {
    seq(|v|, j requires 0 <= j < |v| => RollingMean(v, w, j))
  }

  /** `tendencia_atual = tendencia[i] - tendencia[i - janela]` (NaN when either is). */
  function Delta(t: seq<Option<real>>, w: nat, i: int): Option<real>
    requires 1 <= w <= i < |t|
  {
    if t[i].Some? && t[i - w].Some? then Some(t[i].value - t[i - w].value) else None
  }

  /** A strict sign change between two defined deltas whose jump exceeds the threshold. */
  predicate IsReversal(previous: Option<real>, current: Option<real>, threshold: Option<real>) {
    && previous.Some? && current.Some?
    && ((previous.value > 0.0 && current.value < 0.0) || (previous.value < 0.0 && current.value > 0.0))
    && Exceeds(if current.value >= previous.value then current.value - previous.value
               else previous.value - current.value, threshold)
  }

  function ReversalKind(previous: real): Kind {
    if previous > 0.0 then ReversalUpToDown else ReversalDownToUp
  }

  /** The deltas of the trend column `t`, from index `janela` on (`None` before it). */
  function Deltas(t: seq<Option<real>>, w: nat): (d: seq<Option<real>>)
    requires 1 <= w
    ensures |d| == |t|
    ensures forall i :: w <= i < |t| ==> d[i] == Delta(t, w, i)
  {
    seq(|t|, i requires 0 <= i < |t| => if i >= w then Delta(t, w, i) else None)
  }

  /** The deltas `_detectar_tendencias` compares on the series `v`. */
  function SeriesDeltas(v: seq<Point>): (d: seq<Option<real>>)
    requires |v| >= 6
    ensures |d| == |v|
  {
    Deltas(TrendColumn(v, Window(|v|)), Window(|v|))
  }

  /** What iteration `i` of the trend loop appends, given the delta column `d`; the loop
      skips `i < janela + 2` and the first computed delta (at `janela + 2`) only seeds
      `tendencia_anterior`, so the first index that can emit is `janela + 3`, comparing
      deltas `i - 1` and `i`. */
  function TrendAt(v: seq<Point>, d: seq<Option<real>>, threshold: Option<real>, i: int): seq<Event>
    requires |d| == |v| && 1 <= i < |v|
  {
    if IsReversal(d[i - 1], d[i], threshold) then [EventAt(v, i, ReversalKind(d[i - 1].value))] else []
  }

  function TrendUpTo(v: seq<Point>, d: seq<Option<real>>, w: nat, threshold: Option<real>, k: int): seq<Event>
    requires |d| == |v| && k <= |v|
  {
    if k <= w + 3 then [] else TrendUpTo(v, d, w, threshold, k - 1) + TrendAt(v, d, threshold, k - 1)
  }

  function TrendReversals(v: seq<Point>, threshold: Option<real>): seq<Event> {
    if |v| < 6 then [] else TrendUpTo(v, SeriesDeltas(v), Window(|v|), threshold, |v|)
  }

  /** `_detectar_tendencias` on the sorted working copy `v`. The source's guard on the
      number of NaN trend values (eventos.py:213) cannot fire for finite values, since
      only the first `janela - 1` are NaN and `2 * janela <= len(df)`. */
  method DetectTrendReversals(v: seq<Point>, threshold: Option<real>) returns (events: seq<Event>)
    ensures events == TrendReversals(v, threshold)
  {
    events := [];
    if |v| < 6 {
      return;
    }
    var w := Window(|v|);
    var trend := TrendColumn(v, w);
    events := ScanTrend(v, trend, w, threshold);
  }

  /** The loop of `_detectar_tendencias` from index `janela` on, given the `tendencia`
      column: it remembers the previous delta and compares it with the current one. */
  method ScanTrend(v: seq<Point>, trend: seq<Option<real>>, w: nat, threshold: Option<real>) returns (events: seq<Event>)
    requires |trend| == |v| && 1 <= w <= |v|
    ensures events == TrendUpTo(v, Deltas(trend, w), w, threshold, |v|)
  {
    events := [];
    ghost var d := Deltas(trend, w);
    var previous: Option<Option<real>> := None;
    var i := w;
    while i < |v|
      invariant w <= i <= |v|
      invariant previous == (if i <= w + 2 then None else Some(d[i - 1]))
      invariant events == TrendUpTo(v, d, w, threshold, i)
    {
      if i >= w + 2 {
        var current := Delta(trend, w, i);
        TrendStep(v, d, w, threshold, i);
        if previous.Some? {
          var before := previous.value;
          if before.Some? && current.Some? && IsReversal(before, current, threshold) {
            events := events + [Event(v[i].date, v[i].value, ReversalKind(before.value))];
          }
        }
        previous := Some(current);
      }
      i := i + 1;
    }
  }

  /** Row `i` turns the trend: the delta changes sign strictly from row `i - 1` to row `i`,
      by more than the threshold, and `e` is that row's reversal event, in the direction
      of the earlier delta. */
  predicate ReversalAt(v: seq<Point>, d: seq<Option<real>>, threshold: Option<real>, i: int, e: Event)
    requires |d| == |v| && 1 <= i < |v|
  {
    IsReversal(d[i - 1], d[i], threshold) && e == EventAt(v, i, ReversalKind(d[i - 1].value))
  }

  /** One more row of the trend loop appends that row's reversal, if any. */
  lemma TrendStep(v: seq<Point>, d: seq<Option<real>>, w: nat, threshold: Option<real>, i: int)
    requires |d| == |v| && w + 2 <= i < |v| && 1 <= i
    ensures TrendUpTo(v, d, w, threshold, i + 1) == TrendUpTo(v, d, w, threshold, i) +
      (if i > w + 2 && d[i - 1].Some? && d[i].Some? && IsReversal(d[i - 1], d[i], threshold)
       then [Event(v[i].date, v[i].value, ReversalKind(d[i - 1].value))] else [])
  {
  }

  /** Exactly the rows from `janela + 3` on that turn the trend produce a reversal. */
  lemma {:induction false} TrendUpToExactly(v: seq<Point>, d: seq<Option<real>>, w: nat, threshold: Option<real>, k: int, e: Event)
    requires |d| == |v| && k <= |v|
    ensures e in TrendUpTo(v, d, w, threshold, k) <==>
      exists i :: w + 3 <= i < k && ReversalAt(v, d, threshold, i, e)
  {
    if k > w + 3 {
      TrendUpToExactly(v, d, w, threshold, k - 1, e);
      assert e in TrendAt(v, d, threshold, k - 1) <==> ReversalAt(v, d, threshold, k - 1, e);
    }
  }

  /** The reversals of a series of at least six rows are exactly its rows from `janela + 3`
      on that turn the trend of the moving average's deltas. */
  lemma TrendReversalsExactly(v: seq<Point>, threshold: Option<real>, e: Event)
    ensures e in TrendReversals(v, threshold) <==>
      |v| >= 6 &&
      exists i :: Window(|v|) + 3 <= i < |v| && ReversalAt(v, SeriesDeltas(v), threshold, i, e)
  {
    if |v| >= 6 {
      TrendUpToExactly(v, SeriesDeltas(v), Window(|v|), threshold, |v|, e);
    }
  }

  // ===========================================================================
  // Proximity filter (eventos.py:248-295)

  /** How one candidate `e` changes the kept list: appended when far enough from the last
      kept event; otherwise it replaces the last kept event when of the same kind (for a
      peak only when higher, for a valley only when lower) or when it is abrupt and the
      last kept one is not; otherwise it is dropped. */
  /** When a candidate close to the last kept event takes its place: a higher peak over a
      peak, a lower valley over a valley, any same-kind event of another kind, and an
      abrupt change over an event that is not one. */
  predicate Supersedes(e: Event, last: Event) {
    if e.kind == last.kind then
      (e.kind == Peak ==> e.value > last.value) && (e.kind == Valley ==> e.value < last.value)
    else IsAbrupt(e.kind) && !IsAbrupt(last.kind)
  }

  function Step(kept: seq<Event>, e: Event, minDays: int): (r: seq<Event>)
    requires |kept| > 0
    ensures r == kept || r == kept + [e] || r == kept[..|kept| - 1] + [e]
    ensures r == kept + [e] <==> e.date - kept[|kept| - 1].date >= minDays
    ensures e.date - kept[|kept| - 1].date < minDays && Supersedes(e, kept[|kept| - 1]) ==>
      r == kept[..|kept| - 1] + [e]
    ensures e.date - kept[|kept| - 1].date < minDays && !Supersedes(e, kept[|kept| - 1]) ==> r == kept
  {
    var last := kept[|kept| - 1];
    if e.date - last.date >= minDays then kept + [e]
    else if e.kind == last.kind then
      if e.kind == Peak || e.kind == Valley then
        if (e.kind == Peak && e.value > last.value) || (e.kind == Valley && e.value < last.value)
        then kept[..|kept| - 1] + [e]
        else kept
      else kept[..|kept| - 1] + [e]
    else if IsAbrupt(e.kind) && !IsAbrupt(last.kind) then kept[..|kept| - 1] + [e]
    else kept
  }

  /** Within the gap a kept event is never given up for a less significant one: a peak
      stays unless the candidate is a higher peak or an abrupt change, a valley unless it
      is a lower valley or an abrupt change, an abrupt change unless the candidate is an
      abrupt change of the same direction; the number of kept events does not change. */
  lemma StepNeverWeakens(kept: seq<Event>, e: Event, minDays: int)
    requires |kept| > 0 && e.date - kept[|kept| - 1].date < minDays
    ensures |Step(kept, e, minDays)| == |kept|
    ensures var last := kept[|kept| - 1];
      last.kind == Peak && !(e.kind == Peak && e.value > last.value) && !IsAbrupt(e.kind) ==>
        Step(kept, e, minDays) == kept
    ensures var last := kept[|kept| - 1];
      last.kind == Valley && !(e.kind == Valley && e.value < last.value) && !IsAbrupt(e.kind) ==>
        Step(kept, e, minDays) == kept
    ensures var last := kept[|kept| - 1];
      IsAbrupt(last.kind) && e.kind != last.kind ==> Step(kept, e, minDays) == kept
  {
  }

  /** The kept list after walking the first `k` candidates of `s`. */
  function FilterPrefix(s: seq<Event>, k: int, minDays: int): (r: seq<Event>)
    requires 1 <= k <= |s|
    ensures 1 <= |r| <= k
  {
    if k == 1 then [s[0]] else Step(FilterPrefix(s, k - 1, minDays), s[k - 1], minDays)
  }

  function ProximityFilter(events: seq<Event>, minDays: int): seq<Event> {
    if |events| <= 1 then events else FilterPrefix(SortBy(events, EventDate), |events|, minDays)
  }

  /** `_filtrar_eventos_proximos`: sort by date, then one pass over the candidates. */
  method FilterCloseEvents(events: seq<Event>, minDays: int) returns (kept: seq<Event>)
    ensures kept == ProximityFilter(events, minDays)
  {
    if |events| <= 1 {
      return events;
    }
    var sorted := SortBy(events, EventDate);
    kept := WalkCandidates(sorted, minDays);
  }

  /** The pass of `_filtrar_eventos_proximos` over the date-sorted candidates. */
  method WalkCandidates(sorted: seq<Event>, minDays: int) returns (kept: seq<Event>)
    requires |sorted| >= 1
    ensures kept == FilterPrefix(sorted, |sorted|, minDays)
  {
    kept := [sorted[0]];
    for i := 1 to |sorted|
      invariant kept == FilterPrefix(sorted, i, minDays)
    {
      var current := sorted[i];
      var last := kept[|kept| - 1];
      var days := current.date - last.date;
      if days >= minDays {
        kept := kept + [current];
      } else if current.kind == last.kind {
        if current.kind == Peak || current.kind == Valley {
          if (current.kind == Peak && current.value > last.value) || (current.kind == Valley && current.value < last.value) {
            kept := kept[..|kept| - 1] + [current];
          }
        } else {
          kept := kept[..|kept| - 1] + [current];
        }
      } else if IsAbrupt(current.kind) && !IsAbrupt(last.kind) {
        kept := kept[..|kept| - 1] + [current];
      }
    }
  }

  /** `idx` lists, in increasing order, the positions in `s` of the elements of `r`. */
  ghost predicate IndexesInto(idx: seq<int>, r: seq<Event>, s: seq<Event>) {
    && |idx| == |r|
    && (forall j :: 0 <= j < |idx| ==> 0 <= idx[j] < |s| && r[j] == s[idx[j]])
    && (forall i, j :: 0 <= i < j < |idx| ==> idx[i] < idx[j])
  }

  ghost predicate IsSubsequence(r: seq<Event>, s: seq<Event>) {
    exists idx :: IndexesInto(idx, r, s)
  }

  /** Consecutive kept events are at least `minDays` apart. */
  predicate Spaced(r: seq<Event>, minDays: int) {
    forall j :: 0 < j < |r| ==> FarFromPrevious(r, j, minDays)
  }

  /** Event `j` is at least `minDays` after event `j - 1`. */
  predicate FarFromPrevious(r: seq<Event>, j: int, minDays: int)
    requires 0 < j < |r|
  {
    r[j].date - r[j - 1].date >= minDays
  }

  lemma {:induction false} FilterPrefixIndices(s: seq<Event>, k: int, minDays: int) returns (idx: seq<int>)
    requires 1 <= k <= |s|
    ensures IndexesInto(idx, FilterPrefix(s, k, minDays), s)
    ensures forall j :: 0 <= j < |idx| ==> idx[j] < k
  {
    if k == 1 {
      idx := [0];
      assert FilterPrefix(s, k, minDays) == [s[0]];
      assert IndexesInto(idx, [s[0]], s);
    } else {
      var previous := FilterPrefixIndices(s, k - 1, minDays);
      var kept := FilterPrefix(s, k - 1, minDays);
      assert FilterPrefix(s, k, minDays) == Step(kept, s[k - 1], minDays);
      idx := StepIndexes(previous, kept, s, k - 1, minDays);
    }
  }

  /** One step of the filter on the candidate at position `x` keeps the kept list an
      indexed selection of `s`, with positions up to `x`. */
  lemma StepIndexes(idx: seq<int>, kept: seq<Event>, s: seq<Event>, x: int, minDays: int) returns (idx': seq<int>)
    requires IndexesInto(idx, kept, s) && |kept| > 0 && 0 <= x < |s|
    requires forall j :: 0 <= j < |idx| ==> idx[j] < x
    ensures IndexesInto(idx', Step(kept, s[x], minDays), s)
    ensures forall j :: 0 <= j < |idx'| ==> idx'[j] <= x
  {
    var r := Step(kept, s[x], minDays);
    if r == kept + [s[x]] {
      IndexesAppend(idx, kept, s, x);
      idx' := idx + [x];
    } else if r == kept[..|kept| - 1] + [s[x]] {
      IndexesDropLast(idx, kept, s);
      IndexesAppend(idx[..|idx| - 1], kept[..|kept| - 1], s, x);
      idx' := idx[..|idx| - 1] + [x];
    } else {
      idx' := idx;
    }
  }

  /** Dropping the last element of an indexed selection keeps it indexed. */
  lemma IndexesDropLast(idx: seq<int>, r: seq<Event>, s: seq<Event>)
    requires IndexesInto(idx, r, s) && |r| > 0
    ensures IndexesInto(idx[..|idx| - 1], r[..|r| - 1], s)
  {
  }

  /** An element of `s` after every selected position extends the selection. */
  lemma IndexesAppend(idx: seq<int>, r: seq<Event>, s: seq<Event>, x: int)
    requires IndexesInto(idx, r, s) && 0 <= x < |s|
    requires forall j :: 0 <= j < |idx| ==> idx[j] < x
    ensures IndexesInto(idx + [x], r + [s[x]], s)
    ensures forall j :: 0 <= j < |idx + [x]| ==> (idx + [x])[j] <= x
  {
    var idx', r' := idx + [x], r + [s[x]];
    forall i, j | 0 <= i < j < |idx'| ensures idx'[i] < idx'[j] {
      assert idx'[i] == idx[i];
    }
  }

  /** Walking a date-sorted candidate list keeps a date-sorted list whose consecutive
      events are at least `minDays` apart. */
  lemma {:induction false} FilterPrefixSpaced(s: seq<Event>, k: int, minDays: int)
    requires 1 <= k <= |s|
    requires SortedBy(s, EventDate)
    ensures var r := FilterPrefix(s, k, minDays);
            SortedBy(r, EventDate) && Spaced(r, minDays)
  {
    if k > 1 {
      FilterPrefixSpaced(s, k - 1, minDays);
      var kept := FilterPrefix(s, k - 1, minDays);
      var idx := FilterPrefixIndices(s, k - 1, minDays);
      assert kept[|kept| - 1] == s[idx[|idx| - 1]];
      StepSpaced(kept, s[k - 1], minDays);
    }
  }

  /** One step keeps a sorted, spaced list sorted and spaced when the candidate is not
      earlier than the last kept event. */
  lemma StepSpaced(kept: seq<Event>, e: Event, minDays: int)
    requires |kept| > 0 && SortedBy(kept, EventDate) && Spaced(kept, minDays)
    requires kept[|kept| - 1].date <= e.date
    ensures var r := Step(kept, e, minDays);
            SortedBy(r, EventDate) && Spaced(r, minDays)
  {
    var r := Step(kept, e, minDays);
    var last := kept[|kept| - 1];
    if r == kept + [e] {
      assert SortedBy(r, EventDate) by {
        forall i, j | 0 <= i < j < |r| ensures r[i].date <= r[j].date {
          if j == |r| - 1 {
            assert r[i] == kept[i];
            assert kept[i].date <= last.date;
          } else {
            assert r[i] == kept[i] && r[j] == kept[j];
          }
        }
      }
      assert Spaced(r, minDays) by {
        forall j | 0 < j < |r| ensures FarFromPrevious(r, j, minDays) {
          assert r[j - 1] == kept[j - 1];
          if j < |r| - 1 {
            assert r[j] == kept[j] && FarFromPrevious(kept, j, minDays);
          }
        }
      }
    } else if r != kept {
      assert r == kept[..|kept| - 1] + [e];
      assert SortedBy(r, EventDate) by {
        forall i, j | 0 <= i < j < |r| ensures r[i].date <= r[j].date {
          if j == |r| - 1 {
            assert r[i] == kept[i];
            assert kept[i].date <= last.date;
          } else {
            assert r[i] == kept[i] && r[j] == kept[j];
          }
        }
      }
      assert Spaced(r, minDays) by {
        forall j | 0 < j < |r| ensures FarFromPrevious(r, j, minDays) {
          assert r[j - 1] == kept[j - 1] && FarFromPrevious(kept, j, minDays);
          if j == |r| - 1 {
            assert kept[j] == last;
          } else {
            assert r[j] == kept[j];
          }
        }
      }
    }
  }

  /** The filter's output is an order-preserving selection of the date-sorted candidates,
      at least one event long and never longer than the input. */
  lemma ProximityFilterSubsequence(events: seq<Event>, minDays: int)
    requires |events| >= 1
    ensures var r := ProximityFilter(events, minDays);
            IsSubsequence(r, SortBy(events, EventDate)) && 1 <= |r| <= |events|
  {
    var sorted := SortBy(events, EventDate);
    if |events| == 1 {
      assert sorted == events;
      assert IndexesInto([0], events, sorted);
    } else {
      var idx := FilterPrefixIndices(sorted, |events|, minDays);
      FilterPrefixSpaced(sorted, |events|, minDays);
    }
  }

  /** With a non-negative spacing, any two kept events (not only neighbours) are at
      least `minDays` apart, and the output is sorted by date. */
  lemma ProximityFilterSpacing(events: seq<Event>, minDays: int)
    requires minDays >= 0
    ensures var r := ProximityFilter(events, minDays);
            SortedBy(r, EventDate) &&
            forall i, j :: 0 <= i < j < |r| ==> r[j].date - r[i].date >= minDays
  {
    var r := ProximityFilter(events, minDays);
    if |events| > 1 {
      FilterPrefixSpaced(SortBy(events, EventDate), |events|, minDays);
      SpacedPairwise(r, minDays);
    }
  }

  lemma {:induction false} SpacedPairwise(r: seq<Event>, minDays: int)
    requires minDays >= 0 && Spaced(r, minDays) && SortedBy(r, EventDate)
    ensures forall i, j :: 0 <= i < j < |r| ==> r[j].date - r[i].date >= minDays
  {
    forall i, j | 0 <= i < j < |r| ensures r[j].date - r[i].date >= minDays {
      assert FarFromPrevious(r, j, minDays);
      assert r[i].date <= r[j - 1].date;
    }
  }

  /** Every event the filter keeps is one of its candidates. */
  lemma ProximityFilterMembers(events: seq<Event>, minDays: int, e: Event)
    requires e in ProximityFilter(events, minDays)
    ensures e in events
  {
    if |events| > 1 {
      var sorted := SortBy(events, EventDate);
      var idx := FilterPrefixIndices(sorted, |events|, minDays);
      var r := ProximityFilter(events, minDays);
      var j :| 0 <= j < |r| && r[j] == e;
      assert e == sorted[idx[j]];
      SortByMembers(events, EventDate, e);
    }
  }

  /** The first candidate is not always kept: a higher peak nine days later replaces it. */
  lemma FirstCandidateReplaced()
    ensures ProximityFilter([Event(1, 1.0, Peak), Event(10, 2.0, Peak)], MinGapDays) == [Event(10, 2.0, Peak)]
  {
    var s := [Event(1, 1.0, Peak), Event(10, 2.0, Peak)];
    assert s[..1] == [s[0]];
    assert SortBy(s[..1], EventDate) == [s[0]];
    assert InsertBy(s[1], [s[0]], EventDate) == [s[0]] + InsertBy(s[1], [], EventDate);
    assert SortBy(s, EventDate) == s;
    assert FilterPrefix(s, 1, MinGapDays) == [s[0]];
    assert Step([s[0]], s[1], MinGapDays) == [s[1]];
  }

  // ===========================================================================
  // detectar_eventos (eventos.py:31-83)

  const DefaultSensitivity := 1.5

  /** Every row holds a date in the date column and a number in the value column. */
  predicate WellTyped(f: Frame, dateColumn: string, valueColumn: string) {
    forall row :: row in f.rows ==> CellAt(row, dateColumn).Day? && CellAt(row, valueColumn).Number?
  }

  function Observations(f: Frame, dateColumn: string, valueColumn: string): (v: seq<Point>)
    requires WellTyped(f, dateColumn, valueColumn)
    ensures |v| == |f.rows|
  {
    seq(|f.rows|, k requires 0 <= k < |f.rows| =>
      Point(CellAt(f.rows[k], dateColumn).d, CellAt(f.rows[k], valueColumn).x))
  }

  /** The candidates of the three rules over the date-sorted series. */
  function Candidates(v: seq<Point>, sensitivity: real, meanStd: Option<real>): seq<Event> {
    var threshold := StdThreshold(meanStd, sensitivity);
    PeaksValleys(v, threshold) + AbruptChanges(v, sensitivity) + TrendReversals(v, threshold)
  }

  function Detect(f: Frame, dateColumn: string, valueColumn: string, sensitivity: real, meanStd: Option<real>): seq<Event>
    requires HasColumn(f, dateColumn) && HasColumn(f, valueColumn) ==> WellTyped(f, dateColumn, valueColumn)
  {
    if IsEmpty(f) || !HasColumn(f, dateColumn) || !HasColumn(f, valueColumn) then []
    else
      var candidates := Candidates(SortBy(Observations(f, dateColumn, valueColumn), PointDate), sensitivity, meanStd);
      if candidates == [] then [] else ProximityFilter(SortBy(candidates, EventDate), MinGapDays)
  }

  /** `detectar_eventos`: an empty frame or a missing column gives no events; otherwise the
      events are sorted by date, pairwise at least 30 days apart, and each carries the
      date and value of one of the input rows. `meanStd` is the mean of the 12-sample
      rolling standard deviation of the date-sorted values. */
  method DetectEvents(f: Frame, dateColumn: string, valueColumn: string, sensitivity: real, meanStd: Option<real>)
    returns (events: seq<Event>)
    requires HasColumn(f, dateColumn) && HasColumn(f, valueColumn) ==> WellTyped(f, dateColumn, valueColumn)
    ensures events == Detect(f, dateColumn, valueColumn, sensitivity, meanStd)
    ensures IsEmpty(f) || !HasColumn(f, dateColumn) || !HasColumn(f, valueColumn) ==> events == []
    ensures SortedBy(events, EventDate)
    ensures forall i, j :: 0 <= i < j < |events| ==> events[j].date - events[i].date >= MinGapDays
    ensures forall e :: e in events ==>
      exists row :: row in f.rows && CellAt(row, dateColumn) == Day(e.date) && CellAt(row, valueColumn) == Number(e.value)
  {
    if IsEmpty(f) || !HasColumn(f, dateColumn) || !HasColumn(f, valueColumn) {
      return [];
    }
    var series := SortBy(Observations(f, dateColumn, valueColumn), PointDate);
    var threshold := StdThreshold(meanStd, sensitivity);
    var peaks := DetectPeaksValleys(series, threshold);
    var abrupt := DetectAbruptChanges(series, sensitivity);
    var trends := DetectTrendReversals(series, threshold);
    var candidates := peaks + abrupt + trends;
    assert candidates == Candidates(series, sensitivity, meanStd);
    if candidates == [] {
      return [];
    }
    events := FilterCloseEvents(SortBy(candidates, EventDate), MinGapDays);
    assert events == Detect(f, dateColumn, valueColumn, sensitivity, meanStd);
    DetectProperties(f, dateColumn, valueColumn, sensitivity, meanStd);
  }

  lemma DetectProperties(f: Frame, dateColumn: string, valueColumn: string, sensitivity: real, meanStd: Option<real>)
    requires HasColumn(f, dateColumn) && HasColumn(f, valueColumn) ==> WellTyped(f, dateColumn, valueColumn)
    ensures var events := Detect(f, dateColumn, valueColumn, sensitivity, meanStd);
            && SortedBy(events, EventDate)
            && (forall i, j :: 0 <= i < j < |events| ==> events[j].date - events[i].date >= MinGapDays)
            && forall e :: e in events ==>
                 exists row :: row in f.rows && CellAt(row, dateColumn) == Day(e.date) && CellAt(row, valueColumn) == Number(e.value)
  {
    var events := Detect(f, dateColumn, valueColumn, sensitivity, meanStd);
    if events != [] {
      var v := SortBy(Observations(f, dateColumn, valueColumn), PointDate);
      var candidates := Candidates(v, sensitivity, meanStd);
      var sorted := SortBy(candidates, EventDate);
      assert events == ProximityFilter(sorted, MinGapDays);
      ProximityFilterSpacing(sorted, MinGapDays);
      forall e | e in events
        ensures exists row :: row in f.rows && CellAt(row, dateColumn) == Day(e.date) && CellAt(row, valueColumn) == Number(e.value)
      {
        ProximityFilterMembers(sorted, MinGapDays, e);
        SortByMembers(candidates, EventDate, e);
        CandidateOnSeries(v, sensitivity, meanStd, e);
        PointFromRow(f, dateColumn, valueColumn, e.date, e.value);
      }
    }
  }

  /** Each candidate carries the date and value of a point of the series. */
  lemma CandidateOnSeries(v: seq<Point>, sensitivity: real, meanStd: Option<real>, e: Event)
    requires e in Candidates(v, sensitivity, meanStd)
    ensures Point(e.date, e.value) in v
  {
    var threshold := StdThreshold(meanStd, sensitivity);
    if e in PeaksValleys(v, threshold) {
      PeaksValleysExactly(v, threshold, e);
      var i :| 1 <= i < |v| - 1 &&
        ((IsPeakAt(v, i, threshold) && e == EventAt(v, i, Peak)) ||
         (IsValleyAt(v, i, threshold) && e == EventAt(v, i, Valley)));
      assert v[i] == Point(e.date, e.value);
    } else if e in AbruptChanges(v, sensitivity) {
      AbruptChangesExactly(v, sensitivity, e);
      var pct := PctColumn(v);
      var limit := AbruptThreshold(pct, sensitivity);
      var i :| 1 <= i < |v| && pct[i] != NaN &&
        ((XGreater(pct[i], limit) && e == EventAt(v, i, SharpIncrease)) ||
         (!XGreater(pct[i], limit) && XLess(pct[i], XNeg(limit)) && e == EventAt(v, i, SharpDecrease)));
      assert v[i] == Point(e.date, e.value);
    } else {
      TrendReversalsExactly(v, threshold, e);
      var w := Window(|v|);
      var i :| w + 3 <= i < |v| && ReversalAt(v, SeriesDeltas(v), threshold, i, e);
      assert v[i] == Point(e.date, e.value);
    }
  }

  /** A point of the sorted series comes from an input row. */
  lemma PointFromRow(f: Frame, dateColumn: string, valueColumn: string, date: int, value: real)
    requires WellTyped(f, dateColumn, valueColumn)
    requires Point(date, value) in SortBy(Observations(f, dateColumn, valueColumn), PointDate)
    ensures exists row :: row in f.rows && CellAt(row, dateColumn) == Day(date) && CellAt(row, valueColumn) == Number(value)
  {
    var obs := Observations(f, dateColumn, valueColumn);
    SortByMembers(obs, PointDate, Point(date, value));
    var k :| 0 <= k < |obs| && obs[k] == Point(date, value);
    assert f.rows[k] in f.rows;
  }
}

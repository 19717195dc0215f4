/** The two pieces of logic in the chart components (`ExibidorGraficos`): choosing the
    value column of a merged frame whose columns carry a suffix (`_1`, `_2`), and the
    wording of a Pearson correlation coefficient. */
module Display {
  import opened Base
  import opened Text

  // ---------------------------------------------------------------------------
  // The value column (exibidores.py:394-428)

  /** The column names tried, in this order, when the configured one is absent. */
  const CommonColumns: seq<string> := ["valor", "deficit", "iof"]

  /** The configured column with the suffix, when the configuration names one (an empty
      name is false in Python) and the frame has it. */
  function ConfiguredColumn(columns: seq<string>, configured: Option<string>, suffix: string): (r: Option<string>)
    ensures r.Some? <==> configured.Some? && configured.value != "" && configured.value + suffix in columns
  {
    if configured.Some? && configured.value != "" && configured.value + suffix in columns then
      Some(configured.value + suffix)
    else None
  }

  /** The first of `names`, with the suffix, that is a column of the frame. */
  function FirstCommon(columns: seq<string>, names: seq<string>, suffix: string): (r: Option<string>)
    ensures r.None? <==> forall i :: 0 <= i < |names| ==> names[i] + suffix !in columns
    ensures r.Some? ==> exists i :: (0 <= i < |names| && r.value == names[i] + suffix && r.value in columns &&
                          forall j :: 0 <= j < i ==> names[j] + suffix !in columns)
  {
    if names == [] then None
    else if names[0] + suffix in columns then
      Some(names[0] + suffix)
    else
      var r := FirstCommon(columns, names[1..], suffix);
      if r.Some? then
        var i :| 0 <= i < |names[1..]| && r.value == names[1..][i] + suffix && r.value in columns &&
                 forall j :: 0 <= j < i ==> names[1..][j] + suffix !in columns;
        assert r.value == names[i + 1] + suffix;
        assert forall j :: 0 <= j < i + 1 ==> names[j] + suffix !in columns by {
          forall j | 0 <= j < i + 1 ensures names[j] + suffix !in columns {
            if j > 0 {
              assert names[j] == names[1..][j - 1];
            }
          }
        }
        r
      else
        assert forall i :: 0 <= i < |names| ==> names[i] + suffix !in columns by {
          forall i | 0 <= i < |names| ensures names[i] + suffix !in columns {
            if i > 0 {
              assert names[i] == names[1..][i - 1];
            }
          }
        }
        None
  }

  /** The test of the list comprehension: the column ends with the suffix, is not the
      suffixed `data` or `ano` column, and has a numeric type. */
  predicate IsNumericCandidate(col: string, numeric: set<string>, suffix: string) {
    EndsWith(col, suffix) && col != "data" + suffix && col != "ano" + suffix && col in numeric
  }

  /** The list comprehension `colunas_numericas`: the candidates, in column order. */
  function NumericCandidates(columns: seq<string>, numeric: set<string>, suffix: string): (r: seq<string>)
    ensures forall c :: c in r <==> c in columns && IsNumericCandidate(c, numeric, suffix)
    ensures |r| > 0 ==> exists i :: (0 <= i < |columns| && columns[i] == r[0] &&
                          forall j :: 0 <= j < i ==> !IsNumericCandidate(columns[j], numeric, suffix))
  {
    if columns == [] then []
    else
      var rest := NumericCandidates(columns[1..], numeric, suffix);
      assert forall c :: c in columns <==> c == columns[0] || c in columns[1..] by {
        assert columns == [columns[0]] + columns[1..];
      }
      if IsNumericCandidate(columns[0], numeric, suffix) then
        [columns[0]] + rest
      else
        if |rest| > 0 then
          var i :| 0 <= i < |columns[1..]| && columns[1..][i] == rest[0] &&
                   forall j :: 0 <= j < i ==> !IsNumericCandidate(columns[1..][j], numeric, suffix);
          assert columns[i + 1] == rest[0];
          assert forall j :: 0 <= j < i + 1 ==> !IsNumericCandidate(columns[j], numeric, suffix) by {
            forall j | 0 <= j < i + 1 ensures !IsNumericCandidate(columns[j], numeric, suffix) {
              if j > 0 {
                assert columns[j] == columns[1..][j - 1];
              }
            }
          }
          rest
        else
          rest
  }

  /** `_encontrar_coluna_valor`: the configured column, else the first common one, else
      the first numeric candidate, else None. `numeric` holds the columns whose type is
      numeric. */
  function FindValueColumn(columns: seq<string>, numeric: set<string>, configured: Option<string>, suffix: string): (r: Option<string>)
    ensures r.Some? ==> r.value in columns && EndsWith(r.value, suffix)
  {
    var fromConfig := ConfiguredColumn(columns, configured, suffix);
    if fromConfig.Some? then
      assert EndsWith(configured.value + suffix, suffix);
      fromConfig
    else
      var common := FirstCommon(columns, CommonColumns, suffix);
      if common.Some? then
        var i :| 0 <= i < |CommonColumns| && common.value == CommonColumns[i] + suffix;
        assert EndsWith(CommonColumns[i] + suffix, suffix);
        common
      else
        var candidates := NumericCandidates(columns, numeric, suffix);
        if |candidates| > 0 then
          assert candidates[0] in candidates;
          Some(candidates[0])
        else None
  }

  /** The four outcomes of `_encontrar_coluna_valor`, each under exactly the condition that
      selects it. */
  lemma FindValueColumnCases(columns: seq<string>, numeric: set<string>, configured: Option<string>, suffix: string)
    ensures var r := FindValueColumn(columns, numeric, configured, suffix);
      && (configured.Some? && configured.value != "" && configured.value + suffix in columns ==>
            r == Some(configured.value + suffix))
      && (ConfiguredColumn(columns, configured, suffix).None? && FirstCommon(columns, CommonColumns, suffix).Some? ==>
            r == FirstCommon(columns, CommonColumns, suffix))
      && (ConfiguredColumn(columns, configured, suffix).None? && FirstCommon(columns, CommonColumns, suffix).None? ==>
            (r.Some? ==> (IsNumericCandidate(r.value, numeric, suffix) &&
               exists i :: (0 <= i < |columns| && columns[i] == r.value &&
                 forall j :: 0 <= j < i ==> !IsNumericCandidate(columns[j], numeric, suffix)))))
      && (r.None? <==>
            ConfiguredColumn(columns, configured, suffix).None? &&
            (forall i :: 0 <= i < |CommonColumns| ==> CommonColumns[i] + suffix !in columns) &&
            (forall c :: c in columns ==> !IsNumericCandidate(c, numeric, suffix)))
  {
    var candidates := NumericCandidates(columns, numeric, suffix);
    if |candidates| > 0 {
      assert candidates[0] in candidates;
    }
  }

  /** With no suffix, a frame holding a `valor` column gives `valor` unless a configured
      column is present. */
  lemma PlainValueColumn(columns: seq<string>, numeric: set<string>, configured: Option<string>)
    requires "valor" in columns && ConfiguredColumn(columns, configured, "").None?
    ensures FindValueColumn(columns, numeric, configured, "") == Some("valor")
  {
    assert CommonColumns[0] + "" == "valor";
  }

  // ---------------------------------------------------------------------------
  // The correlation wording (exibidores.py:353-363)

  /** A Pearson coefficient as pandas `corr` returns it: a number, or NaN when it is not
      defined (fewer than two common rows, or a constant column). */
  datatype Coefficient = Defined(r: real) | NaN

  function Abs(x: real): real { if x < 0.0 then -x else x }

  datatype Strength = Weak | Moderate | Strong

  function StrengthRank(s: Strength): nat {
    match s
    case Weak => 0
    case Moderate => 1
    case Strong => 2
  }

  /** The strength tiers: below 0.3 in absolute value, below 0.7, and the rest. */
  function StrengthOf(r: real): Strength {
    if Abs(r) < 0.3 then Weak
    else if Abs(r) < 0.7 then Moderate
    else Strong
  }

  function StrengthWord(s: Strength): string {
    match s
    case Weak => "fraca"
    case Moderate => "moderada"
    case Strong => "forte"
  }

  function SignWord(r: real): string {
    if r < 0.0 then " negativa" else if r > 0.0 then " positiva" else ""
  }

  /** The label for a defined coefficient. */
  function Label(r: real): string {
    "Correlação " + StrengthWord(StrengthOf(r)) + SignWord(r)
  }

  /** The wording as written: every comparison with NaN is false, so an undefined
      coefficient falls through to the last tier and gets no sign. */
  function CorrelationLabelAsWritten(c: Coefficient): string {
    match c
    case Defined(r) => Label(r)
    case NaN => "Correlação " + StrengthWord(Strong)
  }

  /** The wording with an undefined coefficient reported as such (None) rather than as a
      strong correlation. */
  function CorrelationLabel(c: Coefficient): (wording: Option<string>)
    ensures wording.None? <==> c.NaN?
    ensures c.Defined? ==> wording == Some(CorrelationLabelAsWritten(c))
  {
    match c
    case Defined(r) => Some(Label(r))
    case NaN => None
  }

  /** The finding: an undefined coefficient is labelled a strong correlation, a wording no
      defined coefficient receives (a strong one always has a sign). */
  lemma UndefinedCorrelationIsStrong(r: real)
    ensures CorrelationLabelAsWritten(NaN) == "Correlação forte"
    ensures CorrelationLabelAsWritten(Defined(r)) != CorrelationLabelAsWritten(NaN)
    ensures CorrelationLabel(NaN) == None
  {
    if StrengthOf(r) == Strong {
      assert |SignWord(r)| == 9;
      assert |Label(r)| == |"Correlação forte"| + 9;
    } else {
      // the strength word differs from "forte" in its third letter
      assert Label(r)[13] != "Correlação forte"[13];
    }
  }

  /** The tiers grow with the absolute value of the coefficient. */
  lemma StrengthMonotone(a: real, b: real)
    requires Abs(a) <= Abs(b)
    ensures StrengthRank(StrengthOf(a)) <= StrengthRank(StrengthOf(b))
  {
  }

  /** Each tier is the interval of absolute values its thresholds name. */
  lemma StrengthTiers(r: real)
    ensures StrengthOf(r) == Weak <==> (-0.3) < r < 0.3
    ensures StrengthOf(r) == Moderate <==> (0.3 <= r < 0.7 || (-0.7) < r <= (-0.3))
    ensures StrengthOf(r) == Strong <==> (r >= 0.7 || r <= (-0.7))
  {
  }

  /** " negativa" ends the label exactly for negative coefficients, " positiva" exactly for
      positive ones, and a zero coefficient gets no sign. */
  lemma LabelSign(r: real)
    ensures EndsWith(Label(r), " negativa") <==> r < 0.0
    ensures EndsWith(Label(r), " positiva") <==> r > 0.0
  {
    var head := "Correlação " + StrengthWord(StrengthOf(r));
    assert Label(r) == head + SignWord(r);
    SuffixOfConcat(head, SignWord(r));
    if r < 0.0 {
      assert Label(r)[|Label(r)| - 9..] == " negativa";
      assert !EndsWith(Label(r), " positiva");
    } else if r > 0.0 {
      assert Label(r)[|Label(r)| - 9..] == " positiva";
      assert !EndsWith(Label(r), " negativa");
    } else {
      assert Label(r) == head;
      NoSignWord(r);
    }
  }

  lemma SuffixOfConcat(a: string, b: string)
    ensures (a + b)[|a + b| - |b|..] == b
  {
  }

  /** An unsigned label ends in a strength word, which is neither sign word. */
  lemma NoSignWord(r: real)
    requires r == 0.0
    ensures !EndsWith(Label(r), " negativa") && !EndsWith(Label(r), " positiva")
  {
    var l := Label(r);
    assert l == "Correlação fraca";
    assert l[|l| - 1] == 'a';
    assert l[|l| - 9] != ' ';
  }

  /** Negating the coefficient keeps the strength and swaps the sign word. */
  lemma LabelNegation(r: real)
    ensures StrengthOf(-r) == StrengthOf(r)
    ensures r < 0.0 ==> Label(-r) == "Correlação " + StrengthWord(StrengthOf(r)) + " positiva"
    ensures r > 0.0 ==> Label(-r) == "Correlação " + StrengthWord(StrengthOf(r)) + " negativa"
  {
  }
}

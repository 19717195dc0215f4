/** The configuration store (`ConfiguradorSimples`): a tree of dictionaries addressed by
    dot-separated keys such as `dashboard.titulo`. A value is a dictionary, a text or a
    number; the root is always a dictionary. */
module ConfigStore {
  import opened Base
  import opened Text

  datatype Conf = Node(children: map<string, Conf>) | Str(s: string) | Num(n: int)

  // ---------------------------------------------------------------------------
  // Reading (config.py:86-104)

  /** Follows `path` from `c`. None when a segment is missing (KeyError) or an
      intermediate value is not a dictionary (TypeError). */
  function Lookup(c: Conf, path: seq<string>): Option<Conf>
    decreases |path|
  {
    if path == [] then Some(c)
    else if c.Node? && path[0] in c.children then Lookup(c.children[path[0]], path[1..])
    else None
  }

  /** What `get(key, default)` answers. */
  function GetValue(config: map<string, Conf>, key: string, default: Conf): Conf {
    Lookup(Node(config), SplitOn(key, '.')).GetOr(default)
  }

  /** Looking up `p + q` is looking up `p`, then `q` from where `p` leads. */
  lemma {:induction false} LookupAppend(c: Conf, p: seq<string>, q: seq<string>)
    ensures Lookup(c, p + q) == (match Lookup(c, p) case None => None case Some(d) => Lookup(d, q))
    decreases |p|
  {
    if p == [] {
      assert p + q == q;
    } else {
      assert (p + q)[0] == p[0] && (p + q)[1..] == p[1..] + q;
      if c.Node? && p[0] in c.children {
        LookupAppend(c.children[p[0]], p[1..], q);
      }
    }
  }

  // ---------------------------------------------------------------------------
  // Writing (config.py:106-126)

  /** One step of the walk in `set`: the dictionary under `k`, a new empty one when `k` is
      missing, None when the value under `k` is not a dictionary. */
  function Down(m: map<string, Conf>, k: string): (r: Option<map<string, Conf>>)
    ensures r.None? <==> k in m && !m[k].Node?
  {
    if k !in m then Some(map[])
    else if m[k].Node? then Some(m[k].children)
    else None
  }

  /** The root after `set` along `path` (never empty: `str.split` gives at least one
      piece), None when the walk meets a value that is not a dictionary. Such a value can
      only be met before the walk has created any dictionary (everything below a created
      dictionary is new and empty), so the raised and logged error leaves the store as it
      was. */
  function Assign(m: map<string, Conf>, path: seq<string>, v: Conf): Option<map<string, Conf>>
    requires |path| >= 1
    decreases |path|
  {
    if |path| == 1 then Some(m[path[0] := v])
    else
      match Down(m, path[0])
      case None => None
      case Some(child) =>
        match Assign(child, path[1..], v)
        case None => None
        case Some(r) => Some(m[path[0] := Node(r)])
  }

  /** The walk along `path` stops at its `i`-th prefix, which holds something other than a
      dictionary. */
  predicate BlockedAt(m: map<string, Conf>, path: seq<string>, i: int) {
    1 <= i < |path| && Lookup(Node(m), path[..i]).Some? && !Lookup(Node(m), path[..i]).value.Node?
  }

  // ---------------------------------------------------------------------------
  // Indicators (config.py:128-156)

  /** The configuration `obter_config_indicador` falls back to. */
  function DefaultIndicator(id: string): Conf {
    Node(map[
      "nome" := Str(Title(id)),
      "unidade" := Str(""),
      "cor" := Str("#666666"),
      "descricao" := Str("Indicador " + id)])
  }

  /** What `obter_config_indicador(id)` answers: the key is `indicadores.<id>`, so a dot
      inside `id` reaches further down the tree. */
  function IndicatorConfig(config: map<string, Conf>, id: string): Conf {
    GetValue(config, "indicadores." + id, DefaultIndicator(id))
  }

  /** `config.get('nome', id.title())` on one indicator entry; None when the entry is not a
      dictionary (AttributeError). */
  function IndicatorName(id: string, entry: Conf): Option<Conf> {
    match entry
    case Node(fields) => Some(if "nome" in fields then fields["nome"] else Str(Title(id)))
    case _ => None
  }

  /** Every indicator entry is a dictionary. */
  predicate AllNodes(entries: map<string, Conf>) {
    forall id :: id in entries ==> entries[id].Node?
  }

  /** What `listar_indicadores` answers; None when it raises, that is when `indicadores` or
      one of its entries is not a dictionary. */
  function Listing(config: map<string, Conf>): (r: Option<map<string, Conf>>)
    ensures r.Some? ==> "indicadores" in config ==> config["indicadores"].Node?
  {
    IndicatorsOf(config);
    var ind := GetValue(config, "indicadores", Node(map[]));
    if !ind.Node? || !AllNodes(ind.children) then None
    else Some(map id | id in ind.children :: IndicatorName(id, ind.children[id]).value)
  }

  /** The configuration the store starts with (config.py:21-84). */
  function DefaultConfig(): map<string, Conf> {
    map[
      "dashboard" := Node(map[
        "titulo" := Str("Termômetro da Economia Brasileira"),
        "subtitulo" := Str("Dashboard Interativo de Indicadores Econômicos"),
        "desenvolvedor" := Str("Márcio Lemos"),
        "versao" := Str("2.0")]),
      "cache" := Node(map[
        "ttl_padrao" := Num(3600),
        "ttl_dados" := Num(1800),
        "ttl_previsoes" := Num(7200)]),
      "indicadores" := Node(map[
        "ipca" := Indicator("IPCA", "%", "#FF6B6B", "Índice de Preços ao Consumidor Amplo"),
        "selic" := Indicator("Taxa Selic", "% a.a.", "#4ECDC4", "Taxa básica de juros da economia"),
        "cambio" := Indicator("Câmbio USD/BRL", "R$", "#45B7D1", "Taxa de câmbio Dólar/Real"),
        "deficit_primario" := Indicator("Déficit Primário", "R$ bi", "#96CEB4", "Resultado primário do governo"),
        "iof" := Indicator("Arrecadação IOF", "R$ mi", "#FFEAA7", "Imposto sobre Operações Financeiras"),
        "pib" := Indicator("PIB (Amostra)", "%", "#DDA0DD", "Produto Interno Bruto - variação trimestral"),
        "desemprego" := Indicator("Taxa de Desemprego (Amostra)", "%", "#F8B500", "Taxa de desocupação")]),
      "interface" := Node(map[
        "layout" := Str("wide"),
        "sidebar_inicial" := Str("expanded"),
        "tema" := Str("light")])]
  }

  function Indicator(name: string, unit: string, colour: string, description: string): Conf {
    Node(map["nome" := Str(name), "unidade" := Str(unit), "cor" := Str(colour), "descricao" := Str(description)])
  }

  // ---------------------------------------------------------------------------
  // The store

  class Configurator {
    var config: map<string, Conf>

    constructor ()
      ensures config == DefaultConfig()
    {
      config := DefaultConfig();
    }

    /** `get`: moves a cursor down the tree one segment at a time. */
    method Get(key: string, default: Conf) returns (r: Conf)
      ensures r == GetValue(config, key, default)
    {
      var parts := SplitOn(key, '.');
      var value := Node(config);
      var i := 0;
      while i < |parts|
        invariant 0 <= i <= |parts|
        invariant Lookup(Node(config), parts) == Lookup(value, parts[i..])
      {
        assert parts[i..][1..] == parts[i + 1..];
        if !value.Node? || parts[i] !in value.children {
          return default;
        }
        value := value.children[parts[i]];
        i := i + 1;
      }
      return value;
    }

    /** `set`: stores the value under the key's dot-separated path; when the walk meets a
        value that is not a dictionary, the error is logged and the store is left as it was. */
    method Set(key: string, value: Conf)
      modifies this
      ensures Assign(old(config), SplitOn(key, '.'), value).Some? ==>
                config == Assign(old(config), SplitOn(key, '.'), value).value
      ensures Assign(old(config), SplitOn(key, '.'), value).None? ==> config == old(config)
    {
      var r := AssignWalk(config, SplitOn(key, '.'), value);
      if r.Some? {
        config := r.value;
      }
    }

    /** `obter_config_indicador`. */
    method GetIndicatorConfig(id: string) returns (r: Conf)
      ensures r == IndicatorConfig(config, id)
    {
      r := Get("indicadores." + id, DefaultIndicator(id));
    }

    /** `listar_indicadores`; None when the source raises. */
    method ListIndicators() returns (r: Option<map<string, Conf>>)
      ensures r == Listing(config)
    {
      var ind := Get("indicadores", Node(map[]));
      if !ind.Node? {
        return None;
      }
      if !AllNodes(ind.children) {
        return None;
      }
      return Some(map id | id in ind.children :: IndicatorName(id, ind.children[id]).value);
    }
  }

  /** The walk of `set`: goes down the path, taking a new empty dictionary for each
      missing segment, then stores the value under the last segment. The walk is recorded
      as the list of dictionaries it passes through, and the tree is rebuilt from the
      bottom up. */
  method AssignWalk(m: map<string, Conf>, parts: seq<string>, value: Conf) returns (r: Option<map<string, Conf>>)
    requires |parts| >= 1
    ensures r == Assign(m, parts, value)
  {
    var n := |parts|;
    var trail: seq<map<string, Conf>> := [m];
    var i := 0;
    while i < n - 1
      invariant 0 <= i <= n - 1
      invariant |trail| == i + 1 && trail[0] == m
      invariant forall j :: 0 <= j < i ==> Down(trail[j], parts[j]) == Some(trail[j + 1])
    {
      var cursor := trail[i];
      if parts[i] in cursor && !cursor[parts[i]].Node? {
        // TypeError in the source, logged and swallowed; nothing has been created yet
        AssignBlocked(trail, parts, value, i, 0);
        assert parts[0..] == parts;
        return None;
      }
      var next := if parts[i] in cursor then cursor[parts[i]].children else map[];
      trail := trail + [next];
      i := i + 1;
    }
    var acc := trail[n - 1][parts[n - 1] := value];
    var j := n - 1;
    while j > 0
      invariant 0 <= j <= n - 1
      invariant Assign(trail[j], parts[j..], value) == Some(acc)
    {
      j := j - 1;
      assert Down(trail[j], parts[j]) == Some(trail[j + 1]);
      assert parts[j..][1..] == parts[j + 1..];
      acc := trail[j][parts[j] := Node(acc)];
    }
    assert parts[0..] == parts;
    return Some(acc);
  }

  // ---------------------------------------------------------------------------
  // Properties of the walk

  /** Backwards from a blocked step `i`, every suffix of the walk fails too. */
  lemma {:induction false} AssignBlocked(trail: seq<map<string, Conf>>, parts: seq<string>, v: Conf, i: int, k: int)
    requires 0 <= k <= i < |parts| - 1 && i < |trail|
    requires forall j :: 0 <= j < i ==> Down(trail[j], parts[j]) == Some(trail[j + 1])
    requires Down(trail[i], parts[i]).None?
    ensures Assign(trail[k], parts[k..], v).None?
    decreases i - k
  {
    assert parts[k..][1..] == parts[k + 1..];
    if k < i {
      AssignBlocked(trail, parts, v, i, k + 1);
    }
  }

  /** After a successful `set(k, v)`, `get` along `k` gives `v`, and along any path under
      `k` gives what that path gives inside `v`. */
  lemma {:induction false} AssignThenLookup(m: map<string, Conf>, p: seq<string>, v: Conf, q: seq<string>)
    requires |p| >= 1 && Assign(m, p, v).Some?
    ensures Lookup(Node(Assign(m, p, v).value), p + q) == Lookup(v, q)
    decreases |p|
  {
    var m' := Assign(m, p, v).value;
    assert (p + q)[0] == p[0] && (p + q)[1..] == p[1..] + q;
    if |p| == 1 {
      assert p[1..] + q == q;
    } else {
      var child := Down(m, p[0]).value;
      AssignThenLookup(child, p[1..], v, q);
    }
  }

  /** After a successful `set(k, v)`, every path leading to `k` holds a dictionary. */
  lemma {:induction false} AssignCreatesPath(m: map<string, Conf>, p: seq<string>, v: Conf, i: int)
    requires |p| >= 1 && Assign(m, p, v).Some? && 0 <= i < |p|
    ensures Lookup(Node(Assign(m, p, v).value), p[..i]).Some?
    ensures Lookup(Node(Assign(m, p, v).value), p[..i]).value.Node?
    decreases |p|
  {
    if i > 0 {
      var child := Down(m, p[0]).value;
      AssignCreatesPath(child, p[1..], v, i - 1);
      assert p[..i][0] == p[0] && p[..i][1..] == p[1..][..i - 1];
    }
  }

  /** A successful `set(k, v)` leaves every path neither on nor under `k` as it was. */
  lemma {:induction false} AssignFrame(m: map<string, Conf>, p: seq<string>, v: Conf, q: seq<string>)
    requires |p| >= 1 && Assign(m, p, v).Some?
    requires !(q <= p) && !(p <= q)
    ensures Lookup(Node(Assign(m, p, v).value), q) == Lookup(Node(m), q)
    decreases |p|
  {
    var m' := Assign(m, p, v).value;
    assert q != [];
    if q[0] == p[0] {
      assert p == [p[0]] + p[1..] && q == [q[0]] + q[1..];
      // a key of one segment would be a prefix of `q`, and `q` of one segment a prefix of
      // the key; a prefix relation between the tails would lift to the whole paths
      assert |p| == 1 ==> p <= q;
      assert |q| == 1 ==> q <= p;
      assert q[1..] <= p[1..] ==> q <= p;
      assert p[1..] <= q[1..] ==> p <= q;
      var child := Down(m, p[0]).value;
      AssignFrame(child, p[1..], v, q[1..]);
    }
  }

  /** `set` fails exactly when a proper prefix of the key holds something other than a
      dictionary. */
  lemma {:induction false} AssignFailsIff(m: map<string, Conf>, p: seq<string>, v: Conf)
    requires |p| >= 1
    ensures Assign(m, p, v).None? <==> exists i :: BlockedAt(m, p, i)
    decreases |p|
  {
    if |p| > 1 {
      assert p[..1] == [p[0]];
      assert p[..1][1..] == [];
      if p[0] in m && !m[p[0]].Node? {
        assert BlockedAt(m, p, 1);
      } else {
        assert [p[0]][1..] == [];
        if p[0] in m {
          assert Lookup(Node(m), [p[0]]) == Lookup(m[p[0]], []);
        }
        assert !BlockedAt(m, p, 1);
        var child := Down(m, p[0]).value;
        AssignFailsIff(child, p[1..], v);
        forall i | 2 <= i < |p|
          ensures BlockedAt(m, p, i) <==> BlockedAt(child, p[1..], i - 1)
        {
          assert p[..i][0] == p[0] && p[..i][1..] == p[1..][..i - 1];
          if p[0] !in m {
            assert Lookup(Node(child), p[1..][..i - 1]) == None;
          }
        }
        if exists i :: BlockedAt(m, p, i) {
          var i :| BlockedAt(m, p, i);
          assert BlockedAt(child, p[1..], i - 1);
        }
        if exists i :: BlockedAt(child, p[1..], i) {
          var i :| BlockedAt(child, p[1..], i);
          assert BlockedAt(m, p, i + 1);
        }
      }
    }
  }

  // ---------------------------------------------------------------------------
  // Properties of the indicator lookups

  /** `w.t` splits into `w` and `t` when neither holds a dot. */
  lemma SplitTwo(w: string, t: string)
    requires '.' !in w && '.' !in t
    ensures SplitOn(w + "." + t, '.') == [w, t]
  {
    SplitOnPiece(w, t, '.');
    SplitOnNoSeparator(t, '.');
  }

  /** The key `indicadores.<id>` splits into its two segments when `id` holds no dot. */
  lemma IndicatorPath(id: string)
    requires '.' !in id
    ensures SplitOn("indicadores." + id, '.') == ["indicadores", id]
  {
    assert "indicadores." + id == "indicadores" + "." + id;
    SplitTwo("indicadores", id);
  }

  /** For an identifier without a dot, `obter_config_indicador` gives the stored entry when
      there is one, and the default configuration otherwise. */
  lemma IndicatorConfigOf(config: map<string, Conf>, id: string)
    requires '.' !in id
    ensures "indicadores" in config && config["indicadores"].Node? && id in config["indicadores"].children ==>
              IndicatorConfig(config, id) == config["indicadores"].children[id]
    ensures !("indicadores" in config && config["indicadores"].Node? && id in config["indicadores"].children) ==>
              IndicatorConfig(config, id) == DefaultIndicator(id)
  {
    IndicatorPath(id);
    var path := ["indicadores", id];
    assert path[0] == "indicadores" && path[1..] == [id];
    if "indicadores" in config {
      var ind := config["indicadores"];
      assert Lookup(Node(config), path) == Lookup(ind, [id]);
      if ind.Node? && id in ind.children {
        assert Lookup(ind, [id]) == Lookup(ind.children[id], []);
      } else {
        assert Lookup(ind, [id]) == None;
      }
    } else {
      assert Lookup(Node(config), path) == None;
    }
  }

  /** `get('indicadores', {})`. */
  lemma IndicatorsOf(config: map<string, Conf>)
    ensures GetValue(config, "indicadores", Node(map[])) ==
              (if "indicadores" in config then config["indicadores"] else Node(map[]))
  {
    SplitOnNoSeparator("indicadores", '.');
    var path := ["indicadores"];
    assert path[1..] == [];
  }

  /** `listar_indicadores` lists exactly the stored indicators, each under the name its
      configuration gives (or its title-cased identifier), and for an identifier without a
      dot that is the `nome` `obter_config_indicador` returns. */
  lemma ListingAgrees(config: map<string, Conf>, id: string)
    requires Listing(config).Some? && '.' !in id
    ensures "indicadores" !in config ==> Listing(config).value == map[]
    ensures "indicadores" in config ==> (id in Listing(config).value <==> id in config["indicadores"].children)
    ensures id in Listing(config).value ==>
              IndicatorConfig(config, id).Node? &&
              Listing(config).value[id] ==
                (if "nome" in IndicatorConfig(config, id).children then IndicatorConfig(config, id).children["nome"]
                 else Str(Title(id)))
  {
    IndicatorsOf(config);
    IndicatorConfigOf(config, id);
    var listed := Listing(config).value;
    if "indicadores" in config {
      var entries := config["indicadores"].children;
      assert listed == map k | k in entries :: IndicatorName(k, entries[k]).value;
      if id in listed {
        assert entries[id].Node?;
        assert IndicatorConfig(config, id) == entries[id];
        assert listed[id] == IndicatorName(id, entries[id]).value;
      }
    }
  }
}

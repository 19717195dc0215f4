/** Character and string helpers standing for the Python built-ins the core calls:
    `str.split()`, `str.split(sep)`, `str.replace`, `str.title`, `str.endswith`, `in` on
    strings, and the number readers `int(str)` and `float(str)`. Only ASCII digits and
    ASCII letters are treated as such (see README, "Left out"). */
module Text {
  import opened Base

  // ---------------------------------------------------------------------------
  // Characters

  /** Python's `str.isspace()` on one character: the separators `str.split()` breaks on. */
  predicate IsSpace(c: char) {
    || c == ' ' || ('\t' <= c <= '\r') || ('\U{1c}' <= c <= '\U{1f}')
    || c == '\U{85}' || c == '\U{a0}' || c == '\U{1680}' || ('\U{2000}' <= c <= '\U{200a}')
    || c == '\U{2028}' || c == '\U{2029}' || c == '\U{202f}' || c == '\U{205f}' || c == '\U{3000}'
  }

  predicate IsDigit(c: char) {
    '0' <= c <= '9'
  }

  function DigitValue(c: char): (d: nat)
    requires IsDigit(c)
    ensures d < 10
  {
    (c as int) - ('0' as int)
  }

  function DigitChar(d: nat): (c: char)
    requires d < 10
    ensures IsDigit(c) && DigitValue(c) == d
  {
    (('0' as int) + d) as char
  }

  predicate IsUpper(c: char) { 'A' <= c <= 'Z' }
  predicate IsLower(c: char) { 'a' <= c <= 'z' }

  function ToUpper(c: char): char {
    if IsLower(c) then ((c as int) - 32) as char else c
  }

  function ToLower(c: char): char {
    if IsUpper(c) then ((c as int) + 32) as char else c
  }

  // ---------------------------------------------------------------------------
  // Splitting on whitespace: str.split()

  predicate NoSpace(w: string) {
    forall k :: 0 <= k < |w| ==> !IsSpace(w[k])
  }

  function DropSpaces(s: string): (r: string)
    ensures |r| <= |s|
    ensures r == [] || !IsSpace(r[0])
  {
    if s != [] && IsSpace(s[0]) then DropSpaces(s[1..]) else s
  }

  /** The longest prefix of `s` that holds no whitespace. */
  function TakeWord(s: string): (w: string)
    ensures |w| <= |s| && w == s[..|w|]
    ensures NoSpace(w)
    ensures |w| < |s| ==> IsSpace(s[|w|])
  {
    if s == [] || IsSpace(s[0]) then [] else [s[0]] + TakeWord(s[1..])
  }

  /** `str.split()` with no argument: the maximal runs of non-whitespace characters. */
  function SplitWhitespace(s: string): (r: seq<string>)
    ensures forall k :: 0 <= k < |r| ==> |r[k]| > 0 && NoSpace(r[k])
    decreases |s|
  {
    var t := DropSpaces(s);
    if t == [] then []
    else
      var w := TakeWord(t);
      [w] + SplitWhitespace(t[|w|..])
  }

  /** Words joined by single spaces. */
  function JoinSpaced(ws: seq<string>): string {
    if ws == [] then []
    else if |ws| == 1 then ws[0]
    else ws[0] + " " + JoinSpaced(ws[1..])
  }

  lemma {:induction false} TakeWordOfJoin(w: string, rest: string)
    requires NoSpace(w)
    requires rest == [] || IsSpace(rest[0])
    ensures TakeWord(w + rest) == w
    decreases |w|
  {
    if w == [] {
      assert w + rest == rest;
    } else {
      assert (w + rest)[1..] == w[1..] + rest;
      TakeWordOfJoin(w[1..], rest);
    }
  }

  /** Splitting words that were joined by single spaces gives the words back. */
  lemma {:induction false} SplitJoinSpaced(ws: seq<string>)
    requires forall k :: 0 <= k < |ws| ==> |ws[k]| > 0 && NoSpace(ws[k])
    ensures SplitWhitespace(JoinSpaced(ws)) == ws
  {
    if ws == [] {
    } else if |ws| == 1 {
      var w := ws[0];
      TakeWordOfJoin(w, []);
      assert w + [] == w;
      assert DropSpaces(w) == w;
      assert w[|w|..] == [];
    } else {
      var w := ws[0];
      var rest := " " + JoinSpaced(ws[1..]);
      assert JoinSpaced(ws) == w + rest;
      assert DropSpaces(w + rest) == w + rest;
      TakeWordOfJoin(w, rest);
      assert (w + rest)[|w|..] == rest;
      SplitJoinSpaced(ws[1..]);
      assert DropSpaces(rest) == DropSpaces(JoinSpaced(ws[1..]));
      assert JoinSpaced(ws[1..]) != [] && !IsSpace(JoinSpaced(ws[1..])[0]) by {
        assert ws[1..][0] == ws[1];
        if |ws[1..]| == 1 {
        } else {
          assert JoinSpaced(ws[1..]) == ws[1] + " " + JoinSpaced(ws[2..]);
        }
      }
    }
  }

  // ---------------------------------------------------------------------------
  // Splitting on one separator: str.split(sep)

  /** `s.split(sep)` for a one-character separator: never empty, the pieces hold no
      separator, and joining them back with the separator gives `s`. */
  function SplitOn(s: string, sep: char): (r: seq<string>)
    ensures |r| >= 1
    ensures forall k :: 0 <= k < |r| ==> sep !in r[k]
    ensures JoinWith(r, sep) == s
  {
    if s == [] then [[]]
    else
      var rest := SplitOn(s[1..], sep);
      if s[0] == sep then
        assert s == [sep] + JoinWith(rest, sep);
        [[]] + rest
      else
        var r := [[s[0]] + rest[0]] + rest[1..];
        assert r[1..] == rest[1..];
        assert JoinWith(r, sep) == [s[0]] + JoinWith(rest, sep) by {
          if |rest| == 1 {
          } else {
            assert JoinWith(rest, sep) == rest[0] + [sep] + JoinWith(rest[1..], sep);
          }
        }
        assert s == [s[0]] + s[1..];
        r
  }

  function JoinWith(ps: seq<string>, sep: char): string {
    if ps == [] then []
    else if |ps| == 1 then ps[0]
    else ps[0] + [sep] + JoinWith(ps[1..], sep)
  }

  /** A text without the separator splits into itself alone. */
  lemma {:induction false} SplitOnNoSeparator(w: string, sep: char)
    requires sep !in w
    ensures SplitOn(w, sep) == [w]
  {
    if w != [] {
      SplitOnNoSeparator(w[1..], sep);
      assert [w[0]] + w[1..] == w;
    }
  }

  /** Splitting `w + sep + t`, where `w` holds no separator, gives `w` then the pieces
      of `t`. */
  lemma {:induction false} SplitOnPiece(w: string, t: string, sep: char)
    requires sep !in w
    ensures SplitOn(w + [sep] + t, sep) == [w] + SplitOn(t, sep)
  {
    if w == [] {
      assert w + [sep] + t == [sep] + t;
      assert ([sep] + t)[1..] == t;
    } else {
      var u := w + [sep] + t;
      assert u[0] == w[0] && w[0] != sep;
      assert u[1..] == w[1..] + [sep] + t;
      SplitOnPiece(w[1..], t, sep);
      var rest := SplitOn(u[1..], sep);
      assert rest[0] == w[1..] && rest[1..] == SplitOn(t, sep);
      assert SplitOn(u, sep) == [[w[0]] + rest[0]] + rest[1..];
      assert [w[0]] + w[1..] == w;
    }
  }

  // ---------------------------------------------------------------------------
  // Other string operations

  /** `s.replace(from, to)` for single characters. */
  function ReplaceChar(s: string, from: char, to: char): (r: string)
    ensures |r| == |s|
    ensures forall k :: 0 <= k < |s| ==> r[k] == (if s[k] == from then to else s[k])
  {
    if s == [] then [] else [if s[0] == from then to else s[0]] + ReplaceChar(s[1..], from, to)
  }

  predicate EndsWith(s: string, suffix: string) {
    |suffix| <= |s| && s[|s| - |suffix|..] == suffix
  }

  /** `str.title()` on ASCII: a letter is upper-cased when the character before it is not
      a letter, lower-cased otherwise. */
  function Title(s: string): (r: string)
    ensures |r| == |s|
  {
    TitleFrom(s, false)
  }

  function TitleFrom(s: string, previousIsCased: bool): (r: string)
    ensures |r| == |s|
    ensures |s| > 0 ==> r[0] == (if previousIsCased then ToLower(s[0]) else ToUpper(s[0]))
  {
    if s == [] then []
    else
      var c := if previousIsCased then ToLower(s[0]) else ToUpper(s[0]);
      [c] + TitleFrom(s[1..], IsUpper(c) || IsLower(c))
  }

  // ---------------------------------------------------------------------------
  // Decimal digits

  predicate AllDigits(s: string) {
    forall k :: 0 <= k < |s| ==> IsDigit(s[k])
  }

  /** The value of a string of decimal digits (0 for the empty string). */
  function DigitsValue(s: string): (n: nat)
    requires AllDigits(s)
  {
    if s == [] then 0 else DigitsValue(s[..|s| - 1]) * 10 + DigitValue(s[|s| - 1])
  }

  function Pow10(k: nat): (p: nat)
    ensures p >= 1
  {
    if k == 0 then 1 else 10 * Pow10(k - 1)
  }

  /** `n` written in decimal with zeros on the left up to `width` digits, as `%0Nd`
      and the `%d`, `%m`, `%Y` directives of `strftime` write it. */
  function Padded(n: nat, width: nat): (s: string)
    requires n < Pow10(width)
    ensures |s| == width && AllDigits(s)
    ensures DigitsValue(s) == n
  {
    if width == 0 then []
    else
      var s := Padded(n / 10, width - 1) + [DigitChar(n % 10)];
      assert s[..|s| - 1] == Padded(n / 10, width - 1);
      s
  }

  /** Digit groups as Python reads them: digits, optionally with single underscores
      between two digits when `underscores` holds (PEP 515). */
  predicate DigitGroups(s: string, underscores: bool) {
    && |s| > 0 && IsDigit(s[0]) && IsDigit(s[|s| - 1])
    && (forall k :: 0 <= k < |s| ==> IsDigit(s[k]) || (underscores && s[k] == '_'))
    && (forall k :: 0 <= k < |s| - 1 ==> !DoubleUnderscore(s, k))
  }

  /** Two underscores in a row start at position `k`. */
  predicate DoubleUnderscore(s: string, k: int)
    requires 0 <= k < |s| - 1
  {
    s[k] == '_' && s[k + 1] == '_'
  }

  function WithoutUnderscores(s: string): (r: string)
    requires forall k :: 0 <= k < |s| ==> IsDigit(s[k]) || s[k] == '_'
    ensures AllDigits(r)
  {
    if s == [] then []
    else if s[0] == '_' then WithoutUnderscores(s[1..])
    else [s[0]] + WithoutUnderscores(s[1..])
  }

  lemma {:induction false} WithoutUnderscoresOfDigits(s: string)
    requires AllDigits(s)
    ensures WithoutUnderscores(s) == s
  {
    if s != [] {
      WithoutUnderscoresOfDigits(s[1..]);
    }
  }

  function GroupsValue(s: string, underscores: bool): nat
    requires DigitGroups(s, underscores)
  {
    DigitsValue(WithoutUnderscores(s))
  }

  // ---------------------------------------------------------------------------
  // int(str)

  /** Python's `int(s)` on a string that holds no whitespace: an optional sign, then
      digit groups. `None` stands for the ValueError. */
  function ParseInt(s: string): (r: Option<int>)
    ensures r.Some? ==> |s| > 0
  {
    if |s| > 0 && (s[0] == '+' || s[0] == '-') then
      var body := s[1..];
      if DigitGroups(body, true) then
        Some(if s[0] == '-' then -(GroupsValue(body, true) as int) else GroupsValue(body, true))
      else None
    else if DigitGroups(s, true) then
      Some(GroupsValue(s, true))
    else None
  }

  /** A plain string of digits reads as its decimal value. */
  lemma ParseIntOfDigits(s: string)
    requires |s| > 0 && AllDigits(s)
    ensures ParseInt(s) == Some(DigitsValue(s) as int)
  {
    WithoutUnderscoresOfDigits(s);
  }

  // ---------------------------------------------------------------------------
  // float(str)

  function Strip(s: string): (r: string)
    ensures |r| <= |s|
    ensures r == [] || (!IsSpace(r[0]) && !IsSpace(r[|r| - 1]))
  {
    var t := DropSpaces(s);
    DropTrailingSpaces(t)
  }

  function DropTrailingSpaces(s: string): (r: string)
    requires s == [] || !IsSpace(s[0])
    ensures |r| <= |s|
    ensures r == [] || (!IsSpace(r[0]) && !IsSpace(r[|r| - 1]))
  {
    if s != [] && IsSpace(s[|s| - 1]) then DropTrailingSpaces(s[..|s| - 1]) else s
  }

  function Signed(negative: bool, x: real): real {
    if negative then -x else x
  }

  /** 10 raised to an integer power, as a real. */
  function Scale10(e: int): (p: real)
    ensures p > 0.0
  {
    if e >= 0 then Pow10(e) as real else 1.0 / (Pow10(-e) as real)
  }

  /** Index of the first occurrence of `c` in `s`, or `|s|`. */
  function IndexOf(s: string, c: char): (i: nat)
    ensures i <= |s|
    ensures forall k :: 0 <= k < i ==> s[k] != c
    ensures i < |s| ==> s[i] == c
  {
    if s == [] then 0 else if s[0] == c then 0 else 1 + IndexOf(s[1..], c)
  }

  /** Value of the part of a decimal numeral around the point: `a.b`, `a.`, `.b`, `a`. */
  function MantissaValue(m: string, underscores: bool): Option<real> {
    var i := IndexOf(m, '.');
    if i == |m| then
      if DigitGroups(m, underscores) then Some(GroupsValue(m, underscores) as real) else None
    else PointParts(m[..i], m[i + 1..], underscores)
  }

  /** Value of a mantissa split at its first point into the digits `a` before it and the
      text `b` after it; either side may be empty, not both. */
  function PointParts(a: string, b: string, underscores: bool): Option<real> {
    if (a == [] && b == []) || '.' in b then None
    else if a != [] && !DigitGroups(a, underscores) then None
    else if b != [] && !DigitGroups(b, underscores) then None
    else
      var whole := if a == [] then 0 else GroupsValue(a, underscores);
      var frac := if b == [] then 0.0 else FractionValue(b, underscores);
      Some(whole as real + frac)
  }

  /** The value of the digits after the point: `b / 10^(number of digits of b)`. */
  function FractionValue(b: string, underscores: bool): real
    requires DigitGroups(b, underscores)
  {
    GroupsValue(b, underscores) as real / Pow10(|WithoutUnderscores(b)|) as real
  }

  function ExponentValue(e: string, underscores: bool): Option<int> {
    if |e| > 0 && (e[0] == '+' || e[0] == '-') then
      if DigitGroups(e[1..], underscores) then
        Some(if e[0] == '-' then -(GroupsValue(e[1..], underscores) as int) else GroupsValue(e[1..], underscores))
      else None
    else if DigitGroups(e, underscores) then Some(GroupsValue(e, underscores))
    else None
  }

  /** A decimal number read as Python's `float(s)` reads the finite spellings
      (`underscores` true) or as `pandas.to_numeric` reads them (`underscores` false):
      surrounding whitespace, an optional sign, a mantissa with at most one point and an
      optional exponent. `None` stands for a rejected text. */
  function ParseDecimal(s: string, underscores: bool): (r: Option<real>) {
    var t := Strip(s);
    var negative := |t| > 0 && t[0] == '-';
    var u := if |t| > 0 && (t[0] == '+' || t[0] == '-') then t[1..] else t;
    var ie := if IndexOf(u, 'e') < IndexOf(u, 'E') then IndexOf(u, 'e') else IndexOf(u, 'E');
    var mantissa := MantissaValue(u[..ie], underscores);
    var exponent := if ie == |u| then Some(0) else ExponentValue(u[ie + 1..], underscores);
    if mantissa.None? || exponent.None? then None
    else Some(Signed(negative, mantissa.value * Scale10(exponent.value)))
  }

  /** The value of the numeral `a.b`. */
  function PointValue(a: string, b: string): real
    requires AllDigits(a) && AllDigits(b)
  {
    DigitsValue(a) as real + DigitsValue(b) as real / Pow10(|b|) as real
  }

  /** A plain numeral `a.b` (digits on both sides) reads as `a + b / 10^|b|`. */
  lemma ParseDecimalPoint(a: string, b: string, underscores: bool)
    requires |a| > 0 && AllDigits(a) && |b| > 0 && AllDigits(b)
    ensures ParseDecimal(a + "." + b, underscores) == Some(PointValue(a, b))
  {
    var s := a + "." + b;
    assert forall k :: 0 <= k < |s| ==> s[k] == '.' || IsDigit(s[k]);
    assert Strip(s) == s by {
      assert !IsSpace(s[0]) && !IsSpace(s[|s| - 1]);
    }
    MantissaPoint(a, b, underscores);
    ParseUnsignedMantissa(s, underscores);
  }

  /** A stripped text with no sign and no exponent reads as its mantissa. */
  lemma ParseUnsignedMantissa(s: string, underscores: bool)
    requires Strip(s) == s && |s| > 0 && IsDigit(s[0])
    requires 'e' !in s && 'E' !in s
    requires MantissaValue(s, underscores).Some?
    ensures ParseDecimal(s, underscores) == MantissaValue(s, underscores)
  {
    IndexOfAbsent(s, 'e');
    IndexOfAbsent(s, 'E');
    assert s[..|s|] == s;
    var x := MantissaValue(s, underscores).value;
    assert Scale10(0) == 1.0;
    assert x * Scale10(0) == x;
  }

  lemma MantissaPoint(a: string, b: string, underscores: bool)
    requires |a| > 0 && AllDigits(a) && |b| > 0 && AllDigits(b)
    ensures MantissaValue(a + "." + b, underscores) == Some(PointValue(a, b))
  {
    var m := a + "." + b;
    assert '.' !in a && '.' !in b;
    IndexOfAfter(a, b, '.');
    assert m[..|a|] == a && m[|a| + 1..] == b;
    DigitsAreGroups(a, underscores);
    DigitsAreGroups(b, underscores);
    MantissaOfParts(m, a, b, underscores);
    assert FractionValue(b, underscores) == DigitsValue(b) as real / Pow10(|b|) as real;
  }

  /** A mantissa `a.b` with digit groups on both sides is worth `a + b / 10^(digits of b)`. */
  lemma MantissaOfParts(m: string, a: string, b: string, underscores: bool)
    requires IndexOf(m, '.') == |a| < |m| && m[..|a|] == a && m[|a| + 1..] == b
    requires a != [] && b != [] && '.' !in b
    requires DigitGroups(a, underscores) && DigitGroups(b, underscores)
    ensures MantissaValue(m, underscores)
         == Some(GroupsValue(a, underscores) as real + FractionValue(b, underscores))
  {
    MantissaSplit(m, a, b, underscores);
    PointPartsBoth(a, b, underscores);
  }

  lemma MantissaSplit(m: string, a: string, b: string, underscores: bool)
    requires IndexOf(m, '.') == |a| < |m| && m[..|a|] == a && m[|a| + 1..] == b
    ensures MantissaValue(m, underscores) == PointParts(a, b, underscores)
  {
  }

  lemma PointPartsBoth(a: string, b: string, underscores: bool)
    requires a != [] && b != [] && '.' !in b
    requires DigitGroups(a, underscores) && DigitGroups(b, underscores)
    ensures PointParts(a, b, underscores)
         == Some(GroupsValue(a, underscores) as real + FractionValue(b, underscores))
  {
  }

  /** A non-empty string of digits is a single digit group worth its decimal value. */
  lemma DigitsAreGroups(s: string, underscores: bool)
    requires |s| > 0 && AllDigits(s)
    ensures DigitGroups(s, underscores)
    ensures WithoutUnderscores(s) == s
    ensures GroupsValue(s, underscores) == DigitsValue(s)
  {
    WithoutUnderscoresOfDigits(s);
  }

  lemma {:induction false} IndexOfAbsent(s: string, c: char)
    requires c !in s
    ensures IndexOf(s, c) == |s|
  {
    if s != [] {
      IndexOfAbsent(s[1..], c);
    }
  }

  lemma {:induction false} IndexOfAfter(a: string, b: string, c: char)
    requires c !in a
    ensures IndexOf(a + [c] + b, c) == |a|
  {
    if a != [] {
      IndexOfAfter(a[1..], b, c);
      assert (a + [c] + b)[1..] == a[1..] + [c] + b;
    }
  }
}

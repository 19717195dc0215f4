/** The `YYYY-MM-DD` text of a date (the `full-date` form of section 5.6 of RFC 3339),
    which the BCB normaliser writes with `strftime('%Y-%m-%d')` and the series
    normalisers read back with `pandas.to_datetime`. Only four-digit years are written,
    as `strftime` pads them on the platforms the system targets. */
module IsoDate {
  import opened Base
  import opened Text
  import opened Calendar

  datatype Ymd = Ymd(year: int, month: int, day: int)

  predicate IsValid(t: Ymd) {
    IsValidDate(t.year, t.month, t.day)
  }

  function FormatIso(t: Ymd): (s: string)
    requires IsValid(t)
    ensures |s| == 10 && s[4] == '-' && s[7] == '-'
  {
    Padded(t.year, 4) + "-" + Padded(t.month, 2) + "-" + Padded(t.day, 2)
  }

  /** Four digits, a dash, two digits, a dash, two digits, naming a valid date. */
  function ParseIso(s: string): (r: Option<Ymd>)
    ensures r.Some? ==> IsValid(r.value)
  {
    if |s| == 10 && s[4] == '-' && s[7] == '-'
       && AllDigits(s[..4]) && AllDigits(s[5..7]) && AllDigits(s[8..])
    then
      var t := Ymd(DigitsValue(s[..4]), DigitsValue(s[5..7]), DigitsValue(s[8..]));
      if IsValid(t) then Some(t) else None
    else None
  }

  /** Writing `n` back with as many digits as were read gives the digits read. */
  lemma {:induction false} PaddedOfDigits(s: string)
    requires AllDigits(s)
    ensures DigitsValue(s) < Pow10(|s|)
    ensures Padded(DigitsValue(s), |s|) == s
  {
    if s != [] {
      var init := s[..|s| - 1];
      PaddedOfDigits(init);
      var n := DigitsValue(s);
      var c := s[|s| - 1];
      assert n / 10 == DigitsValue(init) && n % 10 == DigitValue(c);
      assert DigitChar(DigitValue(c)) == c;
      assert s == init + [c];
    }
  }

  /** Reading a written date gives the date back. */
  lemma ParseFormatIso(t: Ymd)
    requires IsValid(t)
    ensures ParseIso(FormatIso(t)) == Some(t)
  {
    var s := FormatIso(t);
    assert s[..4] == Padded(t.year, 4);
    assert s[5..7] == Padded(t.month, 2);
    assert s[8..] == Padded(t.day, 2);
  }

  /** An accepted text is exactly the text that writing its date produces. */
  lemma FormatParseIso(s: string)
    requires ParseIso(s).Some?
    ensures FormatIso(ParseIso(s).value) == s
  {
    PaddedOfDigits(s[..4]);
    PaddedOfDigits(s[5..7]);
    PaddedOfDigits(s[8..]);
    assert s == s[..4] + "-" + s[5..7] + "-" + s[8..];
  }
}

/** Calendar dates as the applications handle them: stored as ISO 8601 extended
    calendar dates `YYYY-MM-DD` (ISO 8601:2004 section 4.1.2.2), parsed with
    `datetime.strptime(s, '%Y-%m-%d')` and shown with `strftime('%d/%m/%Y')`. */
module Dates {
  import opened Text
  import opened Sql

  datatype Date = Date(year: int, month: int, day: int)

  predicate IsLeapYear(y: int) {
    y % 4 == 0 && (y % 100 != 0 || y % 400 == 0)
  }

  function DaysInMonth(y: int, m: int): int
    requires 1 <= m <= 12
  {
    if m == 2 then (if IsLeapYear(y) then 29 else 28)
    else if m == 4 || m == 6 || m == 9 || m == 11 then 30
    else 31
  }

  /** A date Python's `datetime` accepts (years 1 to 9999). */
  predicate Valid(d: Date) {
    1 <= d.year <= 9999 && 1 <= d.month <= 12 && 1 <= d.day <= DaysInMonth(d.year, d.month)
  }

  /** Chronological order. */
  predicate DateLt(a: Date, b: Date) {
    || a.year < b.year
    || (a.year == b.year && a.month < b.month)
    || (a.year == b.year && a.month == b.month && a.day < b.day)
  }

  predicate DateLe(a: Date, b: Date) {
    a == b || DateLt(a, b)
  }

  lemma DateLeTotal(a: Date, b: Date)
    ensures DateLe(a, b) || DateLe(b, a)
  {
  }

  lemma DateLeTransitive(a: Date, b: Date, c: Date)
    requires DateLe(a, b) && DateLe(b, c)
    ensures DateLe(a, c)
  {
  }

  // The text form

  /** Ten characters `DDDD-DD-DD`. */
  predicate IsoShape(s: string) {
    && |s| == 10 && s[4] == '-' && s[7] == '-'
    && AllDigits(s[..4]) && AllDigits(s[5..7]) && AllDigits(s[8..])
  }

  /** `datetime.strptime(s, '%Y-%m-%d')`, None where it raises ValueError. Only the
      zero-padded form is accepted here. */
  function ParseIso(s: string): (r: Option<Date>)
    ensures r.Some? ==> Valid(r.value) && IsoShape(s)
    ensures r.Some? ==> r.value.year == DigitsValue(s[..4])
    ensures r.Some? ==> r.value.month == DigitsValue(s[5..7])
    ensures r.Some? ==> r.value.day == DigitsValue(s[8..])
  {
    if !IsoShape(s) then None
    else
      var d := Date(DigitsValue(s[..4]), DigitsValue(s[5..7]), DigitsValue(s[8..]));
      if Valid(d) then Some(d) else None
  }

  /** `n` written with exactly `w` digits, zero-padded on the left. */
  function Pad(n: nat, w: nat): (s: string)
    requires n < Pow10(w)
    ensures |s| == w && AllDigits(s) && DigitsValue(s) == n
  {
    if w == 0 then ""
    else
      assert n / 10 < Pow10(w - 1);
      var s := Pad(n / 10, w - 1) + [DigitChar(n % 10)];
      assert s[..|s| - 1] == Pad(n / 10, w - 1);
      s
  }

  /** Padding the value of a digit string to its own width gives the string back. */
  lemma {:induction false} PadDigits(x: string)
    requires AllDigits(x)
    ensures DigitsValue(x) < Pow10(|x|)
    ensures Pad(DigitsValue(x), |x|) == x
    decreases |x|
  {
    DigitsValueBound(x);
    if |x| > 0 {
      var init := x[..|x| - 1];
      PadDigits(init);
      assert x == init + [x[|x| - 1]];
    }
  }

  /** `strftime('%Y-%m-%d')` on a valid date. */
  function FormatIso(d: Date): string
    requires Valid(d)
  {
    Pad(d.year, 4) + "-" + Pad(d.month, 2) + "-" + Pad(d.day, 2)
  }

  /** `strftime('%d/%m/%Y')` on a valid date. */
  function Display(d: Date): (r: string)
    requires Valid(d)
    ensures |r| == 10 && r[2] == '/' && r[5] == '/'
    ensures AllDigits(r[..2]) && DigitsValue(r[..2]) == d.day
    ensures AllDigits(r[3..5]) && DigitsValue(r[3..5]) == d.month
    ensures AllDigits(r[6..]) && DigitsValue(r[6..]) == d.year
    ensures IsDigit(r[9])
  {
    var day, month, year := Pad(d.day, 2), Pad(d.month, 2), Pad(d.year, 4);
    var r := day + "/" + month + "/" + year;
    assert r[..2] == day && r[3..5] == month && r[6..] == year;
    assert r[9] == year[3];
    r
  }

  /** Every valid date survives a format/parse round trip. */
  lemma ParseFormatIso(d: Date)
    requires Valid(d)
    ensures ParseIso(FormatIso(d)) == Some(d)
  {
    var s := FormatIso(d);
    assert s[..4] == Pad(d.year, 4);
    assert s[5..7] == Pad(d.month, 2);
    assert s[8..] == Pad(d.day, 2);
  }

  /** The three fields and two dashes of an ISO-shaped string make it up exactly. */
  lemma SplitIso(s: string)
    requires |s| == 10 && s[4] == '-' && s[7] == '-'
    ensures s == s[..4] + "-" + s[5..7] + "-" + s[8..]
  {
    var t := s[..4] + "-" + s[5..7] + "-" + s[8..];
    assert |t| == 10;
    forall i | 0 <= i < 10 ensures t[i] == s[i] {
      if i < 4 {
        assert t[i] == s[..4][i];
      } else if i == 4 {
      } else if i < 7 {
        assert t[i] == s[5..7][i - 5];
      } else if i == 7 {
      } else {
        assert t[i] == s[8..][i - 8];
      }
    }
  }

  /** A string that parses is the canonical text of the date it parses to. */
  lemma FormatParseIso(s: string)
    requires ParseIso(s).Some?
    ensures FormatIso(ParseIso(s).value) == s
  {
    var d := ParseIso(s).value;
    var y, m, dd := s[..4], s[5..7], s[8..];
    PadDigits(y);
    PadDigits(m);
    PadDigits(dd);
    assert Pad(d.year, 4) == y && Pad(d.month, 2) == m && Pad(d.day, 2) == dd;
    SplitIso(s);
  }

  /** `datetime.strptime(s, '%Y-%m-%d').strftime('%d/%m/%Y')`; None where strptime
      raises. */
  function Reformat(s: string): (r: Option<string>)
    ensures r.Some? <==> ParseIso(s).Some?
    ensures r.Some? ==> r.value == s[8..] + "/" + s[5..7] + "/" + s[..4]
  {
    match ParseIso(s)
    case None => None
    case Some(d) =>
      var y, m, dd := s[..4], s[5..7], s[8..];
      PadDigits(y);
      PadDigits(m);
      PadDigits(dd);
      assert Pad(d.year, 4) == y && Pad(d.month, 2) == m && Pad(d.day, 2) == dd;
      Some(Display(d))
  }

  /** Reformatting a date string shows the date it parses to. */
  lemma ReformatIsDisplay(s: string)
    ensures ParseIso(s).Some? ==> Reformat(s) == Some(Display(ParseIso(s).value))
  {
    if ParseIso(s).Some? {
      var d := ParseIso(s).value;
      PadDigits(s[..4]);
      PadDigits(s[5..7]);
      PadDigits(s[8..]);
      assert Pad(d.year, 4) == s[..4] && Pad(d.month, 2) == s[5..7] && Pad(d.day, 2) == s[8..];
    }
  }

  /** For canonical date strings, text order (what SQLite compares) is chronological
      order. */
  lemma TextOrderIsChronological(s: string, t: string)
    requires ParseIso(s).Some? && ParseIso(t).Some?
    ensures TextLt(s, t) <==> DateLt(ParseIso(s).value, ParseIso(t).value)
    ensures s == t <==> ParseIso(s).value == ParseIso(t).value
  {
    var ys, ms, ds := s[..4], s[5..7], s[8..];
    var yt, mt, dt := t[..4], t[5..7], t[8..];
    SplitIso(s);
    SplitIso(t);
    DigitsTextOrder(ys, yt);
    DigitsTextOrder(ms, mt);
    DigitsTextOrder(ds, dt);
    DashedOrder(ms, ds, mt, dt);
    assert s == ys + "-" + (ms + "-" + ds) && t == yt + "-" + (mt + "-" + dt);
    DashedOrder(ys, ms + "-" + ds, yt, mt + "-" + dt);
  }

  /** Two texts made of a field of equal width, a dash and a rest compare by the field
      first, then by the rest. */
  lemma DashedOrder(a1: string, a2: string, b1: string, b2: string)
    requires |a1| == |b1|
    ensures TextLt(a1 + "-" + a2, b1 + "-" + b2) <==> TextLt(a1, b1) || (a1 == b1 && TextLt(a2, b2))
    ensures a1 + "-" + a2 == b1 + "-" + b2 <==> a1 == b1 && a2 == b2
  {
    assert a1 + "-" + a2 == a1 + ("-" + a2) && b1 + "-" + b2 == b1 + ("-" + b2);
    TextLtConcat(a1, "-" + a2, b1, "-" + b2);
    TextLtConcat("-", a2, "-", b2);
    TextLtIrreflexive("-");
    if a1 + "-" + a2 == b1 + "-" + b2 {
      assert a1 == (a1 + "-" + a2)[..|a1|] && b1 == (b1 + "-" + b2)[..|b1|];
      assert a2 == (a1 + "-" + a2)[|a1| + 1..] && b2 == (b1 + "-" + b2)[|b1| + 1..];
    }
  }

  /** Both strings are dates and the first is no later than the second. */
  predicate ChronoLe(s: string, t: string) {
    ParseIso(s).Some? && ParseIso(t).Some? && DateLe(ParseIso(s).value, ParseIso(t).value)
  }

  /** The same for the non-strict orders used by `ORDER BY … DESC`. */
  lemma TextLeIsChronological(s: string, t: string)
    requires ParseIso(s).Some? && ParseIso(t).Some?
    ensures TextLe(s, t) <==> ChronoLe(s, t)
  {
    TextOrderIsChronological(s, t);
  }
}

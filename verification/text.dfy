/** Character and string primitives: the ASCII-only case folding of SQLite's UPPER()
    and LIKE, the BINARY collation used to compare TEXT values, Python's notion of
    whitespace for str.strip(), and the decimal rendering of Python's str(int). */
module Text {

  // ASCII case folding

  /** UPPER() of SQLite folds ASCII letters only; every other character is kept. */
  function Upper(c: char): char {
    if 'a' <= c <= 'z' then (c as int - 32) as char else c
  }

  function UpperString(s: string): (r: string)
    ensures |r| == |s|
    ensures forall i :: 0 <= i < |s| ==> r[i] == Upper(s[i])
  {
    seq(|s|, i requires 0 <= i < |s| => Upper(s[i]))
  }

  /** Two strings are equal up to ASCII case. */
  predicate FoldEq(a: string, b: string) {
    |a| == |b| && forall i :: 0 <= i < |a| ==> Upper(a[i]) == Upper(b[i])
  }

  /** Comparing UPPER(a) = UPPER(b) is exactly case-insensitive equality. */
  lemma UpperEqIffFoldEq(a: string, b: string)
    ensures UpperString(a) == UpperString(b) <==> FoldEq(a, b)
  {
    if FoldEq(a, b) {
      assert forall i :: 0 <= i < |a| ==> UpperString(a)[i] == UpperString(b)[i];
    }
    if UpperString(a) == UpperString(b) {
      assert forall i :: 0 <= i < |a| ==> Upper(a[i]) == UpperString(a)[i];
    }
  }

  // BINARY collation: SQLite compares TEXT with memcmp on UTF-8, which orders
  // strings lexicographically by code point, a proper prefix first.

  predicate TextLt(a: string, b: string)
    decreases |a|
  {
    if |a| == 0 then |b| > 0
    else if |b| == 0 then false
    else if a[0] != b[0] then a[0] < b[0]
    else TextLt(a[1..], b[1..])
  }

  predicate TextLe(a: string, b: string) {
    a == b || TextLt(a, b)
  }

  lemma {:induction false} TextLtIrreflexive(a: string)
    ensures !TextLt(a, a)
    decreases |a|
  {
    if |a| > 0 {
      TextLtIrreflexive(a[1..]);
    }
  }

  lemma {:induction false} TextLtAsymmetric(a: string, b: string)
    ensures !(TextLt(a, b) && TextLt(b, a))
    decreases |a|
  {
    if |a| > 0 && |b| > 0 && a[0] == b[0] {
      TextLtAsymmetric(a[1..], b[1..]);
    }
  }

  lemma {:induction false} TextLtTransitive(a: string, b: string, c: string)
    requires TextLt(a, b) && TextLt(b, c)
    ensures TextLt(a, c)
    decreases |a|
  {
    if |a| > 0 && a[0] == b[0] && b[0] == c[0] {
      TextLtTransitive(a[1..], b[1..], c[1..]);
    }
  }

  /** Any two distinct strings are ordered one way or the other. */
  lemma {:induction false} TextLtTrichotomy(a: string, b: string)
    ensures a == b || TextLt(a, b) || TextLt(b, a)
    decreases |a|
  {
    if |a| > 0 && |b| > 0 && a[0] == b[0] {
      TextLtTrichotomy(a[1..], b[1..]);
      if a[1..] == b[1..] {
        assert a == [a[0]] + a[1..] && b == [b[0]] + b[1..];
      }
    }
  }

  lemma TextLeTotal(a: string, b: string)
    ensures TextLe(a, b) || TextLe(b, a)
  {
    TextLtTrichotomy(a, b);
  }

  lemma TextLeTransitive(a: string, b: string, c: string)
    requires TextLe(a, b) && TextLe(b, c)
    ensures TextLe(a, c)
  {
    if a != b && b != c {
      TextLtTransitive(a, b, c);
    }
  }

  lemma TextLeAntisymmetric(a: string, b: string)
    requires TextLe(a, b) && TextLe(b, a)
    ensures a == b
  {
    TextLtAsymmetric(a, b);
  }

  /** Comparing two concatenations whose first parts have equal length compares the
      first parts, and the second parts only when the first parts are equal. */
  lemma {:induction false} TextLtConcat(a1: string, a2: string, b1: string, b2: string)
    requires |a1| == |b1|
    ensures TextLt(a1 + a2, b1 + b2) <==> TextLt(a1, b1) || (a1 == b1 && TextLt(a2, b2))
    decreases |a1|
  {
    if |a1| > 0 {
      assert (a1 + a2)[0] == a1[0] && (b1 + b2)[0] == b1[0];
      assert (a1 + a2)[1..] == a1[1..] + a2;
      assert (b1 + b2)[1..] == b1[1..] + b2;
      TextLtConcat(a1[1..], a2, b1[1..], b2);
      if a1[0] == b1[0] {
        assert a1 == [a1[0]] + a1[1..] && b1 == [b1[0]] + b1[1..];
      }
    } else {
      assert a1 + a2 == a2 && b1 + b2 == b2;
    }
  }

  // Python whitespace and str.strip()

  /** The characters for which Python's str.isspace() holds (and which strip()
      removes when called without arguments). */
  predicate IsSpace(c: char) {
    var k := c as int;
    || 0x09 <= k <= 0x0D || 0x1C <= k <= 0x20 || k == 0x85 || k == 0xA0 || k == 0x1680
    || 0x2000 <= k <= 0x200A || k == 0x2028 || k == 0x2029 || k == 0x202F || k == 0x205F
    || k == 0x3000
  }

  predicate AllSpace(s: string) {
    forall i :: 0 <= i < |s| ==> IsSpace(s[i])
  }

  /** Drops the leading whitespace. */
  function TrimStart(s: string): (r: string)
    ensures |r| <= |s| && r == s[|s| - |r|..]
    ensures |r| == 0 || !IsSpace(r[0])
    ensures AllSpace(s[..|s| - |r|])
    decreases |s|
  {
    if |s| > 0 && IsSpace(s[0]) then TrimStart(s[1..]) else s
  }

  /** Drops the trailing whitespace. */
  function TrimEnd(s: string): (r: string)
    ensures |r| <= |s| && r == s[..|r|]
    ensures |r| == 0 || !IsSpace(r[|r| - 1])
    ensures AllSpace(s[|r|..])
    decreases |s|
  {
    if |s| > 0 && IsSpace(s[|s| - 1]) then
      var p := s[..|s| - 1];
      var r := TrimEnd(p);
      assert p[..|r|] == s[..|r|];
      assert s[|r|..] == p[|r|..] + [s[|s| - 1]];
      r
    else s
  }

  /** Python's str.strip() with no argument. */
  function Strip(s: string): (r: string)
    ensures |r| == 0 || (!IsSpace(r[0]) && !IsSpace(r[|r| - 1]))
    ensures |r| == 0 <==> AllSpace(s)
    ensures |r| <= |s|
  {
    var t := TrimStart(s);
    var r := TrimEnd(t);
    assert |r| == 0 ==> s == s[..|s| - |t|] + t && t == r + t[|r|..];
    assert |r| > 0 ==> r[0] == t[0];
    r
  }

  /** The stripped text is a slice of the input, and what it leaves out on either
      side is whitespace. */
  lemma StripIsMiddle(s: string)
    ensures exists i :: (0 <= i <= |s| - |Strip(s)| && Strip(s) == s[i..i + |Strip(s)|]
      && AllSpace(s[..i]) && AllSpace(s[i + |Strip(s)|..]))
  {
    StripAt(s, |s| - |TrimStart(s)|, Strip(s));
  }

  /** The slice `StripIsMiddle` asks for starts where the leading whitespace ends. */
  lemma StripAt(s: string, i: int, r: string)
    requires i == |s| - |TrimStart(s)| && r == Strip(s)
    ensures 0 <= i <= |s| - |r| && r == s[i..i + |r|]
    ensures AllSpace(s[..i]) && AllSpace(s[i + |r|..])
  {
    var t := TrimStart(s);
    StripIsTrims(s);
    assert t == s[i..] && AllSpace(s[..i]);
    assert r == t[..|r|] && AllSpace(t[|r|..]);
    SpaceAround(s, i, t, r);
  }

  /** `Strip` is `TrimEnd` after `TrimStart`. */
  lemma StripIsTrims(s: string)
    ensures Strip(s) == TrimEnd(TrimStart(s))
  {
  }

  /** A prefix `r` of the suffix `t` of `s` that starts at `i`, with only whitespace
      before `t` and after `r`, is the slice of `s` from `i` flanked by whitespace. */
  lemma SpaceAround(s: string, i: int, t: string, r: string)
    requires 0 <= i <= |s| && t == s[i..] && AllSpace(s[..i])
    requires |r| <= |t| && r == t[..|r|] && AllSpace(t[|r|..])
    ensures 0 <= i <= |s| - |r| && r == s[i..i + |r|]
    ensures AllSpace(s[..i]) && AllSpace(s[i + |r|..])
  {
    assert s[i + |r|..] == t[|r|..];
  }

  /** Stripping twice strips nothing more. */
  lemma StripIdempotent(s: string)
    ensures Strip(Strip(s)) == Strip(s)
  {
    var r := Strip(s);
    if |r| > 0 {
      assert TrimStart(r) == r;
      assert TrimEnd(r) == r;
    }
  }

  // Decimal digits and Python's str(int)

  predicate IsDigit(c: char) {
    '0' <= c <= '9'
  }

  predicate AllDigits(s: string) {
    forall i :: 0 <= i < |s| ==> IsDigit(s[i])
  }

  function DigitValue(c: char): nat
    requires IsDigit(c)
  {
    c as int - '0' as int
  }

  function DigitChar(d: nat): (c: char)
    requires d < 10
    ensures IsDigit(c) && DigitValue(c) == d
  {
    ('0' as int + d) as char
  }

  /** The number written by a string of decimal digits, most significant first. */
  function DigitsValue(s: string): nat
    requires AllDigits(s)
  {
    if |s| == 0 then 0 else DigitsValue(s[..|s| - 1]) * 10 + DigitValue(s[|s| - 1])
  }

  function Pow10(n: nat): (p: nat)
    ensures p >= 1
  {
    if n == 0 then 1 else 10 * Pow10(n - 1)
  }

  lemma {:induction false} DigitsValueBound(s: string)
    requires AllDigits(s)
    ensures DigitsValue(s) < Pow10(|s|)
    decreases |s|
  {
    if |s| > 0 {
      DigitsValueBound(s[..|s| - 1]);
    }
  }

  /** Reading a digit string from the front: the first digit weighs 10^(n-1). */
  lemma {:induction false} DigitsValueFront(s: string)
    requires AllDigits(s) && |s| > 0
    ensures DigitsValue(s) == DigitValue(s[0]) * Pow10(|s| - 1) + DigitsValue(s[1..])
    decreases |s|
  {
    if |s| > 1 {
      var n := |s|;
      var init := s[..n - 1];
      DigitsValueFront(init);
      assert init[1..] == s[1..][..n - 2];
      assert init[0] == s[0] && s[1..][n - 2] == s[n - 1];
      var last := DigitValue(s[n - 1]);
      assert DigitsValue(s) == DigitsValue(init) * 10 + last;
      assert DigitsValue(s[1..]) == DigitsValue(init[1..]) * 10 + last;
      Regroup(DigitValue(s[0]), Pow10(n - 2), DigitsValue(init[1..]), last);
    }
  }

  lemma Regroup(a: int, p: int, x: int, l: int)
    ensures (a * p + x) * 10 + l == a * (10 * p) + (x * 10 + l)
  {
  }

  /** A smaller leading digit outweighs anything the remaining digits can add. */
  lemma LeadingDigitDominates(da: nat, db: nat, x: nat, y: nat, p: nat)
    requires da < db && x < p
    ensures da * p + x < db * p + y
  {
    calc {
      da * p + x;
    <
      da * p + p;
    ==
      (da + 1) * p;
    <=  { assert da + 1 <= db; }
      db * p;
    <=
      db * p + y;
    }
  }

  /** For digit strings of equal width, text order is numeric order. */
  lemma {:induction false} DigitsTextOrder(a: string, b: string)
    requires AllDigits(a) && AllDigits(b) && |a| == |b|
    ensures TextLt(a, b) <==> DigitsValue(a) < DigitsValue(b)
    ensures a == b <==> DigitsValue(a) == DigitsValue(b)
    decreases |a|
  {
    if |a| > 0 {
      DigitsValueFront(a);
      DigitsValueFront(b);
      DigitsValueBound(a[1..]);
      DigitsValueBound(b[1..]);
      DigitsTextOrder(a[1..], b[1..]);
      var p := Pow10(|a| - 1);
      var da, db := DigitValue(a[0]), DigitValue(b[0]);
      if da < db {
        LeadingDigitDominates(da, db, DigitsValue(a[1..]), DigitsValue(b[1..]), p);
      } else if db < da {
        LeadingDigitDominates(db, da, DigitsValue(b[1..]), DigitsValue(a[1..]), p);
      } else {
        assert a[0] == b[0];
        assert a == [a[0]] + a[1..] && b == [b[0]] + b[1..];
      }
    }
  }

  /** Python's str(n) for a non-negative integer: no sign, no leading zero. */
  function NatToString(n: nat): (s: string)
    ensures |s| >= 1 && AllDigits(s)
    ensures DigitsValue(s) == n
    ensures s[0] == '0' ==> |s| == 1
    decreases n
  {
    if n < 10 then [DigitChar(n)]
    else
      var s := NatToString(n / 10) + [DigitChar(n % 10)];
      assert s[..|s| - 1] == NatToString(n / 10);
      s
  }

  /** Python's str(i) for any integer. */
  function IntToString(i: int): (s: string)
    ensures |s| >= 1
    ensures i >= 0 ==> AllDigits(s) && DigitsValue(s) == i
    ensures i < 0 ==> s[0] == '-' && AllDigits(s[1..]) && DigitsValue(s[1..]) == -i
  {
    if i < 0 then "-" + NatToString(-i) else NatToString(i)
  }

  /** The decimal rendering is a canonical form: two naturals render alike only if equal. */
  lemma NatToStringInjective(m: nat, n: nat)
    requires NatToString(m) == NatToString(n)
    ensures m == n
  {
  }
}

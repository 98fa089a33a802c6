/** The LIKE operator as both databases evaluate it in these queries: `%` matches any
    run of characters, `_` exactly one, there is no ESCAPE clause, and letters compare
    without regard to ASCII case (SQLite's LIKE folds ASCII case itself; the Oracle
    queries and the vehicle/owner SQLite queries apply UPPER() to both sides). */
module Like {
  import opened Text
  import opened Sql

  predicate IsWildcard(c: char) {
    c == '%' || c == '_'
  }

  predicate NoWildcard(q: string) {
    forall i :: 0 <= i < |q| ==> !IsWildcard(q[i])
  }

  /** `t LIKE p`. */
  predicate Like(t: string, p: string)
    decreases |t| + |p|
  {
    if |p| == 0 then |t| == 0
    else if p[0] == '%' then Like(t, p[1..]) || (|t| > 0 && Like(t[1..], p))
    else |t| > 0 && (p[0] == '_' || Upper(t[0]) == Upper(p[0])) && Like(t[1..], p[1..])
  }

  /** `UPPER(t) LIKE UPPER(p)`, the form the vehicle and owner searches use. */
  predicate UpperLike(t: string, p: string) {
    Like(UpperString(t), UpperString(p))
  }

  /** The bound parameter `f'%{q}%'` of every search in the sources. */
  function Surround(q: string): string {
    "%" + q + "%"
  }

  /** `column LIKE '%q%'` on a nullable column: NULL never matches. */
  predicate ColumnLike(v: Option<string>, q: string) {
    v.Some? && Like(v.value, Surround(q))
  }

  /** `q` occurs in `t` at position `i`, up to ASCII case. */
  predicate MatchAt(t: string, q: string, i: int) {
    0 <= i && i + |q| <= |t| && FoldEq(t[i..i + |q|], q)
  }

  /** `t` contains `q` as a substring, up to ASCII case. */
  ghost predicate ContainsFold(t: string, q: string) {
    exists i :: MatchAt(t, q, i)
  }

  /** Upper-casing both sides changes nothing: LIKE already ignores ASCII case. */
  lemma {:induction false} UpperLikeIsLike(t: string, p: string)
    ensures UpperLike(t, p) <==> Like(t, p)
    decreases |t| + |p|
  {
    var ut, up := UpperString(t), UpperString(p);
    if |p| > 0 {
      assert up[0] == '%' <==> p[0] == '%';
      assert up[0] == '_' <==> p[0] == '_';
      assert up[1..] == UpperString(p[1..]);
      UpperLikeIsLike(t, p[1..]);
      if |t| > 0 {
        assert ut[1..] == UpperString(t[1..]);
        assert Upper(ut[0]) == Upper(t[0]) && Upper(up[0]) == Upper(p[0]);
        UpperLikeIsLike(t[1..], p);
        UpperLikeIsLike(t[1..], p[1..]);
      }
    }
  }

  /** A lone `%` matches every string. */
  lemma {:induction false} PercentMatchesAll(t: string)
    ensures Like(t, "%")
    decreases |t|
  {
    if |t| > 0 {
      PercentMatchesAll(t[1..]);
    }
  }

  /** A literal followed by `%` is a case-insensitive prefix test. */
  lemma {:induction false} LiteralPrefix(t: string, q: string)
    requires NoWildcard(q)
    ensures Like(t, q + "%") <==> |q| <= |t| && FoldEq(t[..|q|], q)
    decreases |q|
  {
    if |q| == 0 {
      assert q + "%" == "%";
      PercentMatchesAll(t);
    } else {
      var p := q + "%";
      assert p[0] == q[0] && p[1..] == q[1..] + "%";
      assert !IsWildcard(q[0]);
      assert NoWildcard(q[1..]) by {
        forall i | 0 <= i < |q[1..]| ensures !IsWildcard(q[1..][i]) {
          assert q[1..][i] == q[i + 1];
        }
      }
      if |t| > 0 {
        LiteralPrefix(t[1..], q[1..]);
      }
      if |t| > 0 && |q| <= |t| {
        assert t[..|q|][0] == t[0];
        assert t[..|q|][1..] == t[1..][..|q| - 1];
        if FoldEq(t[..|q|], q) {
          assert Upper(t[0]) == Upper(q[0]);
          assert FoldEq(t[1..][..|q| - 1], q[1..]) by {
            forall i | 0 <= i < |q| - 1
              ensures Upper(t[1..][..|q| - 1][i]) == Upper(q[1..][i])
            {
              assert t[1..][..|q| - 1][i] == t[..|q|][i + 1];
            }
          }
        }
        if Upper(t[0]) == Upper(q[0]) && FoldEq(t[1..][..|q| - 1], q[1..]) {
          assert FoldEq(t[..|q|], q) by {
            forall i | 0 <= i < |q| ensures Upper(t[..|q|][i]) == Upper(q[i]) {
              if i > 0 {
                assert t[..|q|][i] == t[1..][..|q| - 1][i - 1];
              }
            }
          }
        }
      }
    }
  }

  /** Step case of ContainsFold: a match starts here or later. */
  lemma ContainsFoldStep(t: string, q: string)
    requires |t| > 0
    ensures ContainsFold(t, q) <==> MatchAt(t, q, 0) || ContainsFold(t[1..], q)
  {
    if ContainsFold(t, q) {
      var i :| MatchAt(t, q, i);
      if i > 0 {
        assert t[1..][i - 1..i - 1 + |q|] == t[i..i + |q|];
        assert MatchAt(t[1..], q, i - 1);
      }
    }
    if ContainsFold(t[1..], q) {
      var i :| MatchAt(t[1..], q, i);
      assert t[1..][i..i + |q|] == t[i + 1..i + 1 + |q|];
      assert MatchAt(t, q, i + 1);
    }
  }

  /** Without wildcards in the query, `t LIKE '%q%'` is case-insensitive containment. */
  lemma {:induction false} SurroundIsContains(t: string, q: string)
    requires NoWildcard(q)
    ensures Like(t, Surround(q)) <==> ContainsFold(t, q)
    decreases |t|
  {
    var p := Surround(q);
    assert p[0] == '%' && p[1..] == q + "%";
    LiteralPrefix(t, q);
    assert MatchAt(t, q, 0) <==> |q| <= |t| && FoldEq(t[..|q|], q) by {
      if |q| <= |t| {
        assert t[0..0 + |q|] == t[..|q|];
      }
    }
    if |t| > 0 {
      SurroundIsContains(t[1..], q);
      ContainsFoldStep(t, q);
    } else {
      if ContainsFold(t, q) {
        var i :| MatchAt(t, q, i);
        assert i == 0;
      }
    }
  }

  /** An unescaped `%` query matches every non-NULL column. */
  lemma PercentQueryMatchesAll(v: string)
    ensures ColumnLike(Some(v), "%")
  {
    var p := Surround("%");
    assert p == "%%%";
    assert p[1..] == "%%" && p[1..][1..] == "%";
    PercentMatchesAll(v);
  }

  /** An unescaped `_` query matches exactly the non-empty columns. */
  lemma UnderscoreQueryMatchesNonEmpty(v: string)
    ensures ColumnLike(Some(v), "_") <==> |v| >= 1
  {
    var p := Surround("_");
    assert p == "%_%";
    assert p[1..] == "_%" && p[1..][1..] == "%";
    if |v| >= 1 {
      PercentMatchesAll(v[1..]);
      assert Like(v, p[1..]);
    } else {
      assert !Like(v, p[1..]);
    }
  }

  /** A query without wildcards matches a column holding exactly that text. */
  lemma LiteralMatchesItself(x: string)
    requires NoWildcard(x)
    ensures ColumnLike(Some(x), x)
  {
    SurroundIsContains(x, x);
    assert x[0..0 + |x|] == x;
    assert MatchAt(x, x, 0);
  }
}

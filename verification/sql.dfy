/** Value semantics shared by the queries and the Python code that consumes their rows:
    SQL NULL, the `||` operator of the two database dialects, SQLite's LIMIT/OFFSET,
    Python truthiness and the f-string rendering of None. */
module Sql {
  import opened Text

  /** A nullable column value. */
  datatype Option<+T> = None | Some(value: T) {
    function GetOr(default: T): T {
      match this
      case Some(v) => v
      case None => default
    }
  }

  function Max(a: int, b: int): int { if a < b then b else a }
  function Min(a: int, b: int): int { if a < b then a else b }

  // Python side

  /** Python truthiness of a nullable text value: None and "" are falsy. */
  predicate Truthy(v: Option<string>) {
    v.Some? && v.value != ""
  }

  /** Python's `v or default` on a nullable text value. */
  function OrElse(v: Option<string>, default: string): string {
    if Truthy(v) then v.value else default
  }

  /** What an f-string prints for a nullable text value: None prints as "None". */
  function Render(v: Option<string>): string {
    match v
    case Some(s) => s
    case None => "None"
  }

  /** What an f-string prints for a nullable integer column. */
  function RenderInt(v: Option<int>): string {
    match v
    case Some(i) => IntToString(i)
    case None => "None"
  }

  // SQL side

  datatype Dialect = SQLite | Oracle

  /** `a || b`. SQLite propagates NULL; Oracle reads NULL as the empty string, and an
      empty result is NULL again because Oracle does not distinguish '' from NULL. */
  function Concat(d: Dialect, a: Option<string>, b: Option<string>): (r: Option<string>)
    ensures d == SQLite ==> (r.None? <==> a.None? || b.None?)
    ensures d == Oracle ==> (r.None? <==> a.GetOr("") == "" && b.GetOr("") == "")
    ensures r.Some? ==> r.value == a.GetOr("") + b.GetOr("")
  {
    match d
    case SQLite =>
      if a.None? || b.None? then None else Some(a.value + b.value)
    case Oracle =>
      var s := a.GetOr("") + b.GetOr("");
      if s == "" then None else Some(s)
  }

  /** `LIMIT limit OFFSET offset` of SQLite: a negative offset reads as zero and a
      negative limit means no limit. */
  function Window<T>(s: seq<T>, limit: int, offset: int): (r: seq<T>)
    ensures limit >= 0 ==> |r| == Min(limit, Max(0, |s| - Max(0, offset)))
    ensures limit < 0 ==> |r| == Max(0, |s| - Max(0, offset))
    ensures forall k :: 0 <= k < |r| ==> r[k] == s[Max(0, offset) + k]
  {
    var lo := Min(Max(0, offset), |s|);
    var hi := if limit < 0 then |s| else Min(|s|, lo + limit);
    s[lo..hi]
  }

  /** Floor division by a positive page size: `(k / n) * n` starts the page of `k`. */
  lemma DivFloor(k: int, n: int)
    requires 0 <= k && n > 0
    ensures k / n >= 0 && 0 <= (k / n) * n <= k < (k / n) * n + n
  {
  }

  /** The row at position `k` is on the page of size `n` that starts at `(k / n) * n`. */
  lemma PageHolding<T>(s: seq<T>, k: int, n: int)
    requires 0 <= k < |s| && n > 0
    ensures k / n >= 0 && 0 <= (k / n) * n <= k
    ensures s[k] in Window(s, n, (k / n) * n)
  {
    DivFloor(k, n);
    var offset := (k / n) * n;
    var w := Window(s, n, offset);
    assert |w| == Min(n, |s| - offset);
    assert w[k - offset] == s[k];
  }
}

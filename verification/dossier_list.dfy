/** The dossier list screen of list_dossier.py as a state machine over
    (current_page, total_items, current_search_query): loading a page, searching,
    the pagination bar and its buttons, the checks and clean-up done when a dossier
    is saved, and the fallbacks of a dossier card. */
module DossierList {
  import opened Text
  import opened Sql
  import opened Like
  import opened Rows
  import opened DossierStore

  const ItemsPerPage := 10

  /** The screen's variables. */
  datatype State = State(page: int, total: int, query: string)

  /** The values the screen starts with. */
  const Initial := State(1, 0, "")

  /** What every reachable state satisfies. */
  predicate Valid(s: State) {
    s.page >= 1 && s.total >= 0
  }

  /** `max(1, (total_items + items_per_page - 1) // items_per_page)`, the ceiling of
      total / 10 and at least 1. */
  function TotalPages(total: int): (r: int)
    ensures r >= 1
    ensures total > 0 ==> (r - 1) * ItemsPerPage < total <= r * ItemsPerPage
    ensures total <= ItemsPerPage ==> r == 1
  {
    Max(1, (total + ItemsPerPage - 1) / ItemsPerPage)
  }

  /** `(current_page - 1) * items_per_page`. */
  function Offset(page: int): int {
    (page - 1) * ItemsPerPage
  }

  // Listing and searching

  /** `ORDER BY created_at DESC`. */
  predicate CreatedNoEarlier(a: Dossier, b: Dossier) {
    TextLe(b.createdAt, a.createdAt)
  }

  lemma CreationOrder()
    ensures TotalPreorder(CreatedNoEarlier)
  {
    forall a: Dossier, b: Dossier ensures CreatedNoEarlier(a, b) || CreatedNoEarlier(b, a) {
      TextLeTotal(a.createdAt, b.createdAt);
    }
    forall a: Dossier, b: Dossier, c: Dossier | CreatedNoEarlier(a, b) && CreatedNoEarlier(b, c)
      ensures CreatedNoEarlier(a, c)
    {
      TextLeTransitive(c.createdAt, b.createdAt, a.createdAt);
    }
  }

  /** The six columns the list search tests, in WHERE order: date_fin and observation
      are not searched. */
  function ListColumns(d: Dossier): seq<Option<string>> {
    [ Some(d.draft.number), Some(d.draft.person), Some(d.draft.subject), d.draft.reference,
      Some(d.draft.date), d.draft.start ]
  }

  /** The rows the list search keeps: each matching row as often as the table holds it. */
  function ListMatching(t: seq<Dossier>, q: string): (r: seq<Dossier>)
    ensures forall d :: d in r <==> d in t && AnyColumnLike(ListColumns(d), q)
    ensures forall d :: multiset(r)[d] == if AnyColumnLike(ListColumns(d), q) then multiset(t)[d] else 0
  {
    Filter(t, (d: Dossier) => AnyColumnLike(ListColumns(d), q))
  }

  /** The rows in the order the list reads them, newest first. */
  function Newest(rows: seq<Dossier>): (r: seq<Dossier>)
    ensures IsOrderBy(CreatedNoEarlier, rows, r)
    ensures |r| == |rows|
  {
    CreationOrder();
    Sort(CreatedNoEarlier, rows)
  }

  /** Page `page` of `rows`: at most ten rows at offset `(page - 1) * 10`. */
  function PageOf(rows: seq<Dossier>, page: int): (r: seq<Dossier>)
    requires SortedBy(CreatedNoEarlier, rows)
    ensures |r| <= ItemsPerPage
    ensures SortedBy(CreatedNoEarlier, r)
    ensures forall d :: d in r ==> d in rows
    ensures |r| == Min(ItemsPerPage, Max(0, |rows| - Max(0, Offset(page))))
    ensures forall k :: 0 <= k < |r| ==> r[k] == rows[Max(0, Offset(page)) + k]
  {
    WindowOfSorted(CreatedNoEarlier, rows, ItemsPerPage, Offset(page));
    Window(rows, ItemsPerPage, Offset(page))
  }

  /** The screen after a load: its variables and the rows on display. */
  datatype Listing = Listing(state: State, shown: seq<Dossier>)

  /** `load_dossiers` with no search active: the whole table is counted and the
      current page of it, newest first, shown. */
  function LoadAll(t: seq<Dossier>, s: State): (l: Listing)
    ensures l.state == State(s.page, |t|, s.query)
    ensures exists o :: IsOrderBy(CreatedNoEarlier, t, o) && l.shown == Window(o, ItemsPerPage, Offset(s.page))
    ensures |l.shown| <= ItemsPerPage && SortedBy(CreatedNoEarlier, l.shown)
    ensures forall d :: d in l.shown ==> d in t
    ensures |l.shown| == Min(ItemsPerPage, Max(0, |t| - Max(0, Offset(s.page))))
    ensures s.page >= 1 && l.shown != [] ==> l.state.page <= TotalPages(l.state.total)
  {
    var all := Newest(t);
    OrderBySameRows(CreatedNoEarlier, t, all);
    var l := Listing(State(s.page, |t|, s.query), PageOf(all, s.page));
    assert IsOrderBy(CreatedNoEarlier, t, all) && l.shown == Window(all, ItemsPerPage, Offset(s.page));
    l
  }

  /** `search_dossiers` as written: the stripped field becomes the active query; a
      blank one falls back to the plain listing. The page number is kept, and the
      total is the match count only when the fetched page has rows. */
  function Search(t: seq<Dossier>, s: State, field: string): (l: Listing)
    ensures l.state.page == s.page
    ensures l.state.query == Strip(field)
    ensures Strip(field) == "" ==> l == LoadAll(t, State(s.page, s.total, ""))
    ensures Strip(field) != "" ==> exists o :: (IsOrderBy(CreatedNoEarlier, ListMatching(t, Strip(field)), o)
      && l.shown == Window(o, ItemsPerPage, Offset(s.page)))
    ensures Strip(field) != "" ==> forall d :: d in l.shown ==> d in t && AnyColumnLike(ListColumns(d), Strip(field))
    ensures Strip(field) != "" ==> l.state.total == if l.shown == [] then 0 else |ListMatching(t, Strip(field))|
    ensures Strip(field) != "" ==>
      |l.shown| == Min(ItemsPerPage, Max(0, |ListMatching(t, Strip(field))| - Max(0, Offset(s.page))))
    ensures |l.shown| <= ItemsPerPage && SortedBy(CreatedNoEarlier, l.shown)
    ensures l.state.total >= 0
    ensures s.page >= 1 && l.shown != [] ==> l.state.page <= TotalPages(l.state.total)
  {
    var q := Strip(field);
    if q == "" then LoadAll(t, State(s.page, s.total, ""))
    else
      var matches := ListMatching(t, q);
      var ordered := Newest(matches);
      OrderBySameRows(CreatedNoEarlier, matches, ordered);
      var rows := PageOf(ordered, s.page);
      assert IsOrderBy(CreatedNoEarlier, matches, ordered) && rows == Window(ordered, ItemsPerPage, Offset(s.page));
      Listing(State(s.page, if |rows| > 0 then |matches| else 0, q), rows)
  }

  /** `load_dossiers`: with a search active it re-runs the search on the field's
      current text, which need not be the active query; the page is kept either way. */
  function Load(t: seq<Dossier>, s: State, field: string): (l: Listing)
    ensures l.state.page == s.page
    ensures s.query == "" ==> l.state == State(s.page, |t|, "")
    ensures s.query != "" ==> l.state.query == Strip(field)
    ensures s.query != "" ==> l == Search(t, s, field)
    ensures s.query == "" ==> l == LoadAll(t, s)
  {
    if s.query != "" then Search(t, s, field) else LoadAll(t, s)
  }

  /** Loading and searching keep the state valid. */
  lemma LoadKeepsValid(t: seq<Dossier>, s: State, field: string)
    requires Valid(s)
    ensures Valid(Load(t, s, field).state) && Valid(Search(t, s, field).state)
  {
  }

  /** A search run from a page past its last match shows nothing and reports no
      match at all, even though there are matches. */
  lemma SearchKeepsStalePage(t: seq<Dossier>, s: State, field: string)
    requires Strip(field) != ""
    requires |ListMatching(t, Strip(field))| <= Offset(s.page)
    ensures Search(t, s, field).shown == []
    ensures Search(t, s, field).state.total == 0
    ensures Search(t, s, field).state.page == s.page
  {
  }

  // Pagination bar

  /** An icon button: the argument it passes to `change_page`, and whether it is
      disabled. */
  datatype Button = Button(argument: int, disabled: bool)

  /** `update_pagination`: no bar, or first, previous, caption, next, last. */
  datatype Bar =
    | NoBar
    | Bar(first: Button, previous: Button, caption: string, next: Button, last: Button)

  /** `f"Page {current_page}/{total_pages} ({total_items} dossiers)"`. */
  function PageCaption(s: State): string {
    "Page " + IntToString(s.page) + "/" + IntToString(TotalPages(s.total)) + " (" + IntToString(s.total) + " dossiers)"
  }

  /** The caption names the current page, the page count and the row count in
      decimal. */
  lemma PageCaptionShowsNumbers(s: State)
    requires Valid(s)
    ensures exists page, pages, total ::
      && PageCaption(s) == "Page " + page + "/" + pages + " (" + total + " dossiers)"
      && Decimal(page, s.page) && Decimal(pages, TotalPages(s.total)) && Decimal(total, s.total)
  {
    var page, pages, total := IntToString(s.page), IntToString(TotalPages(s.total)), IntToString(s.total);
    assert Decimal(page, s.page) && Decimal(pages, TotalPages(s.total)) && Decimal(total, s.total);
  }

  /** `s` is the decimal notation of the natural number `n`. */
  predicate Decimal(s: string, n: int) {
    |s| >= 1 && AllDigits(s) && DigitsValue(s) == n
  }

  /** The bar, as `update_pagination` wires it: "first page" passes 1 and "last page"
      passes the page count, and `change_page` reads both as steps. */
  function Pagination(s: State): (b: Bar)
    ensures b.NoBar? <==> TotalPages(s.total) <= 1 && s.query == ""
    ensures b.Bar? ==> (b.previous.disabled <==> s.page <= 1) && b.first.disabled == b.previous.disabled
    ensures b.Bar? ==> (b.next.disabled <==> s.page >= TotalPages(s.total)) && b.last.disabled == b.next.disabled
    ensures b.Bar? ==> b.previous.argument == -1 && b.next.argument == 1
    ensures b.Bar? ==> b.first.argument == 1 && b.last.argument == TotalPages(s.total)
    ensures b.Bar? ==> b.caption == PageCaption(s)
  {
    var pages := TotalPages(s.total);
    if pages <= 1 && s.query == "" then NoBar
    else
      Bar(Button(1, s.page <= 1), Button(-1, s.page <= 1), PageCaption(s),
          Button(1, s.page >= pages), Button(pages, s.page >= pages))
  }

  /** A short table with no search shows no bar; a search always shows one. */
  lemma BarShownIff(s: State)
    ensures s.total <= ItemsPerPage && s.query == "" ==> Pagination(s).NoBar?
    ensures s.query != "" ==> Pagination(s).Bar?
    ensures s.total > ItemsPerPage ==> Pagination(s).Bar?
  {
  }

  /** `change_page(delta)`: the page moves by `delta` when the result lies in
      [1, total_pages], and the list is reloaded; otherwise nothing changes. */
  function ChangePage(t: seq<Dossier>, l: Listing, delta: int, field: string): (r: Listing)
    ensures 1 <= l.state.page + delta <= TotalPages(l.state.total) ==> r.state.page == l.state.page + delta
    ensures !(1 <= l.state.page + delta <= TotalPages(l.state.total)) ==> r == l
    ensures Valid(l.state) ==> Valid(r.state)
  {
    var target := l.state.page + delta;
    if 1 <= target <= TotalPages(l.state.total) then Load(t, State(target, l.state.total, l.state.query), field)
    else l
  }

  /** A step past the last page leaves the screen as it is. */
  lemma OvershootStays(t: seq<Dossier>, l: Listing, delta: int, field: string)
    requires l.state.page >= 1 && delta >= TotalPages(l.state.total)
    ensures ChangePage(t, l, delta, field) == l
  {
  }

  /** The four buttons of the bar. */
  datatype Which = FirstPage | PreviousPage | NextPage | LastPage

  function ButtonOf(b: Bar, w: Which): Button
    requires b.Bar?
  {
    match w
    case FirstPage => b.first
    case PreviousPage => b.previous
    case NextPage => b.next
    case LastPage => b.last
  }

  /** `s` is valid and on a page within the page count. */
  predicate OnSomePage(s: State) {
    Valid(s) && s.page <= TotalPages(s.total)
  }

  /** Clicking a button as the code wires it: a missing or disabled button does
      nothing; "previous" and "next" step by one; "first page" also steps forward by
      one, when there is a next page; "last page" never moves. */
  function Press(t: seq<Dossier>, l: Listing, w: Which, field: string): (r: Listing)
    ensures Pagination(l.state).NoBar? ==> r == l
    ensures Pagination(l.state).Bar? && ButtonOf(Pagination(l.state), w).disabled ==> r == l
    ensures OnSomePage(l.state) && Pagination(l.state).Bar? && !ButtonOf(Pagination(l.state), w).disabled ==>
      && (w == PreviousPage ==> r.state.page == l.state.page - 1)
      && (w == NextPage ==> r.state.page == l.state.page + 1)
      && (w == FirstPage && l.state.page < TotalPages(l.state.total) ==> r.state.page == l.state.page + 1)
      && (w == FirstPage && l.state.page == TotalPages(l.state.total) ==> r == l)
      && (w == LastPage ==> r == l)
    ensures Valid(l.state) ==> Valid(r.state)
  {
    var bar := Pagination(l.state);
    if bar.NoBar? || ButtonOf(bar, w).disabled then l
    else ChangePage(t, l, ButtonOf(bar, w).argument, field)
  }

  /** The "first page" button passes 1, which `change_page` reads as a step: it acts
      exactly as "next page". */
  lemma FirstPageActsAsNext(t: seq<Dossier>, l: Listing, field: string)
    requires Pagination(l.state).Bar? && !Pagination(l.state).first.disabled && !Pagination(l.state).next.disabled
    ensures Press(t, l, FirstPage, field) == Press(t, l, NextPage, field)
    ensures Press(t, l, FirstPage, field).state.page == l.state.page + 1
  {
  }

  /** "Next page" during a search reloads through `search_dossiers`, which reads the
      search field again: text typed but not submitted replaces the active query, and
      when it matches nothing the list empties and the total drops to 0. */
  lemma NextPageSearchesFieldText(t: seq<Dossier>, l: Listing, field: string)
    requires l.state.page >= 1 && l.state.query != ""
    requires Pagination(l.state).Bar? && !Pagination(l.state).next.disabled
    ensures Press(t, l, NextPage, field).state.page == l.state.page + 1
    ensures Press(t, l, NextPage, field).state.query == Strip(field)
    ensures Strip(field) != "" && |ListMatching(t, Strip(field))| == 0 ==>
      Press(t, l, NextPage, field).shown == [] && Press(t, l, NextPage, field).state.total == 0
  {
    var target := State(l.state.page + 1, l.state.total, l.state.query);
    PressChangesPage(t, l, NextPage, field);
    var r := Search(t, target, field);
    assert Press(t, l, NextPage, field) == ChangePage(t, l, 1, field) == r;
    if Strip(field) != "" && |ListMatching(t, Strip(field))| == 0 {
      assert |r.shown| == 0;
    }
  }

  /** The "last page" button passes total_pages, also read as a step: from any page
      at or after the first it overshoots, so it never moves. */
  lemma LastPageNeverMoves(t: seq<Dossier>, l: Listing, field: string)
    requires l.state.page >= 1
    ensures Press(t, l, LastPage, field) == l
  {
    var bar := Pagination(l.state);
    if bar.Bar? && !ButtonOf(bar, LastPage).disabled {
      var pages := TotalPages(l.state.total);
      assert ButtonOf(bar, LastPage).argument == pages;
      PressChangesPage(t, l, LastPage, field);
      OvershootStays(t, l, pages, field);
      assert Press(t, l, LastPage, field) == ChangePage(t, l, pages, field);
    } else {
      assert Press(t, l, LastPage, field) == l;
    }
  }

  /** An enabled button moves by its argument. */
  lemma PressChangesPage(t: seq<Dossier>, l: Listing, w: Which, field: string)
    requires Pagination(l.state).Bar? && !ButtonOf(Pagination(l.state), w).disabled
    ensures Press(t, l, w, field) == ChangePage(t, l, ButtonOf(Pagination(l.state), w).argument, field)
  {
  }

  /** A concrete case: on page 2 of 3, "first page" goes to page 3. */
  lemma FirstPageCounterexample(t: seq<Dossier>, field: string)
    ensures var l := Listing(State(2, 30, ""), []);
      Press(t, l, FirstPage, field).state.page == 3
  {
    var l := Listing(State(2, 30, ""), []);
    assert TotalPages(30) == 3;
    assert Pagination(l.state).Bar?;
  }

  // The corrected screen

  /** A reload as evidently intended: the active query is searched again, not
      whatever the field holds at the time. */
  function LoadIntended(t: seq<Dossier>, s: State): (l: Listing)
    ensures l.state.page == s.page && l.state.query == Strip(s.query)
    ensures s.query == "" ==> l == LoadAll(t, s)
  {
    if s.query != "" then Search(t, s, s.query) else LoadAll(t, s)
  }

  /** `change_page` followed by the intended reload. */
  function ChangePageIntended(t: seq<Dossier>, l: Listing, delta: int): (r: Listing)
    ensures 1 <= l.state.page + delta <= TotalPages(l.state.total) ==> r.state.page == l.state.page + delta
    ensures !(1 <= l.state.page + delta <= TotalPages(l.state.total)) ==> r == l
  {
    var target := l.state.page + delta;
    if 1 <= target <= TotalPages(l.state.total) then LoadIntended(t, State(target, l.state.total, l.state.query))
    else l
  }

  /** Clicking a button as its tooltip says: first page and last page jump to page 1
      and to the last page; the list is reloaded for the active query. */
  function PressIntended(t: seq<Dossier>, l: Listing, w: Which): (r: Listing)
    ensures Pagination(l.state).NoBar? ==> r == l
    ensures Pagination(l.state).Bar? && ButtonOf(Pagination(l.state), w).disabled ==> r == l
  {
    var bar := Pagination(l.state);
    if bar.NoBar? || ButtonOf(bar, w).disabled then l
    else
      match w
      case FirstPage => ChangePageIntended(t, l, 1 - l.state.page)
      case PreviousPage => ChangePageIntended(t, l, -1)
      case NextPage => ChangePageIntended(t, l, 1)
      case LastPage => ChangePageIntended(t, l, TotalPages(l.state.total) - l.state.page)
  }

  /** With the intended wiring, an enabled first-page button lands on page 1 and an
      enabled last-page button on the last page; previous and next step by one. */
  lemma IntendedButtonsLand(t: seq<Dossier>, l: Listing, w: Which)
    requires OnSomePage(l.state)
    requires Pagination(l.state).Bar? && !ButtonOf(Pagination(l.state), w).disabled
    ensures w == FirstPage ==> PressIntended(t, l, w).state.page == 1
    ensures w == PreviousPage ==> PressIntended(t, l, w).state.page == l.state.page - 1
    ensures w == NextPage ==> PressIntended(t, l, w).state.page == l.state.page + 1
    ensures w == LastPage ==> PressIntended(t, l, w).state.page == TotalPages(l.state.total)
  {
  }

  /** A search as evidently intended: a new query starts again from page 1. */
  function SearchIntended(t: seq<Dossier>, s: State, field: string): (l: Listing)
    ensures l.state.query == Strip(field)
    ensures Strip(field) != s.query ==> l.state.page == 1
    ensures Strip(field) == s.query ==> l.state.page == s.page
  {
    Search(t, if Strip(field) != s.query then State(1, s.total, s.query) else s, field)
  }

  /** The corrected "next page" reloads the active query, whatever the field holds. */
  lemma NextPageKeepsActiveQuery(t: seq<Dossier>, l: Listing)
    requires l.state.page >= 1 && Strip(l.state.query) == l.state.query
    requires Pagination(l.state).Bar? && !Pagination(l.state).next.disabled
    ensures PressIntended(t, l, NextPage).state.page == l.state.page + 1
    ensures PressIntended(t, l, NextPage).state.query == l.state.query
  {
    assert PressIntended(t, l, NextPage) == ChangePageIntended(t, l, 1);
  }

  /** With the page reset, a new query with matches always shows some of them and
      counts all of them. */
  lemma NewSearchShowsMatches(t: seq<Dossier>, s: State, field: string)
    requires Strip(field) != "" && Strip(field) != s.query
    requires |ListMatching(t, Strip(field))| > 0
    ensures SearchIntended(t, s, field).shown != []
    ensures SearchIntended(t, s, field).state.total == |ListMatching(t, Strip(field))|
  {
  }

  // The user's events

  /** What the user can do on the list: submit the search field, refresh, or click a
      pagination button. Each event carries the search field's text at the time. */
  datatype Event = Submit(field: string) | Refresh(field: string) | Click(button: Which, field: string)

  /** The rows the active query selects: the whole table when there is none. */
  function Selected(t: seq<Dossier>, q: string): seq<Dossier> {
    if q == "" then t else ListMatching(t, q)
  }

  /** A state that agrees with the table: a stripped query, the number of rows it
      selects as the total, and a page within the page count. */
  predicate Settled(t: seq<Dossier>, s: State) {
    && OnSomePage(s)
    && Strip(s.query) == s.query
    && s.total == |Selected(t, s.query)|
  }

  /** The screen tells the truth: its state is settled, and the rows shown are the
      page it names of the selected rows, newest first. */
  predicate Accurate(t: seq<Dossier>, l: Listing) {
    Settled(t, l.state) && l.shown == Window(Newest(Selected(t, l.state.query)), ItemsPerPage, Offset(l.state.page))
  }

  /** Whether the event reads the search field, and the field still holds the active
      query: a reload with no active query ignores the field. */
  predicate KeepsQuery(l: Listing, e: Event) {
    match e
    case Submit(field) => Strip(field) == l.state.query
    case Refresh(field) => l.state.query == "" || Strip(field) == l.state.query
    case Click(_, field) => l.state.query == "" || Strip(field) == l.state.query
  }

  /** Below a page count of `TotalPages(n)`, a page of `n > 0` rows is never empty. */
  lemma PageWithinHasRows(n: int, page: int)
    requires n > 0 && 1 <= page <= TotalPages(n)
    ensures Offset(page) < n
  {
    var r := TotalPages(n);
    assert (page - 1) * ItemsPerPage <= (r - 1) * ItemsPerPage;
  }

  /** The listing a non-blank search gives, spelled out. */
  lemma SearchShape(t: seq<Dossier>, s: State, field: string)
    requires Strip(field) != ""
    ensures var w := Window(Newest(ListMatching(t, Strip(field))), ItemsPerPage, Offset(s.page));
      Search(t, s, field) == Listing(State(s.page, if |w| > 0 then |ListMatching(t, Strip(field))| else 0, Strip(field)), w)
  {
  }

  /** The listing a plain load gives, spelled out. */
  lemma LoadAllShape(t: seq<Dossier>, s: State)
    ensures LoadAll(t, s) == Listing(State(s.page, |t|, s.query), Window(Newest(t), ItemsPerPage, Offset(s.page)))
  {
  }

  /** Searching again for the active query from a settled state is accurate. */
  lemma SameSearchIsAccurate(t: seq<Dossier>, s: State, field: string)
    ensures Settled(t, s) && Strip(field) == s.query ==> Accurate(t, Search(t, s, field))
  {
    if Settled(t, s) && Strip(field) == s.query {
      if s.query == "" {
        LoadAllShape(t, State(s.page, s.total, ""));
      } else {
        SearchShape(t, s, field);
        var n := |ListMatching(t, s.query)|;
        if n > 0 {
          PageWithinHasRows(n, s.page);
        }
      }
    }
  }

  /** A search that starts on page 1 is accurate. */
  lemma FirstPageSearchIsAccurate(t: seq<Dossier>, s: State, field: string)
    ensures s.page == 1 ==> Accurate(t, Search(t, s, field))
  {
    if s.page == 1 {
      var q := Strip(field);
      StripIdempotent(field);
      if q == "" {
        LoadAllShape(t, State(1, s.total, ""));
      } else {
        FirstPageOfMatches(t, s, field);
      }
    }
  }

  lemma FirstPageOfMatches(t: seq<Dossier>, s: State, field: string)
    requires s.page == 1 && Strip(field) != "" && Strip(Strip(field)) == Strip(field)
    ensures Accurate(t, Search(t, s, field))
  {
    var q := Strip(field);
    SearchShape(t, s, field);
    var m := ListMatching(t, q);
    var w := Window(Newest(m), ItemsPerPage, Offset(1));
    assert |w| == Min(ItemsPerPage, |m|);
    var l := Search(t, s, field);
    assert l.state == State(1, |m|, q);
    assert Selected(t, q) == m;
    assert OnSomePage(l.state);
  }

  /** A reload from a settled state whose field still holds the active query is
      accurate. */
  lemma LoadIsAccurate(t: seq<Dossier>, s: State, field: string)
    ensures Settled(t, s) && (s.query == "" || Strip(field) == s.query) ==> Accurate(t, Load(t, s, field))
  {
    SameSearchIsAccurate(t, s, field);
  }

  /** A click from an accurate screen whose field still holds the active query leaves
      it accurate. */
  lemma PressIsAccurate(t: seq<Dossier>, l: Listing, w: Which, field: string)
    ensures Accurate(t, l) && (l.state.query == "" || Strip(field) == l.state.query) ==>
      Accurate(t, Press(t, l, w, field))
  {
    var bar := Pagination(l.state);
    if Accurate(t, l) && (l.state.query == "" || Strip(field) == l.state.query) && bar.Bar? && !ButtonOf(bar, w).disabled {
      var delta := ButtonOf(bar, w).argument;
      assert Press(t, l, w, field) == ChangePage(t, l, delta, field);
      ChangePageKeepsAccurate(t, l, delta, field);
    }
  }

  /** Moving to a page within the page count and reloading keeps an accurate screen
      accurate, as long as the field still holds the active query. */
  lemma ChangePageKeepsAccurate(t: seq<Dossier>, l: Listing, delta: int, field: string)
    requires Accurate(t, l) && (l.state.query == "" || Strip(field) == l.state.query)
    ensures Accurate(t, ChangePage(t, l, delta, field))
  {
    var target := l.state.page + delta;
    if 1 <= target <= TotalPages(l.state.total) {
      var s := State(target, l.state.total, l.state.query);
      assert Settled(t, s);
      LoadIsAccurate(t, s, field);
    }
  }

  /** One event as the code handles it. */
  function Step(t: seq<Dossier>, l: Listing, e: Event): (r: Listing)
    ensures Valid(l.state) ==> Valid(r.state)
    ensures Accurate(t, l) && KeepsQuery(l, e) ==> Accurate(t, r)
  {
    match e
    case Submit(field) => SameSearchIsAccurate(t, l.state, field); Search(t, l.state, field)
    case Refresh(field) => LoadIsAccurate(t, l.state, field); Load(t, l.state, field)
    case Click(w, field) => PressIsAccurate(t, l, w, field); Press(t, l, w, field)
  }

  /** The screen after a sequence of events as the code handles them, starting from
      the first load. */
  function Run(t: seq<Dossier>, events: seq<Event>): (r: Listing)
    ensures Valid(r.state)
    decreases |events|
  {
    if |events| == 0 then LoadAll(t, Initial)
    else Step(t, Run(t, events[..|events| - 1]), events[|events| - 1])
  }

  /** The corrected search from an accurate screen is accurate. */
  lemma SearchIntendedIsAccurate(t: seq<Dossier>, l: Listing, field: string)
    ensures Accurate(t, l) ==> Accurate(t, SearchIntended(t, l.state, field))
  {
    if Accurate(t, l) {
      if Strip(field) == l.state.query {
        SameSearchIsAccurate(t, l.state, field);
        assert SearchIntended(t, l.state, field) == Search(t, l.state, field);
      } else {
        var s1 := State(1, l.state.total, l.state.query);
        FirstPageSearchIsAccurate(t, s1, field);
        assert SearchIntended(t, l.state, field) == Search(t, s1, field);
      }
    }
  }

  /** The corrected click from an accurate screen is accurate. */
  lemma PressIntendedIsAccurate(t: seq<Dossier>, l: Listing, w: Which)
    ensures Accurate(t, l) ==> Accurate(t, PressIntended(t, l, w))
  {
    var bar := Pagination(l.state);
    if Accurate(t, l) && !bar.NoBar? && !ButtonOf(bar, w).disabled {
      var delta := match w
        case FirstPage => 1 - l.state.page
        case PreviousPage => -1
        case NextPage => 1
        case LastPage => TotalPages(l.state.total) - l.state.page;
      assert PressIntended(t, l, w) == ChangePageIntended(t, l, delta);
      ChangePageIsAccurate(t, l, delta);
    }
  }

  /** Moving to a page within the page count and reloading the active query keeps an
      accurate screen accurate. */
  lemma ChangePageIsAccurate(t: seq<Dossier>, l: Listing, delta: int)
    requires Accurate(t, l)
    ensures Accurate(t, ChangePageIntended(t, l, delta))
  {
    var target := l.state.page + delta;
    if 1 <= target <= TotalPages(l.state.total) {
      var s := State(target, l.state.total, l.state.query);
      assert ChangePageIntended(t, l, delta) == LoadIntended(t, s);
      assert OnSomePage(s);
      assert Settled(t, s);
      LoadIsAccurate(t, s, s.query);
      assert LoadIntended(t, s) == Load(t, s, s.query);
    }
  }

  /** One event with the corrected search, reload and button wiring. */
  function StepIntended(t: seq<Dossier>, l: Listing, e: Event): (r: Listing)
    ensures Accurate(t, l) ==> Accurate(t, r)
  {
    match e
    case Submit(field) => SearchIntendedIsAccurate(t, l, field); SearchIntended(t, l.state, field)
    case Refresh(_) => LoadIsAccurate(t, l.state, l.state.query); LoadIntended(t, l.state)
    case Click(w, _) => PressIntendedIsAccurate(t, l, w); PressIntended(t, l, w)
  }

  /** The corrected screen after a sequence of events: it always tells the truth. */
  function RunIntended(t: seq<Dossier>, events: seq<Event>): (r: Listing)
    ensures Accurate(t, r)
    decreases |events|
  {
    if |events| == 0 then
      assert Strip("") == "";
      LoadAll(t, Initial)
    else StepIntended(t, RunIntended(t, events[..|events| - 1]), events[|events| - 1])
  }

  /** The screen of an eleven-row table after the first load and a click on "next
      page": page 2, with either wiring. */
  lemma SecondPageOfEleven(t: seq<Dossier>)
    requires |t| == 11
    ensures var l0 := LoadAll(t, Initial);
      && l0.state == State(1, 11, "")
      && Press(t, l0, NextPage, "").state == State(2, 11, "")
      && PressIntended(t, l0, NextPage).state == State(2, 11, "")
  {
    var l0 := LoadAll(t, Initial);
    assert l0.state == State(1, 11, "");
    assert TotalPages(11) == 2;
    assert Pagination(l0.state).Bar? && !Pagination(l0.state).next.disabled;
    assert Press(t, l0, NextPage, "") == ChangePage(t, l0, 1, "");
    assert PressIntended(t, l0, NextPage) == ChangePageIntended(t, l0, 1);
  }

  /** "D1" is its own stripped form and holds no wildcard. */
  lemma StripD1()
    ensures Strip("D1") == "D1" && NoWildcard("D1") && |"D1"| == 2
  {
    var s := "D1";
    assert !IsSpace(s[0]) && !IsSpace(s[1]);
    assert TrimStart(s) == s;
    assert TrimEnd(s) == s;
    assert !IsWildcard(s[0]) && !IsWildcard(s[1]);
  }

  /** The stale page, reached from the first load: on a table of eleven rows of
      which exactly one matches a query (such a table exists, see
      ElevenDossiersExist), move to page 2, then search that query. The code shows
      nothing and reports a total of 0, although one dossier matches. */
  lemma StaleRunCounterexample(t: seq<Dossier>, q: string)
    requires |t| == 11 && q != "" && Strip(q) == q && |ListMatching(t, q)| == 1
    ensures var events := [Click(NextPage, ""), Submit(q)];
      && Run(t, events).state == State(2, 0, q)
      && Run(t, events).shown == []
      && !Accurate(t, Run(t, events))
  {
    var r := Search(t, State(2, 11, ""), q);
    assert Run(t, [Click(NextPage, ""), Submit(q)]) == r by {
      SecondPageOfEleven(t);
      RunOfTwo(t, Click(NextPage, ""), Submit(q));
      var l1 := Press(t, LoadAll(t, Initial), NextPage, "");
      StepCases(t, LoadAll(t, Initial), Click(NextPage, ""));
      StepCases(t, l1, Submit(q));
    }
    SearchKeepsStalePage(t, State(2, 11, ""), q);
    assert r.state.total != |Selected(t, r.state.query)|;
  }

  /** The same events on the corrected screen show the match on page 1. */
  lemma NewSearchRunShowsMatch(t: seq<Dossier>, q: string)
    requires |t| == 11 && q != "" && Strip(q) == q && |ListMatching(t, q)| == 1
    ensures var events := [Click(NextPage, ""), Submit(q)];
      && RunIntended(t, events).state == State(1, 1, q)
      && |RunIntended(t, events).shown| == 1
  {
    var r := SearchIntended(t, State(2, 11, ""), q);
    IntendedRunReachesSearch(t, q);
    NewSearchShowsMatches(t, State(2, 11, ""), q);
    assert r == Search(t, State(1, 11, ""), q);
  }

  /** On the corrected screen, the two events lead to the corrected search from
      page 2. */
  lemma IntendedRunReachesSearch(t: seq<Dossier>, q: string)
    requires |t| == 11
    ensures RunIntended(t, [Click(NextPage, ""), Submit(q)]) == SearchIntended(t, State(2, 11, ""), q)
  {
    SecondPageOfEleven(t);
    RunIntendedOfTwo(t, Click(NextPage, ""), Submit(q));
    var m1 := PressIntended(t, LoadAll(t, Initial), NextPage);
    StepCases(t, LoadAll(t, Initial), Click(NextPage, ""));
    StepCases(t, m1, Submit(q));
  }

  /** What each event does, with either wiring. */
  lemma StepCases(t: seq<Dossier>, l: Listing, e: Event)
    ensures e.Submit? ==> Step(t, l, e) == Search(t, l.state, e.field)
    ensures e.Submit? ==> StepIntended(t, l, e) == SearchIntended(t, l.state, e.field)
    ensures e.Click? ==> Step(t, l, e) == Press(t, l, e.button, e.field)
    ensures e.Click? ==> StepIntended(t, l, e) == PressIntended(t, l, e.button)
  {
  }

  /** Two events after the first load, with either wiring. */
  lemma RunOfTwo(t: seq<Dossier>, e1: Event, e2: Event)
    ensures Run(t, [e1, e2]) == Step(t, Step(t, LoadAll(t, Initial), e1), e2)
  {
    var events := [e1, e2];
    assert events[..1] == [e1] && [e1][..0] == [];
    assert Run(t, [e1]) == Step(t, Run(t, []), e1);
    assert Run(t, events) == Step(t, Run(t, [e1]), e2);
  }

  lemma RunIntendedOfTwo(t: seq<Dossier>, e1: Event, e2: Event)
    ensures RunIntended(t, [e1, e2]) == StepIntended(t, StepIntended(t, LoadAll(t, Initial), e1), e2)
  {
    var events := [e1, e2];
    assert events[..1] == [e1] && [e1][..0] == [];
    assert RunIntended(t, [e1]) == StepIntended(t, RunIntended(t, []), e1);
    assert RunIntended(t, events) == StepIntended(t, RunIntended(t, [e1]), e2);
  }

  /** Such a table exists: the one `OneMatchAmong` builds for "D1" and ten more rows. */
  lemma ElevenDossiersExist()
    ensures exists t, q :: |t| == 11 && q != "" && Strip(q) == q && |ListMatching(t, q)| == 1
  {
    PlainQueryExists();
    var q :| q != "" && Strip(q) == q && NoWildcard(q);
    ElevenFor(q);
  }

  /** Some nonempty query of plain characters is its own stripped form. */
  lemma PlainQueryExists()
    ensures exists q :: q != "" && Strip(q) == q && NoWildcard(q)
  {
    StripD1();
  }

  /** Eleven dossiers of which a plain query keeps exactly one. */
  lemma ElevenFor(q: string)
    requires q != "" && NoWildcard(q)
    ensures exists t :: |t| == 11 && |ListMatching(t, q)| == 1
  {
    OneMatchAmong(q, 10);
  }

  /** For a query of plain characters, some table of `n + 1` dossiers keeps exactly
      one row when searched. */
  lemma OneMatchAmong(q: string, n: nat)
    requires q != "" && NoWildcard(q)
    ensures exists t :: |t| == n + 1 && |ListMatching(t, q)| == 1
  {
    OneMatchIn(q, n, OneMatchTable(q, n));
  }

  /** A dossier numbered with the query, followed by `n` dossiers with empty texts.
      The empty string is taken from `q` so that no row is a constant the verifier
      would evaluate LIKE on. */
  function OneMatchTable(q: string, n: nat): seq<Dossier> {
    var empty := q[..0];
    [Dossier(1, Draft(q, "", "", "", None, None, None, None), "")]
      + Copies(Dossier(2, Draft(empty, empty, empty, empty, None, None, None, None), empty), n)
  }

  /** The search for `q` keeps only the first row of `OneMatchTable(q, n)`. */
  lemma OneMatchIn(q: string, n: nat, t: seq<Dossier>)
    requires q != "" && NoWildcard(q) && t == OneMatchTable(q, n)
    ensures |t| == n + 1 && |ListMatching(t, q)| == 1
  {
    var d := Dossier(1, Draft(q, "", "", "", None, None, None, None), "");
    var empty := q[..0];
    var e := Dossier(2, Draft(empty, empty, empty, empty, None, None, None, None), empty);
    var rest := Copies(e, n);
    assert t == [d] + rest;
    OnlyFirstMentions(d, e, rest, q);
  }

  /** `n` copies of the row `e`. */
  function Copies(e: Dossier, n: nat): (r: seq<Dossier>)
    ensures |r| == n && forall x :: x in r ==> x == e
  {
    if n == 0 then [] else [e] + Copies(e, n - 1)
  }

  /** A table whose first row is numbered `q` and whose other rows are all `e`, which
      has no text as long as `q`: the search for `q` keeps just the first row. */
  lemma OnlyFirstMentions(d: Dossier, e: Dossier, rest: seq<Dossier>, q: string)
    requires NoWildcard(q) && d.draft.number == q
    requires forall k :: 0 <= k < |ListColumns(e)| && ListColumns(e)[k].Some? ==> |ListColumns(e)[k].value| < |q|
    requires forall x :: x in rest ==> x == e
    ensures |ListMatching([d] + rest, q)| == 1
  {
    ShortColumnsMiss(ListColumns(e), q);
    var r := ListMatching(rest, q);
    assert forall x :: x !in r;
    LiteralMatchesItself(q);
    assert ListColumns(d)[0] == Some(q);
    assert AnyColumnLike(ListColumns(d), q);
    ListMatchingCons(d, rest, q);
  }

  /** The search keeps the first row of a table iff it matches, then what it keeps of
      the rest. */
  lemma ListMatchingCons(a: Dossier, rest: seq<Dossier>, q: string)
    ensures ListMatching([a] + rest, q) ==
      (if AnyColumnLike(ListColumns(a), q) then [a] else []) + ListMatching(rest, q)
  {
    var s := [a] + rest;
    assert s[0] == a && s[1..] == rest;
  }

  /** A query without wildcards matches no column shorter than itself. */
  lemma ShortColumnsMiss(columns: seq<Option<string>>, q: string)
    requires NoWildcard(q)
    requires forall k :: 0 <= k < |columns| && columns[k].Some? ==> |columns[k].value| < |q|
    ensures !AnyColumnLike(columns, q)
  {
    AnyColumnLikeIsContainment(columns, q);
  }

  // Saving a dossier

  /** The dialog's fields. Each holds None when it was filled from a NULL column. */
  datatype Form = Form(
    number: Option<string>, date: Option<string>, person: Option<string>, subject: Option<string>,
    reference: Option<string>, start: Option<string>, end: Option<string>, observation: Option<string>)

  /** `value.strip() if value else None`. */
  function Optional(v: Option<string>): (r: Option<string>)
    ensures r.None? <==> !Truthy(v)
    ensures r.Some? ==> r.value == Strip(v.value) && |r.value| <= |v.value|
  {
    if Truthy(v) then Some(Strip(v.value)) else None
  }

  /** `save_dossier`: rejected (None) when a required field is empty; otherwise the
      required fields are stored as typed and the optional ones cleaned up. */
  function Save(f: Form): (r: Option<Draft>)
    ensures r.None? <==> !Truthy(f.number) || !Truthy(f.date) || !Truthy(f.person) || !Truthy(f.subject)
    ensures r.Some? ==>
      && r.value.number == f.number.value && r.value.date == f.date.value
      && r.value.person == f.person.value && r.value.subject == f.subject.value
    ensures r.Some? ==>
      && r.value.reference == Optional(f.reference) && r.value.start == Optional(f.start)
      && r.value.end == Optional(f.end) && r.value.observation == Optional(f.observation)
  {
    if !Truthy(f.number) || !Truthy(f.date) || !Truthy(f.person) || !Truthy(f.subject) then None
    else Some(Draft(f.number.value, f.date.value, f.person.value, f.subject.value,
      Optional(f.reference), Optional(f.start), Optional(f.end), Optional(f.observation)))
  }

  /** The form `open_edit_dialog` fills from a stored row: saving it is accepted iff
      the row's required values are non-empty, and then keeps them. */
  function FormOf(d: Draft): (f: Form)
    ensures Save(f).Some? <==> d.number != "" && d.date != "" && d.person != "" && d.subject != ""
    ensures Save(f).Some? ==>
      && Save(f).value.number == d.number && Save(f).value.date == d.date
      && Save(f).value.person == d.person && Save(f).value.subject == d.subject
  {
    Form(Some(d.number), Some(d.date), Some(d.person), Some(d.subject), d.reference, d.start, d.end, d.observation)
  }

  /** A whitespace-only optional field is stored as the empty string, not as NULL. */
  lemma BlankOptionalBecomesEmpty(v: string)
    requires v != "" && AllSpace(v)
    ensures Optional(Some(v)) == Some("")
  {
  }

  /** Saving an unchanged edit form keeps a row whose optional values are NULL or
      non-empty and already stripped. */
  lemma UnchangedEditKeepsRow(d: Draft)
    requires d.number != "" && d.date != "" && d.person != "" && d.subject != ""
    requires d.reference.Some? ==> d.reference.value != "" && Strip(d.reference.value) == d.reference.value
    requires d.start.Some? ==> d.start.value != "" && Strip(d.start.value) == d.start.value
    requires d.end.Some? ==> d.end.value != "" && Strip(d.end.value) == d.end.value
    requires d.observation.Some? ==> d.observation.value != "" && Strip(d.observation.value) == d.observation.value
    ensures Save(FormOf(d)) == Some(d)
  {
    var f := FormOf(d);
    assert Truthy(f.number) && Truthy(f.date) && Truthy(f.person) && Truthy(f.subject);
    OptionalKeepsClean(d.reference);
    OptionalKeepsClean(d.start);
    OptionalKeepsClean(d.end);
    OptionalKeepsClean(d.observation);
    assert Save(f) == Some(Draft(d.number, d.date, d.person, d.subject, d.reference, d.start, d.end, d.observation));
  }

  /** A NULL or non-empty, already stripped optional value is stored unchanged. */
  lemma OptionalKeepsClean(v: Option<string>)
    requires v.Some? ==> v.value != "" && Strip(v.value) == v.value
    ensures Optional(v) == v
  {
  }

  /** Saving a saved row again clears its empty optional values; from then on the row
      no longer changes. */
  lemma ResaveIsStable(f: Form)
    requires Save(f).Some?
    ensures Save(FormOf(Save(f).value)).Some?
    ensures var d2 := Save(FormOf(Save(f).value)).value; Save(FormOf(d2)) == Some(d2)
  {
    var d1 := Save(f).value;
    var d2 := Save(FormOf(d1)).value;
    OptionalSettles(f.reference);
    OptionalSettles(f.start);
    OptionalSettles(f.end);
    OptionalSettles(f.observation);
  }

  lemma OptionalSettles(v: Option<string>)
    ensures Optional(Optional(Optional(v))) == Optional(Optional(v))
  {
    if Truthy(v) {
      StripIdempotent(v.value);
      if Truthy(Optional(v)) {
        StripIdempotent(Strip(v.value));
      }
    }
  }

  // Dossier card

  /** The texts of `create_dossier_card`. */
  datatype Card = Card(title: string, subtitle: string, date: string, reference: string, period: string, observation: string)

  /** A stored value is shown as is; a NULL or empty one is replaced by its fallback,
      so no text with a fallback is ever blank. */
  function CardOf(d: Dossier): (c: Card)
    ensures Truthy(d.draft.reference) ==> c.reference == d.draft.reference.value
    ensures !Truthy(d.draft.reference) ==> c.reference == "Non spécifié"
    ensures Truthy(d.draft.observation) ==> c.observation == d.draft.observation.value
    ensures !Truthy(d.draft.observation) ==> c.observation == "Aucune observation"
    ensures c.period == (if Truthy(d.draft.start) then d.draft.start.value else "Non spécifié")
      + " au " + (if Truthy(d.draft.end) then d.draft.end.value else "Non spécifié")
    ensures !Truthy(d.draft.start) && !Truthy(d.draft.end) ==> c.period == "Non spécifié au Non spécifié"
    ensures c.title == "Dossier " + d.draft.number
    ensures c.subtitle == "Par " + d.draft.person + " - " + d.draft.subject
    ensures c.date == d.draft.date
    ensures c.reference != "" && c.observation != ""
  {
    Card("Dossier " + d.draft.number, "Par " + d.draft.person + " - " + d.draft.subject, d.draft.date,
      OrElse(d.draft.reference, "Non spécifié"),
      OrElse(d.draft.start, "Non spécifié") + " au " + OrElse(d.draft.end, "Non spécifié"),
      OrElse(d.draft.observation, "Aucune observation"))
  }

  /** The card of a saved dossier: a reference left empty or blank in the form shows
      "Non spécifié", any other shows as typed without its surrounding whitespace. */
  lemma SavedCardReference(f: Form, id: int, created: string)
    requires Save(f).Some?
    ensures var c := CardOf(Dossier(id, Save(f).value, created));
      && (!Truthy(f.reference) || AllSpace(f.reference.value) ==> c.reference == "Non spécifié")
      && (Truthy(f.reference) && !AllSpace(f.reference.value) ==> c.reference == Strip(f.reference.value))
  {
  }
}

/** The SQLite variant of the vehicle and owner search (list_cars.py): a search that
    first looks for an exact plate and otherwise lists matching vehicles and owners in
    one ordered query, and the detail views a result opens. Dates are TEXT columns
    holding `YYYY-MM-DD`; `CURRENT_DATE` is the parameter `today`, in the same form. */
module CarsSqlite {
  import opened Text
  import opened Sql
  import opened Rows
  import opened Dates
  import opened Registry
  import opened Sheets

  type Db = Registry<string>

  /** Every id names at most one row (the PRIMARY KEY constraints). */
  predicate VehicleIdsUnique(vs: seq<Vehicle>) {
    forall i, j :: 0 <= i < |vs| && 0 <= j < |vs| && vs[i].id == vs[j].id ==> i == j
  }

  predicate OwnerIdsUnique(os: seq<Owner<string>>) {
    forall i, j :: 0 <= i < |os| && 0 <= j < |os| && os[i].id == os[j].id ==> i == j
  }

  // Search

  /** `SELECT id_vehicule FROM vehicule WHERE UPPER(immatriculation) = UPPER(?)`, then
      `fetchone()`: the first vehicle whose plate equals the query up to ASCII case. */
  function ExactPlateMatch(vs: seq<Vehicle>, q: string): (r: Option<Vehicle>)
    ensures r.Some? ==> r.value in vs && FoldEq(r.value.plate, q)
    ensures r.None? <==> forall v :: v in vs ==> !FoldEq(v.plate, q)
  {
    if |vs| == 0 then None
    else
      UpperEqIffFoldEq(vs[0].plate, q);
      assert forall v :: v in vs ==> v == vs[0] || v in vs[1..];
      if UpperString(vs[0].plate) == UpperString(q) then Some(vs[0])
      else ExactPlateMatch(vs[1..], q)
  }

  /** `ORDER BY libelle` on a nullable TEXT column: NULL first, then BINARY order. */
  predicate CaptionLe(a: Option<string>, b: Option<string>) {
    a.None? || (b.Some? && TextLe(a.value, b.value))
  }

  /** `ORDER BY type, libelle`. */
  predicate SearchRowLe(a: SearchRow, b: SearchRow) {
    TextLt(KindText(a.kind), KindText(b.kind)) || (a.kind == b.kind && CaptionLe(a.caption, b.caption))
  }

  /** 'PROPRIETAIRE' sorts before 'VEHICULE'. */
  lemma OwnerKindSortsFirst()
    ensures TextLt(KindText(OwnerKind), KindText(VehicleKind))
    ensures !TextLt(KindText(VehicleKind), KindText(OwnerKind))
  {
    assert KindText(OwnerKind)[0] == 'P' && KindText(VehicleKind)[0] == 'V';
  }

  lemma KindTextLtIff(a: Kind, b: Kind)
    ensures TextLt(KindText(a), KindText(b)) <==> a == OwnerKind && b == VehicleKind
  {
    OwnerKindSortsFirst();
    TextLtIrreflexive(KindText(a));
  }

  lemma CaptionOrder()
    ensures forall a, b :: CaptionLe(a, b) || CaptionLe(b, a)
    ensures forall a, b, c :: CaptionLe(a, b) && CaptionLe(b, c) ==> CaptionLe(a, c)
  {
    forall a: Option<string>, b: Option<string> ensures CaptionLe(a, b) || CaptionLe(b, a) {
      if a.Some? && b.Some? {
        TextLeTotal(a.value, b.value);
      }
    }
    forall a: Option<string>, b: Option<string>, c: Option<string> | CaptionLe(a, b) && CaptionLe(b, c)
      ensures CaptionLe(a, c)
    {
      if a.Some? {
        TextLeTransitive(a.value, b.value, c.value);
      }
    }
  }

  lemma SearchRowOrder()
    ensures TotalPreorder(SearchRowLe)
  {
    CaptionOrder();
    forall a: Kind, b: Kind ensures TextLt(KindText(a), KindText(b)) <==> a == OwnerKind && b == VehicleKind {
      KindTextLtIff(a, b);
    }
  }

  /** The broad search: the matching vehicles and owners in `ORDER BY type, libelle`. */
  function BroadSearch(db: Db, q: string): (r: seq<SearchRow>)
    ensures IsOrderBy(SearchRowLe, VehicleHits(db.vehicles, q) + OwnerHits(SQLite, db.owners, q), r)
  {
    SearchRowOrder();
    Sort(SearchRowLe, VehicleHits(db.vehicles, q) + OwnerHits(SQLite, db.owners, q))
  }

  /** `execute_search`: strip the query; nothing for a blank query; the detail view of
      the vehicle whose plate is the query (up to case), captioned with the stripped
      query; otherwise the broad search, with the pane hidden. */
  function ExecuteSearch(db: Db, input: string, today: string): (s: Screen)
    ensures Strip(input) == "" ==> s == Screen([], Hidden)
    ensures Strip(input) != "" && (exists v :: v in db.vehicles && FoldEq(v.plate, Strip(input))) ==>
      exists v :: v in db.vehicles && FoldEq(v.plate, Strip(input)) &&
        s == Screen([], Shown(ShowDetails(db, SearchRow(VehicleKind, v.id, Some(Strip(input))), today)))
    ensures Strip(input) != "" && (forall v :: v in db.vehicles ==> !FoldEq(v.plate, Strip(input))) ==>
      s.details == Hidden &&
      IsOrderBy(SearchRowLe, VehicleHits(db.vehicles, Strip(input)) + OwnerHits(SQLite, db.owners, Strip(input)), s.results)
  {
    var q := Strip(input);
    if q == "" then Screen([], Hidden)
    else
      match ExactPlateMatch(db.vehicles, q)
      case Some(v) =>
        assert v in db.vehicles && FoldEq(v.plate, q);
        Screen([], Shown(ShowDetails(db, SearchRow(VehicleKind, v.id, Some(q)), today)))
      case None =>
        assert forall v :: v in db.vehicles ==> !FoldEq(v.plate, q);
        Screen(BroadSearch(db, q), Hidden)
  }

  /** A vehicle is listed by the broad search iff its plate, make or model matches. */
  lemma BroadSearchListsVehicle(db: Db, q: string, v: Vehicle)
    requires v in db.vehicles && VehicleIdsUnique(db.vehicles)
    ensures VehicleRow(v) in BroadSearch(db, q) <==> VehicleMatches(v, q)
  {
    var hits := VehicleHits(db.vehicles, q) + OwnerHits(SQLite, db.owners, q);
    var r := BroadSearch(db, q);
    assert VehicleRow(v) in r <==> VehicleRow(v) in hits by {
      assert VehicleRow(v) in multiset(r) <==> VehicleRow(v) in multiset(hits);
    }
    if VehicleRow(v) in VehicleHits(db.vehicles, q) {
      var w :| w in db.vehicles && VehicleMatches(w, q) && VehicleRow(v) == VehicleRow(w);
      var i :| 0 <= i < |db.vehicles| && db.vehicles[i] == v;
      var j :| 0 <= j < |db.vehicles| && db.vehicles[j] == w;
    }
  }

  /** An owner is listed by the broad search iff a name field of its kind matches. */
  lemma BroadSearchListsOwner(db: Db, q: string, o: Owner<string>)
    requires o in db.owners && OwnerIdsUnique(db.owners)
    ensures OwnerRow(SQLite, o) in BroadSearch(db, q) <==> OwnerMatches(o, q)
  {
    var hits := VehicleHits(db.vehicles, q) + OwnerHits(SQLite, db.owners, q);
    var r := BroadSearch(db, q);
    assert OwnerRow(SQLite, o) in r <==> OwnerRow(SQLite, o) in hits by {
      assert OwnerRow(SQLite, o) in multiset(r) <==> OwnerRow(SQLite, o) in multiset(hits);
    }
    if OwnerRow(SQLite, o) in OwnerHits(SQLite, db.owners, q) {
      var w :| w in db.owners && OwnerMatches(w, q) && OwnerRow(SQLite, o) == OwnerRow(SQLite, w);
      var i :| 0 <= i < |db.owners| && db.owners[i] == o;
      var j :| 0 <= j < |db.owners| && db.owners[j] == w;
    }
  }

  /** The broad results list every owner before every vehicle, and within each kind
      the captions ascend, NULL first. */
  lemma BroadSearchOrder(db: Db, q: string)
    ensures var r := BroadSearch(db, q);
      forall i, j :: 0 <= i < j < |r| ==>
        && !(r[i].kind == VehicleKind && r[j].kind == OwnerKind)
        && (r[i].kind == r[j].kind ==> CaptionLe(r[i].caption, r[j].caption))
  {
    var r := BroadSearch(db, q);
    forall i, j | 0 <= i < j < |r|
      ensures !(r[i].kind == VehicleKind && r[j].kind == OwnerKind)
      ensures r[i].kind == r[j].kind ==> CaptionLe(r[i].caption, r[j].caption)
    {
      assert SearchRowLe(r[i], r[j]);
      KindTextLtIff(r[i].kind, r[j].kind);
    }
  }

  // Dates on screen

  /** A stored date shown as `DD/MM/YYYY` when the column is truthy, `absent`
      otherwise; None where strptime raises. */
  function ShowDate(s: Option<string>, absent: string): (r: Option<string>)
    ensures !Truthy(s) ==> r == Some(absent)
    ensures Truthy(s) ==> (r.Some? <==> ParseIso(s.value).Some?)
    ensures Truthy(s) && r.Some? ==> r.value == Display(ParseIso(s.value).value)
    ensures r.Some? ==> r.value == DateText(s, absent)
  {
    if Truthy(s) then
      ReformatIsDisplay(s.value);
      Reformat(s.value)
    else Some(absent)
  }

  /** A stored date that makes strptime raise: non-empty and not a valid `YYYY-MM-DD`. */
  predicate Malformed(s: Option<string>) {
    Truthy(s) && ParseIso(s.value).None?
  }

  /** What a stored date strptime accepts is shown as: `DD/MM/YYYY`, or `absent` when
      the column is NULL or empty. */
  function DateText(s: Option<string>, absent: string): string
    requires !Malformed(s)
  {
    if Truthy(s) then Display(ParseIso(s.value).value) else absent
  }

  /** A period with a date strptime rejects. */
  predicate BadDates(p: Period<string>) {
    Malformed(Some(p.start)) || Malformed(p.end)
  }

  // Vehicle details

  /** `hp.date_fin IS NULL OR hp.date_fin > CURRENT_DATE`, a comparison of TEXT. */
  predicate IsOpen(p: Period<string>, today: string) {
    p.end.None? || TextLt(today, p.end.value)
  }

  /** `ORDER BY hp.date_debut DESC`. */
  predicate StartsNoEarlier(a: Period<string>, b: Period<string>) {
    TextLe(b.start, a.start)
  }

  lemma StartOrder()
    ensures TotalPreorder(StartsNoEarlier)
  {
    forall a: Period<string>, b: Period<string> ensures StartsNoEarlier(a, b) || StartsNoEarlier(b, a) {
      TextLeTotal(a.start, b.start);
    }
    forall a: Period<string>, b: Period<string>, c: Period<string> | StartsNoEarlier(a, b) && StartsNoEarlier(b, c)
      ensures StartsNoEarlier(a, c)
    {
      TextLeTransitive(c.start, b.start, a.start);
    }
  }

  /** The row of the current-owner query: the vehicle's columns, `proprietaire_actuel`
      and `hp.date_debut`, the last two NULL when the vehicle has no period at all. */
  datatype CurrentRow = CurrentRow(vehicle: Vehicle, ownerLabel: Option<string>, since: Option<string>)

  /** The periods of vehicle `vid`. */
  function PeriodsOf(db: Db, vid: int): (r: seq<Period<string>>)
    ensures forall p :: p in r <==> p in db.periods && p.vehicleId == vid
  {
    Filter(db.periods, (p: Period<string>) => p.vehicleId == vid)
  }

  /** The periods of vehicle `vid` still open at `today`. */
  function OpenPeriodsOf(db: Db, vid: int, today: string): (r: seq<Period<string>>)
    ensures forall p :: p in r <==> p in db.periods && p.vehicleId == vid && IsOpen(p, today)
  {
    Filter(PeriodsOf(db, vid), (p: Period<string>) => IsOpen(p, today))
  }

  /** `ORDER BY hp.date_debut DESC LIMIT 1` over non-empty rows: a row with the latest
      start. */
  function Latest(ps: seq<Period<string>>): (r: Period<string>)
    requires |ps| > 0
    ensures r in ps
    ensures forall p :: p in ps ==> TextLe(p.start, r.start)
  {
    StartOrder();
    var sorted := Sort(StartsNoEarlier, ps);
    FirstIsLeast(StartsNoEarlier, ps, sorted, ps[0]);
    forall p | p in ps ensures TextLe(p.start, sorted[0].start) {
      FirstIsLeast(StartsNoEarlier, ps, sorted, p);
    }
    sorted[0]
  }

  /** `p` is an open period of vehicle `vid` with the latest start among them. */
  predicate IsLatestOpen(db: Db, vid: int, today: string, p: Period<string>) {
    && p in db.periods && p.vehicleId == vid && IsOpen(p, today)
    && forall p' :: p' in db.periods && p'.vehicleId == vid && IsOpen(p', today) ==> TextLe(p'.start, p.start)
  }

  /** The vehicle `LEFT JOIN` its periods and their owners, `WHERE` the period is open
      (a missing period counts as open), `ORDER BY hp.date_debut DESC LIMIT 1`. */
  function CurrentOwnerRow(db: Db, vid: int, today: string): (r: Option<CurrentRow>)
    ensures FindVehicle(db.vehicles, vid).None? ==> r.None?
    ensures r.Some? ==> FindVehicle(db.vehicles, vid) == Some(r.value.vehicle)
    ensures FindVehicle(db.vehicles, vid).Some? && |PeriodsOf(db, vid)| == 0 ==>
      r == Some(CurrentRow(FindVehicle(db.vehicles, vid).value, None, None))
    ensures |PeriodsOf(db, vid)| > 0 ==>
      (r.Some? <==> FindVehicle(db.vehicles, vid).Some? && |OpenPeriodsOf(db, vid, today)| > 0)
    ensures r.Some? && |PeriodsOf(db, vid)| > 0 ==>
      exists p :: IsLatestOpen(db, vid, today, p)
        && r.value.since == Some(p.start)
        && r.value.ownerLabel == JoinedLabel(SQLite, FindOwner(db.owners, p.ownerId))
  {
    match FindVehicle(db.vehicles, vid)
    case None => None
    case Some(v) =>
      if |PeriodsOf(db, vid)| == 0 then Some(CurrentRow(v, None, None))
      else
        var open := OpenPeriodsOf(db, vid, today);
        if |open| == 0 then None
        else
          var best := Latest(open);
          assert IsLatestOpen(db, vid, today, best);
          Some(CurrentRow(v, JoinedLabel(SQLite, FindOwner(db.owners, best.ownerId)), Some(best.start)))
  }

  /** `ORDER BY hp.date_debut DESC` on the history rows. */
  predicate OwnershipNoEarlier(a: Ownership<string>, b: Ownership<string>) {
    StartsNoEarlier(a.period, b.period)
  }

  predicate HoldingNoEarlier(a: Holding<string>, b: Holding<string>) {
    StartsNoEarlier(a.period, b.period)
  }

  lemma JoinOrders()
    ensures TotalPreorder(OwnershipNoEarlier)
    ensures TotalPreorder(HoldingNoEarlier)
  {
    StartOrder();
  }

  /** The ownership history of a vehicle, latest start first. */
  function History(db: Db, vid: int): (r: seq<Ownership<string>>)
    ensures IsOrderBy(OwnershipNoEarlier, OwnershipsOf(db.periods, db.owners, vid), r)
  {
    JoinOrders();
    Sort(OwnershipNoEarlier, OwnershipsOf(db.periods, db.owners, vid))
  }

  /** One history row: `"{label}{kind} - Du {start} au {end}"`, an open end shown as
      "Présent" and an empty start as "N/A". */
  function HistoryEntry(h: Ownership<string>): (r: Option<string>)
    ensures r.Some? <==> !BadDates(h.period)
    ensures r.Some? ==>
      r.value == Render(OwnerLabel(SQLite, h.owner)) + (if h.owner.identity.Organization? then " (Personne morale)" else "")
        + " - Du " + DateText(Some(h.period.start), "N/A") + " au " + DateText(h.period.end, "Présent")
    ensures r.Some? ==> (EndsWith(r.value, " au Présent") <==> !Truthy(h.period.end))
  {
    var endShown := ShowDate(h.period.end, "Présent");
    var startShown := ShowDate(Some(h.period.start), "N/A");
    if endShown.None? || startShown.None? then None
    else
      HistoryEntryMarksOpenEnd(OwnerLabel(SQLite, h.owner), h.owner.identity.Organization?, startShown.value, endShown.value);
      Some(HistoryEntryText(OwnerLabel(SQLite, h.owner), h.owner.identity.Organization?, startShown.value, endShown.value))
  }

  /** An open period of an organisation reads "{name} (Personne morale) - Du {start} au
      Présent". */
  lemma OpenOrganizationHistoryEntry(h: Ownership<string>)
    requires h.owner.identity.Organization? && !Truthy(h.period.end)
    requires !Malformed(Some(h.period.start))
    ensures HistoryEntry(h) == Some(Render(h.owner.identity.legalName) + " (Personne morale) - Du "
      + DateText(Some(h.period.start), "N/A") + " au Présent")
  {
    var head := Render(h.owner.identity.legalName) + " (Personne morale)" + " - Du " + DateText(Some(h.period.start), "N/A");
    assert head + " au " + "Présent" == head + " au Présent";
    assert Render(h.owner.identity.legalName) + " (Personne morale)" + " - Du "
      == Render(h.owner.identity.legalName) + " (Personne morale) - Du ";
  }

  /** The lines shown for a found current-owner row and the vehicle's history. */
  function VehicleSheet(row: CurrentRow, history: seq<Ownership<string>>): (o: Outcome)
    ensures o.MalformedDate? <==> Malformed(row.since) || exists h :: h in history && BadDates(h.period)
    ensures o.Rendered? ==>
      && |o.lines| >= 7
      && o.lines[..7] == VehicleFieldLines(row.vehicle, OrElse(row.ownerLabel, "N/A"), ShowDate(row.since, "N/A").value)
      && o.lines[7..] == Section(HistoryHeading, FormatAll(history, HistoryEntry).value)
  {
    FormatAllFailsIff(history, HistoryEntry);
    var since := ShowDate(row.since, "N/A");
    if since.None? then MalformedDate
    else
      var fields := VehicleFieldLines(row.vehicle, OrElse(row.ownerLabel, "N/A"), since.value);
      match FormatAll(history, HistoryEntry)
      case None => MalformedDate
      case Some(entries) =>
        var lines := fields + Section(HistoryHeading, entries);
        assert lines[..7] == fields && lines[7..] == Section(HistoryHeading, entries);
        Rendered(lines)
  }

  /** `show_vehicle_details`: nothing when the current-owner query finds no row; else
      the seven fields and the history section. */
  function VehicleDetails(db: Db, vid: int, today: string): (o: Outcome)
    ensures CurrentOwnerRow(db, vid, today).None? ==> o == Rendered([])
    ensures CurrentOwnerRow(db, vid, today).Some? && o.Rendered? ==>
      var row := CurrentOwnerRow(db, vid, today).value;
      && !Malformed(row.since)
      && FormatAll(History(db, vid), HistoryEntry).Some?
      && |o.lines| >= 7
      && o.lines[..7] == VehicleFieldLines(row.vehicle, OrElse(row.ownerLabel, "N/A"), DateText(row.since, "N/A"))
      && o.lines[7..] == Section(HistoryHeading, FormatAll(History(db, vid), HistoryEntry).value)
  {
    match CurrentOwnerRow(db, vid, today)
    case None => Rendered([])
    case Some(row) => VehicleSheet(row, History(db, vid))
  }

  /** A vehicle without any period shows its seven fields with "N/A" as owner and
      date, and no history. */
  lemma VehicleWithoutPeriods(db: Db, vid: int, today: string)
    requires FindVehicle(db.vehicles, vid).Some?
    requires forall p :: p in db.periods ==> p.vehicleId != vid
    ensures VehicleDetails(db, vid, today) == Rendered(VehicleFieldLines(FindVehicle(db.vehicles, vid).value, "N/A", "N/A"))
  {
    assert |PeriodsOf(db, vid)| == 0;
    assert |History(db, vid)| == 0;
    var lines := VehicleDetails(db, vid, today).lines;
    assert lines == lines[..7] + lines[7..];
  }

  /** A vehicle whose periods have all ended shows no detail line at all. */
  lemma VehicleWithOnlyClosedPeriods(db: Db, vid: int, today: string)
    requires exists p :: p in db.periods && p.vehicleId == vid
    requires forall p :: p in db.periods && p.vehicleId == vid ==> !IsOpen(p, today)
    ensures VehicleDetails(db, vid, today) == Rendered([])
  {
    var p :| p in db.periods && p.vehicleId == vid;
    assert p in PeriodsOf(db, vid);
  }

  /** The sixth and seventh vehicle fields show period `p`: its owner's label ("N/A"
      when NULL or empty) and its start. */
  predicate ShowsPeriod(db: Db, lines: seq<Line>, p: Period<string>) {
    && |lines| >= 7
    && lines[5] == Field("Propriétaire actuel", OrElse(JoinedLabel(SQLite, FindOwner(db.owners, p.ownerId)), "N/A"))
    && lines[6].Field? && lines[6].name == "Depuis le" && Some(lines[6].value) == ShowDate(Some(p.start), "N/A")
  }

  /** The current owner shown is the owner of an open period with the latest start; an
      open period whose owner row is gone shows "N/A". */
  lemma CurrentOwnerShown(db: Db, vid: int, today: string)
    requires FindVehicle(db.vehicles, vid).Some?
    requires exists p :: p in db.periods && p.vehicleId == vid && IsOpen(p, today)
    requires VehicleDetails(db, vid, today).Rendered?
    ensures exists p :: IsLatestOpen(db, vid, today, p) && ShowsPeriod(db, VehicleDetails(db, vid, today).lines, p)
  {
    var q :| q in db.periods && q.vehicleId == vid && IsOpen(q, today);
    assert q in PeriodsOf(db, vid) && q in OpenPeriodsOf(db, vid, today);
    var row := CurrentOwnerRow(db, vid, today).value;
    var p :| IsLatestOpen(db, vid, today, p)
        && row.since == Some(p.start)
        && row.ownerLabel == JoinedLabel(SQLite, FindOwner(db.owners, p.ownerId));
    SheetShowsRow(db, vid, today, row, p);
  }

  lemma SheetShowsRow(db: Db, vid: int, today: string, row: CurrentRow, p: Period<string>)
    requires CurrentOwnerRow(db, vid, today) == Some(row)
    requires VehicleDetails(db, vid, today).Rendered?
    requires row.since == Some(p.start)
    requires row.ownerLabel == JoinedLabel(SQLite, FindOwner(db.owners, p.ownerId))
    ensures ShowsPeriod(db, VehicleDetails(db, vid, today).lines, p)
  {
    FieldsShowPeriod(db, VehicleDetails(db, vid, today).lines, row.vehicle, p);
  }

  /** Lines that start with the field lines of a vehicle with `p`'s owner and start
      show `p`. */
  lemma FieldsShowPeriod(db: Db, lines: seq<Line>, v: Vehicle, p: Period<string>)
    requires |lines| >= 7 && !Malformed(Some(p.start))
    requires lines[..7] == VehicleFieldLines(v, OrElse(JoinedLabel(SQLite, FindOwner(db.owners, p.ownerId)), "N/A"), DateText(Some(p.start), "N/A"))
    ensures ShowsPeriod(db, lines, p)
  {
    assert lines[5] == lines[..7][5] && lines[6] == lines[..7][6];
  }

  /** With well-formed start dates the history runs from the latest to the earliest
      start, chronologically. */
  lemma HistoryIsChronological(db: Db, vid: int)
    requires forall p :: p in db.periods ==> ParseIso(p.start).Some?
    ensures var h := History(db, vid);
      forall i, j :: 0 <= i < j < |h| ==> ChronoLe(h[j].period.start, h[i].period.start)
  {
    var hs := OwnershipsOf(db.periods, db.owners, vid);
    var h := History(db, vid);
    assert IsOrderBy(OwnershipNoEarlier, hs, h);
    OrderBySameRows(OwnershipNoEarlier, hs, h);
    forall i, j | 0 <= i < j < |h|
      ensures ChronoLe(h[j].period.start, h[i].period.start)
    {
      var x, y := h[i], h[j];
      assert x in h && y in h;
      assert x in hs && y in hs;
      assert OwnershipNoEarlier(x, y);
      LaterStartIsLaterDate(x.period, y.period);
    }
  }

  lemma LaterStartIsLaterDate(a: Period<string>, b: Period<string>)
    requires ParseIso(a.start).Some? && ParseIso(b.start).Some?
    requires StartsNoEarlier(a, b)
    ensures ChronoLe(b.start, a.start)
  {
    TextLeIsChronological(b.start, a.start);
  }

  /** The vehicle view fails exactly when the current-owner row exists and its start,
      or a date of a period in the history, is malformed. */
  lemma VehicleDetailsFailIff(db: Db, vid: int, today: string)
    ensures VehicleDetails(db, vid, today).MalformedDate? <==>
      CurrentOwnerRow(db, vid, today).Some? &&
      (|| Malformed(CurrentOwnerRow(db, vid, today).value.since)
       || exists h :: h in OwnershipsOf(db.periods, db.owners, vid) && BadDates(h.period))
  {
    var hs := OwnershipsOf(db.periods, db.owners, vid);
    var h := History(db, vid);
    assert IsOrderBy(OwnershipNoEarlier, hs, h);
    OrderBySameRows(OwnershipNoEarlier, hs, h);
  }

  // Owner details

  /** The vehicles an owner held, latest start first. */
  function Holdings(db: Db, oid: int): (r: seq<Holding<string>>)
    ensures IsOrderBy(HoldingNoEarlier, HoldingsOf(db.periods, db.vehicles, oid), r)
  {
    JoinOrders();
    Sort(HoldingNoEarlier, HoldingsOf(db.periods, db.vehicles, oid))
  }

  /** One vehicle row: `"{plate} - {make} {model} (Du {start} au {end})"`. */
  function HoldingEntry(h: Holding<string>): (r: Option<string>)
    ensures r.Some? <==> !BadDates(h.period)
    ensures r.Some? ==>
      r.value == h.vehicle.plate + " - " + h.vehicle.make + " " + h.vehicle.model
        + " (Du " + DateText(Some(h.period.start), "N/A") + " au " + DateText(h.period.end, "Présent") + ")"
    ensures r.Some? ==> (EndsWith(r.value, " au Présent)") <==> !Truthy(h.period.end))
  {
    var endShown := ShowDate(h.period.end, "Présent");
    var startShown := ShowDate(Some(h.period.start), "N/A");
    if endShown.None? || startShown.None? then None
    else
      HoldingEntryMarksOpenEnd(h.vehicle, startShown.value, endShown.value);
      Some(HoldingEntryText(h.vehicle, startShown.value, endShown.value))
  }

  /** A vehicle still held reads "{plate} - {make} {model} (Du {start} au Présent)". */
  lemma OpenHoldingEntry(h: Holding<string>)
    requires !Truthy(h.period.end) && !Malformed(Some(h.period.start))
    ensures HoldingEntry(h) == Some(h.vehicle.plate + " - " + h.vehicle.make + " " + h.vehicle.model
      + " (Du " + DateText(Some(h.period.start), "N/A") + " au Présent)")
  {
    var head := h.vehicle.plate + " - " + h.vehicle.make + " " + h.vehicle.model + " (Du " + DateText(Some(h.period.start), "N/A");
    assert head + " au " + "Présent" + ")" == head + " au Présent)";
  }

  /** The birth date as an individual's sheet shows it. An organisation's sheet has no
      birth-date field (OwnerPairs leaves it out), so its value is a placeholder that
      is never displayed. */
  function BirthShown(i: Identity<string>): (r: Option<string>)
    ensures i.Individual? ==> (r.None? <==> Malformed(i.birthDate))
    ensures r.Some? ==> r.value != ""
  {
    match i
    case Individual(_, _, birth) =>
      var r := ShowDate(birth, "N/A");
      assert r.Some? ==> |r.value| >= 1;
      r
    case Organization(_, _, _) => Some("-")
  }

  /** `show_owner_details`: nothing for an unknown id; else the owner's fields and the
      section of vehicles. */
  function OwnerDetails(db: Db, oid: int): (o: Outcome)
    ensures FindOwner(db.owners, oid).None? ==> o == Rendered([])
    ensures FindOwner(db.owners, oid).Some? && o.Rendered? ==>
      var owner := FindOwner(db.owners, oid).value;
      && BirthShown(owner.identity).Some?
      && FormatAll(Holdings(db, oid), HoldingEntry).Some?
      && (var fields := OwnerFieldLines(owner, BirthShown(owner.identity).value);
          && |o.lines| >= |fields|
          && o.lines[..|fields|] == fields
          && o.lines[|fields|..] == Section(HoldingsHeading, FormatAll(Holdings(db, oid), HoldingEntry).value))
  {
    match FindOwner(db.owners, oid)
    case None => Rendered([])
    case Some(owner) =>
      match BirthShown(owner.identity)
      case None => MalformedDate
      case Some(birth) =>
        match FormatAll(Holdings(db, oid), HoldingEntry)
        case None => MalformedDate
        case Some(entries) =>
          var fields := OwnerFieldLines(owner, birth);
          var lines := fields + Section(HoldingsHeading, entries);
          assert lines[..|fields|] == fields && lines[|fields|..] == Section(HoldingsHeading, entries);
          Rendered(lines)
  }

  /** A rendered owner view starts with "Type", then shows fields in the fixed order,
      then the section of the owner's vehicles, latest start first. */
  lemma OwnerViewLayout(db: Db, oid: int)
    requires FindOwner(db.owners, oid).Some? && OwnerDetails(db, oid).Rendered?
    ensures var owner, lines := FindOwner(db.owners, oid).value, OwnerDetails(db, oid).lines;
      && |lines| >= 1 && lines[0] == Field("Type", OwnerTypeText(owner.identity))
      && exists k ::
           && 1 <= k <= |lines|
           && IsSubsequence(Names(lines[..k]), OwnerFieldOrder(owner.identity))
           && lines[k..] == Section(HoldingsHeading, FormatAll(Holdings(db, oid), HoldingEntry).value)
  {
    var owner, lines := FindOwner(db.owners, oid).value, OwnerDetails(db, oid).lines;
    var fields := OwnerFieldLines(owner, BirthShown(owner.identity).value);
    OwnerSheetLayout(owner, BirthShown(owner.identity).value);
    assert lines[..|fields|] == fields;
  }

  /** An individual's sheet always has a birth-date line, "N/A" when none is stored. */
  lemma IndividualShowsBirthDate(db: Db, oid: int)
    requires FindOwner(db.owners, oid).Some? && FindOwner(db.owners, oid).value.identity.Individual?
    requires OwnerDetails(db, oid).Rendered?
    ensures Shows(OwnerDetails(db, oid).lines, "Date de naissance")
  {
    var owner := FindOwner(db.owners, oid).value;
    var birth := BirthShown(owner.identity).value;
    var entries := FormatAll(Holdings(db, oid), HoldingEntry).value;
    var fields := OwnerFieldLines(owner, birth);
    var lines := fields + Section(HoldingsHeading, entries);
    IndividualFieldsShowBirth(owner, birth);
    assert lines[0..|fields|] == fields;
    ShownInBlock(lines, fields, 0, "Date de naissance");
  }

  /** The vehicle list fails to format iff one of its periods has a malformed date. */
  lemma HoldingsFailIff(db: Db, oid: int)
    ensures FormatAll(Holdings(db, oid), HoldingEntry).None? <==>
      exists h :: h in HoldingsOf(db.periods, db.vehicles, oid) && BadDates(h.period)
  {
    var hs := HoldingsOf(db.periods, db.vehicles, oid);
    var h := Holdings(db, oid);
    assert IsOrderBy(HoldingNoEarlier, hs, h);
    OrderBySameRows(HoldingNoEarlier, hs, h);
    FormatAllFailsIff(h, HoldingEntry);
    if FormatAll(h, HoldingEntry).None? {
      var x :| x in h && HoldingEntry(x).None?;
      assert x in hs && BadDates(x.period);
    }
    if exists x :: x in hs && BadDates(x.period) {
      var x :| x in hs && BadDates(x.period);
      assert x in h && HoldingEntry(x).None?;
    }
  }

  /** The owner view fails exactly when the owner exists and its birth date, or a date
      of one of its periods with an existing vehicle, is malformed. */
  lemma OwnerDetailsFailIff(db: Db, oid: int)
    ensures OwnerDetails(db, oid).MalformedDate? <==>
      FindOwner(db.owners, oid).Some? &&
      (|| (FindOwner(db.owners, oid).value.identity.Individual? && Malformed(FindOwner(db.owners, oid).value.identity.birthDate))
       || exists h :: h in HoldingsOf(db.periods, db.vehicles, oid) && BadDates(h.period))
  {
    HoldingsFailIff(db, oid);
  }

  // Clicking a result

  function TitleText(item: SearchRow): string {
    (if item.kind == VehicleKind then "Détails du Véhicule: " else "Détails du Propriétaire: ") + Render(item.caption)
  }

  /** `show_details`: a title naming the row's caption ("None" when NULL), then the
      view of the row's kind. */
  function ShowDetails(db: Db, item: SearchRow, today: string): (o: Outcome)
    ensures o.Rendered? ==> |o.lines| >= 1 && o.lines[0] == Title(TitleText(item))
    ensures item.kind == VehicleKind ==> (o.MalformedDate? <==> VehicleDetails(db, item.id, today).MalformedDate?)
    ensures item.kind == OwnerKind ==> (o.MalformedDate? <==> OwnerDetails(db, item.id).MalformedDate?)
  {
    match item.kind
    case VehicleKind => Prepend(Title(TitleText(item)), VehicleDetails(db, item.id, today))
    case OwnerKind => Prepend(Title(TitleText(item)), OwnerDetails(db, item.id))
  }
}

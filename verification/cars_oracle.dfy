/** The Oracle variant of the vehicle and owner search (main.py): the same matching
    rules as the SQLite variant, but no exact-plate shortcut, no ORDER BY on the result
    list, and a current-owner query without ORDER BY or LIMIT whose `fetchone` may
    return any open period. Dates are DATE columns, so they are always real calendar
    dates; `SYSDATE` is the parameter `today`. */
module CarsOracle {
  import opened Text
  import opened Sql
  import opened Rows
  import opened Dates
  import opened Registry
  import opened Sheets
  import CarsSqlite

  /** An Oracle DATE value, at midnight: a day Python's `datetime` can represent. */
  type Day = d: Date | Valid(d) witness Date(2000, 1, 1)

  type Db = Registry<Day>

  // Search

  /** The two queries run one after the other and their rows concatenated: vehicles in
      table order, then owners in table order. */
  function Search(db: Db, q: string): (r: seq<SearchRow>)
    ensures forall row :: row in r ==>
      (row.kind == VehicleKind ==> exists v :: v in db.vehicles && VehicleMatches(v, q) && row == VehicleRow(v))
    ensures forall row :: row in r ==>
      (row.kind == OwnerKind ==> exists o :: o in db.owners && OwnerMatches(o, q) && row == OwnerRow(Oracle, o))
    ensures forall v :: v in db.vehicles && VehicleMatches(v, q) ==> VehicleRow(v) in r
    ensures forall o :: o in db.owners && OwnerMatches(o, q) ==> OwnerRow(Oracle, o) in r
  {
    var vs := VehicleHits(db.vehicles, q);
    var os := OwnerHits(Oracle, db.owners, q);
    assert forall row :: row in os ==> row.kind == OwnerKind;
    assert forall row :: row in vs ==> row.kind == VehicleKind;
    vs + os
  }

  /** `execute_search`: a blank query leaves the screen as it was; otherwise the result
      list is replaced and the detail pane hidden. */
  function ExecuteSearch(db: Db, input: string, prev: Screen): (s: Screen)
    ensures Strip(input) == "" ==> s == prev
    ensures Strip(input) != "" ==> s == Screen(Search(db, Strip(input)), Hidden)
  {
    var q := Strip(input);
    if q == "" then prev else Screen(Search(db, q), Hidden)
  }

  /** Every vehicle row comes before every owner row. */
  lemma VehiclesListedFirst(db: Db, q: string)
    ensures var r := Search(db, q);
      forall i, j :: 0 <= i < j < |r| ==> !(r[i].kind == OwnerKind && r[j].kind == VehicleKind)
  {
    var vs := VehicleHits(db.vehicles, q);
    var os := OwnerHits(Oracle, db.owners, q);
    var r := vs + os;
    assert forall row :: row in vs ==> row.kind == VehicleKind;
    assert forall row :: row in os ==> row.kind == OwnerKind;
    forall i, j | 0 <= i < j < |r|
      ensures !(r[i].kind == OwnerKind && r[j].kind == VehicleKind)
    {
      if j < |vs| {
        assert r[i] == vs[i] && r[i] in vs;
      } else {
        assert r[j] == os[j - |vs|] && r[j] in os;
      }
    }
  }

  /** With unique primary keys, a vehicle is listed iff it matches. */
  lemma SearchListsVehicle(db: Db, q: string, v: Vehicle)
    requires v in db.vehicles && CarsSqlite.VehicleIdsUnique(db.vehicles)
    ensures VehicleRow(v) in Search(db, q) <==> VehicleMatches(v, q)
  {
    if VehicleRow(v) in Search(db, q) {
      var w :| w in db.vehicles && VehicleMatches(w, q) && VehicleRow(v) == VehicleRow(w);
      var i :| 0 <= i < |db.vehicles| && db.vehicles[i] == v;
      var j :| 0 <= j < |db.vehicles| && db.vehicles[j] == w;
    }
  }

  /** For a query that does not hit a plate exactly, both variants list the same
      vehicle rows; only their order differs. */
  lemma SameVehiclesAsSqlite(sdb: CarsSqlite.Db, db: Db, input: string, today: string, prev: Screen)
    requires sdb.vehicles == db.vehicles
    requires Strip(input) != ""
    requires forall v :: v in db.vehicles ==> !FoldEq(v.plate, Strip(input))
    ensures forall row: SearchRow :: row.kind == VehicleKind ==>
      (row in CarsSqlite.ExecuteSearch(sdb, input, today).results <==> row in ExecuteSearch(db, input, prev).results)
  {
    var q := Strip(input);
    var vs := VehicleHits(db.vehicles, q);
    var all := vs + OwnerHits(SQLite, sdb.owners, q);
    var sorted := CarsSqlite.ExecuteSearch(sdb, input, today).results;
    assert IsOrderBy(CarsSqlite.SearchRowLe, all, sorted);
    OrderBySameRows(CarsSqlite.SearchRowLe, all, sorted);
    forall row: SearchRow | row.kind == VehicleKind
      ensures row in sorted <==> row in Search(db, q)
    {
      assert row in all <==> row in vs;
    }
  }

  // Current owner

  /** `hp.date_fin IS NULL OR hp.date_fin > SYSDATE`, for dates stored at midnight. */
  predicate IsOpen(p: Period<Day>, today: Day) {
    p.end.None? || DateLt(today, p.end.value)
  }

  /** `p` is an open period of vehicle `vid`. */
  predicate IsCurrent(db: Db, vid: int, today: Day, p: Period<Day>) {
    p in db.periods && p.vehicleId == vid && IsOpen(p, today)
  }

  function PeriodsOf(db: Db, vid: int): (r: seq<Period<Day>>)
    ensures forall p :: p in r <==> p in db.periods && p.vehicleId == vid
    ensures (forall p :: p in db.periods ==> p.vehicleId != vid) ==> r == []
  {
    var f := (p: Period<Day>) => p.vehicleId == vid;
    if forall p :: p in db.periods ==> p.vehicleId != vid then FilterNone(db.periods, f); Filter(db.periods, f)
    else Filter(db.periods, f)
  }

  function OpenPeriodsOf(db: Db, vid: int, today: Day): (r: seq<Period<Day>>)
    ensures forall p :: p in r <==> IsCurrent(db, vid, today, p)
  {
    Filter(db.periods, (p: Period<Day>) => p.vehicleId == vid && IsOpen(p, today))
  }

  /** The columns the vehicle view reads from the current-owner row. */
  datatype CurrentRow = CurrentRow(vehicle: Vehicle, ownerLabel: Option<string>, since: Option<Day>)

  /** The row `fetchone` returns. The LEFT JOINs give a vehicle without any period one
      row of NULLs, which the WHERE keeps; with periods, one row per open period, in an
      order Oracle does not fix: `choice` stands for that order. */
  function CurrentOwnerRow(db: Db, vid: int, today: Day, choice: nat): (r: Option<CurrentRow>)
    ensures FindVehicle(db.vehicles, vid).None? ==> r.None?
    ensures r.Some? ==> FindVehicle(db.vehicles, vid) == Some(r.value.vehicle)
    ensures FindVehicle(db.vehicles, vid).Some? && |PeriodsOf(db, vid)| == 0 ==>
      r == Some(CurrentRow(FindVehicle(db.vehicles, vid).value, None, None))
    ensures |PeriodsOf(db, vid)| > 0 ==>
      (r.Some? <==> FindVehicle(db.vehicles, vid).Some? && exists p :: IsCurrent(db, vid, today, p))
    ensures r.Some? && |PeriodsOf(db, vid)| > 0 ==>
      exists p :: IsCurrent(db, vid, today, p) && r.value.since == Some(p.start)
        && r.value.ownerLabel == JoinedLabel(Oracle, FindOwner(db.owners, p.ownerId))
  {
    match FindVehicle(db.vehicles, vid)
    case None => None
    case Some(v) =>
      if |PeriodsOf(db, vid)| == 0 then Some(CurrentRow(v, None, None))
      else
        var open := OpenPeriodsOf(db, vid, today);
        if |open| == 0 then None
        else
          var p := open[choice % |open|];
          assert p in open;
          Some(CurrentRow(v, JoinedLabel(Oracle, FindOwner(db.owners, p.ownerId)), Some(p.start)))
  }

  /** Every open period is the one `fetchone` returns for some row order. */
  lemma EveryOpenPeriodCanBeChosen(db: Db, vid: int, today: Day, p: Period<Day>)
    requires FindVehicle(db.vehicles, vid).Some?
    requires IsCurrent(db, vid, today, p)
    ensures exists choice: nat :: (CurrentOwnerRow(db, vid, today, choice) ==
      Some(CurrentRow(FindVehicle(db.vehicles, vid).value, JoinedLabel(Oracle, FindOwner(db.owners, p.ownerId)), Some(p.start))))
  {
    assert p in PeriodsOf(db, vid);
    var open := OpenPeriodsOf(db, vid, today);
    assert p in open;
    var k :| 0 <= k < |open| && open[k] == p;
    SmallModulo(k, |open|);
    ChosenRow(db, vid, today, k);
    assert CurrentOwnerRow(db, vid, today, k) ==
      Some(CurrentRow(FindVehicle(db.vehicles, vid).value, JoinedLabel(Oracle, FindOwner(db.owners, p.ownerId)), Some(p.start)));
  }

  lemma SmallModulo(k: nat, n: nat)
    requires k < n
    ensures k % n == k
  {
  }

  /** The row `fetchone` returns for choice `k` when the vehicle has open periods. */
  lemma ChosenRow(db: Db, vid: int, today: Day, k: nat)
    requires FindVehicle(db.vehicles, vid).Some?
    requires |PeriodsOf(db, vid)| > 0 && |OpenPeriodsOf(db, vid, today)| > 0
    ensures var p := OpenPeriodsOf(db, vid, today)[k % |OpenPeriodsOf(db, vid, today)|];
      CurrentOwnerRow(db, vid, today, k) ==
        Some(CurrentRow(FindVehicle(db.vehicles, vid).value, JoinedLabel(Oracle, FindOwner(db.owners, p.ownerId)), Some(p.start)))
  {
  }

  // Vehicle details

  /** `d.strftime('%d/%m/%Y') if d else absent`: a DATE is always truthy. */
  function ShowDay(d: Option<Day>, absent: string): string {
    match d
    case None => absent
    case Some(day) => Display(day)
  }

  /** `ORDER BY hp.date_debut DESC`. */
  predicate OwnershipNoEarlier(a: Ownership<Day>, b: Ownership<Day>) {
    DateLe(b.period.start, a.period.start)
  }

  predicate HoldingNoEarlier(a: Holding<Day>, b: Holding<Day>) {
    DateLe(b.period.start, a.period.start)
  }

  lemma JoinOrders()
    ensures TotalPreorder(OwnershipNoEarlier)
    ensures TotalPreorder(HoldingNoEarlier)
  {
    forall a: Ownership<Day>, b: Ownership<Day>, c: Ownership<Day>
      | OwnershipNoEarlier(a, b) && OwnershipNoEarlier(b, c)
      ensures OwnershipNoEarlier(a, c)
    {
      DateLeTransitive(c.period.start, b.period.start, a.period.start);
    }
    forall a: Holding<Day>, b: Holding<Day>, c: Holding<Day>
      | HoldingNoEarlier(a, b) && HoldingNoEarlier(b, c)
      ensures HoldingNoEarlier(a, c)
    {
      DateLeTransitive(c.period.start, b.period.start, a.period.start);
    }
  }

  /** The ownership history of a vehicle, latest start first. */
  function History(db: Db, vid: int): (r: seq<Ownership<Day>>)
    ensures IsOrderBy(OwnershipNoEarlier, OwnershipsOf(db.periods, db.owners, vid), r)
  {
    JoinOrders();
    Sort(OwnershipNoEarlier, OwnershipsOf(db.periods, db.owners, vid))
  }

  /** One history row: `"{label}{kind} - Du {start} au {end}"`, an open end shown as
      "Présent". */
  function HistoryEntry(h: Ownership<Day>): (r: string)
    ensures r == Render(OwnerLabel(Oracle, h.owner)) + (if h.owner.identity.Organization? then " (Personne morale)" else "")
      + " - Du " + Display(h.period.start) + " au " + (if h.period.end.None? then "Présent" else Display(h.period.end.value))
    ensures EndsWith(r, " au Présent") <==> h.period.end.None?
  {
    var endShown := ShowDay(h.period.end, "Présent");
    HistoryEntryMarksOpenEnd(OwnerLabel(Oracle, h.owner), h.owner.identity.Organization?, Display(h.period.start), endShown);
    HistoryEntryText(OwnerLabel(Oracle, h.owner), h.owner.identity.Organization?, Display(h.period.start), endShown)
  }

  /** An open period of an organisation reads "{name} (Personne morale) - Du {start} au
      Présent". */
  lemma OpenOrganizationHistoryEntry(h: Ownership<Day>)
    requires h.owner.identity.Organization? && h.period.end.None?
    ensures HistoryEntry(h) == Render(h.owner.identity.legalName) + " (Personne morale) - Du "
      + Display(h.period.start) + " au Présent"
  {
    var head := Render(h.owner.identity.legalName) + " (Personne morale)" + " - Du " + Display(h.period.start);
    assert head + " au " + "Présent" == head + " au Présent";
    assert Render(h.owner.identity.legalName) + " (Personne morale)" + " - Du "
      == Render(h.owner.identity.legalName) + " (Personne morale) - Du ";
  }


  const VehicleTitle := "Détails du Véhicule"

  /** `show_vehicle_details`: nothing when the current-owner query finds no row; else a
      title, the seven fields with the owner label printed as is, and the history. */
  function VehicleDetails(db: Db, vid: int, today: Day, choice: nat): (lines: seq<Line>)
    ensures lines == [] <==> CurrentOwnerRow(db, vid, today, choice).None?
    ensures lines != [] ==>
      var row := CurrentOwnerRow(db, vid, today, choice).value;
      && |lines| >= 8
      && lines[0] == Title(VehicleTitle)
      && lines[1..8] == VehicleFieldLines(row.vehicle, Render(row.ownerLabel), ShowDay(row.since, "N/A"))
      && lines[8..] == Section(HistoryHeading, MapRows(History(db, vid), HistoryEntry))
  {
    match CurrentOwnerRow(db, vid, today, choice)
    case None => []
    case Some(row) =>
      var fields := VehicleFieldLines(row.vehicle, Render(row.ownerLabel), ShowDay(row.since, "N/A"));
      var section := Section(HistoryHeading, MapRows(History(db, vid), HistoryEntry));
      var lines := [Title(VehicleTitle)] + fields + section;
      assert lines[1..8] == fields && lines[8..] == section;
      lines
  }

  /** The vehicle view is empty exactly when the vehicle is unknown, or all of its
      periods have ended. */
  lemma VehicleDetailsEmptyIff(db: Db, vid: int, today: Day, choice: nat)
    ensures VehicleDetails(db, vid, today, choice) == [] <==>
      || FindVehicle(db.vehicles, vid).None?
      || ((exists p :: p in db.periods && p.vehicleId == vid) && forall p :: p in db.periods && p.vehicleId == vid ==> !IsOpen(p, today))
  {
    if exists p :: p in db.periods && p.vehicleId == vid {
      var p :| p in db.periods && p.vehicleId == vid;
      assert p in PeriodsOf(db, vid);
    }
  }

  /** A vehicle without any period prints "None" as its current owner (the SQLite
      variant prints "N/A") and "N/A" as the date, and has no history. */
  lemma VehicleWithoutPeriods(db: Db, vid: int, today: Day, choice: nat)
    requires FindVehicle(db.vehicles, vid).Some?
    requires forall p :: p in db.periods ==> p.vehicleId != vid
    ensures VehicleDetails(db, vid, today, choice) ==
      [Title(VehicleTitle)] + VehicleFieldLines(FindVehicle(db.vehicles, vid).value, "None", "N/A")
  {
    var v := FindVehicle(db.vehicles, vid).value;
    assert PeriodsOf(db, vid) == [];
    assert CurrentOwnerRow(db, vid, today, choice) == Some(CurrentRow(v, None, None));
    assert OwnershipsOf(db.periods, db.owners, vid) == [];
    assert |History(db, vid)| == 0;
    var lines := VehicleDetails(db, vid, today, choice);
    assert lines[1..8] == VehicleFieldLines(v, "None", "N/A");
    assert lines[8..] == [];
    assert lines == [lines[0]] + lines[1..8] + lines[8..];
  }

  /** Lines 6 and 7 show period `p`: its owner's label printed as is, and its start. */
  predicate ShowsPeriod(db: Db, lines: seq<Line>, p: Period<Day>) {
    && |lines| >= 8
    && lines[6] == Field("Propriétaire actuel", Render(JoinedLabel(Oracle, FindOwner(db.owners, p.ownerId))))
    && lines[7] == Field("Depuis le", Display(p.start))
  }

  /** Whatever row order Oracle picks, the owner shown is that of an open period of
      the vehicle. */
  lemma CurrentOwnerShown(db: Db, vid: int, today: Day, choice: nat)
    requires FindVehicle(db.vehicles, vid).Some?
    requires exists p :: IsCurrent(db, vid, today, p)
    ensures exists p :: IsCurrent(db, vid, today, p) && ShowsPeriod(db, VehicleDetails(db, vid, today, choice), p)
  {
    var q :| IsCurrent(db, vid, today, q);
    assert q in PeriodsOf(db, vid);
    var row := CurrentOwnerRow(db, vid, today, choice).value;
    var p :| IsCurrent(db, vid, today, p) && row.since == Some(p.start)
      && row.ownerLabel == JoinedLabel(Oracle, FindOwner(db.owners, p.ownerId));
    SheetShowsRow(db, vid, today, choice, row, p);
  }

  /** Every open period is the one shown for some row order. */
  lemma EveryOpenPeriodCanBeShown(db: Db, vid: int, today: Day)
    requires FindVehicle(db.vehicles, vid).Some?
    ensures forall p :: IsCurrent(db, vid, today, p) ==>
      exists c: nat :: ShowsPeriod(db, VehicleDetails(db, vid, today, c), p)
  {
    forall p | IsCurrent(db, vid, today, p)
      ensures exists c: nat :: ShowsPeriod(db, VehicleDetails(db, vid, today, c), p)
    {
      EveryOpenPeriodCanBeChosen(db, vid, today, p);
      var c: nat :| CurrentOwnerRow(db, vid, today, c) ==
        Some(CurrentRow(FindVehicle(db.vehicles, vid).value, JoinedLabel(Oracle, FindOwner(db.owners, p.ownerId)), Some(p.start)));
      SheetShowsRow(db, vid, today, c, CurrentOwnerRow(db, vid, today, c).value, p);
    }
  }

  lemma SheetShowsRow(db: Db, vid: int, today: Day, choice: nat, row: CurrentRow, p: Period<Day>)
    requires CurrentOwnerRow(db, vid, today, choice) == Some(row)
    requires row.since == Some(p.start)
    requires row.ownerLabel == JoinedLabel(Oracle, FindOwner(db.owners, p.ownerId))
    ensures ShowsPeriod(db, VehicleDetails(db, vid, today, choice), p)
  {
    FieldsShowPeriod(db, VehicleDetails(db, vid, today, choice), row.vehicle, p);
  }

  /** Lines whose second to eighth lines are the field lines of a vehicle with `p`'s
      owner and start show `p`. */
  lemma FieldsShowPeriod(db: Db, lines: seq<Line>, v: Vehicle, p: Period<Day>)
    requires |lines| >= 8
    requires lines[1..8] == VehicleFieldLines(v, Render(JoinedLabel(Oracle, FindOwner(db.owners, p.ownerId))), Display(p.start))
    ensures ShowsPeriod(db, lines, p)
  {
    assert lines[6] == lines[1..8][5] && lines[7] == lines[1..8][6];
  }

  /** The history section lists one entry per period of the vehicle whose owner row
      exists, from the latest start to the earliest. */
  lemma HistoryListsEveryPeriod(db: Db, vid: int)
    ensures var h := History(db, vid);
      && (forall x :: x in h <==> x in OwnershipsOf(db.periods, db.owners, vid))
      && multiset(h) == multiset(OwnershipsOf(db.periods, db.owners, vid))
      && PeriodsOfOwnerships(OwnershipsOf(db.periods, db.owners, vid)) == OwnedPeriods(db.periods, db.owners, vid)
      && (forall i, j :: 0 <= i < j < |h| ==> DateLe(h[j].period.start, h[i].period.start))
  {
    var h := History(db, vid);
    assert IsOrderBy(OwnershipNoEarlier, OwnershipsOf(db.periods, db.owners, vid), h);
    OrderBySameRows(OwnershipNoEarlier, OwnershipsOf(db.periods, db.owners, vid), h);
  }

  // Owner details

  /** The vehicles an owner held, latest start first. */
  function Holdings(db: Db, oid: int): (r: seq<Holding<Day>>)
    ensures IsOrderBy(HoldingNoEarlier, HoldingsOf(db.periods, db.vehicles, oid), r)
  {
    JoinOrders();
    Sort(HoldingNoEarlier, HoldingsOf(db.periods, db.vehicles, oid))
  }

  /** One vehicle row: `"{plate} - {make} {model} (Du {start} au {end})"`. */
  function HoldingEntry(h: Holding<Day>): (r: string)
    ensures r == h.vehicle.plate + " - " + h.vehicle.make + " " + h.vehicle.model + " (Du " + Display(h.period.start)
      + " au " + (if h.period.end.None? then "Présent" else Display(h.period.end.value)) + ")"
    ensures EndsWith(r, " au Présent)") <==> h.period.end.None?
  {
    var endShown := ShowDay(h.period.end, "Présent");
    HoldingEntryMarksOpenEnd(h.vehicle, Display(h.period.start), endShown);
    HoldingEntryText(h.vehicle, Display(h.period.start), endShown)
  }

  /** A vehicle still held reads "{plate} - {make} {model} (Du {start} au Présent)". */
  lemma OpenHoldingEntry(h: Holding<Day>)
    requires h.period.end.None?
    ensures HoldingEntry(h) == h.vehicle.plate + " - " + h.vehicle.make + " " + h.vehicle.model
      + " (Du " + Display(h.period.start) + " au Présent)"
  {
    var head := h.vehicle.plate + " - " + h.vehicle.make + " " + h.vehicle.model + " (Du " + Display(h.period.start);
    assert head + " au " + "Présent" + ")" == head + " au Présent)";
  }

  /** The birth date as an individual's sheet shows it. An organisation's sheet has no
      birth-date field (OwnerPairs leaves it out), so its value is a placeholder that
      is never displayed. */
  function BirthShown(i: Identity<Day>): (r: string)
    ensures i.Individual? && i.birthDate.None? ==> r == "N/A"
    ensures i.Individual? && i.birthDate.Some? ==> r == Display(i.birthDate.value)
    ensures r != ""
  {
    match i
    case Individual(_, _, birth) =>
      ShowDay(birth, "N/A")
    case Organization(_, _, _) => "-"
  }

  const OwnerTitle := "Détails du Propriétaire"

  /** `show_owner_details`: nothing for an unknown id; else a title, the owner's
      fields and the section of vehicles. */
  function OwnerDetails(db: Db, oid: int): (lines: seq<Line>)
    ensures lines == [] <==> FindOwner(db.owners, oid).None?
    ensures lines != [] ==>
      var owner := FindOwner(db.owners, oid).value;
      var fields := OwnerFieldLines(owner, BirthShown(owner.identity));
      && |lines| >= |fields| + 1
      && lines[0] == Title(OwnerTitle)
      && lines[1..|fields| + 1] == fields
      && lines[|fields| + 1..] == Section(HoldingsHeading, MapRows(Holdings(db, oid), HoldingEntry))
  {
    match FindOwner(db.owners, oid)
    case None => []
    case Some(owner) =>
      var fields := OwnerFieldLines(owner, BirthShown(owner.identity));
      var section := Section(HoldingsHeading, MapRows(Holdings(db, oid), HoldingEntry));
      var lines := [Title(OwnerTitle)] + fields + section;
      assert lines[1..|fields| + 1] == fields && lines[|fields| + 1..] == section;
      lines
  }

  /** An individual's sheet always has a birth-date line, "N/A" when none is stored. */
  lemma IndividualShowsBirthDate(db: Db, oid: int)
    requires FindOwner(db.owners, oid).Some? && FindOwner(db.owners, oid).value.identity.Individual?
    ensures Shows(OwnerDetails(db, oid), "Date de naissance")
  {
    var owner := FindOwner(db.owners, oid).value;
    var fields := OwnerFieldLines(owner, BirthShown(owner.identity));
    IndividualFieldsShowBirth(owner, BirthShown(owner.identity));
    ShownInBlock(OwnerDetails(db, oid), fields, 1, "Date de naissance");
  }

  /** The vehicle section lists one entry per period of the owner whose vehicle row
      exists, from the latest start to the earliest. */
  lemma HoldingsListEveryPeriod(db: Db, oid: int)
    ensures var h := Holdings(db, oid);
      && (forall x :: x in h <==> x in HoldingsOf(db.periods, db.vehicles, oid))
      && multiset(h) == multiset(HoldingsOf(db.periods, db.vehicles, oid))
      && PeriodsOfHoldings(HoldingsOf(db.periods, db.vehicles, oid)) == HeldPeriods(db.periods, db.vehicles, oid)
      && (forall i, j :: 0 <= i < j < |h| ==> DateLe(h[j].period.start, h[i].period.start))
  {
    var h := Holdings(db, oid);
    assert IsOrderBy(HoldingNoEarlier, HoldingsOf(db.periods, db.vehicles, oid), h);
    OrderBySameRows(HoldingNoEarlier, HoldingsOf(db.periods, db.vehicles, oid), h);
  }

  // Clicking a result

  /** `show_details`: the detail pane is cleared and shown, then filled by the view of
      the row's kind; nothing here can fail. */
  function ShowDetails(db: Db, item: SearchRow, today: Day, choice: nat): (lines: seq<Line>)
    ensures item.kind == VehicleKind ==>
      (lines == [] <==> CurrentOwnerRow(db, item.id, today, choice).None?)
    ensures item.kind == OwnerKind ==> (lines == [] <==> FindOwner(db.owners, item.id).None?)
    ensures lines != [] ==> lines[0] == Title(if item.kind == VehicleKind then VehicleTitle else OwnerTitle)
  {
    match item.kind
    case VehicleKind => VehicleDetails(db, item.id, today, choice)
    case OwnerKind => OwnerDetails(db, item.id)
  }
}

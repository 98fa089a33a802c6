/** The vehicle registry both applications read: the tables `vehicule`, `proprietaire`
    and `historique_proprietaires`, the owner label their queries compute, the search
    predicates, and the joins behind the detail views. The type `D` of the date
    columns is `string` under SQLite (TEXT columns) and a calendar date under Oracle
    (DATE columns). */
module Registry {
  import opened Text
  import opened Sql
  import opened Like
  import opened Rows

  /** A row of `vehicule` (immatriculation, marque, modele, annee, couleur). */
  datatype Vehicle = Vehicle(
    id: int, plate: string, make: string, model: string, year: Option<int>, color: Option<string>)

  /** The columns every owner has (adresse, telephone, email). */
  datatype Contact = Contact(address: Option<string>, phone: Option<string>, email: Option<string>)

  /** The `type_proprietaire` tag with the columns the code reads for it: nom, prenom and
      date_naissance for 'PHYSIQUE'; raison_sociale, siret and representant_legal for
      'MORALE'. The CHECK constraint admits no third kind. */
  datatype Identity<D> =
    | Individual(surname: Option<string>, givenName: Option<string>, birthDate: Option<D>)
    | Organization(legalName: Option<string>, siret: Option<string>, representative: Option<string>)

  /** A row of `proprietaire`. */
  datatype Owner<D> = Owner(id: int, contact: Contact, identity: Identity<D>)

  /** A row of `historique_proprietaires`: date_debut is NOT NULL, date_fin may be NULL. */
  datatype Period<D> = Period(id: int, vehicleId: int, ownerId: int, start: D, end: Option<D>)

  datatype Registry<D> = Registry(vehicles: seq<Vehicle>, owners: seq<Owner<D>>, periods: seq<Period<D>>)

  // Lookups by primary key

  /** `SELECT … FROM vehicule WHERE id_vehicule = id`, first row. */
  function FindVehicle(vs: seq<Vehicle>, id: int): (r: Option<Vehicle>)
    ensures r.Some? ==> r.value in vs && r.value.id == id
    ensures r.None? <==> forall v :: v in vs ==> v.id != id
  {
    if |vs| == 0 then None
    else if vs[0].id == id then Some(vs[0])
    else FindVehicle(vs[1..], id)
  }

  /** `SELECT * FROM proprietaire WHERE id_proprietaire = id`, first row. */
  function FindOwner<D>(os: seq<Owner<D>>, id: int): (r: Option<Owner<D>>)
    ensures r.Some? ==> r.value in os && r.value.id == id
    ensures r.None? <==> forall o :: o in os ==> o.id != id
  {
    if |os| == 0 then None
    else if os[0].id == id then Some(os[0])
    else FindOwner(os[1..], id)
  }

  // The owner label

  /** `CASE WHEN type_proprietaire = 'PHYSIQUE' THEN nom || ' ' || prenom
      ELSE raison_sociale END`. */
  function OwnerLabel<D>(d: Dialect, o: Owner<D>): (r: Option<string>)
    ensures o.identity.Individual? && d == SQLite ==>
      (r.Some? <==> o.identity.surname.Some? && o.identity.givenName.Some?)
    ensures o.identity.Individual? && d == Oracle ==> r.Some?
    ensures o.identity.Individual? && r.Some? ==>
      r.value == o.identity.surname.GetOr("") + " " + o.identity.givenName.GetOr("")
    ensures o.identity.Organization? ==> r == o.identity.legalName
  {
    match o.identity
    case Individual(surname, givenName, _) =>
      assert surname.GetOr("") + " " + givenName.GetOr("") != "" by {
        assert |surname.GetOr("") + " "| >= 1;
      }
      Concat(d, Concat(d, surname, Some(" ")), givenName)
    case Organization(legalName, _, _) => legalName
  }

  /** The label through `LEFT JOIN proprietaire`: a dangling owner reference gives
      NULL, because the CASE falls to its ELSE branch on a NULL kind. */
  function JoinedLabel<D>(d: Dialect, o: Option<Owner<D>>): (r: Option<string>)
    ensures o.None? ==> r.None?
    ensures o.Some? ==> r == OwnerLabel(d, o.value)
  {
    match o
    case None => None
    case Some(owner) => OwnerLabel(d, owner)
  }

  // Search predicates

  /** `UPPER(column) LIKE UPPER('%q%')`. */
  predicate TextMatches(t: string, q: string) {
    UpperLike(t, Surround(q))
  }

  /** The same on a nullable column: NULL never matches. */
  predicate NullableMatches(v: Option<string>, q: string) {
    v.Some? && TextMatches(v.value, q)
  }

  /** The vehicle search condition: plate, make or model. */
  predicate VehicleMatches(v: Vehicle, q: string) {
    TextMatches(v.plate, q) || TextMatches(v.make, q) || TextMatches(v.model, q)
  }

  /** The owner search condition: the name fields of the owner's own kind. */
  predicate OwnerMatches<D>(o: Owner<D>, q: string) {
    match o.identity
    case Individual(surname, givenName, _) => NullableMatches(surname, q) || NullableMatches(givenName, q)
    case Organization(legalName, _, _) => NullableMatches(legalName, q)
  }

  /** For a query without `%` or `_`, a column matches iff it contains the query up to
      ASCII case. */
  lemma TextMatchesIsContainment(t: string, q: string)
    requires NoWildcard(q)
    ensures TextMatches(t, q) <==> ContainsFold(t, q)
  {
    UpperLikeIsLike(t, Surround(q));
    SurroundIsContains(t, q);
  }

  /** Hence the vehicle condition is case-insensitive containment in one of the three
      columns. */
  lemma VehicleMatchIsContainment(v: Vehicle, q: string)
    requires NoWildcard(q)
    ensures VehicleMatches(v, q) <==>
      ContainsFold(v.plate, q) || ContainsFold(v.make, q) || ContainsFold(v.model, q)
  {
    TextMatchesIsContainment(v.plate, q);
    TextMatchesIsContainment(v.make, q);
    TextMatchesIsContainment(v.model, q);
  }

  /** An unescaped `%` query matches every vehicle. */
  lemma PercentMatchesEveryVehicle(v: Vehicle)
    ensures VehicleMatches(v, "%")
  {
    PercentQueryMatchesAll(v.plate);
    UpperLikeIsLike(v.plate, Surround("%"));
  }

  // Search result rows

  /** The `type` column of a search row. */
  datatype Kind = VehicleKind | OwnerKind

  function KindText(k: Kind): string {
    match k
    case VehicleKind => "VEHICULE"
    case OwnerKind => "PROPRIETAIRE"
  }

  /** A `(type, id, libelle)` search row. */
  datatype SearchRow = SearchRow(kind: Kind, id: int, caption: Option<string>)

  function VehicleRow(v: Vehicle): SearchRow {
    SearchRow(VehicleKind, v.id, Some(v.plate))
  }

  function OwnerRow<D>(d: Dialect, o: Owner<D>): SearchRow {
    SearchRow(OwnerKind, o.id, OwnerLabel(d, o))
  }

  /** The vehicles the first half of the search keeps, each as often as the table
      holds it. */
  function MatchingVehicles(vs: seq<Vehicle>, q: string): seq<Vehicle> {
    Filter(vs, (v: Vehicle) => VehicleMatches(v, q))
  }

  /** The owners the second half of the search keeps, each as often as the table
      holds it. */
  function MatchingOwners<D(!new)>(os: seq<Owner<D>>, q: string): seq<Owner<D>> {
    Filter(os, (o: Owner<D>) => OwnerMatches(o, q))
  }

  /** The vehicle half of the search: one row per matching vehicle, in table order. */
  function VehicleHits(vs: seq<Vehicle>, q: string): (r: seq<SearchRow>)
    ensures |r| <= |vs|
    ensures forall v :: v in vs && VehicleMatches(v, q) ==> VehicleRow(v) in r
    ensures forall row :: row in r ==> exists v :: v in vs && VehicleMatches(v, q) && row == VehicleRow(v)
  {
    if |vs| == 0 then []
    else
      var rest := VehicleHits(vs[1..], q);
      assert forall v :: v in vs ==> v == vs[0] || v in vs[1..];
      if VehicleMatches(vs[0], q) then [VehicleRow(vs[0])] + rest else rest
  }

  /** The owner half of the search: one row per matching owner, in table order. */
  function OwnerHits<D(!new)>(d: Dialect, os: seq<Owner<D>>, q: string): (r: seq<SearchRow>)
    ensures |r| <= |os|
    ensures forall o :: o in os && OwnerMatches(o, q) ==> OwnerRow(d, o) in r
    ensures forall row :: row in r ==> exists o :: o in os && OwnerMatches(o, q) && row == OwnerRow(d, o)
  {
    if |os| == 0 then []
    else
      var rest := OwnerHits(d, os[1..], q);
      assert forall o :: o in os ==> o == os[0] || o in os[1..];
      if OwnerMatches(os[0], q) then [OwnerRow(d, os[0])] + rest else rest
  }

  /** The vehicle rows are the matching vehicles, one row each, in table order: a
      vehicle stored twice gives two rows. */
  lemma {:induction false} VehicleHitsFollowMatches(vs: seq<Vehicle>, q: string)
    ensures |VehicleHits(vs, q)| == |MatchingVehicles(vs, q)|
    ensures forall k :: 0 <= k < |VehicleHits(vs, q)| ==> VehicleHits(vs, q)[k] == VehicleRow(MatchingVehicles(vs, q)[k])
    decreases |vs|
  {
    if |vs| > 0 {
      VehicleHitsFollowMatches(vs[1..], q);
      var m, h := MatchingVehicles(vs[1..], q), VehicleHits(vs[1..], q);
      var m0, h0 := MatchingVehicles(vs, q), VehicleHits(vs, q);
      if VehicleMatches(vs[0], q) {
        assert m0 == [vs[0]] + m;
        assert h0 == [VehicleRow(vs[0])] + h;
        forall k | 0 <= k < |h0| ensures h0[k] == VehicleRow(m0[k]) {
          if k > 0 {
            ConsAt(VehicleRow(vs[0]), h, k);
            ConsAt(vs[0], m, k);
          }
        }
      } else {
        assert m0 == m;
        assert h0 == h;
      }
    }
  }

  /** The owner rows are the matching owners, one row each, in table order. */
  lemma {:induction false} OwnerHitsFollowMatches<D(!new)>(d: Dialect, os: seq<Owner<D>>, q: string)
    ensures |OwnerHits(d, os, q)| == |MatchingOwners(os, q)|
    ensures forall k :: 0 <= k < |OwnerHits(d, os, q)| ==> OwnerHits(d, os, q)[k] == OwnerRow(d, MatchingOwners(os, q)[k])
    decreases |os|
  {
    if |os| > 0 {
      OwnerHitsFollowMatches(d, os[1..], q);
      var m, h := MatchingOwners(os[1..], q), OwnerHits(d, os[1..], q);
      var m0, h0 := MatchingOwners(os, q), OwnerHits(d, os, q);
      if OwnerMatches(os[0], q) {
        assert m0 == [os[0]] + m;
        assert h0 == [OwnerRow(d, os[0])] + h;
        forall k | 0 <= k < |h0| ensures h0[k] == OwnerRow(d, m0[k]) {
          if k > 0 {
            ConsAt(OwnerRow(d, os[0]), h, k);
            ConsAt(os[0], m, k);
          }
        }
      } else {
        assert m0 == m;
        assert h0 == h;
      }
    }
  }

  // Joins behind the detail views

  /** A history row: a period with its owner. */
  datatype Ownership<D> = Ownership(period: Period<D>, owner: Owner<D>)

  /** A row of an owner's vehicle list: a period with its vehicle. */
  datatype Holding<D> = Holding(period: Period<D>, vehicle: Vehicle)

  /** `historique_proprietaires hp JOIN proprietaire p ON … WHERE hp.id_vehicule = vid`:
      periods whose owner row is missing drop out. */
  function OwnershipsOf<D(!new)>(ps: seq<Period<D>>, os: seq<Owner<D>>, vid: int): (r: seq<Ownership<D>>)
    ensures |r| <= |ps|
    ensures (forall p :: p in ps ==> p.vehicleId != vid) ==> r == []
    ensures forall h :: h in r <==>
      h.period in ps && h.period.vehicleId == vid && FindOwner(os, h.period.ownerId) == Some(h.owner)
    ensures PeriodsOfOwnerships(r) == OwnedPeriods(ps, os, vid)
  {
    if |ps| == 0 then []
    else
      var p := ps[0];
      var rest := OwnershipsOf(ps[1..], os, vid);
      assert forall x :: x in ps <==> x == p || x in ps[1..];
      var here := FindOwner(os, p.ownerId);
      if p.vehicleId == vid && here.Some? then [Ownership(p, here.value)] + rest else rest
  }

  /** `historique_proprietaires hp JOIN vehicule v ON … WHERE hp.id_proprietaire = oid`:
      periods whose vehicle row is missing drop out. */
  function HoldingsOf<D(!new)>(ps: seq<Period<D>>, vs: seq<Vehicle>, oid: int): (r: seq<Holding<D>>)
    ensures |r| <= |ps|
    ensures (forall p :: p in ps ==> p.ownerId != oid) ==> r == []
    ensures forall h :: h in r <==>
      h.period in ps && h.period.ownerId == oid && FindVehicle(vs, h.period.vehicleId) == Some(h.vehicle)
    ensures PeriodsOfHoldings(r) == HeldPeriods(ps, vs, oid)
  {
    if |ps| == 0 then []
    else
      var p := ps[0];
      var rest := HoldingsOf(ps[1..], vs, oid);
      assert forall x :: x in ps <==> x == p || x in ps[1..];
      var here := FindVehicle(vs, p.vehicleId);
      if p.ownerId == oid && here.Some? then [Holding(p, here.value)] + rest else rest
  }

  /** The periods the history join keeps: the vehicle's, whose owner row exists. */
  function OwnedPeriods<D(!new)>(ps: seq<Period<D>>, os: seq<Owner<D>>, vid: int): seq<Period<D>> {
    Filter(ps, (p: Period<D>) => p.vehicleId == vid && FindOwner(os, p.ownerId).Some?)
  }

  /** The periods the vehicle-list join keeps: the owner's, whose vehicle row exists. */
  function HeldPeriods<D(!new)>(ps: seq<Period<D>>, vs: seq<Vehicle>, oid: int): seq<Period<D>> {
    Filter(ps, (p: Period<D>) => p.ownerId == oid && FindVehicle(vs, p.vehicleId).Some?)
  }

  /** The periods of history rows, in order. */
  function PeriodsOfOwnerships<D>(r: seq<Ownership<D>>): seq<Period<D>> {
    if |r| == 0 then [] else [r[0].period] + PeriodsOfOwnerships(r[1..])
  }

  /** The periods of vehicle-list rows, in order. */
  function PeriodsOfHoldings<D>(r: seq<Holding<D>>): seq<Period<D>> {
    if |r| == 0 then [] else [r[0].period] + PeriodsOfHoldings(r[1..])
  }
}

/** The detail pane as both applications fill it: a column of text controls. Only the
    strings matter here; fonts, sizes and colours are left out. The field lists and
    row texts below are built the same way by the SQLite and the Oracle variant; each
    variant supplies its own rendering of dates. */
module Sheets {
  import opened Text
  import opened Sql
  import opened Registry

  /** One text control of the detail pane. */
  datatype Line =
    | Title(text: string)                 // the bold title naming the entity
    | Field(name: string, value: string)  // shown as `f"{name}: {value}"`
    | Heading(text: string)               // a section heading
    | Entry(text: string)                 // one row of a section

  /** The pane after a click: its lines, or the ValueError strptime raised on a stored
      date, which escapes the handler and spoils the whole view. */
  datatype Outcome = Rendered(lines: seq<Line>) | MalformedDate

  /** The detail pane: hidden, or shown with the outcome of a click. */
  datatype Pane = Hidden | Shown(outcome: Outcome)

  /** What the user sees after a search: the result list and the detail pane. */
  datatype Screen = Screen(results: seq<SearchRow>, details: Pane)

  function Prepend(l: Line, o: Outcome): (r: Outcome)
    ensures o.MalformedDate? <==> r.MalformedDate?
    ensures o.Rendered? ==> r.lines == [l] + o.lines
  {
    match o
    case Rendered(lines) => Rendered([l] + lines)
    case MalformedDate => MalformedDate
  }

  /** Runs a row formatter over every row, failing as a whole if any row fails (the
      exception leaves the loop). */
  function FormatAll<T>(rows: seq<T>, f: T -> Option<string>): (r: Option<seq<string>>)
    ensures r.Some? <==> forall k :: 0 <= k < |rows| ==> f(rows[k]).Some?
    ensures r.Some? ==> |r.value| == |rows| && forall k :: 0 <= k < |rows| ==> r.value[k] == f(rows[k]).value
  {
    if |rows| == 0 then Some([])
    else
      match f(rows[0])
      case None => None
      case Some(first) =>
        match FormatAll(rows[1..], f)
        case None =>
          assert exists k :: 1 <= k < |rows| && f(rows[k]).None? by {
            var j :| 0 <= j < |rows[1..]| && f(rows[1..][j]).None?;
            assert rows[1..][j] == rows[j + 1];
          }
          None
        case Some(rest) =>
          assert forall k :: 1 <= k < |rows| ==> rows[k] == rows[1..][k - 1];
          Some([first] + rest)
  }

  /** FormatAll fails iff the formatter fails on some row. */
  lemma FormatAllFailsIff<T>(rows: seq<T>, f: T -> Option<string>)
    ensures FormatAll(rows, f).None? <==> exists x :: x in rows && f(x).None?
  {
    if exists x :: x in rows && f(x).None? {
      var x :| x in rows && f(x).None?;
      var k :| 0 <= k < |rows| && rows[k] == x;
    }
  }

  /** One text per row, in row order: a loop that cannot fail. */
  function MapRows<T>(rows: seq<T>, f: T -> string): (r: seq<string>)
    ensures |r| == |rows|
    ensures forall k :: 0 <= k < |rows| ==> r[k] == f(rows[k])
  {
    seq(|rows|, k requires 0 <= k < |rows| => f(rows[k]))
  }

  /** A section: its heading and its rows, or nothing at all when there are no rows. */
  function Section(heading: string, rows: seq<string>): (r: seq<Line>)
    ensures |rows| == 0 ==> r == []
    ensures |rows| > 0 ==> |r| == |rows| + 1 && r[0] == Heading(heading)
    ensures forall k :: 0 <= k < |rows| ==> r[k + 1] == Entry(rows[k])
  {
    if |rows| == 0 then [] else [Heading(heading)] + seq(|rows|, k requires 0 <= k < |rows| => Entry(rows[k]))
  }

  // Owner sheet

  function OwnerTypeText<D>(i: Identity<D>): string {
    if i.Organization? then "Personne morale" else "Personne physique"
  }

  /** The field order an owner sheet follows: "Type", the contact fields, then the
      fields of the owner's kind. */
  function OwnerFieldOrder<D>(i: Identity<D>): seq<string> {
    ["Type", "Adresse", "Téléphone", "Email"] +
    match i
    case Individual(_, _, _) => ["Nom", "Prénom", "Date de naissance"]
    case Organization(_, _, _) => ["Raison sociale", "SIRET", "Représentant légal"]
  }

  /** The candidate fields after "Type", before empty ones are dropped. For an
      individual the birth date is passed already rendered (or "N/A"). */
  function OwnerPairs<D>(o: Owner<D>, birthShown: string): seq<(string, Option<string>)> {
    [("Adresse", o.contact.address), ("Téléphone", o.contact.phone), ("Email", o.contact.email)] +
    match o.identity
    case Individual(surname, givenName, _) =>
      [("Nom", surname), ("Prénom", givenName), ("Date de naissance", Some(birthShown))]
    case Organization(legalName, siret, representative) =>
      [("Raison sociale", legalName), ("SIRET", siret), ("Représentant légal", representative)]
  }

  /** The names of the Field lines, in order. */
  function Names(lines: seq<Line>): seq<string> {
    if |lines| == 0 then []
    else (if lines[0].Field? then [lines[0].name] else []) + Names(lines[1..])
  }

  function PairNames(pairs: seq<(string, Option<string>)>): (r: seq<string>)
    ensures |r| == |pairs| && forall k :: 0 <= k < |pairs| ==> r[k] == pairs[k].0
  {
    seq(|pairs|, k requires 0 <= k < |pairs| => pairs[k].0)
  }

  /** `a` can be obtained from `b` by deleting elements. */
  predicate IsSubsequence(a: seq<string>, b: seq<string>)
    decreases |b|
  {
    if |a| == 0 then true
    else if |b| == 0 then false
    else if a[0] == b[0] then IsSubsequence(a[1..], b[1..])
    else IsSubsequence(a, b[1..])
  }

  /** `for label, value in …: if value: append(f"{label}: {value}")`. */
  function KeepTruthy(pairs: seq<(string, Option<string>)>): (r: seq<Line>)
    ensures forall k :: 0 <= k < |r| ==> r[k].Field? && r[k].value != ""
    ensures forall k :: 0 <= k < |pairs| && Truthy(pairs[k].1) ==> Field(pairs[k].0, pairs[k].1.value) in r
    ensures forall line :: line in r ==> exists k :: 0 <= k < |pairs| && pairs[k] == (line.name, Some(line.value))
    ensures IsSubsequence(Names(r), PairNames(pairs))
  {
    if |pairs| == 0 then []
    else
      var rest := KeepTruthy(pairs[1..]);
      assert PairNames(pairs)[1..] == PairNames(pairs[1..]);
      assert forall k :: 1 <= k < |pairs| ==> pairs[k] == pairs[1..][k - 1];
      if Truthy(pairs[0].1) then
        var r := [Field(pairs[0].0, pairs[0].1.value)] + rest;
        assert r[1..] == rest;
        r
      else
        SkipKeepsSubsequence(Names(rest), PairNames(pairs[1..]), pairs[0].0);
        assert [pairs[0].0] + PairNames(pairs[1..]) == PairNames(pairs);
        rest
  }

  /** Prefixing the longer sequence keeps a subsequence a subsequence. */
  lemma {:induction false} SkipKeepsSubsequence(a: seq<string>, b: seq<string>, x: string)
    requires IsSubsequence(a, b)
    ensures IsSubsequence(a, [x] + b)
    decreases |b|, 1
  {
    assert ([x] + b)[1..] == b;
    if |a| > 0 && a[0] == x {
      SubsequenceOfTail(a, b);
    }
  }

  /** Dropping the head of a subsequence leaves a subsequence of the same sequence. */
  lemma {:induction false} SubsequenceOfTail(a: seq<string>, b: seq<string>)
    requires |a| > 0 && IsSubsequence(a, b)
    ensures IsSubsequence(a[1..], b)
    decreases |b|, 0
  {
    assert |b| > 0;
    assert b == [b[0]] + b[1..];
    if a[0] == b[0] {
      SkipKeepsSubsequence(a[1..], b[1..], b[0]);
    } else {
      SubsequenceOfTail(a, b[1..]);
      SkipKeepsSubsequence(a[1..], b[1..], b[0]);
    }
  }

  /** The owner's fields: "Type" first, then the non-empty candidates in order. */
  function OwnerFieldLines<D>(o: Owner<D>, birthShown: string): (r: seq<Line>)
    ensures |r| >= 1 && r[0] == Field("Type", OwnerTypeText(o.identity))
    ensures forall k :: 0 <= k < |r| ==> r[k].Field? && r[k].value != ""
    ensures forall k :: 0 <= k < |OwnerPairs(o, birthShown)| && Truthy(OwnerPairs(o, birthShown)[k].1) ==>
      Field(OwnerPairs(o, birthShown)[k].0, OwnerPairs(o, birthShown)[k].1.value) in r
  {
    var kept := KeepTruthy(OwnerPairs(o, birthShown));
    var r := [Field("Type", OwnerTypeText(o.identity))] + kept;
    assert forall k :: 1 <= k < |r| ==> r[k] == kept[k - 1];
    r
  }

  /** Whether a field of that name is shown. */
  predicate Shows(lines: seq<Line>, name: string) {
    name in Names(lines)
  }

  lemma {:induction false} NamesMembership(lines: seq<Line>, name: string)
    ensures name in Names(lines) <==> exists k :: 0 <= k < |lines| && lines[k].Field? && lines[k].name == name
    decreases |lines|
  {
    if |lines| > 0 {
      NamesMembership(lines[1..], name);
      assert forall k :: 1 <= k < |lines| ==> lines[k] == lines[1..][k - 1];
      if exists k :: 0 <= k < |lines[1..]| && lines[1..][k].Field? && lines[1..][k].name == name {
        var k :| 0 <= k < |lines[1..]| && lines[1..][k].Field? && lines[1..][k].name == name;
        assert lines[k + 1] == lines[1..][k];
      }
    }
  }

  /** The candidate names are the fixed order without its leading "Type". */
  lemma OwnerPairNames<D>(o: Owner<D>, birthShown: string)
    ensures PairNames(OwnerPairs(o, birthShown)) == OwnerFieldOrder(o.identity)[1..]
  {
    var pairs := OwnerPairs(o, birthShown);
    var order := OwnerFieldOrder(o.identity);
    assert |order| == 7 && |pairs| == 6;
    forall k | 0 <= k < 6 ensures PairNames(pairs)[k] == order[1..][k] {
      assert order[1..][k] == order[k + 1];
    }
  }

  /** No name occurs twice in the fixed order. */
  lemma OwnerFieldOrderDistinct<D>(i: Identity<D>)
    ensures forall j, k :: 0 <= j < k < |OwnerFieldOrder(i)| ==> OwnerFieldOrder(i)[j] != OwnerFieldOrder(i)[k]
  {
    var order := OwnerFieldOrder(i);
  }

  /** An owner sheet starts with "Type", keeps the fixed field order, and never shows
      an empty value. */
  lemma OwnerSheetLayout<D>(o: Owner<D>, birthShown: string)
    ensures var lines := OwnerFieldLines(o, birthShown);
      && lines[0] == Field("Type", OwnerTypeText(o.identity))
      && IsSubsequence(Names(lines), OwnerFieldOrder(o.identity))
      && forall k :: 0 <= k < |lines| ==> lines[k].Field? && lines[k].value != ""
  {
    var pairs := OwnerPairs(o, birthShown);
    var kept := KeepTruthy(pairs);
    var lines := OwnerFieldLines(o, birthShown);
    var order := OwnerFieldOrder(o.identity);
    assert lines[1..] == kept;
    assert Names(lines) == ["Type"] + Names(kept);
    OwnerPairNames(o, birthShown);
    assert order == ["Type"] + order[1..];
    assert IsSubsequence(Names(kept), order[1..]);
  }

  /** A field other than "Type" is shown iff its value is non-empty. */
  lemma OwnerFieldShownIffTruthy<D>(o: Owner<D>, birthShown: string, k: nat)
    requires k < |OwnerPairs(o, birthShown)|
    ensures var pair := OwnerPairs(o, birthShown)[k];
      Shows(OwnerFieldLines(o, birthShown), pair.0) <==> Truthy(pair.1)
  {
    var pairs := OwnerPairs(o, birthShown);
    var lines := OwnerFieldLines(o, birthShown);
    var kept := KeepTruthy(pairs);
    assert lines[1..] == kept;
    assert Names(lines) == ["Type"] + Names(kept);
    var name := pairs[k].0;
    OwnerPairNames(o, birthShown);
    OwnerFieldOrderDistinct(o.identity);
    var order := OwnerFieldOrder(o.identity);
    assert name == order[k + 1] && "Type" == order[0];
    assert name != "Type";
    NamesMembership(kept, name);
    if Truthy(pairs[k].1) {
      assert Field(name, pairs[k].1.value) in kept;
      var j :| 0 <= j < |kept| && kept[j] == Field(name, pairs[k].1.value);
    }
  }

  /** An individual's field list shows the birth date, which is passed non-empty
      ("N/A" when none is stored). */
  lemma IndividualFieldsShowBirth<D>(o: Owner<D>, birthShown: string)
    requires o.identity.Individual? && birthShown != ""
    ensures Shows(OwnerFieldLines(o, birthShown), "Date de naissance")
  {
    assert OwnerPairs(o, birthShown)[5] == ("Date de naissance", Some(birthShown));
    OwnerFieldShownIffTruthy(o, birthShown, 5);
  }

  /** A field shown by a block of lines is shown by every pane holding that block. */
  lemma ShownInBlock(lines: seq<Line>, block: seq<Line>, at: nat, name: string)
    requires at + |block| <= |lines| && lines[at..at + |block|] == block
    requires Shows(block, name)
    ensures Shows(lines, name)
  {
    NamesMembership(block, name);
    var k :| 0 <= k < |block| && block[k].Field? && block[k].name == name;
    assert lines[at + k] == block[k];
    NamesMembership(lines, name);
  }

  // Vehicle sheet and section rows

  /** The seven vehicle fields, always all shown; a NULL year or colour prints "None". */
  function VehicleFieldLines(v: Vehicle, ownerShown: string, sinceShown: string): seq<Line> {
    [ Field("Immatriculation", v.plate), Field("Marque", v.make), Field("Modèle", v.model),
      Field("Année", RenderInt(v.year)), Field("Couleur", Render(v.color)),
      Field("Propriétaire actuel", ownerShown), Field("Depuis le", sinceShown) ]
  }

  /** `f"{nom_proprietaire}{type_owner} - Du {debut} au {fin}"`. */
  function HistoryEntryText(caption: Option<string>, organization: bool, startShown: string, endShown: string): string {
    Render(caption) + (if organization then " (Personne morale)" else "") + " - Du " + startShown + " au " + endShown
  }

  /** `f"{immatriculation} - {marque} {modele} (Du {debut} au {fin})"`. */
  function HoldingEntryText(v: Vehicle, startShown: string, endShown: string): string {
    v.plate + " - " + v.make + " " + v.model + " (Du " + startShown + " au " + endShown + ")"
  }

  /** `s` ends with `suffix`. */
  predicate EndsWith(s: string, suffix: string) {
    |suffix| <= |s| && s[|s| - |suffix|..] == suffix
  }

  /** What an end date is shown as: "Présent", or a `DD/MM/YYYY` date, whose last
      character is a digit. */
  predicate EndShape(endShown: string) {
    endShown == "Présent" || (|endShown| > 0 && IsDigit(endShown[|endShown| - 1]))
  }

  /** A history row ends in " au Présent" exactly when its period is open. */
  lemma HistoryEntryMarksOpenEnd(caption: Option<string>, organization: bool, startShown: string, endShown: string)
    requires EndShape(endShown)
    ensures EndsWith(HistoryEntryText(caption, organization, startShown, endShown), " au Présent") <==> endShown == "Présent"
  {
    var x := HistoryEntryText(caption, organization, startShown, endShown);
    var head := Render(caption) + (if organization then " (Personne morale)" else "") + " - Du " + startShown;
    assert x == head + " au " + endShown;
    if endShown == "Présent" {
      assert x[|x| - 11..] == " au Présent";
    } else {
      assert x[|x| - 1] == endShown[|endShown| - 1];
    }
  }

  /** A vehicle row ends in " au Présent)" exactly when its period is open. */
  lemma HoldingEntryMarksOpenEnd(v: Vehicle, startShown: string, endShown: string)
    requires EndShape(endShown)
    ensures EndsWith(HoldingEntryText(v, startShown, endShown), " au Présent)") <==> endShown == "Présent"
  {
    var x := HoldingEntryText(v, startShown, endShown);
    var head := v.plate + " - " + v.make + " " + v.model + " (Du " + startShown;
    assert x == head + " au " + endShown + ")";
    if endShown == "Présent" {
      assert x[|x| - 12..] == " au Présent)";
    } else {
      assert x[|x| - 2] == endShown[|endShown| - 1];
    }
  }

  const HistoryHeading := "\nHistorique des Propriétaires:"
  const HoldingsHeading := "\nVéhicules associés:"
}

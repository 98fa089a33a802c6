/** The `dossiers` table shared by database.py and list_dossier.py, the paged search
    of database.py (filter, order by date, slice, and a separate count), and the
    one-time seeding of sample rows. */
module DossierStore {
  import opened Text
  import opened Sql
  import opened Like
  import opened Rows

  /** The values an INSERT supplies: numero, date, personne and objet are NOT NULL;
      numero_reference, date_debut, date_fin and observation may be NULL. */
  datatype Draft = Draft(
    number: string, date: string, person: string, subject: string,
    reference: Option<string>, start: Option<string>, end: Option<string>, observation: Option<string>)

  /** A row of `dossiers`: the AUTOINCREMENT id, the inserted values, and created_at. */
  datatype Dossier = Dossier(id: int, draft: Draft, createdAt: string)

  /** The table and the last id AUTOINCREMENT handed out. */
  datatype Store = Store(rows: seq<Dossier>, lastId: int)

  // Matching

  /** Some column `LIKE '%q%'`; a NULL column never matches. */
  predicate AnyColumnLike(columns: seq<Option<string>>, q: string) {
    exists k :: 0 <= k < |columns| && ColumnLike(columns[k], q)
  }

  /** The eight columns the search of database.py tests, in WHERE order. */
  function SearchedColumns(d: Dossier): seq<Option<string>> {
    [ Some(d.draft.number), Some(d.draft.date), Some(d.draft.person), Some(d.draft.subject),
      d.draft.reference, d.draft.start, d.draft.end, d.draft.observation ]
  }

  /** Without wildcards in the query, a row matches iff one of the searched columns
      contains the query, ignoring ASCII case. */
  lemma AnyColumnLikeIsContainment(columns: seq<Option<string>>, q: string)
    requires NoWildcard(q)
    ensures AnyColumnLike(columns, q) <==>
      exists k :: 0 <= k < |columns| && columns[k].Some? && ContainsFold(columns[k].value, q)
  {
    forall k | 0 <= k < |columns| && columns[k].Some?
      ensures ColumnLike(columns[k], q) <==> ContainsFold(columns[k].value, q)
    {
      SurroundIsContains(columns[k].value, q);
    }
  }

  /** The rows of `t` the WHERE clause keeps, in table order. */
  function Matching(t: seq<Dossier>, q: string): (r: seq<Dossier>)
    ensures forall d :: d in r <==> d in t && AnyColumnLike(SearchedColumns(d), q)
    ensures forall d :: multiset(r)[d] == if AnyColumnLike(SearchedColumns(d), q) then multiset(t)[d] else 0
  {
    Filter(t, (d: Dossier) => AnyColumnLike(SearchedColumns(d), q))
  }

  // Paged search

  /** `ORDER BY date DESC` on a TEXT column. */
  predicate DateNoEarlier(a: Dossier, b: Dossier) {
    TextLe(b.draft.date, a.draft.date)
  }

  lemma DateOrder()
    ensures TotalPreorder(DateNoEarlier)
  {
    forall a: Dossier, b: Dossier ensures DateNoEarlier(a, b) || DateNoEarlier(b, a) {
      TextLeTotal(a.draft.date, b.draft.date);
    }
    forall a: Dossier, b: Dossier, c: Dossier | DateNoEarlier(a, b) && DateNoEarlier(b, c)
      ensures DateNoEarlier(a, c)
    {
      TextLeTransitive(c.draft.date, b.draft.date, a.draft.date);
    }
  }

  /** The matches in the order the paged query reads them. */
  function Ordered(t: seq<Dossier>, q: string): (r: seq<Dossier>)
    ensures IsOrderBy(DateNoEarlier, Matching(t, q), r)
    ensures |r| == |Matching(t, q)|
  {
    DateOrder();
    Sort(DateNoEarlier, Matching(t, q))
  }

  /** What `search_dossiers` returns: one page of rows and the number of matches. */
  datatype Results = Results(rows: seq<Dossier>, total: int)

  /** `offset = (page - 1) * page_size`, then `LIMIT page_size OFFSET offset` on the
      ordered matches, and a COUNT(*) over the same WHERE clause. */
  function SearchDossiers(t: seq<Dossier>, query: string, page: int, pageSize: int): (r: Results)
    ensures r.total == |Matching(t, query)|
    ensures forall d :: d in r.rows ==> d in t && AnyColumnLike(SearchedColumns(d), query)
    ensures SortedBy(DateNoEarlier, r.rows)
    ensures r.rows == Window(Ordered(t, query), pageSize, (page - 1) * pageSize)
  {
    var ordered := Ordered(t, query);
    var rows := Window(ordered, pageSize, (page - 1) * pageSize);
    WindowOfSorted(DateNoEarlier, ordered, pageSize, (page - 1) * pageSize);
    OrderBySameRows(DateNoEarlier, Matching(t, query), ordered);
    Results(rows, |Matching(t, query)|)
  }

  /** The page holds `min(page_size, max(0, total - offset))` rows, read from the
      ordered matches at the offset; a negative offset reads as zero and a negative
      page size as no limit. */
  lemma PageSize(t: seq<Dossier>, query: string, page: int, pageSize: int)
    ensures var r := SearchDossiers(t, query, page, pageSize);
      && (pageSize >= 0 ==> |r.rows| == Min(pageSize, Max(0, r.total - Max(0, (page - 1) * pageSize))))
      && (pageSize < 0 ==> |r.rows| == Max(0, r.total - Max(0, (page - 1) * pageSize)))
      && forall k :: 0 <= k < |r.rows| ==> r.rows[k] == Ordered(t, query)[Max(0, (page - 1) * pageSize) + k]
  {
  }

  /** Every match appears on some page whose offset lies inside the match count. */
  lemma EveryMatchOnSomePage(t: seq<Dossier>, q: string, pageSize: int, d: Dossier)
    requires pageSize > 0
    requires d in t && AnyColumnLike(SearchedColumns(d), q)
    ensures exists page: int :: (1 <= page && (page - 1) * pageSize < |Matching(t, q)|
      && d in SearchDossiers(t, q, page, pageSize).rows)
  {
    var ordered := Ordered(t, q);
    assert IsOrderBy(DateNoEarlier, Matching(t, q), ordered);
    OrderBySameRows(DateNoEarlier, Matching(t, q), ordered);
    assert d in ordered;
    var k :| 0 <= k < |ordered| && ordered[k] == d;
    PageHolding(ordered, k, pageSize);
    var page := k / pageSize + 1;
    assert (page - 1) * pageSize == (k / pageSize) * pageSize;
    assert |ordered| == |Matching(t, q)| by {
      assert |multiset(ordered)| == |multiset(Matching(t, q))|;
    }
    assert (page - 1) * pageSize < |Matching(t, q)|;
    assert d in SearchDossiers(t, q, page, pageSize).rows;
  }

  // Seeding

  /** The sample rows `insert_sample_data` inserts, in order. */
  const Samples: seq<Draft> := [
    Draft("D001", "2023-01-15", "Jean Dupont", "Demande d'information", Some("REF001"), Some("2023-01-10"), Some("2023-01-20"), Some("Dossier traité.")),
    Draft("D002", "2023-02-20", "Marie Curie", "Réclamation produit", Some("REF002"), Some("2023-02-15"), Some("2023-02-25"), Some("En attente de réponse.")),
    Draft("D003", "2023-03-10", "Pierre Dubois", "Suivi de commande", None, Some("2023-03-05"), Some("2023-03-15"), Some("Commande expédiée.")),
    Draft("D004", "2023-04-01", "Sophie Martin", "Demande de devis", Some("REF003"), Some("2023-03-28"), Some("2023-04-05"), Some("Devis envoyé.")),
    Draft("D005", "2023-05-05", "Jean Dupont", "Nouveau projet X", Some("PROJX"), Some("2023-05-01"), Some("2023-05-30"), Some("Réunion planifiée.")),
    Draft("D006", "2023-06-12", "Alice Smith", "Mise à jour coordonnées", None, Some("2023-06-10"), Some("2023-06-15"), Some("Coordonnées mises à jour.")),
    Draft("D007", "2023-07-01", "Bob Johnson", "Incident technique", Some("INC001"), Some("2023-06-25"), Some("2023-07-05"), Some("En cours de résolution.")),
    Draft("D008", "2023-08-18", "Marie Curie", "Question sur facture", Some("FAC005"), Some("2023-08-10"), Some("2023-08-20"), Some("Facture clarifiée.")),
    Draft("D009", "2023-09-22", "Pierre Dubois", "Validation document", Some("DOC010"), Some("2023-09-15"), Some("2023-09-25"), Some("Document validé.")),
    Draft("D010", "2023-10-30", "Sophie Martin", "Feedback produit Y", Some("PRDY"), Some("2023-10-25"), Some("2023-11-05"), Some("Feedback enregistré.")),
    Draft("D011", "2023-11-11", "Alice Smith", "Demande de support", Some("SUP007"), Some("2023-11-08"), Some("2023-11-15"), Some("Ticket ouvert.")),
    Draft("D012", "2023-12-05", "Bob Johnson", "Proposition commerciale", Some("PROP003"), Some("2023-12-01"), Some("2023-12-10"), Some("En attente de réponse.")),
    Draft("D013", "2024-01-20", "Jean Dupont", "Renouvellement contrat", Some("CONTR12"), Some("2024-01-15"), Some("2024-01-25"), Some("Contrat en cours de signature.")),
    Draft("D014", "2024-02-14", "Marie Curie", "Mise à jour données", None, Some("2024-02-10"), Some("2024-02-20"), Some("Données actualisées.")),
    Draft("D015", "2024-03-25", "Pierre Dubois", "Projet Z finalisation", Some("PROJZ"), Some("2024-03-20"), Some("2024-03-30"), Some("Projet terminé."))
  ]

  /** `executemany` of INSERTs: each draft becomes a row with the next id, stamped
      with the same CURRENT_TIMESTAMP `now`. */
  function InsertAll(s: Store, drafts: seq<Draft>, now: string): (r: Store)
    ensures |r.rows| == |s.rows| + |drafts|
    ensures r.rows[..|s.rows|] == s.rows
    ensures forall k :: 0 <= k < |drafts| ==> r.rows[|s.rows| + k] == Dossier(s.lastId + 1 + k, drafts[k], now)
    ensures r.lastId == s.lastId + |drafts|
  {
    var added := seq(|drafts|, k requires 0 <= k < |drafts| => Dossier(s.lastId + 1 + k, drafts[k], now));
    Store(s.rows + added, s.lastId + |drafts|)
  }

  /** `insert_sample_data`: the samples are inserted only into an empty table. */
  function SeedSamples(s: Store, now: string): (r: Store)
    ensures |s.rows| == 0 ==> |r.rows| == |Samples| && forall k :: 0 <= k < |Samples| ==> r.rows[k].draft == Samples[k]
    ensures |s.rows| > 0 ==> r == s
  {
    if |s.rows| == 0 then InsertAll(s, Samples, now) else s
  }

  /** Seeding twice is seeding once, whatever the clock says the second time. */
  lemma SeedTwiceIsSeedOnce(s: Store, now: string, later: string)
    ensures SeedSamples(SeedSamples(s, now), later) == SeedSamples(s, now)
  {
  }

  /** After seeding, the table is never empty. */
  lemma SeededTableIsNotEmpty(s: Store, now: string)
    ensures |SeedSamples(s, now).rows| >= |s.rows| && |SeedSamples(s, now).rows| > 0
  {
  }

  /** The sample numbers D001 to D015 are pairwise distinct. */
  lemma SampleNumbersDistinct()
    ensures forall i, j :: 0 <= i < j < |Samples| ==> Samples[i].number != Samples[j].number
  {
    forall i, j | 0 <= i < j < |Samples| ensures Samples[i].number != Samples[j].number {
      assert Samples[i].number[2..] != Samples[j].number[2..];
    }
  }
}

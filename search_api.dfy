/**
 * `SearchView.post` of search/api_views.py: validates the request, retrieves
 * `5 * topk` candidates from the vector index, loads the active doctors among
 * them, reranks them and returns the first `topk` as result rows.
 */
module SearchApi {
  import opened Wrappers
  import opened Strings
  import opened Decimal
  import opened Records
  import opened VectorIndex
  import opened Ontology
  import opened Rerank

  const LanguagesError: string := "languages must be a list"
  const TopkError: string := "topk is required and must be an integer"
  const MinTopk: int := 1
  const MaxTopk: int := 50
  /** How many more candidates than `topk` are retrieved for the reranker. */
  const OverFetch: int := 5

  /**
   * The request body. A missing key is `None`; the text fields are taken as
   * strings (JSON null is a missing value).
   */
  datatype SearchRequest = SearchRequest(
    symptoms: Option<string>,
    history: Option<string>,
    city: Option<string>,
    pincode: Option<string>,
    languages: Option<Json>,
    topk: Option<Json>)

  /** A validated request: stripped text fields, the language list and the clamped `topk`. */
  datatype Query = Query(symptoms: string, history: string, city: string, pincode: string, languages: seq<Json>, topk: int)

  /** One element of `results`. */
  datatype ResultRow = ResultRow(
    doctorId: int,
    name: string,
    specialties: seq<string>,
    yoe: Option<int>,
    hospital: string,
    city: string,
    pincode: string,
    languages: seq<string>,
    phone: string,
    email: string,
    score: real)

  /** The HTTP response: 400 with an error message, or 200 with the result rows. */
  datatype Response = BadRequest(error: string) | Ok(results: seq<ResultRow>)

  // ---------------------------------------------------------------------------
  // Validation
  // ---------------------------------------------------------------------------

  /** A text field of the body: absent or null is the empty string; surrounding whitespace is stripped. */
  function TextField(v: Option<string>): string {
    Strip(v.GetOr(""))
  }

  /** The language list: absent or falsy is the empty list, any other value must be a list. */
  function LanguagesOf(v: Option<Json>): (r: Result<seq<Json>, string>)
    ensures r.Failure? <==> v.Some? && Truthy(v.value) && !v.value.JList?
    ensures r.Failure? ==> r.error == LanguagesError
    ensures v.Some? && v.value.JList? ==> r == Success(v.value.items)
    ensures v.None? || !Truthy(v.value) ==> r == Success([])
  {
    match v
    case None => Success([])
    case Some(j) =>
      if !Truthy(j) then Success([])
      else if j.JList? then Success(j.items)
      else Failure(LanguagesError)
  }

  /** Python's `int()` on the `topk` value; `None` is the exception the view turns into a 400. */
  function ParseTopk(v: Option<Json>): (r: Option<int>)
    ensures v.None? ==> r.None?
    ensures v == Some(JNull) ==> r.None?
    ensures v.Some? && v.value.JInt? ==> r == Some(v.value.i)
    ensures v.Some? && (v.value.JList? || v.value.JObject?) ==> r.None?
  {
    match v
    case None => None
    case Some(j) =>
      match j
      case JNull => None
      case JBool(b) => Some(if b then 1 else 0)
      case JInt(i) => Some(i)
      case JStr(s) => IntOfString(s)
      case JList(_) => None
      case JObject(_) => None
  }

  /** `topk` clamped into [1, 50]. */
  function Clamp(t: int): (r: int)
    ensures MinTopk <= r <= MaxTopk
    ensures MinTopk <= t <= MaxTopk ==> r == t
    ensures t < MinTopk ==> r == MinTopk
    ensures t > MaxTopk ==> r == MaxTopk
  {
    var low := if t < MaxTopk then t else MaxTopk;
    if low > MinTopk then low else MinTopk
  }

  /** The checks of `post` in their order: the language list first, then `topk`. */
  function Validate(req: SearchRequest): (r: Result<Query, string>)
    ensures LanguagesOf(req.languages).Failure? ==> r == Failure(LanguagesError)
    ensures LanguagesOf(req.languages).Success? && ParseTopk(req.topk).None? ==> r == Failure(TopkError)
    ensures r.Success? <==> LanguagesOf(req.languages).Success? && ParseTopk(req.topk).Some?
    ensures r.Success? ==>
      && MinTopk <= r.value.topk <= MaxTopk
      && r.value.topk == Clamp(ParseTopk(req.topk).value)
      && r.value.languages == LanguagesOf(req.languages).value
      && r.value.symptoms == TextField(req.symptoms) && r.value.history == TextField(req.history)
      && r.value.city == TextField(req.city) && r.value.pincode == TextField(req.pincode)
  {
    match LanguagesOf(req.languages)
    case Failure(e) => Failure(e)
    case Success(langs) =>
      match ParseTopk(req.topk)
      case None => Failure(TopkError)
      case Some(t) =>
        Success(Query(TextField(req.symptoms), TextField(req.history), TextField(req.city), TextField(req.pincode), langs, Clamp(t)))
  }

  // ---------------------------------------------------------------------------
  // The retrieval query
  // ---------------------------------------------------------------------------

  /** The retrieval query: the symptoms and the history under their headings, stripped as a whole. */
  function QueryText(q: Query): string {
    Strip("Symptoms: " + q.symptoms + "\nHistory: " + q.history)
  }

  /**
   * The fields are stripped already, so the outer strip changes the query text
   * only when the history is empty: then the space after "History:" goes.
   */
  lemma QueryTextShape(q: Query)
    requires TextField(Some(q.history)) == q.history
    ensures q.history != "" ==> QueryText(q) == "Symptoms: " + q.symptoms + "\nHistory: " + q.history
    ensures q.history == "" ==> QueryText(q) == "Symptoms: " + q.symptoms + "\nHistory:"
  {
    var s := "Symptoms: " + q.symptoms + "\nHistory: " + q.history;
    assert s[0] == 'S';
    if q.history != "" {
      var _, _ := StripIsSlice(q.history);
      assert s[|s| - 1] == q.history[|q.history| - 1];
      StripOfUnpadded(s);
    } else {
      assert s == "Symptoms: " + q.symptoms + "\nHistory: ";
      assert s[|s| - 2] == ':' && s[|s| - 1] == ' ';
      StripOneTrailing(s);
      assert s[..|s| - 1] == "Symptoms: " + q.symptoms + "\nHistory:";
    }
  }

  // ---------------------------------------------------------------------------
  // Candidates
  // ---------------------------------------------------------------------------

  function HitIds(hits: seq<(int, real)>): (r: seq<int>)
    ensures |r| == |hits| && forall i :: 0 <= i < |hits| ==> r[i] == hits[i].0
  {
    seq(|hits|, i requires 0 <= i < |hits| => hits[i].0)
  }

  /** The similarity of each retrieved id: a later hit for the same id overrides an earlier one. */
  function IdToSim(hits: seq<(int, real)>): (m: map<int, real>)
    ensures m.Keys == set h | h in hits :: h.0
  {
    if hits == [] then map[]
    else
      var last := hits[|hits| - 1];
      var m := IdToSim(hits[..|hits| - 1])[last.0 := last.1];
      assert forall h :: h in hits ==> h == last || h in hits[..|hits| - 1];
      m
  }

  /** The similarity filed under an id is the one of its last hit. */
  lemma {:induction false} IdToSimLastWins(hits: seq<(int, real)>, i: nat)
    requires i < |hits|
    requires forall j :: i < j < |hits| ==> hits[j].0 != hits[i].0
    ensures IdToSim(hits)[hits[i].0] == hits[i].1
  {
    if i < |hits| - 1 {
      IdToSimLastWins(hits[..|hits| - 1], i);
    }
  }

  /** The pks of the active doctors among the retrieved ids. */
  function ActiveAmong(table: DoctorTable, ids: seq<int>): set<int> {
    set pk | pk in ids && pk in table && table[pk].isActive
  }

  /**
   * The queryset as a list: each matching row exactly once, in an order the
   * query leaves unspecified.
   */
  ghost predicate Hydrated(docs: seq<DoctorRecord>, table: DoctorTable, ids: seq<int>) {
    && (forall i, j :: 0 <= i < j < |docs| ==> docs[i].pk != docs[j].pk)
    && (forall d :: d in docs ==> d.pk in table && d == table[d.pk])
    && DocPks(docs) == ActiveAmong(table, ids)
  }

  function DocPks(docs: seq<DoctorRecord>): set<int> {
    set d | d in docs :: d.pk
  }

  /** Some element of `s`; the queryset's row order is not specified. */
  method AnyOf<T>(s: set<T>) returns (x: T)
    requires s != {}
    ensures x in s
  {
    x :| x in s;
  }

  /** Loading the active doctors among the retrieved ids from the record store. */
  method FetchActive(table: DoctorTable, ids: seq<int>) returns (docs: seq<DoctorRecord>)
    requires KeyedByPk(table)
    ensures Hydrated(docs, table, ids)
  {
    var matching := ActiveAmong(table, ids);
    var pending := matching;
    docs := [];
    while pending != {}
      invariant pending <= matching
      invariant forall i, j :: 0 <= i < j < |docs| ==> docs[i].pk != docs[j].pk
      invariant forall d :: d in docs ==> d.pk in table && d == table[d.pk]
      invariant DocPks(docs) == matching - pending
      decreases pending
    {
      var pk := AnyOf(pending);
      var row := table[pk];
      assert row.pk == pk;
      assert forall i :: 0 <= i < |docs| ==> docs[i].pk != pk by {
        assert forall i :: 0 <= i < |docs| ==> docs[i] in docs;
      }
      ghost var before := docs;
      docs := docs + [row];
      assert DocPks(docs) == DocPks(before) + {pk} by {
        assert forall d :: d in docs <==> d in before || d == row;
      }
      pending := pending - {pk};
    }
  }

  // ---------------------------------------------------------------------------
  // Results
  // ---------------------------------------------------------------------------

  /** The result dictionary for one reranked doctor. */
  function RowOf(r: Ranked): ResultRow {
    var d := r.doctor;
    ResultRow(d.pk, d.name, d.specialties, d.yearsOfExperience, d.hospital, d.city, d.pincode, d.languages, d.phone, d.email, r.score)
  }

  /** The first `topk` reranked entries (all of them when there are fewer). */
  function Take(ranked: seq<Ranked>, topk: int): (r: seq<Ranked>)
    requires topk >= 0
    ensures |r| == if |ranked| < topk then |ranked| else topk
    ensures r == ranked[..|r|]
  {
    if |ranked| < topk then ranked else ranked[..topk]
  }

  function Rows(ranked: seq<Ranked>): (rows: seq<ResultRow>)
    ensures |rows| == |ranked| && forall i :: 0 <= i < |ranked| ==> rows[i] == RowOf(ranked[i])
  {
    seq(|ranked|, i requires 0 <= i < |ranked| => RowOf(ranked[i]))
  }

  /** The loop of `post` that turns the reranked entries into result rows. */
  method BuildResults(ranked: seq<Ranked>) returns (results: seq<ResultRow>)
    ensures results == Rows(ranked)
  {
    results := [];
    for i := 0 to |ranked|
      invariant |results| == i
      invariant forall k :: 0 <= k < i ==> results[k] == RowOf(ranked[k])
    {
      var r := ranked[i];
      var d := r.doctor;
      results := results + [ResultRow(d.pk, d.name, d.specialties, d.yearsOfExperience, d.hospital,
        d.city, d.pincode, d.languages, d.phone, d.email, r.score)];
    }
  }

  function PatientOf(q: Query): Patient {
    Patient(q.symptoms, q.history, q.city, q.pincode, q.languages)
  }

  /** The rows `post` answers for the loaded doctors. */
  ghost function Answer(onto: SpecialtyOntology, q: Query, docs: seq<DoctorRecord>, initial: seq<(int, real)>): seq<ResultRow>
    requires q.topk >= 0
  {
    Rows(Take(SortDesc(ScoredList(onto, onto.Inferred(q.symptoms, q.history), PatientOf(q), docs, IdToSim(initial))), q.topk))
  }

  /** The hits `search_knn` answers against the index as loaded. */
  ghost function Initial(f: IndexFile, hits: seq<(int, real)>): seq<(int, real)> {
    if f.entries == [] then [] else DropMissing(hits)
  }

  /**
   * `post`. `hits` is what the FAISS search returns for the query vector: at
   * most `5 * topk` rows whose labels are stored ids or -1.
   */
  method Post(store: FaissStore, onto: SpecialtyOntology, table: DoctorTable, req: SearchRequest, hits: seq<(int, real)>)
    returns (resp: Response, ghost docs: seq<DoctorRecord>)
    requires store.Valid() && KeyedByPk(table)
    requires Validate(req).Success? ==> |hits| <= OverFetch * Validate(req).value.topk
    requires forall h :: h in hits ==> h.0 == Missing || h.0 in Ids(store.Loaded().entries)
    modifies store
    ensures store.Valid()
    ensures Validate(req).Failure? ==> resp == BadRequest(Validate(req).error) && unchanged(store)
    ensures Validate(req).Success? ==>
      var q := Validate(req).value;
      var initial := Initial(old(store.Loaded()), hits);
      && store.index != null && store.index.Image() == old(store.Loaded())
      && store.encodeLog == old(store.encodeLog) + (if old(store.Loaded()).entries == [] then [] else [[QueryText(q)]])
      && (initial == [] ==> resp == Ok([]))
      && (initial != [] ==> Hydrated(docs, table, HitIds(initial)) && resp == Ok(Answer(onto, q, docs, initial)))
  {
    docs := [];
    var v := Validate(req);
    var langs := LanguagesOf(req.languages);
    if langs.Failure? {
      return BadRequest(LanguagesError), docs;
    }
    var t := ParseTopk(req.topk);
    if t.None? {
      return BadRequest(TopkError), docs;
    }
    var q := Query(TextField(req.symptoms), TextField(req.history), TextField(req.city), TextField(req.pincode), langs.value, Clamp(t.value));
    assert q == v.value;
    var queryText := QueryText(q);
    var initial := store.SearchKnn(queryText, q.topk * OverFetch, hits);
    if initial == [] {
      return Ok([]), docs;
    }
    var idToSim := IdToSim(initial);
    var ids := HitIds(initial);
    var active := FetchActive(table, ids);
    docs := active;
    var ranked := Rerank.Rerank(onto, PatientOf(q), active, idToSim);
    var results := BuildResults(Take(ranked, q.topk));
    resp := Ok(results);
  }

  /**
   * What a successful answer holds: at most `topk` rows, by score highest
   * first, each for a distinct active doctor among the retrieved ids.
   */
  lemma {:induction false} AnswerProperties(onto: SpecialtyOntology, q: Query, docs: seq<DoctorRecord>, initial: seq<(int, real)>, table: DoctorTable)
    requires q.topk >= 0 && Hydrated(docs, table, HitIds(initial))
    ensures var rows := Answer(onto, q, docs, initial);
      && |rows| == (if |docs| < q.topk then |docs| else q.topk)
      && (forall i, j :: 0 <= i < j < |rows| ==> rows[i].score >= rows[j].score)
      && (forall r :: r in rows ==> r.doctorId in table && table[r.doctorId].isActive && r.doctorId in HitIds(initial))
      && (forall i, j :: 0 <= i < j < |rows| ==> rows[i].doctorId != rows[j].doctorId)
  {
    var scored := ScoredList(onto, onto.Inferred(q.symptoms, q.history), PatientOf(q), docs, IdToSim(initial));
    var sorted := SortDesc(scored);
    assert DistinctDoctors(scored);
    SortDescDistinct(scored);
    DistinctRows(sorted, q.topk);
    RerankIsStableSort(onto, onto.Inferred(q.symptoms, q.history), PatientOf(q), docs, IdToSim(initial), 0.0);
    RerankEntries(onto, onto.Inferred(q.symptoms, q.history), PatientOf(q), docs, IdToSim(initial));
    TopRows(sorted, q.topk);
    var top := Take(sorted, q.topk);
    RowsOfCandidates(top, docs, table, HitIds(initial));
  }

  /** The first `topk` rows of a list sorted by score are sorted by score and come from the list. */
  lemma TopRows(sorted: seq<Ranked>, topk: int)
    requires topk >= 0 && NonIncreasing(sorted)
    ensures var rows := Rows(Take(sorted, topk));
      && |rows| == (if |sorted| < topk then |sorted| else topk)
      && (forall i, j :: 0 <= i < j < |rows| ==> rows[i].score >= rows[j].score)
    ensures forall r :: r in Take(sorted, topk) ==> r in sorted
  {
    var top := Take(sorted, topk);
    var rows := Rows(top);
    forall i, j | 0 <= i < j < |rows| ensures rows[i].score >= rows[j].score {
      assert rows[i].score == sorted[i].score && rows[j].score == sorted[j].score;
    }
  }

  /** Rows taken from entries with distinct doctor ids name distinct doctors. */
  lemma DistinctRows(sorted: seq<Ranked>, topk: int)
    requires topk >= 0 && DistinctDoctors(sorted)
    ensures var rows := Rows(Take(sorted, topk));
      forall i, j :: 0 <= i < j < |rows| ==> rows[i].doctorId != rows[j].doctorId
  {
    var rows := Rows(Take(sorted, topk));
    forall i, j | 0 <= i < j < |rows| ensures rows[i].doctorId != rows[j].doctorId {
      assert rows[i].doctorId == sorted[i].doctor.pk && rows[j].doctorId == sorted[j].doctor.pk;
    }
  }

  /** Rows built from entries for loaded doctors name active doctors among the retrieved ids. */
  lemma RowsOfCandidates(top: seq<Ranked>, docs: seq<DoctorRecord>, table: DoctorTable, ids: seq<int>)
    requires Hydrated(docs, table, ids)
    requires forall r :: r in top ==> r.doctor in docs
    ensures forall row :: row in Rows(top) ==> row.doctorId in table && table[row.doctorId].isActive && row.doctorId in ids
  {
    var rows := Rows(top);
    forall row | row in rows ensures row.doctorId in table && table[row.doctorId].isActive && row.doctorId in ids {
      var i :| 0 <= i < |rows| && rows[i] == row;
      var d := top[i].doctor;
      assert top[i] in top;
      assert d.pk in DocPks(docs);
      assert d.pk in ActiveAmong(table, ids);
    }
  }

  /** A request without `topk` is refused whatever else it holds, unless the language list is refused first. */
  lemma MissingTopkRefused(req: SearchRequest)
    requires req.topk.None?
    ensures Validate(req).Failure?
    ensures Validate(req).error == if LanguagesOf(req.languages).Failure? then LanguagesError else TopkError
  {
  }
}

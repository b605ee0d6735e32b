# MedVault doctor search: a Dafny model

This project models the doctor-search engine of MedVault and the account
identifiers of its record store. A patient describes symptoms, history,
location and languages. The engine embeds that description, retrieves the
nearest doctor vectors from a persistent vector index, reranks the active
doctors among them with a hierarchy-aware specialty ontology plus proximity,
experience and language scores, and returns the best `topk`. Save and delete
signals keep the index consistent with the doctor table; the index is touched
only once the surrounding transaction commits. The deferred callbacks read the
doctor's pk when they run, and Django's delete clears that pk once the row is
gone: a delete inside a surrounding transaction therefore reaches the commit
without a pk, the removal raises, and the doctor's vector stays in the index. The model also covers how
doctor and patient ids (`DOC-001`, `PAT-001`, ...) are generated, and how a
medical record's public key is built from an Aadhaar number and a date of
birth.

Modules, one per source file or shared concern:

- `VectorIndex` (vector_index.dfy): search/faiss_store.py. A `FaissStore` class holds the process-wide singleton, the canonical and temporary index files and the embedding model's call log. An `Index` class stands for the FAISS `IndexIDMap2`.
- `Ontology` (ontology.dfy): search/ontology.py. The tables built by `__init__`, `infer_from_text` and `score`.
- `Rerank` (rerank.dfy): search/rerank.py.
- `SearchApi` (search_api.dfy): `SearchView.post` of search/api_views.py.
- `Signals` (signals.dfy): search/signals.py. It includes a `Connection` with its `on_commit` queue.
- `AccountIds` (account_ids.dfy): `save` and `__str__` of `Doctor` and `Patient` in myapp/models.py.
- `PublicKey` (public_key.dfy): records/utils.py.
- Shared helpers:
  - `Strings`: `strip`, `lower` and substring.
  - `Decimal`: Python's `int()` and the `d` format.
  - `Orders`: sorting a set.
  - `Records`: JSON values and doctor rows.
  - `Embedding`: the embedding model as a value.
  - `Wrappers`: `Option` and `Result`.

The record store is a `map` from primary key to doctor row. The embedding
model is a function value (`Embedder`) of fixed dimension. FAISS's
nearest-neighbour answer is a parameter `hits` of the search, limited to at
most `topk` slots, each of them unfilled (`-1`) or naming a stored id.

## Model

| member | source | states |
|---|---|---|
| VectorIndex.Index.constructor | search/faiss_store.py:44-50 | a new index has the requested dimension and no vectors |
| VectorIndex.Index.RemoveIds | search/faiss_store.py:183-184 | every vector filed under the id is dropped, the rest keep their order |
| VectorIndex.Index.AddWithIds | search/faiss_store.py:146 | the i-th vector is appended under the i-th id |
| VectorIndex.FaissStore.constructor | search/faiss_store.py:27 | at process start there is no singleton; the files are whatever is on disk |
| VectorIndex.FaissStore.Loaded | search/faiss_store.py:80-97 | under the store invariant, the index `load_index` would return has the model's dimension and well-formed vectors |
| VectorIndex.FaissStore.ReadIndex | search/faiss_store.py:53-56 | no file gives no index; otherwise a fresh index equal to the file's content |
| VectorIndex.FaissStore.WriteTmp | search/faiss_store.py:63 | the temporary file holds the index; the canonical file is untouched |
| VectorIndex.FaissStore.Replace | search/faiss_store.py:64 | the canonical file becomes the temporary file's content in one step; the temporary file is gone |
| VectorIndex.FaissStore.WriteIndexAtomic | search/faiss_store.py:59-64 | afterwards the canonical file holds exactly the index and no temporary file remains |
| VectorIndex.FaissStore.EnsureDimCompat | search/faiss_store.py:67-77 | a matching dimension keeps the index and the files; a mismatch gives a fresh empty index of the model's dimension, which is persisted |
| VectorIndex.FaissStore.LoadIndex | search/faiss_store.py:80-97 | a set singleton is returned unchanged; otherwise the file's index when its dimension fits, or a fresh empty one written first; the store invariant (singleton equals canonical file) is kept |
| VectorIndex.FaissStore.Encode | search/faiss_store.py:134 | one vector per text, and the batch is appended to the model's call log |
| VectorIndex.IterActiveDoctors | search/faiss_store.py:103-116 | the stream is exactly the active doctors' pk and text (empty when NULL), in ascending pk order |
| VectorIndex.ActiveStreamIsOrderedAndComplete | search/faiss_store.py:109-116 | the stream is strictly ascending by pk, lists only active doctors with their text, and lists every active doctor |
| VectorIndex.FaissStore.StreamInBatches | search/faiss_store.py:130-135 | all pks are collected in order; every full batch of `batchSize` texts is encoded in order; fewer than `batchSize` texts remain pending |
| VectorIndex.FaissStore.RebuildIndex | search/faiss_store.py:122-153 | the new singleton holds exactly the encoding of the active stream's texts under their pks; the model saw every text once, in batches of `batchSize` with a shorter last one; the file is replaced |
| VectorIndex.RebuildOneVectorPerActiveDoctor | search/faiss_store.py:122-146 | after a rebuild every active doctor has exactly one vector, the encoding of its text, and there are no other ids |
| VectorIndex.BuiltWellFormed | search/faiss_store.py:140-146 | every vector of a rebuilt index has the model's dimension |
| VectorIndex.FaissStore.SearchKnn | search/faiss_store.py:159-173 | an empty index gives no hits and no model call; otherwise the query is encoded once and the hits are returned without unfilled slots, at most `topk` of them, all stored ids |
| VectorIndex.DropMissing | search/faiss_store.py:170-172 | the result keeps exactly the hits whose id is not -1 |
| VectorIndex.DropMissingKeepsOrder | search/faiss_store.py:170-172 | the kept hits are the hits at increasing positions, and these positions are exactly those whose id is not -1: order and multiplicity are kept |
| VectorIndex.FaissStore.UpsertDoctorVector | search/faiss_store.py:176-190 | the index becomes the old one without the pk's vectors plus the new vector of the text; the model is called once; the file is replaced |
| VectorIndex.FaissStore.RemoveDoctorVector | search/faiss_store.py:193-200 | the index becomes the old one without the pk's vectors (no error if absent); no model call; the file is replaced |
| VectorIndex.UpsertLeavesOne | search/faiss_store.py:176-188 | after an upsert the pk has exactly the new vector and every other id keeps its vectors |
| VectorIndex.UpsertTwice | search/faiss_store.py:176-188 | a second upsert of the same pk replaces the first |
| VectorIndex.RemoveTwiceIsRemoveOnce | search/faiss_store.py:193-199 | removal is idempotent and leaves no vector for the pk |
| VectorIndex.WithoutKeepsOthers | search/faiss_store.py:198-199 | removing one pk leaves every other id's vectors as they were |
| VectorIndex.UniqueIdsPreserved | search/faiss_store.py:176-200 | upsert and remove keep at most one vector per id |
| VectorIndex.UpdatesKeepDim | search/faiss_store.py:184-188 | upsert and remove keep every vector at the index's dimension |
| Embedding.Embedder.Encode | search/embedding.py:40-59 | one vector per text, in order, each the model's vector of the text with blanks replaced by a space |
| Ontology.OpenParent | search/ontology.py:23-25 | the parent always has a child set afterwards |
| Ontology.AddChildKeeps | search/ontology.py:26-30 | adding a child keeps the tables consistent, keeps all earlier entries and adds exactly the stripped child as a label |
| Ontology.AddChildrenKeeps | search/ontology.py:26-30 | the child loop keeps the tables consistent and keeps all earlier entries |
| Ontology.AddChildrenLabels | search/ontology.py:26-28 | the child loop adds exactly the stripped children as labels |
| Ontology.AddChildrenRecords | search/ontology.py:26-30 | every listed child ends up in its parent's child set with a recorded parent |
| Ontology.AddSpecialtyKeeps | search/ontology.py:22-30 | one specialty entry keeps the tables consistent and records its parent and all its children |
| Ontology.BuildTablesOk | search/ontology.py:16-30 | after construction the tables are consistent and the labels are exactly the stripped parents and children |
| Ontology.BuildTablesGrows | search/ontology.py:22-30 | a later specialty entry never loses what an earlier one recorded |
| Ontology.EverySpecialtyRecorded | search/ontology.py:22-30 | every configured parent is a label with a child set; every configured child is a label in that set with a recorded parent |
| Ontology.SynonymKeyNormal | search/ontology.py:35 | a synonym key is lowercase and stripped |
| Ontology.BuildSynonymsOk | search/ontology.py:33-35 | the synonym table's keys are lowercase and stripped and its targets are stripped |
| Ontology.BuildSynonymsKeys | search/ontology.py:33-35 | the keys are exactly the normalised tokens of the configuration |
| Ontology.BuildSynonymsKeysSound | search/ontology.py:34-35 | every key comes from some configured token |
| Ontology.BuildSynonymsKeysComplete | search/ontology.py:34-35 | every configured token has an entry under its key |
| Ontology.BuildSynonymsLastWins | search/ontology.py:34-35 | a key maps to the targets of the last token with that key |
| Ontology.FillTables | search/ontology.py:22-30 | the `specialties` loop builds exactly the tables of the fold over the configuration |
| Ontology.FillSynonyms | search/ontology.py:33-35 | the `synonyms` loop builds exactly the synonym table of the fold |
| Ontology.IndexLabels | search/ontology.py:38 | every label's lowercase form is a key, and each key maps to a label with that lowercase form |
| Ontology.SpecialtyOntology.constructor | search/ontology.py:16-38 | the object's tables are those of the configuration and are consistent |
| Ontology.SpecialtyOntology.Inferred | search/ontology.py:46-64 | the inferred labels are strictly ascending, without duplicates, and exactly the label and synonym hits |
| Ontology.SpecialtyOntology.InferFromText | search/ontology.py:46-64 | the two matching loops and the sort give exactly the inferred labels |
| Ontology.SpecialtyOntology.InferredWithinVocabulary | search/ontology.py:53-61 | only labels and synonym targets are ever inferred |
| Ontology.SpecialtyOntology.LabelMatchInferred | search/ontology.py:54-56 | a label whose lowercase form occurs in the lowercased text is inferred (as that label when its lowercase form is unique) |
| Ontology.SpecialtyOntology.SynonymMatchInferred | search/ontology.py:59-61 | a synonym token occurring in the text contributes all its targets |
| Ontology.SpecialtyOntology.AnyShared | search/ontology.py:77-81 | true exactly when the two label lists share a label |
| Ontology.SpecialtyOntology.AnyRelated | search/ontology.py:85-88 | true exactly when some pair is parent and child in either direction |
| Ontology.SpecialtyOntology.AnySibling | search/ontology.py:91-97 | true exactly when some pair has the same non-empty parent |
| Ontology.SpecialtyOntology.Score | search/ontology.py:66-99 | the score is one of 0.0, 0.5, 0.7, 1.0, and 0.0 when either list is empty |
| Ontology.SpecialtyOntology.ScorePrecedence | search/ontology.py:74-99 | 1.0 iff a shared label; 0.7 iff none shared and a parent/child pair; 0.5 iff neither and a sibling pair; 0.0 iff none of these |
| Ontology.SpecialtyOntology.ScoreSymmetric | search/ontology.py:66-99 | the score does not depend on which side is the patient |
| Ontology.SpecialtyOntology.NoParentNoSibling | search/ontology.py:91-94 | patient labels without a parent never score 0.5 |
| Orders.SortSet | search/ontology.py:64 | sorting a set yields its unique ascending enumeration |
| Orders.StrLtIsStrictTotal | search/ontology.py:64 | string comparison by code point is a strict total order |
| Rerank.Min | search/rerank.py:15 | the minimum is an element and a lower bound |
| Rerank.Max | search/rerank.py:15 | the maximum is an element and an upper bound |
| Rerank.NormYoe | search/rerank.py:12-19 | the normalisation has exactly the experience values as keys |
| Rerank.NormYoeDegenerate | search/rerank.py:13-17 | no values give an empty map; all-equal values map to 0.0 |
| Rerank.NormYoeInUnit | search/rerank.py:12-19 | every normalised value lies in [0, 1] |
| Rerank.NormYoeMonotone | search/rerank.py:19 | more experience never normalises lower |
| Rerank.NormYoeEnds | search/rerank.py:15-19 | when the values differ, the minimum maps to 0.0 and the maximum to 1.0 |
| Rerank.ProximityScore | search/rerank.py:21-27 | 1.0 iff equal non-empty pincodes; 0.6 iff not that and equal non-empty cities after strip and lowercase; else 0.0 |
| Rerank.LanguageScore | search/rerank.py:29-33 | 1.0 iff the patient languages are all hashable and one of them is a doctor language; else 0.0 |
| Rerank.CompositeBounds | search/rerank.py:7-10 | the weights sum to one: sub-scores in [0, 1] give a composite in [0, 1] |
| Rerank.ScoreOfBounds | search/rerank.py:51-58 | every doctor's composite score lies in [0, 1] |
| Rerank.YoeValues | search/rerank.py:46-47 | one experience value per doctor, NULL counted as 0 |
| Rerank.ScoredList | search/rerank.py:50-63 | one entry per doctor, in input order, scored against the candidate set's normalisation |
| Rerank.InsertDescSorted | search/rerank.py:65 | inserting into a descending list keeps it descending |
| Rerank.SortDescSorted | search/rerank.py:65 | the sorted list is non-increasing by score |
| Rerank.SortDescPermutes | search/rerank.py:65 | the sorted list is a permutation of the input |
| Rerank.SortDescStable | search/rerank.py:65 | entries with equal scores keep their input order |
| Rerank.ScoreCandidates | search/rerank.py:50-63 | the scoring loop yields exactly the scored list |
| Rerank.Rerank | search/rerank.py:35-66 | the result is the stable descending sort of the scored candidates against the inferred labels |
| Rerank.RerankIsStableSort | search/rerank.py:65-66 | the result has every candidate once, highest score first, ties in input order |
| Rerank.RerankEntries | search/rerank.py:50-63 | every entry is a candidate with a score in [0, 1] and its id's similarity (0.0 if none) |
| Rerank.RerankIgnoresSimilarity | search/rerank.py:35-65 | the retrieval similarities affect neither the scores nor the sorted order: both sorts have the same doctor and score at every position |
| Rerank.SortDescIgnoresSim | search/rerank.py:65 | two lists that agree on doctors and scores position by position sort to lists that agree the same way |
| Rerank.InsertDescIgnoresSim | search/rerank.py:65 | inserting corresponding entries into corresponding lists keeps them in correspondence |
| Rerank.SortDescDistinct | search/rerank.py:65 | sorting a list with one entry per doctor id keeps one entry per doctor id |
| Rerank.InsertDescDistinct | search/rerank.py:65 | inserting an entry for a new doctor id keeps the ids distinct |
| SearchApi.LanguagesOf | search/api_views.py:38-40 | refused exactly when the value is present, truthy and not a list; absent or falsy is the empty list |
| SearchApi.ParseTopk | search/api_views.py:42-45 | a missing or null value, a list or an object is refused; an integer is taken as is |
| SearchApi.Clamp | search/api_views.py:48 | the result lies in [1, 50], equals the input inside that range and the nearer bound outside |
| SearchApi.Validate | search/api_views.py:34-48 | the language check comes first, then `topk`; success exactly when both pass, with stripped fields and the clamped `topk` |
| SearchApi.MissingTopkRefused | search/api_views.py:42-45 | a request without `topk` is always refused, with the language error when that check fails first |
| SearchApi.QueryTextShape | search/api_views.py:51 | with a stripped history the query is the two headed fields; an empty history loses only the trailing space |
| SearchApi.HitIds | search/api_views.py:59 | the retrieved ids in hit order |
| SearchApi.IdToSim | search/api_views.py:58 | the keys are exactly the retrieved ids |
| SearchApi.IdToSimLastWins | search/api_views.py:58 | an id maps to the similarity of its last hit |
| SearchApi.FetchActive | search/api_views.py:62 | each active doctor among the retrieved ids is loaded exactly once, as stored, and no other |
| SearchApi.Take | search/api_views.py:72 | the first `min(n, topk)` entries |
| SearchApi.Rows | search/api_views.py:74-89 | one result row per reranked entry, in order |
| SearchApi.BuildResults | search/api_views.py:74-89 | the result loop yields exactly the rows of the reranked entries |
| SearchApi.Post | search/api_views.py:31-91 | an invalid request gives its 400 error and touches nothing; otherwise the query is searched once; no hits give an empty 200; else the 200 holds the first `topk` rows of the reranked active candidates |
| SearchApi.AnswerProperties | search/api_views.py:62-89 | a successful answer has `min(candidates, topk)` rows, scores non-increasing, each row an active doctor among the retrieved ids, no doctor twice |
| SearchApi.TopRows | search/api_views.py:72-89 | the first `topk` rows of a score-sorted list have `min(n, topk)` elements, are sorted by score and come from the list |
| SearchApi.DistinctRows | search/api_views.py:74-89 | rows taken from entries with distinct doctor ids name distinct doctors |
| SearchApi.RowsOfCandidates | search/api_views.py:62-89 | rows built from loaded candidates name active doctors among the retrieved ids |
| Signals.DoctorInstance.constructor | search/signals.py:8 | the instance carries the given pk (possibly none) and attributes |
| Signals.DoctorInstance.ClearPk | search/signals.py:21-22 | after the row is deleted the instance has no pk; its other attributes are unchanged |
| Signals.SaveAction | search/signals.py:13-17 | without a pk the call raises; otherwise upsert with the text exactly when the instance is not inactive and has a non-empty text block, and remove otherwise |
| Signals.ActionNow | search/signals.py:13-22 | a callback reads the instance when it runs: without a pk it raises; a delete removes the pk; a save upserts the text block exactly when the instance is not inactive and has a non-empty text block, and removes otherwise |
| Signals.ActionsNow | search/signals.py:13-22 | the queued callbacks' actions, in queue order |
| Signals.FirstRaise | search/signals.py:13-22 | the position of the first raising callback: none before it, and it raises when it is inside the queue |
| Signals.CompletedSound | search/signals.py:19 | the callbacks run before the exception are a prefix of the queue with none that raises, and some are dropped exactly when one raises |
| Signals.RunStopped | search/signals.py:19 | a run stopped by the raising callback at `i` has run exactly the completed callbacks |
| Signals.RunFinished | search/signals.py:19 | a run through a queue without a raising callback has run them all |
| Signals.ApplyEffect | search/signals.py:13-22 | after an action its doctor has exactly the new vector (upsert) or none (remove), other doctors are untouched, and a raising callback changes nothing |
| Signals.ApplyIdempotent | search/signals.py:13-17 | running a callback twice equals running it once |
| Signals.ApplyAllKeepsUniqueIds | search/signals.py:8-22 | any sequence of callbacks keeps at most one vector per doctor |
| Signals.RunAction | search/faiss_store.py:176-200 | one callback turns the loaded index into its action's result, calls the model only for an upsert, and raises exactly when it has no pk, after loading the index and before changing it |
| Signals.RunAll | search/signals.py:19 | the queued callbacks run in order against the index up to the first that raises; the rest are dropped |
| Signals.Connection.constructor | search/signals.py:19 | a new connection is in autocommit mode with nothing queued |
| Signals.Connection.Begin | search/signals.py:19 | entering an atomic block queues nothing |
| Signals.Connection.OnCommit | search/signals.py:19 | inside an atomic block the callback is queued and the index untouched; outside it runs at once and raises exactly when its action does |
| Signals.Connection.Commit | search/signals.py:19 | the commit runs the queued callbacks in order, each reading its instance at that moment, up to the first that raises, and empties the queue |
| Signals.Connection.Rollback | search/signals.py:19 | a rollback drops the queued callbacks without touching the index |
| Signals.OnDoctorSaved | search/signals.py:8-19 | a save queues the upsert-or-remove decision, or applies it at once outside a transaction, raising exactly when the instance has no pk |
| Signals.OnDoctorDeleted | search/signals.py:21-22 | a delete queues a removal that reads the pk when it runs; outside a transaction it removes the pk at once, or raises without a pk |
| Signals.DeleteDoctor | search/signals.py:21-22 | an instance without a pk is refused; otherwise the pk is cleared, and the vector is removed in autocommit mode, while inside a transaction the queued removal will find no pk |
| Signals.DeleteAndCommit | search/signals.py:21-22 | a delete in autocommit mode commits its own block and removes the doctor's vectors |
| Signals.DeleteInTransaction | search/signals.py:21-22 | deleting a doctor inside a transaction and committing raises and leaves the index as it was |
| AccountIds.SecondField | myapp/models.py:38 | fails exactly when there is no `-`; otherwise it is the text after the first `-`, up to the next `-` or the end |
| AccountIds.FirstIds | myapp/models.py:33-35 | the first doctor gets `DOC-001` and the first patient `PAT-001` |
| AccountIds.FormatShape | myapp/models.py:41 | an id is the prefix and at least three digits; numbers from 1000 up are not truncated |
| AccountIds.FormatRoundTrip | myapp/models.py:38-41 | the second field of a generated id reads back as its number |
| AccountIds.Successor | myapp/models.py:38-41 | after the id numbered n comes the id numbered n + 1 |
| AccountIds.SequentialIds | myapp/models.py:30-41 | rows saved one after the other are numbered 1, 2, 3, ... |
| AccountIds.NextIdShape | myapp/models.py:30-41 | every assigned id is the prefix and a zero-padded number of at least 1 |
| AccountIds.NextIdErrors | myapp/models.py:38 | a last id without `-`, or whose field is not a number, makes the save fail; these are the only failures |
| AccountIds.PrefixesSplitOnce | myapp/models.py:35-41 | both prefixes end in their only `-` |
| AccountIds.NamesOf | myapp/models.py:21-23 | reading names back: absent exactly when there is no space; otherwise a first name without a space, a space, and the last name make up the text |
| AccountIds.NamesRoundTrip | myapp/models.py:21-23 | the shown first and last names read back as the user when the first name has no space |
| AccountIds.NamesAmbiguous | myapp/models.py:21-23 | with a space in the first name two different users show the same names |
| AccountIds.Doctor.constructor | myapp/models.py:10-19 | a doctor carries the given id and user |
| AccountIds.Doctor.Str | myapp/models.py:21-23 | the text starts with "Dr. "; a first name without a space, and the last name, are read back from the rest |
| AccountIds.Doctor.Save | myapp/models.py:25-44 | a set id is kept; a blank id gets the successor of the last doctor's id; a failure leaves the id blank |
| AccountIds.Patient.constructor | myapp/models.py:47-58 | a patient carries the given id and user |
| AccountIds.Patient.Str | myapp/models.py:60-62 | the text starts with "Patient: "; a first name without a space, and the last name, are read back from the rest |
| AccountIds.Patient.Save | myapp/models.py:64-83 | a set id is kept; a blank id gets the successor of the last patient's id; a failure leaves the id blank |
| Decimal.IntOfString | myapp/models.py:38 | a stripped run of digits reads as its decimal value |
| Decimal.IntOfStringOfDigits | myapp/models.py:38 | `int()` reads the digits of n, with an optional sign, back as n or -n |
| Decimal.IntOfStringNegative | search/api_views.py:43 | a negative result needs a minus sign in the text |
| Decimal.ZeroPaddedRoundTrip | myapp/models.py:41 | a zero-padded number reads back as itself |
| Decimal.DigitsLength | myapp/models.py:41 | how many digits a number has, by range |
| PublicKey.DobStringShape | records/utils.py:3 | a valid date with a four-digit year is eight digits: day, month, year |
| PublicKey.DobRoundTrip | records/utils.py:3 | the date is read back from those eight digits |
| PublicKey.KeyShape | records/utils.py:1-4 | the key is the Aadhaar number followed by the eight date digits |
| PublicKey.KeyInjective | records/utils.py:1-4 | for four-digit years, equal keys mean equal Aadhaar numbers and equal dates |
| PublicKey.ShortYearCollides | records/utils.py:3-4 | with a year below 1000 two different inputs give the same key |
| Strings.StripIsSlice | search/api_views.py:34-37 | `strip` keeps a contiguous piece without outer whitespace and drops only whitespace |
| Strings.StripIdempotent | search/ontology.py:35 | stripping twice equals stripping once |
| Strings.LowerHasNoUpper | search/ontology.py:35 | a lowercased string has no upper-case letter |

## Left out

- FAISS's nearest-neighbour maths (inner products, ranking by similarity) is not modelled. The search takes FAISS's answer as the parameter `hits`, limited to at most `topk` slots that name stored ids or -1.
- The embedding model is a function value: numerical normalisation, float32 conversion, model loading and its fallback are not modelled. `get_dim()` is the embedder's `dim`.
- Similarities and scores are mathematical reals. The `round(score, 4)` of a result row is not modelled.
- Parsing the YAML configuration is not modelled; the constructor takes the parsed `specialties` and `synonyms`. `get_ontology()` and its settings lookup are not modelled; the ontology object is a parameter of the reranker.
- `str.lower()` is modelled on ASCII letters only; other characters are left unchanged.
- `int()` on strings is modelled without underscores or non-ASCII digits. JSON floats, and `str()` of a non-string text field, are not modelled; text fields are strings or missing.
- A doctor's `languages` is a list of strings; an unhashable value there (which the source would turn into 0.0) is not modelled. Patient languages may be any JSON value, and lists or objects among them give 0.0.
- The doctor row has every field; the `getattr` defaults for missing model attributes are not modelled.
- Concurrency across processes, crashes between the two file steps, corrupt index files and database errors are not modelled. The save methods end before `super().save()`, and persisting the row is not modelled.
- Django's `post_save`/`post_delete` registration (`bind_doctor_signals`) is not modelled. The handlers are called directly. Only the outermost atomic block is modelled; nested savepoints are not.
- Django's `Model.delete()` is modelled for one doctor without cascades (`DeleteDoctor`): the refusal of an instance without a pk, the handler inside the delete's own atomic block, and the clearing of the pk after it. The row deletion itself is not modelled.
- Django runs `on_commit` callbacks without catching their exceptions: the first that raises ends the commit's run and the rest are dropped. The exception is an out-parameter `raised`; a rollback it causes in a caller is modelled only in `DeleteInTransaction`.
- `_DoctorModel()` lookup by settings label is not modelled; the doctor table is a parameter.
- SearchApi.FetchActive: the queryset's row order is unspecified, so the loaded list is specified up to order (each matching row exactly once). The reranked order then depends only on scores, with ties in that loaded order.
- SearchApi.Post: the index's answer `hits` must already fit the over-fetch bound of `5 * topk`; what FAISS returns beyond that is not modelled.
- VectorIndex.FaissStore.StreamInBatches: requires `batchSize >= 1`. With the source's default of 512 this always holds; a non-positive batch size is not modelled.
- Ontology.SpecialtyOntology.constructor: a synonym whose label list is null in the configuration, on which the source raises `TypeError` while building the tables, cannot be represented: every synonym carries a list. A string in place of that list, which the source would take character by character, is not modelled either.
- Ontology.IndexLabels: when two labels share a lowercase form, the label kept is the last one visited in an order Python does not specify. The model keeps one of them and says no more.
- Orders.SortSet: Python's `sorted()` is modelled as an unordered selection of the least element. The result is the same unique ascending sequence; the algorithm is not modelled.
- Rerank.SortDesc: the builtin stable sort of `rerank` is modelled as a stable insertion sort on values. The result is the same, as the stability lemmas show.
- PublicKey.DobString: `%Y` for years below 1000 is written without padding, as the C library on Linux does; platforms that pad to four digits are not modelled.
- AccountIds.NextId: the "last" row is the last one in primary-key order, and the pk is the linked user's id. When users are created out of order, the next id can repeat an existing one and the save then fails on the unique constraint. The uniqueness check of the database is not modelled.

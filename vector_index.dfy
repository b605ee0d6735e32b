/**
 * The persistent vector index of search/faiss_store.py: a process-wide index
 * object mapping doctor primary keys to embedding vectors, mirrored to an index
 * file that is always replaced atomically.
 */
module VectorIndex {
  import opened Wrappers
  import opened Orders
  import opened Records
  import opened Embedding

  /** One stored vector and the doctor id it is filed under. */
  datatype Entry = Entry(id: int, vec: Vec)

  /** The content of an index file: what `faiss.write_index` stores and `faiss.read_index` restores. */
  datatype IndexFile = IndexFile(dim: nat, entries: seq<Entry>)

  /** The id FAISS reports in a result slot it could not fill. */
  const Missing: int := -1

  // ---------------------------------------------------------------------------
  // Entry sequences and the operations FAISS performs on them
  // ---------------------------------------------------------------------------

  /** The entries filed under `id`, in stored order. */
  function Only(es: seq<Entry>, id: int): seq<Entry> {
    if es == [] then [] else (if es[0].id == id then [es[0]] else []) + Only(es[1..], id)
  }

  /** `remove_ids` with a one-id selector: every entry filed under `id` is dropped, the rest keep their order. */
  function Without(es: seq<Entry>, id: int): seq<Entry> {
    if es == [] then [] else (if es[0].id == id then [] else [es[0]]) + Without(es[1..], id)
  }

  /** The entries `add_with_ids(vs, ids)` appends: the i-th vector under the i-th id. */
  function Zip(ids: seq<int>, vs: seq<Vec>): (r: seq<Entry>)
    requires |ids| == |vs|
    ensures |r| == |ids| && forall i :: 0 <= i < |ids| ==> r[i] == Entry(ids[i], vs[i])
  {
    seq(|ids|, i requires 0 <= i < |ids| => Entry(ids[i], vs[i]))
  }

  function Ids(es: seq<Entry>): set<int> {
    set e | e in es :: e.id
  }

  /** At most one live vector per id. */
  ghost predicate UniqueIds(es: seq<Entry>) {
    forall id :: |Only(es, id)| <= 1
  }

  ghost predicate VecsHaveDim(es: seq<Entry>, dim: nat) {
    forall e :: e in es ==> |e.vec| == dim
  }

  ghost predicate WellFormed(f: IndexFile) {
    VecsHaveDim(f.entries, f.dim)
  }

  /** The entries after `upsert_doctor_vector`: the old vectors of `id` removed, the new one appended. */
  function Upserted(es: seq<Entry>, id: int, v: Vec): seq<Entry> {
    Without(es, id) + [Entry(id, v)]
  }

  /** `Only` keeps exactly the entries filed under the id. */
  lemma {:induction false} OnlyMembers(es: seq<Entry>, id: int)
    ensures forall e :: e in Only(es, id) <==> e in es && e.id == id
  {
    if es != [] {
      OnlyMembers(es[1..], id);
      assert es == [es[0]] + es[1..];
    }
  }

  /** `Without` keeps exactly the entries filed under other ids. */
  lemma {:induction false} WithoutMembers(es: seq<Entry>, id: int)
    ensures forall e :: e in Without(es, id) <==> e in es && e.id != id
  {
    if es != [] {
      WithoutMembers(es[1..], id);
      assert es == [es[0]] + es[1..];
    }
  }

  lemma {:induction false} OnlyConcat(a: seq<Entry>, b: seq<Entry>, id: int)
    ensures Only(a + b, id) == Only(a, id) + Only(b, id)
  {
    if a != [] {
      assert (a + b)[1..] == a[1..] + b;
      OnlyConcat(a[1..], b, id);
    } else {
      assert a + b == b;
    }
  }

  lemma {:induction false} WithoutConcat(a: seq<Entry>, b: seq<Entry>, id: int)
    ensures Without(a + b, id) == Without(a, id) + Without(b, id)
  {
    if a != [] {
      var head := if a[0].id == id then [] else [a[0]];
      assert (a + b)[0] == a[0];
      assert (a + b)[1..] == a[1..] + b;
      WithoutConcat(a[1..], b, id);
      calc {
        Without(a + b, id);
        head + Without(a[1..] + b, id);
        head + (Without(a[1..], id) + Without(b, id));
        (head + Without(a[1..], id)) + Without(b, id);
        Without(a, id) + Without(b, id);
      }
    } else {
      assert a + b == b;
    }
  }

  /** Removing `id` leaves the entries of every other id exactly as they were. */
  lemma {:induction false} WithoutKeepsOthers(es: seq<Entry>, id: int, other: int)
    requires other != id
    ensures Only(Without(es, id), other) == Only(es, other)
  {
    if es != [] {
      assert Without(es, id) == (if es[0].id == id then [] else [es[0]]) + Without(es[1..], id);
      OnlyConcat(if es[0].id == id then [] else [es[0]], Without(es[1..], id), other);
      WithoutKeepsOthers(es[1..], id, other);
    }
  }

  /** Removing an id that is not stored changes nothing. */
  lemma {:induction false} WithoutAbsent(es: seq<Entry>, id: int)
    requires id !in Ids(es)
    ensures Without(es, id) == es
  {
    if es != [] {
      assert es[0] in es;
      assert Ids(es[1..]) <= Ids(es) by {
        forall x | x in Ids(es[1..]) ensures x in Ids(es) {
          var e :| e in es[1..] && e.id == x;
          assert e in es;
        }
      }
      WithoutAbsent(es[1..], id);
      assert es == [es[0]] + es[1..];
    }
  }

  /** Removing twice is removing once. */
  lemma RemoveTwiceIsRemoveOnce(es: seq<Entry>, id: int)
    ensures Without(Without(es, id), id) == Without(es, id)
    ensures Only(Without(es, id), id) == []
  {
    WithoutMembers(es, id);
    WithoutAbsent(Without(es, id), id);
    OnlyAbsent(Without(es, id), id);
  }

  /** After an upsert, `id` has exactly the one new vector, and no other id is touched. */
  lemma UpsertLeavesOne(es: seq<Entry>, id: int, v: Vec, other: int)
    ensures Only(Upserted(es, id, v), id) == [Entry(id, v)]
    ensures other != id ==> Only(Upserted(es, id, v), other) == Only(es, other)
    ensures Without(Upserted(es, id, v), id) == Without(es, id)
  {
    OnlyConcat(Without(es, id), [Entry(id, v)], id);
    RemoveTwiceIsRemoveOnce(es, id);
    assert Only([Entry(id, v)], id) == [Entry(id, v)];
    OnlyConcat(Without(es, id), [Entry(id, v)], other);
    if other != id {
      WithoutKeepsOthers(es, id, other);
      assert Only([Entry(id, v)], other) == [];
    }
    WithoutConcat(Without(es, id), [Entry(id, v)], id);
    assert Without([Entry(id, v)], id) == [];
  }

  /** A second upsert of the same id replaces the first: never two vectors for one id. */
  lemma UpsertTwice(es: seq<Entry>, id: int, v1: Vec, v2: Vec)
    ensures Upserted(Upserted(es, id, v1), id, v2) == Upserted(es, id, v2)
  {
    UpsertLeavesOne(es, id, v1, id);
  }

  /** Upsert and remove keep the at-most-one-vector-per-id invariant. */
  lemma UniqueIdsPreserved(es: seq<Entry>, id: int, v: Vec)
    requires UniqueIds(es)
    ensures UniqueIds(Without(es, id))
    ensures UniqueIds(Upserted(es, id, v))
  {
    forall other ensures |Only(Without(es, id), other)| <= 1 {
      if other == id {
        RemoveTwiceIsRemoveOnce(es, id);
      } else {
        WithoutKeepsOthers(es, id, other);
      }
    }
    forall other ensures |Only(Upserted(es, id, v), other)| <= 1 {
      UpsertLeavesOne(es, id, v, other);
    }
  }

  // ---------------------------------------------------------------------------
  // The active-doctor stream and the index a rebuild produces from it
  // ---------------------------------------------------------------------------

  function ActivePks(table: DoctorTable): set<int> {
    set pk | pk in table && table[pk].isActive
  }

  /** `text or ""`: a NULL text block streams as the empty text. */
  function TextOf(r: DoctorRecord): string {
    r.textBlock.GetOr("")
  }

  /** `(pk, text)` of every active doctor, in ascending pk order. */
  ghost function ActiveStream(table: DoctorTable): (rows: seq<(int, string)>)
  {
    IntLtIsStrictTotal();
    var pks := SortedOf(ActivePks(table), IntLt);
    assert forall i :: 0 <= i < |pks| ==> pks[i] in ActivePks(table);
    seq(|pks|, i requires 0 <= i < |pks| => (pks[i], TextOf(table[pks[i]])))
  }

  function Pks(rows: seq<(int, string)>): (r: seq<int>)
    ensures |r| == |rows| && forall i :: 0 <= i < |rows| ==> r[i] == rows[i].0
  {
    seq(|rows|, i requires 0 <= i < |rows| => rows[i].0)
  }

  function Texts(rows: seq<(int, string)>): (r: seq<string>)
    ensures |r| == |rows| && forall i :: 0 <= i < |rows| ==> r[i] == rows[i].1
  {
    seq(|rows|, i requires 0 <= i < |rows| => rows[i].1)
  }

  /** The entries of an index rebuilt from `rows`. */
  function Built(rows: seq<(int, string)>, enc: Embedder): seq<Entry> {
    Zip(Pks(rows), enc.Encode(Texts(rows)))
  }

  /** The texts handed to the encoder, batch after batch. */
  function Flatten(batches: seq<seq<string>>): seq<string> {
    if batches == [] then [] else Flatten(batches[..|batches| - 1]) + batches[|batches| - 1]
  }

  lemma FlattenSnoc(batches: seq<seq<string>>, b: seq<string>)
    ensures Flatten(batches + [b]) == Flatten(batches) + b
  {
    assert (batches + [b])[..|batches|] == batches;
  }

  function FlattenVecs(batches: seq<seq<Vec>>): seq<Vec> {
    if batches == [] then [] else FlattenVecs(batches[..|batches| - 1]) + batches[|batches| - 1]
  }

  lemma FlattenVecsSnoc(batches: seq<seq<Vec>>, b: seq<Vec>)
    ensures FlattenVecs(batches + [b]) == FlattenVecs(batches) + b
  {
    assert (batches + [b])[..|batches|] == batches;
  }

  /** Handing one more batch to the encoder extends both the texts encoded and the vectors obtained. */
  lemma FlushStep(enc: Embedder, texts: seq<string>, done: nat, chunks: seq<string>,
                  batches: seq<seq<string>>, vecs: seq<seq<Vec>>, vs: seq<Vec>)
    requires done + |chunks| <= |texts| && chunks == texts[done..done + |chunks|]
    requires Flatten(batches) == texts[..done]
    requires FlattenVecs(vecs) == enc.Encode(texts[..done])
    requires vs == enc.Encode(chunks)
    ensures Flatten(batches + [chunks]) == texts[..done + |chunks|]
    ensures FlattenVecs(vecs + [vs]) == enc.Encode(texts[..done + |chunks|])
  {
    var upTo := texts[..done + |chunks|];
    assert upTo == texts[..done] + chunks;
    assert Flatten(batches + [chunks]) == upTo by {
      FlattenSnoc(batches, chunks);
    }
    assert FlattenVecs(vecs + [vs]) == enc.Encode(upTo) by {
      FlattenVecsSnoc(vecs, vs);
      enc.EncodeConcat(texts[..done], chunks);
    }
  }

  lemma StreamStep(stream: seq<(int, string)>, done: nat, i: nat)
    requires done <= i < |stream|
    ensures Pks(stream)[..i + 1] == Pks(stream)[..i] + [stream[i].0]
    ensures Texts(stream)[done..i + 1] == Texts(stream)[done..i] + [stream[i].1]
  {
  }

  /** After the loop: the remaining texts, when there are some, make the last (short) batch. */
  lemma FinalFlush(enc: Embedder, stream: seq<(int, string)>, size: int, done: nat, chunks: seq<string>,
                   batches: seq<seq<string>>, vecs: seq<seq<Vec>>, vs: seq<Vec>)
    requires done <= |stream| && chunks == Texts(stream)[done..] && 1 <= |chunks| < size
    requires forall k :: 0 <= k < |batches| ==> |batches[k]| == size
    requires Flatten(batches) == Texts(stream)[..done]
    requires FlattenVecs(vecs) == enc.Encode(Texts(stream)[..done])
    requires vs == enc.Encode(chunks)
    ensures Batched(batches + [chunks], size) && Flatten(batches + [chunks]) == Texts(stream)
    ensures Zip(Pks(stream), FlattenVecs(vecs + [vs])) == Built(stream, enc)
  {
    var texts := Texts(stream);
    assert texts[done..done + |chunks|] == chunks;
    FlushStep(enc, texts, done, chunks, batches, vecs, vs);
    assert texts[..done + |chunks|] == texts;
    BatchedSnoc(batches, chunks, size);
  }

  /** After the loop: nothing remains, so the full batches already cover the stream. */
  lemma NoRemainder(enc: Embedder, stream: seq<(int, string)>, size: int, done: nat,
                    batches: seq<seq<string>>, vecs: seq<seq<Vec>>)
    requires done <= |stream| && Texts(stream)[done..] == [] && size >= 1
    requires forall k :: 0 <= k < |batches| ==> |batches[k]| == size
    requires Flatten(batches) == Texts(stream)[..done]
    requires FlattenVecs(vecs) == enc.Encode(Texts(stream)[..done])
    requires vecs == [] <==> done == 0
    ensures Batched(batches, size) && Flatten(batches) == Texts(stream)
    ensures vecs != [] ==> Zip(Pks(stream), FlattenVecs(vecs)) == Built(stream, enc)
    ensures vecs == [] ==> Built(stream, enc) == []
  {
    assert Texts(stream)[..done] == Texts(stream);
  }

  lemma BatchedSnoc(batches: seq<seq<string>>, b: seq<string>, size: int)
    requires forall k :: 0 <= k < |batches| ==> |batches[k]| == size
    requires 1 <= |b| <= size
    ensures Batched(batches + [b], size)
  {
  }

  lemma BuiltWellFormed(rows: seq<(int, string)>, enc: Embedder)
    requires enc.Valid()
    ensures VecsHaveDim(Built(rows, enc), enc.dim)
  {
    var es := Built(rows, enc);
    forall e | e in es ensures |e.vec| == enc.dim {
      var k :| 0 <= k < |es| && es[k] == e;
      assert e.vec == enc.Embed(Texts(rows)[k]);
    }
  }

  /** Upsert and remove keep every stored vector at the index's dimension. */
  lemma UpdatesKeepDim(es: seq<Entry>, dim: nat, id: int, v: Vec)
    requires VecsHaveDim(es, dim)
    ensures VecsHaveDim(Without(es, id), dim)
    ensures |v| == dim ==> VecsHaveDim(Upserted(es, id, v), dim)
  {
    WithoutMembers(es, id);
  }

  /** Every batch holds between 1 and `size` texts, and all but the last hold exactly `size`. */
  ghost predicate Batched(batches: seq<seq<string>>, size: int) {
    && (forall i :: 0 <= i < |batches| ==> 1 <= |batches[i]| <= size)
    && (forall i :: 0 <= i < |batches| - 1 ==> |batches[i]| == size)
  }

  lemma {:induction false} OnlyOfZip(ids: seq<int>, vs: seq<Vec>, k: nat)
    requires |ids| == |vs| && k < |ids| && Distinct(ids)
    ensures Only(Zip(ids, vs), ids[k]) == [Entry(ids[k], vs[k])]
  {
    var z := Zip(ids, vs);
    var ids', vs' := ids[1..], vs[1..];
    var rest := Zip(ids', vs');
    assert z[1..] == rest;
    if k == 0 {
      forall e | e in rest ensures e.id != ids[0] {
        var j :| 0 <= j < |rest| && rest[j] == e;
        assert e.id == ids[j + 1];
      }
      OnlyAbsent(rest, ids[0]);
    } else {
      assert Distinct(ids') by {
        forall i, j | 0 <= i < j < |ids'| ensures ids'[i] != ids'[j] {
          assert ids'[i] == ids[i + 1] && ids'[j] == ids[j + 1];
        }
      }
      assert ids'[k - 1] == ids[k] && vs'[k - 1] == vs[k];
      OnlyOfZip(ids', vs', k - 1);
      assert z[0].id == ids[0] != ids[k];
    }
  }

  lemma OnlyAbsent(es: seq<Entry>, id: int)
    requires forall e :: e in es ==> e.id != id
    ensures Only(es, id) == []
  {
    OnlyMembers(es, id);
    HeadIsElement(Only(es, id));
  }

  ghost predicate Distinct(ids: seq<int>) {
    forall i, j :: 0 <= i < j < |ids| ==> ids[i] != ids[j]
  }

  /** Zipping distinct ids gives one entry per id, filed under exactly the ids given. */
  lemma ZipOfDistinct(ids: seq<int>, vs: seq<Vec>)
    requires |ids| == |vs| && Distinct(ids)
    ensures UniqueIds(Zip(ids, vs))
    ensures Ids(Zip(ids, vs)) == set k | k in ids
  {
    var z := Zip(ids, vs);
    forall id ensures |Only(z, id)| <= 1 {
      if k :| 0 <= k < |ids| && ids[k] == id {
        OnlyOfZip(ids, vs, k);
      } else {
        OnlyAbsent(z, id);
      }
    }
    forall x | x in ids ensures x in Ids(z) {
      var k :| 0 <= k < |ids| && ids[k] == x;
      assert z[k] in z;
    }
  }

  lemma ActivePksSorted(table: DoctorTable)
    ensures forall x :: x in Pks(ActiveStream(table)) <==> x in ActivePks(table)
    ensures Distinct(Pks(ActiveStream(table)))
  {
    IntLtIsStrictTotal();
    var pks := SortedOf(ActivePks(table), IntLt);
    assert Pks(ActiveStream(table)) == pks;
    forall i, j | 0 <= i < j < |pks| ensures pks[i] != pks[j] {
      assert IntLt(pks[i], pks[j]);
    }
  }

  /**
   * A rebuild files every active doctor under exactly one vector, the encoding
   * of its text block, and nothing else: N active doctors give N entries.
   */
  lemma RebuildOneVectorPerActiveDoctor(table: DoctorTable, enc: Embedder, pk: int)
    ensures UniqueIds(Built(ActiveStream(table), enc))
    ensures Ids(Built(ActiveStream(table), enc)) == ActivePks(table)
    ensures |Built(ActiveStream(table), enc)| == |ActivePks(table)|
    ensures pk in table && table[pk].isActive ==>
      Only(Built(ActiveStream(table), enc), pk) == [Entry(pk, enc.Embed(TextOf(table[pk])))]
  {
    IntLtIsStrictTotal();
    ActivePksSorted(table);
    var rows := ActiveStream(table);
    var pks := Pks(rows);
    var vs := enc.Encode(Texts(rows));
    ZipOfDistinct(pks, vs);
    assert (set k | k in pks) == ActivePks(table);
    DistinctLength(pks);
    if pk in table && table[pk].isActive {
      assert pk in pks;
      var k :| 0 <= k < |pks| && pks[k] == pk;
      OnlyOfZip(pks, vs, k);
    }
  }

  /** A sequence without repetitions is as long as the set of its elements. */
  lemma {:induction false} DistinctLength(s: seq<int>)
    requires Distinct(s)
    ensures |set x | x in s| == |s|
  {
    if s != [] {
      var rest := s[1..];
      DistinctLength(rest);
      assert (set x | x in s) == (set x | x in rest) + {s[0]} by {
        assert s == [s[0]] + rest;
      }
      assert s[0] !in (set x | x in rest) by {
        assert forall k :: 0 <= k < |rest| ==> rest[k] == s[k + 1] && s[k + 1] != s[0];
      }
    }
  }

  /** The search hits with FAISS's unfilled slots dropped, in order. */
  function DropMissing(hits: seq<(int, real)>): (r: seq<(int, real)>)
    ensures |r| <= |hits|
    ensures forall h :: h in r <==> h in hits && h.0 != Missing
  {
    if hits == [] then []
    else
      var last := hits[|hits| - 1];
      assert forall h :: h in hits <==> h in hits[..|hits| - 1] || h == last;
      DropMissing(hits[..|hits| - 1]) + (if last.0 != Missing then [last] else [])
  }

  /**
   * `sub` is the hits at the increasing positions `idx`, and these are
   * exactly the positions whose id is not -1.
   */
  ghost predicate KeptAt(hits: seq<(int, real)>, sub: seq<(int, real)>, idx: seq<nat>) {
    && |idx| == |sub|
    && (forall k :: 0 <= k < |idx| ==> idx[k] < |hits| && sub[k] == hits[idx[k]])
    && (forall k, l :: 0 <= k < l < |idx| ==> idx[k] < idx[l])
    && (forall j :: 0 <= j < |hits| ==> (j in idx <==> hits[j].0 != Missing))
  }

  /** Dropping the unfilled slots keeps the other hits in their order and with their multiplicity. */
  lemma {:induction false} DropMissingKeepsOrder(hits: seq<(int, real)>) returns (idx: seq<nat>)
    ensures KeptAt(hits, DropMissing(hits), idx)
  {
    if hits == [] {
      idx := [];
    } else {
      var n := |hits| - 1;
      var prev := DropMissingKeepsOrder(hits[..n]);
      idx := KeptAtSnoc(hits, DropMissing(hits[..n]), prev);
    }
  }

  lemma KeptAtSnoc(hits: seq<(int, real)>, sub: seq<(int, real)>, prev: seq<nat>) returns (idx: seq<nat>)
    requires hits != [] && KeptAt(hits[..|hits| - 1], sub, prev)
    ensures var last := hits[|hits| - 1];
      KeptAt(hits, sub + (if last.0 != Missing then [last] else []), idx)
  {
    var n := |hits| - 1;
    var init := hits[..n];
    var last := hits[n];
    if last.0 != Missing {
      idx := prev + [n];
      var r := sub + [last];
      forall k | 0 <= k < |idx| ensures idx[k] < |hits| && r[k] == hits[idx[k]] {
        if k < |prev| {
          assert r[k] == sub[k] == init[prev[k]];
        }
      }
      forall j | 0 <= j < |hits| ensures j in idx <==> hits[j].0 != Missing {
        if j < n {
          assert hits[j] == init[j];
          assert j in idx <==> j in prev;
        }
      }
    } else {
      idx := prev;
      assert sub + [] == sub;
      forall j | 0 <= j < |hits| ensures j in idx <==> hits[j].0 != Missing {
        if j < n {
          assert hits[j] == init[j];
        }
      }
    }
  }

  /**
   * `_iter_active_doctors`: streams the pk and the text block (empty when NULL) of the active
   * doctors in ascending pk order (the record store's `ORDER BY pk`).
   */
  method IterActiveDoctors(table: DoctorTable) returns (rows: seq<(int, string)>)
    ensures rows == ActiveStream(table)
  {
    IntLtIsStrictTotal();
    var pks := SortSet(ActivePks(table), IntLt);
    assert forall i :: 0 <= i < |pks| ==> pks[i] in ActivePks(table);
    rows := [];
    for i := 0 to |pks|
      invariant |rows| == i
      invariant forall j :: 0 <= j < i ==> rows[j] == (pks[j], TextOf(table[pks[j]]))
    {
      assert pks[i] in pks;
      rows := rows + [(pks[i], TextOf(table[pks[i]]))];
    }
  }

  /**
   * The stream holds every active doctor exactly once, in strictly ascending
   * pk order, each with its text block (or "" when it has none), and no
   * inactive or unknown doctor.
   */
  lemma ActiveStreamIsOrderedAndComplete(table: DoctorTable)
    ensures var rows := ActiveStream(table);
      forall i, j :: 0 <= i < j < |rows| ==> rows[i].0 < rows[j].0
    ensures var rows := ActiveStream(table);
      forall i :: 0 <= i < |rows| ==>
        rows[i].0 in table && table[rows[i].0].isActive && rows[i].1 == TextOf(table[rows[i].0])
    ensures var rows := ActiveStream(table);
      forall pk :: pk in table && table[pk].isActive ==> exists i :: 0 <= i < |rows| && rows[i].0 == pk
  {
    IntLtIsStrictTotal();
    var pks := SortedOf(ActivePks(table), IntLt);
    var rows := ActiveStream(table);
    forall i, j | 0 <= i < j < |rows| ensures rows[i].0 < rows[j].0 {
      assert IntLt(pks[i], pks[j]);
    }
    forall i | 0 <= i < |rows| ensures rows[i].0 in ActivePks(table) {
      assert pks[i] in pks;
    }
    forall pk | pk in table && table[pk].isActive ensures exists i :: 0 <= i < |rows| && rows[i].0 == pk {
      assert pk in pks;
      var i :| 0 <= i < |pks| && pks[i] == pk;
      assert rows[i].0 == pk;
    }
  }

  // ---------------------------------------------------------------------------
  // The index object
  // ---------------------------------------------------------------------------

  /** A FAISS `IndexIDMap2` over an exact inner-product index. */
  class Index {
    const dim: nat
    var entries: seq<Entry>

    /** `_new_index(dim)`: an empty index of dimension `dim`. */
    constructor (dim: nat)
      ensures this.dim == dim && entries == []
    {
      this.dim := dim;
      entries := [];
    }

    /** `faiss.read_index`: the index a file holds. */
    constructor Read(f: IndexFile)
      ensures Image() == f
    {
      dim := f.dim;
      entries := f.entries;
    }

    /** What `faiss.write_index` would store for this index. */
    function Image(): IndexFile
      reads this
    {
      IndexFile(dim, entries)
    }

    function NTotal(): nat
      reads this
    {
      |entries|
    }

    method RemoveIds(id: int)
      modifies this
      ensures entries == Without(old(entries), id)
    {
      entries := Without(entries, id);
    }

    method AddWithIds(vs: seq<Vec>, ids: seq<int>)
      requires |vs| == |ids|
      modifies this
      ensures entries == old(entries) + Zip(ids, vs)
    {
      entries := entries + Zip(ids, vs);
    }
  }

  // ---------------------------------------------------------------------------
  // The module state of faiss_store.py
  // ---------------------------------------------------------------------------

  /**
   * The process-wide state: the singleton `_INDEX`, the two files
   * `doctors.index` (canonical) and `doctors.index.tmp` (tmp), and the
   * embedding model. `encodeLog` records every batch of texts handed to the
   * model, in call order.
   */
  class FaissStore {
    const embedder: Embedder
    var index: Index?
    var canonical: Option<IndexFile>
    var tmp: Option<IndexFile>
    var encodeLog: seq<seq<string>>

    /**
     * The singleton, once set, has the model's dimension and is exactly what
     * the canonical file holds.
     */
    ghost predicate Valid()
      reads this, index
    {
      && embedder.Valid()
      && (canonical.Some? ==> WellFormed(canonical.value))
      && (index != null ==> index.dim == embedder.dim && canonical == Some(index.Image()))
    }

    /** Process start: no singleton yet, whatever files are on disk. */
    constructor (embedder: Embedder, canonical: Option<IndexFile>, tmp: Option<IndexFile>)
      requires embedder.Valid() && (canonical.Some? ==> WellFormed(canonical.value))
      ensures Valid()
      ensures this.embedder == embedder && index == null
      ensures this.canonical == canonical && this.tmp == tmp && encodeLog == []
    {
      this.embedder := embedder;
      index := null;
      this.canonical := canonical;
      this.tmp := tmp;
      encodeLog := [];
    }

    /** The index `load_index()` returns in the current state. */
    ghost function Loaded(): (f: IndexFile)
      reads this, index
      ensures Valid() ==> f.dim == embedder.dim && WellFormed(f)
    {
      if index != null then index.Image()
      else if canonical.None? || canonical.value.dim != embedder.dim then IndexFile(embedder.dim, [])
      else canonical.value
    }

    /** A call into the embedding model. */
    method Encode(texts: seq<string>) returns (vs: seq<Vec>)
      modifies this`encodeLog
      ensures vs == embedder.Encode(texts)
      ensures encodeLog == old(encodeLog) + [texts]
    {
      encodeLog := encodeLog + [texts];
      vs := embedder.Encode(texts);
    }

    /** `faiss.write_index(index, tmp)`: the canonical file is not touched. */
    method WriteTmp(idx: Index)
      modifies this`tmp
      ensures tmp == Some(idx.Image())
    {
      tmp := Some(idx.Image());
    }

    /** `os.replace(tmp, canonical)`: one atomic step. */
    method Replace()
      requires tmp.Some?
      modifies this`canonical, this`tmp
      ensures canonical == old(tmp) && tmp == None
    {
      canonical := tmp;
      tmp := None;
    }

    /** `_write_index_atomic`: afterwards the canonical file holds exactly `idx`. */
    method WriteIndexAtomic(idx: Index)
      modifies this`canonical, this`tmp
      ensures canonical == Some(idx.Image()) && tmp == None
    {
      WriteTmp(idx);
      Replace();
    }

    /** `_read_index`: the index in the canonical file, or none when there is no file. */
    method ReadIndex() returns (idx: Index?)
      ensures canonical.None? ==> idx == null
      ensures canonical.Some? ==> idx != null && fresh(idx) && idx.Image() == canonical.value
    {
      idx := null;
      if canonical.Some? {
        idx := new Index.Read(canonical.value);
      }
    }

    /** `_ensure_dim_compat`: an index of the wrong dimension is replaced by a fresh empty one, which is persisted. */
    method EnsureDimCompat(idx: Index) returns (r: Index)
      modifies this`canonical, this`tmp
      ensures idx.dim == embedder.dim ==> r == idx && canonical == old(canonical) && tmp == old(tmp)
      ensures idx.dim != embedder.dim ==>
        fresh(r) && r.Image() == IndexFile(embedder.dim, []) && canonical == Some(r.Image()) && tmp == None
    {
      r := idx;
      if idx.dim != embedder.dim {
        r := new Index(embedder.dim);
        WriteIndexAtomic(r);
      }
    }

    /**
     * `load_index`: the cached singleton once it is set; otherwise the file's
     * index when its dimension fits, or a fresh empty index of the model's
     * dimension that is written out first.
     */
    method LoadIndex() returns (idx: Index)
      requires Valid()
      modifies this
      ensures Valid() && index == idx && idx.Image() == old(Loaded())
      ensures old(index) != null ==> idx == old(index) && canonical == old(canonical) && tmp == old(tmp)
      ensures old(index) == null ==> fresh(idx)
      ensures old(index) == null && old(canonical).Some? && old(canonical).value.dim == embedder.dim ==>
        canonical == old(canonical) && tmp == old(tmp)
      ensures encodeLog == old(encodeLog)
    {
      if index != null {
        return index;
      }
      var r := ReadIndex();
      if r == null {
        r := new Index(embedder.dim);
        WriteIndexAtomic(r);
      } else {
        r := EnsureDimCompat(r);
      }
      index := r;
      idx := r;
    }

    /**
     * The streaming loop of `rebuild_index`: collects every pk, and hands the
     * texts to the model each time `batchSize` of them are pending. The texts
     * still pending at the end (fewer than `batchSize`) are `chunks`; the first
     * `done` texts have been encoded, in `batches`, into `vecs`.
     */
    method StreamInBatches(stream: seq<(int, string)>, batchSize: int)
      returns (ids: seq<int>, chunks: seq<string>, vecs: seq<seq<Vec>>, ghost batches: seq<seq<string>>, ghost done: nat)
      requires batchSize >= 1
      modifies this`encodeLog
      ensures ids == Pks(stream)
      ensures done <= |stream| && chunks == Texts(stream)[done..] && |chunks| < batchSize
      ensures encodeLog == old(encodeLog) + batches
      ensures forall k :: 0 <= k < |batches| ==> |batches[k]| == batchSize
      ensures Flatten(batches) == Texts(stream)[..done]
      ensures FlattenVecs(vecs) == embedder.Encode(Texts(stream)[..done])
      ensures vecs == [] <==> done == 0
    {
      ghost var texts := Texts(stream);
      batches := [];
      done := 0;
      ghost var log0 := encodeLog;
      ids := [];
      chunks := [];
      vecs := [];
      var i := 0;
      while i < |stream|
        invariant 0 <= done <= i <= |stream| && i - done < batchSize
        invariant ids == Pks(stream)[..i]
        invariant chunks == texts[done..i]
        invariant encodeLog == log0 + batches
        invariant forall k :: 0 <= k < |batches| ==> |batches[k]| == batchSize
        invariant Flatten(batches) == texts[..done]
        invariant FlattenVecs(vecs) == embedder.Encode(texts[..done])
        invariant vecs == [] <==> done == 0
      {
        StreamStep(stream, done, i);
        ids := ids + [stream[i].0];
        chunks := chunks + [stream[i].1];
        if |chunks| >= batchSize {
          var vs := Encode(chunks);
          FlushStep(embedder, texts, done, chunks, batches, vecs, vs);
          batches := batches + [chunks];
          vecs := vecs + [vs];
          chunks := [];
          done := i + 1;
        }
        i := i + 1;
      }
      assert ids == Pks(stream);
    }

    /**
     * `rebuild_index`: encodes the active doctors' texts in batches of
     * `batchSize`, builds a brand-new index from them, persists it and makes
     * it the singleton.
     */
    method RebuildIndex(table: DoctorTable, batchSize: int) returns (idx: Index, ghost batches: seq<seq<string>>)
      requires Valid() && batchSize >= 1
      modifies this
      ensures Valid() && fresh(idx) && index == idx
      ensures idx.Image() == IndexFile(embedder.dim, Built(ActiveStream(table), embedder))
      ensures tmp == None
      ensures encodeLog == old(encodeLog) + batches
      ensures Batched(batches, batchSize) && Flatten(batches) == Texts(ActiveStream(table))
    {
      var stream := IterActiveDoctors(table);
      var ids, chunks, vecs;
      ghost var done;
      ids, chunks, vecs, batches, done := StreamInBatches(stream, batchSize);
      if chunks != [] {
        var vs := Encode(chunks);
        FinalFlush(embedder, stream, batchSize, done, chunks, batches, vecs, vs);
        batches := batches + [chunks];
        vecs := vecs + [vs];
      } else {
        NoRemainder(embedder, stream, batchSize, done, batches, vecs);
      }
      idx := new Index(embedder.dim);
      if vecs != [] {
        idx.AddWithIds(FlattenVecs(vecs), ids);
      }
      BuiltWellFormed(stream, embedder);
      WriteIndexAtomic(idx);
      index := idx;
    }

    /**
     * `search_knn`: on an empty index, no hits and no call into the model;
     * otherwise the query is encoded once and FAISS's `hits` are returned
     * without the unfilled slots. `hits` stands for FAISS's answer: at most
     * `topk` slots, each unfilled or naming a stored id.
     */
    method SearchKnn(queryText: string, topk: int, hits: seq<(int, real)>) returns (out: seq<(int, real)>)
      requires Valid() && 1 <= topk && |hits| <= topk
      requires forall h :: h in hits ==> h.0 == Missing || h.0 in Ids(Loaded().entries)
      modifies this
      ensures Valid() && index != null && index.Image() == old(Loaded())
      ensures old(index) != null ==> index == old(index) && canonical == old(canonical) && tmp == old(tmp)
      ensures old(index) == null ==> fresh(index)
      ensures old(Loaded()).entries == [] ==> out == [] && encodeLog == old(encodeLog)
      ensures old(Loaded()).entries != [] ==> out == DropMissing(hits) && encodeLog == old(encodeLog) + [[queryText]]
      ensures |out| <= topk
      ensures forall h :: h in out ==> h.0 != Missing && h.0 in Ids(index.entries)
    {
      var idx := LoadIndex();
      if idx.NTotal() == 0 {
        return [];
      }
      var q := Encode([queryText]);
      out := [];
      for i := 0 to |hits|
        invariant out == DropMissing(hits[..i])
      {
        assert hits[..i + 1][..i] == hits[..i];
        if hits[i].0 != Missing {
          out := out + [hits[i]];
        }
      }
      assert hits[..|hits|] == hits;
    }

    /** `upsert_doctor_vector`: drop the id's old vectors, append the new one, persist. */
    method UpsertDoctorVector(pk: int, text: string)
      requires Valid()
      modifies this, index
      ensures Valid() && index != null
      ensures old(index) != null ==> index == old(index)
      ensures old(index) == null ==> fresh(index)
      ensures index.Image() == IndexFile(embedder.dim, Upserted(old(Loaded()).entries, pk, embedder.Embed(text)))
      ensures encodeLog == old(encodeLog) + [[text]] && tmp == None
    {
      var idx := LoadIndex();
      UpdatesKeepDim(idx.entries, idx.dim, pk, embedder.Embed(text));
      idx.RemoveIds(pk);
      var v := Encode([text]);
      idx.AddWithIds(v, [pk]);
      WriteIndexAtomic(idx);
    }

    /** `remove_doctor_vector`: drop the id's vectors (none is no error), persist. */
    method RemoveDoctorVector(pk: int)
      requires Valid()
      modifies this, index
      ensures Valid() && index != null
      ensures old(index) != null ==> index == old(index)
      ensures old(index) == null ==> fresh(index)
      ensures index.Image() == IndexFile(embedder.dim, Without(old(Loaded()).entries, pk))
      ensures encodeLog == old(encodeLog) && tmp == None
    {
      var idx := LoadIndex();
      UpdatesKeepDim(idx.entries, idx.dim, pk, []);
      idx.RemoveIds(pk);
      WriteIndexAtomic(idx);
    }
  }
}

/**
 * The index-consistency handlers of search/signals.py. Saving a doctor queues
 * an upsert or a removal of its vector, deleting one queues a removal, and
 * neither touches the index before the surrounding transaction commits. The
 * callbacks read the instance's pk when they run, and Django's delete clears
 * that pk once the row is gone.
 */
module Signals {
  import opened Wrappers
  import opened Embedding
  import opened VectorIndex

  /**
   * The model instance a signal carries. The deferred callback reads its
   * attributes when it runs, so later assignments before the commit count.
   * `None` in `pk` is an instance without a row (never saved, or deleted);
   * `None` in `isActive` is a model without that attribute; `None` in
   * `textBlock` is a missing attribute or a NULL column.
   */
  class DoctorInstance {
    var pk: Option<int>
    var isActive: Option<bool>
    var textBlock: Option<string>

    constructor (pk: Option<int>, isActive: Option<bool>, textBlock: Option<string>)
      ensures this.pk == pk && this.isActive == isActive && this.textBlock == textBlock
    {
      this.pk := pk;
      this.isActive := isActive;
      this.textBlock := textBlock;
    }

    /** What Django's delete does to the instance once its row is deleted: the pk becomes `None`. */
    method ClearPk()
      modifies this
      ensures pk == None && isActive == old(isActive) && textBlock == old(textBlock)
    {
      pk := None;
    }
  }

  /**
   * What a callback does to the index. `Raise` is a callback whose instance
   * has no pk: the index function loads the index, then fails converting the
   * missing pk to a 64-bit id array, before any change.
   */
  datatype IndexAction = Upsert(pk: int, text: string) | Remove(pk: int) | Raise

  /**
   * The choice the deferred callback makes: upsert unless the instance is
   * inactive or has no (or an empty) text block; otherwise remove. Without a
   * pk either call fails.
   */
  function SaveAction(pk: Option<int>, isActive: Option<bool>, textBlock: Option<string>): (a: IndexAction)
    ensures a.Raise? <==> pk.None?
    ensures pk.Some? ==> a.pk == pk.value
    ensures pk.Some? ==> (a.Upsert? <==> isActive != Some(false) && textBlock.Some? && textBlock.value != "")
    ensures a.Upsert? ==> a.text == textBlock.value
  {
    if pk.None? then Raise
    else if isActive.GetOr(true) && textBlock.GetOr("") != "" then Upsert(pk.value, textBlock.value)
    else Remove(pk.value)
  }

  /** A callback queued by `on_commit`, holding the instance it will read. */
  datatype Deferred = AfterSave(inst: DoctorInstance) | AfterDelete(inst: DoctorInstance)

  /**
   * The action a callback takes if it runs now: it reads the instance's pk
   * and, for a save, its activity and text block at this moment.
   */
  function ActionNow(d: Deferred): (a: IndexAction)
    reads d.inst
    ensures a.Raise? <==> d.inst.pk.None?
    ensures d.inst.pk.Some? ==> a.pk == d.inst.pk.value
    ensures d.AfterDelete? && d.inst.pk.Some? ==> a == Remove(d.inst.pk.value)
    ensures d.AfterSave? && d.inst.pk.Some? ==>
      (a.Upsert? <==> d.inst.isActive != Some(false) && d.inst.textBlock.Some? && d.inst.textBlock.value != "")
    ensures a.Upsert? ==> d.AfterSave? && a.text == d.inst.textBlock.value
  {
    match d
    case AfterSave(inst) => SaveAction(inst.pk, inst.isActive, inst.textBlock)
    case AfterDelete(inst) => if inst.pk.None? then Raise else Remove(inst.pk.value)
  }

  function Insts(ds: seq<Deferred>): set<DoctorInstance> {
    set d | d in ds :: d.inst
  }

  function ActionsNow(ds: seq<Deferred>): (acts: seq<IndexAction>)
    reads Insts(ds)
    ensures |acts| == |ds| && forall k :: 0 <= k < |ds| ==> acts[k] == ActionNow(ds[k])
  {
    if ds == [] then [] else ActionsNow(ds[..|ds| - 1]) + [ActionNow(ds[|ds| - 1])]
  }

  /** The entries after `upsert_doctor_vector` or `remove_doctor_vector`. */
  function Apply(es: seq<Entry>, a: IndexAction, enc: Embedder): seq<Entry> {
    match a
    case Upsert(pk, text) => Upserted(es, pk, enc.Embed(text))
    case Remove(pk) => Without(es, pk)
    case Raise => es
  }

  function ApplyAll(es: seq<Entry>, acts: seq<IndexAction>, enc: Embedder): seq<Entry> {
    if acts == [] then es else Apply(ApplyAll(es, acts[..|acts| - 1], enc), acts[|acts| - 1], enc)
  }

  /** The position of the first `Raise`, or the length when there is none. */
  function FirstRaise(acts: seq<IndexAction>): (n: nat)
    ensures n <= |acts|
    ensures forall k :: 0 <= k < n ==> !acts[k].Raise?
    ensures n < |acts| ==> acts[n].Raise?
  {
    if acts == [] || acts[0].Raise? then 0
    else
      var n := 1 + FirstRaise(acts[1..]);
      assert forall k :: 1 <= k < n ==> acts[k] == acts[1..][k - 1];
      n
  }

  /**
   * The actions the commit runs: those before the first `Raise`, whose
   * exception ends the run and drops the callbacks after it.
   */
  function Completed(acts: seq<IndexAction>): seq<IndexAction> {
    acts[..FirstRaise(acts)]
  }

  /** The calls into the embedding model the actions make. */
  function EncodeCalls(acts: seq<IndexAction>): (log: seq<seq<string>>)
    ensures |log| <= |acts|
  {
    if acts == [] then []
    else
      var last := acts[|acts| - 1];
      EncodeCalls(acts[..|acts| - 1]) + (if last.Upsert? then [[last.text]] else [])
  }

  /** Below the first `Raise`, an action that does not raise leaves the next one below it too. */
  lemma RaiseAhead(acts: seq<IndexAction>, i: nat)
    requires i < |acts| && i <= FirstRaise(acts)
    ensures !acts[i].Raise? ==> i + 1 <= FirstRaise(acts)
  {
  }

  lemma SnocStep(es: seq<Entry>, acts: seq<IndexAction>, i: nat, enc: Embedder)
    requires i < |acts|
    ensures ApplyAll(es, acts[..i + 1], enc) == Apply(ApplyAll(es, acts[..i], enc), acts[i], enc)
    ensures EncodeCalls(acts[..i + 1]) == EncodeCalls(acts[..i]) + EncodeCalls([acts[i]])
  {
    assert acts[..i + 1][..i] == acts[..i];
    assert [acts[i]][..0] == [];
  }

  /** A run stopped by the `Raise` at `i` has run exactly the completed actions. */
  lemma RunStopped(es: seq<Entry>, acts: seq<IndexAction>, i: nat, enc: Embedder)
    requires i < |acts| && i <= FirstRaise(acts) && acts[i].Raise?
    ensures Raise in acts
    ensures ApplyAll(es, Completed(acts), enc) == Apply(ApplyAll(es, acts[..i], enc), acts[i], enc)
    ensures EncodeCalls(Completed(acts)) == EncodeCalls(acts[..i]) + EncodeCalls([acts[i]])
  {
    assert acts[i] in acts;
    assert [acts[i]][..0] == [];
  }

  /** A run through a queue without a `Raise` has run every action. */
  lemma RunFinished(es: seq<Entry>, acts: seq<IndexAction>, enc: Embedder)
    requires |acts| <= FirstRaise(acts)
    ensures Raise !in acts
    ensures Completed(acts) == acts[..|acts|]
  {
    CompletedSound(acts);
  }

  /** The completed actions hold no `Raise`, and there is one exactly when some were left out. */
  lemma CompletedSound(acts: seq<IndexAction>)
    ensures Completed(acts) <= acts && Raise !in Completed(acts)
    ensures Raise in acts <==> |Completed(acts)| < |acts|
  {
    var n := FirstRaise(acts);
    if n < |acts| {
      assert acts[n] in acts;
    }
    forall x | x in Completed(acts) ensures x != Raise {
      var k :| 0 <= k < n && acts[..n][k] == x;
    }
  }

  /**
   * After an action its doctor has exactly the vector of its text (upsert) or
   * none (remove), and every other doctor keeps its entries.
   */
  lemma ApplyEffect(es: seq<Entry>, a: IndexAction, enc: Embedder, other: int)
    ensures a.Upsert? ==> Only(Apply(es, a, enc), a.pk) == [Entry(a.pk, enc.Embed(a.text))]
    ensures a.Remove? ==> Only(Apply(es, a, enc), a.pk) == []
    ensures !a.Raise? && other != a.pk ==> Only(Apply(es, a, enc), other) == Only(es, other)
    ensures a.Raise? ==> Apply(es, a, enc) == es
  {
    match a
    case Upsert(pk, text) =>
      UpsertLeavesOne(es, pk, enc.Embed(text), other);
    case Remove(pk) =>
      RemoveTwiceIsRemoveOnce(es, pk);
      if other != pk {
        WithoutKeepsOthers(es, pk, other);
      }
    case Raise =>
  }

  /** Running the same save or delete action twice leaves the index as running it once. */
  lemma ApplyIdempotent(es: seq<Entry>, a: IndexAction, enc: Embedder)
    ensures Apply(Apply(es, a, enc), a, enc) == Apply(es, a, enc)
  {
    match a
    case Upsert(pk, text) => UpsertTwice(es, pk, enc.Embed(text), enc.Embed(text));
    case Remove(pk) => RemoveTwiceIsRemoveOnce(es, pk);
    case Raise =>
  }

  /** Upserts and removals keep at most one vector per doctor. */
  lemma {:induction false} ApplyAllKeepsUniqueIds(es: seq<Entry>, acts: seq<IndexAction>, enc: Embedder)
    requires UniqueIds(es)
    ensures UniqueIds(ApplyAll(es, acts, enc))
  {
    if acts != [] {
      var before := ApplyAll(es, acts[..|acts| - 1], enc);
      ApplyAllKeepsUniqueIds(es, acts[..|acts| - 1], enc);
      match acts[|acts| - 1]
      case Upsert(pk, text) => UniqueIdsPreserved(before, pk, enc.Embed(text));
      case Remove(pk) => UniqueIdsPreserved(before, pk, enc.Embed(""));
      case Raise =>
    }
  }

  /** Runs one callback against the store; `raised` is its exception. */
  method RunAction(store: FaissStore, a: IndexAction) returns (raised: bool)
    requires store.Valid()
    modifies store, store.index
    ensures raised <==> a.Raise?
    ensures store.Valid() && store.index != null
    ensures old(store.index) != null ==> store.index == old(store.index)
    ensures old(store.index) == null ==> fresh(store.index)
    ensures store.Loaded() == IndexFile(store.embedder.dim, Apply(old(store.Loaded()).entries, a, store.embedder))
    ensures store.encodeLog == old(store.encodeLog) + EncodeCalls([a])
  {
    assert [a][..0] == [];
    raised := false;
    match a
    case Upsert(pk, text) => store.UpsertDoctorVector(pk, text);
    case Remove(pk) => store.RemoveDoctorVector(pk);
    case Raise =>
      var _ := store.LoadIndex();
      raised := true;
  }

  /**
   * Runs the callbacks in order, each reading its instance when its turn
   * comes, until one raises: Django's commit hooks are not robust, so the
   * exception propagates and the rest are dropped.
   */
  method RunAll(store: FaissStore, queue: seq<Deferred>) returns (raised: bool)
    requires store.Valid()
    modifies store, store.index
    ensures store.Valid()
    ensures store.index == null || store.index == old(store.index) || fresh(store.index)
    ensures raised <==> Raise in old(ActionsNow(queue))
    ensures store.Loaded() == IndexFile(store.embedder.dim,
      ApplyAll(old(store.Loaded()).entries, Completed(old(ActionsNow(queue))), store.embedder))
    ensures store.encodeLog == old(store.encodeLog) + EncodeCalls(Completed(old(ActionsNow(queue))))
  {
    ghost var acts := ActionsNow(queue);
    ghost var start := store.Loaded().entries;
    raised := false;
    for i := 0 to |queue|
      invariant i <= FirstRaise(acts)
      invariant store.Valid()
      invariant store.index == null || store.index == old(store.index) || fresh(store.index)
      invariant store.Loaded() == IndexFile(store.embedder.dim, ApplyAll(start, acts[..i], store.embedder))
      invariant store.encodeLog == old(store.encodeLog) + EncodeCalls(acts[..i])
    {
      var a := ActionNow(queue[i]);
      assert a == acts[i];
      SnocStep(start, acts, i, store.embedder);
      RaiseAhead(acts, i);
      raised := RunAction(store, a);
      if raised {
        RunStopped(start, acts, i, store.embedder);
        return;
      }
    }
    RunFinished(start, acts, store.embedder);
  }

  /** The database connection's transaction state and its `on_commit` queue. */
  class Connection {
    var inAtomic: bool
    var pending: seq<Deferred>

    /** Autocommit mode: nothing is queued outside an atomic block. */
    ghost predicate Valid()
      reads this
    {
      !inAtomic ==> pending == []
    }

    constructor ()
      ensures Valid() && !inAtomic && pending == []
    {
      inAtomic := false;
      pending := [];
    }

    /** Entering the outermost `transaction.atomic()` block. */
    method Begin()
      requires Valid() && !inAtomic
      modifies this
      ensures Valid() && inAtomic && pending == []
    {
      inAtomic := true;
    }

    /**
     * `transaction.on_commit(callback)`: inside an atomic block the callback
     * is queued and the index is untouched; outside one it runs at once.
     */
    method OnCommit(d: Deferred, store: FaissStore) returns (raised: bool)
      requires Valid() && store.Valid()
      modifies this, store, store.index
      ensures Valid() && store.Valid() && inAtomic == old(inAtomic)
      ensures old(inAtomic) ==>
        !raised && pending == old(pending) + [d] && unchanged(store) && (store.index != null ==> unchanged(store.index))
      ensures !old(inAtomic) ==>
        && pending == [] && store.index != null
        && (raised <==> old(ActionNow(d)).Raise?)
        && store.Loaded() == IndexFile(store.embedder.dim, Apply(old(store.Loaded()).entries, old(ActionNow(d)), store.embedder))
        && store.encodeLog == old(store.encodeLog) + EncodeCalls([old(ActionNow(d))])
    {
      raised := false;
      if inAtomic {
        pending := pending + [d];
      } else {
        var a := ActionNow(d);
        raised := RunAction(store, a);
      }
    }

    /**
     * Leaving the outermost atomic block with a commit: the queued callbacks
     * run in the order they were queued, each reading its instance now, up to
     * the first that raises; the queue is emptied either way.
     */
    method Commit(store: FaissStore) returns (raised: bool)
      requires Valid() && inAtomic && store.Valid()
      modifies this, store, store.index
      ensures Valid() && !inAtomic && pending == [] && store.Valid()
      ensures raised <==> Raise in old(ActionsNow(pending))
      ensures store.Loaded() == IndexFile(store.embedder.dim,
        ApplyAll(old(store.Loaded()).entries, Completed(old(ActionsNow(pending))), store.embedder))
      ensures store.encodeLog == old(store.encodeLog) + EncodeCalls(Completed(old(ActionsNow(pending))))
    {
      var queue := pending;
      ghost var acts := ActionsNow(queue);
      ghost var before := store.Loaded();
      inAtomic := false;
      pending := [];
      assert ActionsNow(queue) == acts && store.Loaded() == before;
      raised := RunAll(store, queue);
    }

    /** Leaving the outermost atomic block with a rollback: the queued callbacks are dropped. */
    method Rollback()
      requires Valid() && inAtomic
      modifies this
      ensures Valid() && !inAtomic && pending == []
    {
      inAtomic := false;
      pending := [];
    }
  }

  /** `_on_doctor_saved`: queues the upsert-or-remove decision for the commit. */
  method OnDoctorSaved(conn: Connection, store: FaissStore, inst: DoctorInstance) returns (raised: bool)
    requires conn.Valid() && store.Valid()
    modifies conn, store, store.index
    ensures conn.Valid() && store.Valid() && conn.inAtomic == old(conn.inAtomic)
    ensures old(conn.inAtomic) ==>
      !raised && conn.pending == old(conn.pending) + [AfterSave(inst)] && unchanged(store) && (store.index != null ==> unchanged(store.index))
    ensures !old(conn.inAtomic) ==> (raised <==> old(inst.pk).None?) && store.Loaded() == IndexFile(store.embedder.dim,
      Apply(old(store.Loaded()).entries, old(SaveAction(inst.pk, inst.isActive, inst.textBlock)), store.embedder))
  {
    raised := conn.OnCommit(AfterSave(inst), store);
  }

  /**
   * `_on_doctor_deleted`: queues the removal of the doctor's vector for the
   * commit; the callback reads the pk only when it runs.
   */
  method OnDoctorDeleted(conn: Connection, store: FaissStore, inst: DoctorInstance) returns (raised: bool)
    requires conn.Valid() && store.Valid()
    modifies conn, store, store.index
    ensures conn.Valid() && store.Valid() && conn.inAtomic == old(conn.inAtomic)
    ensures old(conn.inAtomic) ==>
      !raised && conn.pending == old(conn.pending) + [AfterDelete(inst)] && unchanged(store) && (store.index != null ==> unchanged(store.index))
    ensures !old(conn.inAtomic) ==> (raised <==> old(inst.pk).None?) && store.Loaded() == IndexFile(store.embedder.dim,
      if old(inst.pk).Some? then Without(old(store.Loaded()).entries, old(inst.pk).value) else old(store.Loaded()).entries)
  {
    raised := conn.OnCommit(AfterDelete(inst), store);
  }

  /**
   * Django's `Model.delete()` for the doctor, around the handler: an instance
   * without a pk is refused (`ValueError`); otherwise the row is deleted and
   * the handler queued inside an atomic block of its own (`savepoint=False`,
   * so within the caller's transaction when there is one), and the pk is
   * cleared after that block. In autocommit mode the block commits first and
   * the vector is removed; inside a transaction the queued callback will find
   * no pk.
   */
  method DeleteDoctor(conn: Connection, store: FaissStore, inst: DoctorInstance) returns (raised: bool)
    requires conn.Valid() && store.Valid()
    modifies conn, store, store.index, inst
    ensures conn.Valid() && store.Valid() && conn.inAtomic == old(conn.inAtomic)
    ensures inst.isActive == old(inst.isActive) && inst.textBlock == old(inst.textBlock)
    ensures old(inst.pk).None? ==> raised && unchanged(conn, inst) && unchanged(store) && (store.index != null ==> unchanged(store.index))
    ensures old(inst.pk).Some? ==> !raised && inst.pk == None
    ensures old(inst.pk).Some? && !old(conn.inAtomic) ==>
      conn.pending == [] && store.Loaded() == IndexFile(store.embedder.dim, Without(old(store.Loaded()).entries, old(inst.pk).value))
    ensures old(inst.pk).Some? && old(conn.inAtomic) ==>
      && conn.pending == old(conn.pending) + [AfterDelete(inst)] && ActionNow(AfterDelete(inst)) == Raise
      && unchanged(store) && (store.index != null ==> unchanged(store.index))
  {
    if inst.pk.None? {
      return true;
    }
    if conn.inAtomic {
      raised := OnDoctorDeleted(conn, store, inst);
    } else {
      raised := DeleteAndCommit(conn, store, inst);
    }
    inst.ClearPk();
  }

  /** The delete's own atomic block as the outermost one: the handler's callback runs at its commit. */
  method DeleteAndCommit(conn: Connection, store: FaissStore, inst: DoctorInstance) returns (raised: bool)
    requires conn.Valid() && !conn.inAtomic && store.Valid() && inst.pk.Some?
    modifies conn, store, store.index
    ensures conn.Valid() && !conn.inAtomic && conn.pending == [] && store.Valid() && !raised
    ensures store.Loaded() == IndexFile(store.embedder.dim, Without(old(store.Loaded()).entries, inst.pk.value))
  {
    conn.Begin();
    raised := OnDoctorDeleted(conn, store, inst);
    ghost var pk := inst.pk.value;
    assert ActionsNow(conn.pending) == [Remove(pk)];
    CommitOneRemove(old(store.Loaded()).entries, pk, store.embedder);
    raised := conn.Commit(store);
  }

  lemma CommitOneRemove(es: seq<Entry>, pk: int, enc: Embedder)
    ensures Raise !in [Remove(pk)]
    ensures ApplyAll(es, Completed([Remove(pk)]), enc) == Without(es, pk)
    ensures EncodeCalls(Completed([Remove(pk)])) == []
  {
    assert FirstRaise([Remove(pk)]) == 1;
    assert Completed([Remove(pk)]) == [Remove(pk)];
    assert [Remove(pk)][..0] == [];
  }

  /**
   * Deleting a doctor inside a transaction and committing it: the queued
   * removal finds no pk and raises, so the doctor's vectors stay in the index.
   */
  method DeleteInTransaction(conn: Connection, store: FaissStore, inst: DoctorInstance) returns (raised: bool)
    requires conn.Valid() && !conn.inAtomic && store.Valid()
    modifies conn, store, store.index, inst
    ensures conn.Valid() && !conn.inAtomic && store.Valid()
    ensures raised && inst.pk == None
    ensures store.Loaded() == old(store.Loaded())
  {
    conn.Begin();
    raised := DeleteDoctor(conn, store, inst);
    if raised {
      conn.Rollback();
    } else {
      assert conn.pending == [AfterDelete(inst)];
      assert ActionsNow(conn.pending) == [Raise];
      raised := conn.Commit(store);
    }
  }
}

/** When objects are recorded to have been created and updated, and what a new object is stored as. */
module Timestamps {
  import opened Common
  import opened TypeTags
  import opened StateStore
  import opened RuntimeNode
  import opened RuntimeInvariant
  import opened ChangeSet
  import opened Shown
  import opened Soundness
  import opened SizeAccounting
  import opened SizeOverRuns
  import opened Arguments
  import opened Lookup
  import opened Transactions
  import opened ObjectViews

  /** Below the root, what is stored is what the runtime read at its end. */
  lemma StoredIsReadAtEnd(n: Node, root: ObjectMeta, q: ObjectID, now: nat)
    requires NodeInv(n, [], Some(NewRoot(root))) && n.Exists() && n.Root() == root.stateRoot && Faithful(n) && q != []
    ensures IntoChangeSet(n, now).Ok? && ApplyChangeSet(IntoChangeSet(n, now).value).Ok?
    ensures Matches(Reads(n, q), StoredAfter(n, now, q), now)
  {
    ChangeSetOfTree(n, NewRoot(root), now);
    CommittedBelow(n, q, IntoChangeSet(n, now).value.globalSize, now);
    CommittedIsRead(n, [], Some(NewRoot(root)), q, now);
  }

  /** The times in a stored state: those of an object that was made, written or left alone since `before`. */
  predicate TimesFollow(before: Option<ObjectState>, c: Cell, after: ObjectState, now: nat) {
    if before.None? || c.meta.MetaFresh? then after.metadata.createdAt == now && after.metadata.updatedAt == now
    else if Written(c) then
      && after.metadata.updatedAt == now
      && after.metadata.createdAt == (if before.value.metadata.createdAt == 0 then now else before.value.metadata.createdAt)
    else
      && after.value == before.value.value
      && after.metadata.updatedAt == before.value.metadata.updatedAt
      && after.metadata.createdAt == before.value.metadata.createdAt
  }

  lemma CellTimesFollow(c: Cell, id: ObjectID, o: Option<ObjectState>, after: ObjectState, now: nat)
    requires CellInv(c, id, o) && Matches(Some(c), Some(after), now)
    ensures TimesFollow(o, c, after, now)
  {
    SettleIsStamped(c, id, o, now);
  }

  /** After every run with a right change set: an object that was not stored before, or was made anew in the run, is
      stored as created and updated now; one whose value was written as updated now and created when it was; any other
      keeps its value and both times. */
  lemma TimesAreExact(root: ObjectMeta, steps: seq<Step>, q: ObjectID, now: nat)
    requires ValidRoot(root) && Run(NewRuntime(root), steps).Ok? && Faithful(Run(NewRuntime(root), steps).value) && q != []
    ensures var n := Run(NewRuntime(root), steps).value;
            && IntoChangeSet(n, now).Ok? && ApplyChangeSet(IntoChangeSet(n, now).value).Ok?
            && (StoredAfter(n, now, q).Some? ==>
                  && Reads(n, q).Some?
                  && TimesFollow(Below(Some(NewRoot(root)), q), Reads(n, q).value, StoredAfter(n, now, q).value, now))
  {
    var n, o := Run(NewRuntime(root), steps).value, Some(NewRoot(root));
    NewRuntimeInv(root);
    RunKeeps(NewRuntime(root), [], o, steps);
    StoredIsReadAtEnd(n, root, q, now);
    if StoredAfter(n, now, q).Some? {
      ReadNodeInv(n, [], o, q);
      CellTimesFollow(Reads(n, q).value, [] + q, Below(o, q), StoredAfter(n, now, q).value, now);
    }
  }

  // ---------- a new object ----------

  lemma RunLast(n: Node, steps: seq<Step>, last: Step)
    requires Run(n, steps + [last]).Ok?
    ensures Run(n, steps).Ok? && StepAt(Run(n, steps).value, last.path, last.op) == Run(n, steps + [last])
    decreases |steps|
  {
    if steps == [] {
      assert steps + [last] == [last] && [last][1..] == [];
    } else {
      assert (steps + [last])[1..] == steps[1..] + [last] && (steps + [last])[0] == steps[0];
      RunLast(StepAt(n, steps[0].path, steps[0].op).value, steps[1..], last);
    }
  }

  lemma {:induction false} NodeAtLast(n: Node, path: ObjectID, k: FieldKey)
    ensures NodeAt(n, path + [k]) ==
            if NodeAt(n, path).Some? && k in NodeAt(n, path).value.fields then Some(NodeAt(n, path).value.fields[k]) else None
    decreases |path|
  {
    if path == [] {
      assert path + [k] == [k] && [k][1..] == [];
      assert k in n.fields ==> NodeAt(n.fields[k], []) == Some(n.fields[k]);
    } else {
      assert (path + [k])[0] == path[0] && (path + [k])[1..] == path[1..] + [k];
      if path[0] in n.fields {
        NodeAtLast(n.fields[path[0]], path[1..], k);
      }
    }
  }

  /** A field that was just added, as its object shows it. */
  lemma AddedView(n: Node, id: ObjectID, o: Option<ObjectState>, k: FieldKey, t: TypeTag, x: Bytes)
    requires NodeInv(n, id, o) && NodeStep(n, AddOp(k, t, x)).Ok?
    ensures var m := NodeStep(n, AddOp(k, t, x)).value;
            k in m.fields && View(m.fields[k].cell).content == There(Made(id + [k], t), x, true, false)
  {
    CallIsExact(n, id, o, AddOp(k, t, x));
    FieldLoads(n, id, o, k);
  }

  lemma AddedCell(n: Node, o: Option<ObjectState>, path: ObjectID, k: FieldKey, t: TypeTag, x: Bytes)
    requires NodeInv(n, [], o) && StepAt(n, path, AddOp(k, t, x)).Ok?
    ensures var m := StepAt(n, path, AddOp(k, t, x)).value;
            && NodeAt(m, path + [k]).Some?
            && View(NodeAt(m, path + [k]).value.cell).content == There(Made(path + [k], t), x, true, false)
  {
    var op := AddOp(k, t, x);
    ObjectAtInv(n, [], o, path);
    StepIsLoadThenCall(n, path, op);
    var obj := ObjectAt(n, path).value;
    AddedView(obj, [] + path, Below(o, path), k, t, x);
    ReplacedAt(LoadPath(n, path).value.0, path, NodeStep(obj, op).value);
    NodeAtLast(StepAt(n, path, op).value, path, k);
    assert [] + path == path;
  }

  lemma {:induction false} WellSizedBelow(o: ObjectState, q: ObjectID)
    requires WellSizedStore(o)
    ensures Below(Some(o), q).Some? ==> WellSizedStore(Below(Some(o), q).value)
    decreases |q|
  {
    if q != [] {
      if q[0] in o.metadata.stateRoot.fields {
        WellSizedBelow(o.metadata.stateRoot.fields[q[0]], q[1..]);
      } else {
        NothingBelow(q[1..]);
      }
    }
  }

  /** A new object's cell is stored with both times now, and without fields if none are counted. */
  lemma {:induction false} MadeIsStored(c: Cell, q: ObjectID, o: Option<ObjectState>, t: TypeTag, x: Bytes, after: ObjectState, now: nat)
    requires CellInv(c, q, o) && Matches(Some(c), Some(after), now) && WellSizedStore(after)
    requires View(c).content == There(Made(q, t), x, true, false)
    ensures after == ObjectState(Made(q, t).(createdAt := now, updatedAt := now), x)
  {
    SettleIsStamped(c, q, o, now);
    assert after.metadata.size == 0;
    assert after.metadata.stateRoot.fields == map[];
  }

  /** The store after a guarded transaction is what its runtime read at its end, and well sized. */
  lemma CommittedIsStored(root: ObjectMeta, tx: Transaction, n: Node, q: ObjectID)
    requires ReadyRoot(root) && Guarded(root, tx) && Run(NewRuntime(root), tx.steps) == Ok(n) && q != []
    ensures IntoChangeSet(n, tx.now).Ok? && ApplyChangeSet(IntoChangeSet(n, tx.now).value).Ok?
    ensures Matches(Reads(n, q), StoredAfter(n, tx.now, q), tx.now)
    ensures StoredAfter(n, tx.now, q).Some? ==> WellSizedStore(StoredAfter(n, tx.now, q).value)
  {
    FinalNode(root, tx);
    FoldIsShown(root, tx, n);
    ChangeSetExact(root, tx.steps, tx.now);
    RunRoot(root, tx.steps);
    StoredIsReadAtEnd(n, root, q, tx.now);
    NextIsReady(root, tx);
    CommitIsShown(root, tx);
    WellSizedBelow(NewRoot(ShownAfter(root, tx)), q);
  }

  lemma RunRoot(root: ObjectMeta, steps: seq<Step>)
    requires ValidRoot(root) && Run(NewRuntime(root), steps).Ok?
    ensures Run(NewRuntime(root), steps).value.Root() == root.stateRoot
  {
    NewRuntimeInv(root);
    RunKeeps(NewRuntime(root), [], Some(NewRoot(root)), steps);
  }

  /** The cell that is read where the last call of a run added a field. */
  lemma AddedAtEnd(root: ObjectMeta, steps: seq<Step>, last: Step, n: Node)
    requires ValidRoot(root) && last.op.AddOp? && Run(NewRuntime(root), steps + [last]) == Ok(n)
    requires Reads(n, last.path + [last.op.key]).Some?
    ensures var q, c := last.path + [last.op.key], Reads(n, last.path + [last.op.key]).value;
            && CellInv(c, q, Below(Some(NewRoot(root)), q))
            && View(c).content == There(Made(q, last.op.valueType), last.op.x, true, false)
  {
    var q, o := last.path + [last.op.key], Some(NewRoot(root));
    NewRuntimeInv(root);
    RunLast(NewRuntime(root), steps, last);
    RunKeeps(NewRuntime(root), [], o, steps);
    RunKeeps(NewRuntime(root), [], o, steps + [last]);
    AddedCell(Run(NewRuntime(root), steps).value, o, last.path, last.op.key, last.op.valueType, last.op.x);
    ReadsTheResident(n, q);
    NodeAtInv(n, [], o, q);
    assert [] + q == q;
  }

  /** A field added by the last call of a guarded transaction is stored, if its object is read, as a new object: the
      value and the type given, owned by the system, without fields, created and updated now. */
  lemma AddedIsStored(root: ObjectMeta, steps: seq<Step>, path: ObjectID, k: FieldKey, t: TypeTag, x: Bytes, now: nat)
    requires ReadyRoot(root) && Guarded(root, Transaction(steps + [Step(path, AddOp(k, t, x))], now))
    ensures var n, q := Run(NewRuntime(root), steps + [Step(path, AddOp(k, t, x))]).value, path + [k];
            && IntoChangeSet(n, now).Ok? && ApplyChangeSet(IntoChangeSet(n, now).value).Ok?
            && StoredAfter(n, now, q) ==
                 if Reads(n, q).Some? then Some(ObjectState(Made(q, t).(createdAt := now, updatedAt := now), x)) else None
  {
    var last := Step(path, AddOp(k, t, x));
    var q, tx := path + [k], Transaction(steps + [last], now);
    var n := Run(NewRuntime(root), tx.steps).value;
    CommittedIsStored(root, tx, n, q);
    if Reads(n, q).Some? {
      AddedAtEnd(root, steps, last, n);
      MadeIsStored(Reads(n, q).value, q, Below(Some(NewRoot(root)), q), t, x, StoredAfter(n, now, q).value, now);
    }
  }
}

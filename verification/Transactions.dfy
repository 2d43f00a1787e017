/** Transactions one after the other, each on the store the one before has left. */
module Transactions {
  import opened Common
  import opened GlobalValues
  import opened StateStore
  import opened RuntimeNode
  import opened RuntimeInvariant
  import opened ChangeSet
  import opened SizeAccounting
  import opened Soundness

  /** The calls of a transaction, and its time. */
  datatype Transaction = Transaction(steps: seq<Step>, now: nat)

  /** Run the transaction, fold its runtime, apply the change set: the next root. */
  function Commit(root: ObjectMeta, t: Transaction): Result<ObjectMeta, StatusCode> {
    var n :- Run(NewRuntime(root), t.steps);
    var cs :- IntoChangeSet(n, t.now);
    var stateRoot :- ApplyChangeSet(cs);
    Ok(RootMetadata(stateRoot, cs.globalSize))
  }

  function CommitAll(root: ObjectMeta, ts: seq<Transaction>): Result<ObjectMeta, StatusCode>
    decreases |ts|
  {
    if ts == [] then Ok(root)
    else
      var next :- Commit(root, ts[0]);
      CommitAll(next, ts[1..])
  }

  /** The root of the tree that the transaction's runtime was showing at its end. */
  function ShownAfter(root: ObjectMeta, t: Transaction): ObjectMeta
    requires Run(NewRuntime(root), t.steps).Ok?
  {
    var n := Run(NewRuntime(root), t.steps).value;
    RootMetadata(CommittedRoot(n, t.now), if n.cell.meta.Live() then n.cell.meta.mv.metadata.size else 0)
  }

  /** The transaction succeeds, removes only objects without fields, and removes no field twice. */
  predicate Guarded(root: ObjectMeta, t: Transaction) {
    && Run(NewRuntime(root), t.steps).Ok?
    && RunSatisfies(NewRuntime(root), t.steps, GuardedOp) && RunSatisfies(NewRuntime(root), t.steps, FirstRemoval)
  }

  predicate AllGuarded(root: ObjectMeta, ts: seq<Transaction>)
    decreases |ts|
  {
    ts == [] || (Guarded(root, ts[0]) && AllGuarded(ShownAfter(root, ts[0]), ts[1..]))
  }

  function ShownAfterAll(root: ObjectMeta, ts: seq<Transaction>): ObjectMeta
    requires AllGuarded(root, ts)
    decreases |ts|
  {
    if ts == [] then root else ShownAfterAll(ShownAfter(root, ts[0]), ts[1..])
  }

  /** A store a transaction may start from: objects carry the ids of their paths and the numbers of their fields. */
  ghost predicate ReadyRoot(root: ObjectMeta) {
    ValidRoot(root) && WellSizedStore(NewRoot(root))
  }

  // ---------- what is committed is ready again ----------

  lemma CommittedField(n: Node, k: FieldKey, now: nat)
    requires k in CommittedRoot(n, now).fields
    ensures if k in n.fields then Committed(n.fields[k], now) == Some(CommittedRoot(n, now).fields[k])
            else k in n.Root().fields && CommittedRoot(n, now).fields[k] == n.Root().fields[k]
  {
    assert k in n.fields ==> CommittedFields(n, now)[k] == Committed(n.fields[k], now);
  }

  lemma {:induction false} CommittedIsIdentified(n: Node, id: ObjectID, o: Option<ObjectState>, now: nat)
    requires NodeInv(n, id, o) && Committed(n, now).Some?
    ensures WellIdentified(Committed(n, now).value, id)
    decreases n
  {
    var fields := CommittedRoot(n, now).fields;
    forall k | k in fields ensures WellIdentified(fields[k], id + [k]) {
      CommittedField(n, k, now);
      if k in n.fields {
        CommittedIsIdentified(n.fields[k], id + [k], FieldOf(o, k), now);
      } else {
        UnloadedIsIdentified(n, id, o, k);
      }
    }
  }

  lemma UnloadedIsIdentified(n: Node, id: ObjectID, o: Option<ObjectState>, k: FieldKey)
    requires NodeInv(n, id, o) && n.cell.meta.Live() && k in n.Root().fields
    ensures WellIdentified(n.Root().fields[k], id + [k])
  {}

  lemma {:induction false} CommittedIsSized(n: Node, id: ObjectID, o: Option<ObjectState>, now: nat)
    requires NodeInv(n, id, o) && WellSized(n) && Committed(n, now).Some?
    ensures WellSizedStore(Committed(n, now).value)
    decreases n
  {
    var fields := CommittedRoot(n, now).fields;
    ShownKeysAreCommitted(n, id, o, now);
    assert |fields| == |fields.Keys|;
    forall k | k in fields ensures WellSizedStore(fields[k]) {
      CommittedField(n, k, now);
      if k in n.fields {
        CommittedIsSized(n.fields[k], id + [k], FieldOf(o, k), now);
      }
    }
  }

  lemma RootIsReady(o: ObjectState, root: ObjectMeta)
    requires WellIdentified(o, []) && WellSizedStore(o)
    requires root == RootMetadata(o.metadata.stateRoot, o.metadata.size)
    ensures ReadyRoot(root)
  {
    var fields := o.metadata.stateRoot.fields;
    assert NewRoot(root).metadata.stateRoot.fields == fields;
    assert forall k :: k in fields ==> WellIdentified(fields[k], [] + [k]) && WellSizedStore(fields[k]);
  }

  /** The final node of a guarded transaction. */
  lemma FinalNode(root: ObjectMeta, t: Transaction)
    requires ReadyRoot(root) && Guarded(root, t)
    ensures var n := Run(NewRuntime(root), t.steps).value;
            NodeInv(n, [], Some(NewRoot(root))) && n.Exists() && n.cell.meta.Live() && WellSized(n)
  {
    NewRuntimeInv(root);
    ResidentWellSized(Some(NewRoot(root)), []);
    RunWellSized(NewRuntime(root), [], Some(NewRoot(root)), t.steps);
    RunKeeps(NewRuntime(root), [], Some(NewRoot(root)), t.steps);
  }

  lemma NextIsReady(root: ObjectMeta, t: Transaction)
    requires ReadyRoot(root) && Guarded(root, t)
    ensures ReadyRoot(ShownAfter(root, t))
  {
    FinalNode(root, t);
    var n, o := Run(NewRuntime(root), t.steps).value, Some(NewRoot(root));
    CommittedIsIdentified(n, [], o, t.now);
    CommittedIsSized(n, [], o, t.now);
    RootIsReady(Committed(n, t.now).value, ShownAfter(root, t));
  }

  lemma FoldIsShown(root: ObjectMeta, t: Transaction, n: Node)
    requires ReadyRoot(root) && Guarded(root, t) && Run(NewRuntime(root), t.steps) == Ok(n)
    ensures n.cell.meta.Live() && IntoChangeSet(n, t.now).Ok?
    ensures IntoChangeSet(n, t.now).value.globalSize == n.cell.meta.mv.metadata.size
    ensures ApplyChangeSet(IntoChangeSet(n, t.now).value) == Ok(CommittedRoot(n, t.now))
  {
    FinalNode(root, t);
    GuardedRunIsSound(root, t.steps, t.now);
    IntoChangeSucceeds(n, [], Some(NewRoot(root)), t.now);
    ChangeSetParts(n, NewRoot(root), t.now);
  }

  lemma CommitIsShown(root: ObjectMeta, t: Transaction)
    requires ReadyRoot(root) && Guarded(root, t)
    ensures Commit(root, t) == Ok(ShownAfter(root, t))
  {
    var n := Run(NewRuntime(root), t.steps).value;
    FoldIsShown(root, t, n);
    CommitParts(root, t, n, IntoChangeSet(n, t.now).value, CommittedRoot(n, t.now));
  }

  /** The next transaction's root: shared, of the root's type, owned by address 2, and as large as it has fields. */
  lemma NextRoot(root: ObjectMeta, t: Transaction)
    requires ReadyRoot(root) && Guarded(root, t)
    ensures Commit(root, t).Ok?
    ensures var next := Commit(root, t).value;
            && next.id == [] && next.objectType == ROOT_TYPE && next.flag == ObjectFlag(true, false)
            && next.owner == MOVEOS_STD_ADDRESS
            && next.size == |next.stateRoot.fields| && !next.IsEmbedded()
  {
    CommitIsShown(root, t);
    NextIsReady(root, t);
    var next := ShownAfter(root, t);
    assert WellSizedStore(NewRoot(next));
    assert |next.stateRoot.fields| == |NewRoot(next).metadata.stateRoot.fields|;
  }

  lemma CommitParts(root: ObjectMeta, t: Transaction, n: Node, cs: StateChangeSet, stateRoot: StateTree)
    requires Run(NewRuntime(root), t.steps) == Ok(n) && IntoChangeSet(n, t.now) == Ok(cs)
    requires ApplyChangeSet(cs) == Ok(stateRoot)
    ensures Commit(root, t) == Ok(RootMetadata(stateRoot, cs.globalSize))
  {}

  /** Over any sequence of guarded transactions every commit succeeds and stores exactly the tree its runtime was
      showing, and the last root is one the next transaction may start from. */
  lemma {:induction false} CommitsAreShown(root: ObjectMeta, ts: seq<Transaction>)
    requires ReadyRoot(root) && AllGuarded(root, ts)
    ensures CommitAll(root, ts) == Ok(ShownAfterAll(root, ts)) && ReadyRoot(ShownAfterAll(root, ts))
    decreases |ts|
  {
    if ts != [] {
      CommitIsShown(root, ts[0]);
      NextIsReady(root, ts[0]);
      CommitsAreShown(ShownAfter(root, ts[0]), ts[1..]);
    }
  }
}

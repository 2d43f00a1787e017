/** The change set of a whole run: exactly when it is the right diff, the runs for which it always is, and the two
    kinds of run for which it is not. */
module Soundness {
  import opened Common
  import opened TypeTags
  import opened StateStore
  import opened RuntimeNode
  import opened RuntimeInvariant
  import opened ChangeSet

  /** The change set carries the fields' changes, under the root object's own state root and size. */
  lemma ChangeSetParts(n: Node, o: ObjectState, now: nat)
    requires NodeInv(n, [], Some(o)) && n.Exists() && FieldChanges(n, now).Ok? && IntoChange(n, now).Ok?
    ensures IntoChangeSet(n, now) ==
            Ok(StateChangeSet(n.Root(), n.cell.meta.mv.metadata.size, FieldChanges(n, now).value))
  {
    SettleIsStamped(n.cell, [], Some(o), now);
  }

  /** The change set of a reachable tree is the right diff exactly when the tree is faithful. */
  lemma ChangeSetOfTree(n: Node, o: ObjectState, now: nat)
    requires NodeInv(n, [], Some(o)) && n.Exists() && n.Root() == o.metadata.stateRoot
    ensures IntoChangeSet(n, now).Ok?
    ensures var cs := IntoChangeSet(n, now).value;
            && cs.stateRoot == o.metadata.stateRoot && cs.globalSize == n.cell.meta.mv.metadata.size
            && ApplyChangeSet(cs).Ok?
            && (ApplyChangeSet(cs).value == CommittedRoot(n, now) <==> Faithful(n))
  {
    IntoChangeSucceeds(n, [], Some(o), now);
    ChangeSetParts(n, o, now);
    var cs := IntoChangeSet(n, now).value;
    var root := RootMetadata(cs.stateRoot, cs.globalSize);
    forall k | k in n.fields ensures GetObject(root, [] + [k]) == FieldOf(Some(o), k) {
      assert [] + [k] == [k] && Parent([k]) == [];
    }
    AllFieldChangesApply(root, n, [], Some(o), now);
    FieldChangesApply(root, n, ObjectChange(root, None, cs.changes), now);
    RootsAgree(root, n, [], Some(o), now);
  }

  /** For every run, applying its change set to the starting store gives the tree the runtime was showing, with its
      stamps, if and only if the final tree is faithful. */
  lemma ChangeSetExact(root: ObjectMeta, steps: seq<Step>, now: nat)
    requires ValidRoot(root) && Run(NewRuntime(root), steps).Ok?
    ensures var n := Run(NewRuntime(root), steps).value;
            && IntoChangeSet(n, now).Ok? && ApplyChangeSet(IntoChangeSet(n, now).value).Ok?
            && (ApplyChangeSet(IntoChangeSet(n, now).value).value == CommittedRoot(n, now) <==> Faithful(n))
  {
    NewRuntimeInv(root);
    RunKeeps(NewRuntime(root), [], Some(NewRoot(root)), steps);
    ChangeSetOfTree(Run(NewRuntime(root), steps).value, NewRoot(root), now);
  }

  /** The store at `q` once the change set has been applied. */
  function StoredAfter(n: Node, now: nat, q: ObjectID): Option<ObjectState>
    requires IntoChangeSet(n, now).Ok? && ApplyChangeSet(IntoChangeSet(n, now).value).Ok?
  {
    var cs := IntoChangeSet(n, now).value;
    Below(Some(NewRoot(RootMetadata(ApplyChangeSet(cs).value, cs.globalSize))), q)
  }

  // ---------- careful runs ----------

  /** No object below a field that is about to be filled. */
  predicate NoFieldExists(n: Node) {
    forall k :: k in n.fields ==> !n.fields[k].Exists()
  }

  /** The resident field `key` was removed from the store's copy and added again. */
  predicate Readded(n: Node, key: FieldKey) {
    key in n.fields && n.fields[key].cell.meta.MetaFresh? && n.fields[key].cell.value.GvCached?
  }

  predicate Fillable(n: Node, key: FieldKey) {
    key in n.fields && !n.fields[key].Exists() ==> NoFieldExists(n.fields[key])
  }

  predicate CarefulModule(package: Node, p: Publication, isRepublishing: bool) {
    if isRepublishing && p.moduleKey in package.fields then NoFieldExists(package.fields[p.moduleKey])
    else Fillable(package, p.moduleKey)
  }

  /** A call that removes no field it has added back, and adds no field back over objects it still shows. */
  predicate CarefulOp(n: Node, op: NodeOp) {
    match op
    case RemoveOp(k, _) => !Readded(n, k)
    case AddOp(k, _, _) => Fillable(n, k)
    case PublishOp(p, r) =>
      && Fillable(n, p.packageKey)
      && (p.packageKey in n.fields ==> CarefulModule(n.fields[p.packageKey], p, r))
    case _ => true
  }

  /** Under every object that exists, a forgotten child has nothing stored, and an untouched one still does. */
  predicate TidyChild(child: Node, base: Option<ObjectState>)
    decreases child, 1
  {
    && (child.cell.meta.MetaNone? ==> base.None?)
    && (child.cell.meta.MetaCached? ==> base.Some?)
    && (child.Exists() ==> Tidy(child))
  }

  predicate Tidy(n: Node)
    decreases n, 0
  {
    forall k :: k in n.fields ==> TidyChild(n.fields[k], GetFieldAt(n.Root(), k))
  }

  lemma {:induction false} TidyIsFaithful(n: Node)
    requires Tidy(n)
    ensures Faithful(n)
    decreases n
  {
    forall k | k in n.fields ensures FaithfulChild(n.fields[k], GetFieldAt(n.Root(), k)) {
      if n.fields[k].Exists() {
        TidyIsFaithful(n.fields[k]);
      }
    }
  }

  lemma LoadFieldTidy(n: Node, key: FieldKey)
    requires Tidy(n) && LoadField(n, key).Ok?
    ensures Tidy(LoadField(n, key).value.0)
  {
    var n1 := LoadField(n, key).value.0;
    forall k | k in n1.fields ensures TidyChild(n1.fields[k], GetFieldAt(n1.Root(), k)) {
      if k in n.fields {
        assert n1.fields[k] == n.fields[k];
      }
    }
  }

  lemma WithChildTidy(n: Node, key: FieldKey, child: Node)
    requires Tidy(n) && key in n.fields && TidyChild(child, GetFieldAt(n.Root(), key))
    ensures Tidy(n.(fields := n.fields[key := child]))
  {
    var n1 := n.(fields := n.fields[key := child]);
    forall k | k in n1.fields ensures TidyChild(n1.fields[k], GetFieldAt(n1.Root(), k)) {
      assert k != key ==> n1.fields[k] == n.fields[k];
    }
  }

  lemma WithCellTidy(n: Node, c: Cell)
    requires Tidy(n) && c.meta.Root() == n.Root()
    ensures Tidy(n.(cell := c))
  {
    var n1 := n.(cell := c);
    forall k | k in n1.fields ensures TidyChild(n1.fields[k], GetFieldAt(n1.Root(), k)) {
      assert n1.fields[k] == n.fields[k];
    }
  }

  /** A field filled over nothing that exists reads from nowhere and shows nothing left over. */
  lemma FilledTidy(n: Node, id: ObjectID, o: Option<ObjectState>, c: Cell)
    requires NodeInv(n, id, o) && NoFieldExists(n)
    requires StartsEmpty(c)
    ensures forall base :: TidyChild(n.(cell := c), base)
  {
    var n1 := n.(cell := c);
    forall k | k in n1.fields ensures TidyChild(n1.fields[k], GetFieldAt(n1.Root(), k)) {
      assert !n.fields[k].Exists() && NodeInv(n.fields[k], id + [k], FieldOf(o, k));
    }
  }

  lemma AddFieldTidy(n: Node, id: ObjectID, o: Option<ObjectState>, k: FieldKey, t: TypeTag, x: Bytes)
    requires NodeInv(n, id, o) && Tidy(n) && AddField(n, k, t, x).Ok? && Fillable(n, k)
    ensures Tidy(AddField(n, k, t, x).value)
  {
    LoadFieldKeeps(n, id, o, k);
    LoadFieldTidy(n, k);
    var n1 := LoadField(n, k).value.0;
    var c := FillCell(n1.fields[k].cell, t, x).value;
    FillCellKeeps(n1.fields[k].cell, id + [k], FieldOf(o, k), t, x);
    FilledTidy(n1.fields[k], id + [k], FieldOf(o, k), c);
    WithChildTidy(n1, k, n1.fields[k].(cell := c));
    WithCellTidy(WithFieldCell(n1, k, c), AddField(n, k, t, x).value.cell);
  }

  lemma RemoveFieldTidy(n: Node, id: ObjectID, o: Option<ObjectState>, k: FieldKey, t: TypeTag)
    requires NodeInv(n, id, o) && Tidy(n) && RemoveField(n, k, t).Ok? && !Readded(n, k)
    ensures Tidy(RemoveField(n, k, t).value)
  {
    LoadFieldKeeps(n, id, o, k);
    LoadFieldTidy(n, k);
    var n1 := LoadField(n, k).value.0;
    var c := EmptyCell(n1.fields[k].cell, t).value;
    MoveFromKeeps(n1.fields[k].cell, id + [k], FieldOf(o, k), Some(t));
    assert c.meta.MetaNone? ==> GetFieldAt(n1.Root(), k) == None;
    WithChildTidy(n1, k, n1.fields[k].(cell := c));
    WithCellTidy(WithFieldCell(n1, k, c), RemoveField(n, k, t).value.cell);
  }

  lemma WriteFieldTidy(n: Node, k: FieldKey, t: TypeTag, x: Bytes)
    requires Tidy(n) && WriteField(n, k, t, x).Ok?
    ensures Tidy(WriteField(n, k, t, x).value)
  {
    LoadFieldTidy(n, k);
    var n1 := LoadField(n, k).value.0;
    var c := n1.fields[k].cell.WriteValue(Some(t), x).value;
    WithCellTidy(n1.fields[k], c);
    WithChildTidy(n1, k, n1.fields[k].(cell := c));
  }

  lemma PackageTidy(n: Node, id: ObjectID, o: Option<ObjectState>, p: Publication)
    requires NodeInv(n, id, o) && Tidy(n) && LoadOrCreatePackage(n, p).Ok? && Fillable(n, p.packageKey)
    ensures Tidy(LoadOrCreatePackage(n, p).value) && LoadOrCreatePackage(n, p).value.fields[p.packageKey].Exists()
    ensures p.packageKey in n.fields ==>
              LoadOrCreatePackage(n, p).value.fields[p.packageKey].fields == n.fields[p.packageKey].fields
    ensures p.packageKey !in n.fields ==> LoadOrCreatePackage(n, p).value.fields[p.packageKey].fields == map[]
  {
    var key := p.packageKey;
    LoadFieldKeeps(n, id, o, key);
    LoadFieldTidy(n, key);
    var n0 := LoadField(n, key).value.0;
    if !n0.fields[key].Exists() {
      var c := CreatePackage(n0.fields[key].cell, p).value;
      CreatePackageKeeps(n0.fields[key].cell, id + [key], FieldOf(o, key), p);
      FilledTidy(n0.fields[key], id + [key], FieldOf(o, key), c);
      WithChildTidy(n0, key, n0.fields[key].(cell := c));
    }
  }

  lemma StoreModuleTidy(n: Node, id: ObjectID, o: Option<ObjectState>, p: Publication, isRepublishing: bool)
    requires NodeInv(n, id, o) && Tidy(n) && StoreModule(n, p, isRepublishing).Ok?
    requires CarefulModule(n, p, isRepublishing)
    ensures Tidy(StoreModule(n, p, isRepublishing).value)
  {
    var key := p.moduleKey;
    LoadFieldKeeps(n, id, o, key);
    LoadFieldTidy(n, key);
    var n1 := LoadField(n, key).value.0;
    var c := ReplaceModule(n1.fields[key].cell, p, isRepublishing).value;
    ReplaceModuleKeeps(n1.fields[key].cell, id + [key], FieldOf(o, key), p, isRepublishing);
    FilledTidy(n1.fields[key], id + [key], FieldOf(o, key), c);
    WithChildTidy(n1, key, n1.fields[key].(cell := c));
    WithCellTidy(WithFieldCell(n1, key, c), StoreModule(n, p, isRepublishing).value.cell);
  }

  predicate SameKind(c: Cell, d: Cell) {
    && c.meta.MetaNone? == d.meta.MetaNone? && c.meta.MetaFresh? == d.meta.MetaFresh?
    && c.meta.MetaCached? == d.meta.MetaCached?
  }

  lemma SameKindTidy(child: Node, after: Node, base: Option<ObjectState>)
    requires TidyChild(child, base) && Tidy(after) && SameKind(child.cell, after.cell)
    ensures TidyChild(after, base)
  {}

  lemma GrowKeepsKind(n: Node)
    requires GrowNode(n).Ok?
    ensures SameKind(n.cell, GrowNode(n).value.cell)
  {}

  lemma StoreModuleKeepsKind(n: Node, p: Publication, isRepublishing: bool)
    requires StoreModule(n, p, isRepublishing).Ok?
    ensures SameKind(n.cell, StoreModule(n, p, isRepublishing).value.cell)
  {
    var n1 := LoadField(n, p.moduleKey).value.0;
    var c := ReplaceModule(n1.fields[p.moduleKey].cell, p, isRepublishing).value;
    if !isRepublishing {
      GrowKeepsKind(WithFieldCell(n1, p.moduleKey, c));
    }
  }

  /** Storing a module in a package of the module store `n`. */
  lemma StoreInPackageTidy(n: Node, id: ObjectID, o: Option<ObjectState>, p: Publication, isRepublishing: bool)
    requires NodeInv(n, id, o) && Tidy(n) && p.packageKey in n.fields && n.fields[p.packageKey].Exists()
    requires StoreModule(n.fields[p.packageKey], p, isRepublishing).Ok?
    requires CarefulModule(n.fields[p.packageKey], p, isRepublishing)
    ensures Tidy(n.(fields := n.fields[p.packageKey := StoreModule(n.fields[p.packageKey], p, isRepublishing).value]))
  {
    var key, package := p.packageKey, n.fields[p.packageKey];
    var base, after := GetFieldAt(n.Root(), key), StoreModule(package, p, isRepublishing).value;
    assert TidyChild(package, base);
    StoreModuleTidy(package, id + [key], FieldOf(o, key), p, isRepublishing);
    StoreModuleKeepsKind(package, p, isRepublishing);
    SameKindTidy(package, after, base);
    WithChildTidy(n, key, after);
  }

  lemma PublishTidy(n: Node, id: ObjectID, o: Option<ObjectState>, p: Publication, isRepublishing: bool)
    requires NodeInv(n, id, o) && Tidy(n) && PublishModule(n, p, isRepublishing).Ok?
    requires CarefulOp(n, PublishOp(p, isRepublishing))
    ensures Tidy(PublishModule(n, p, isRepublishing).value)
  {
    PublishedFields(n, p, isRepublishing);
    PackageKeeps(n, id, o, p);
    PackageTidy(n, id, o, p);
    var n1, m := LoadOrCreatePackage(n, p).value, PublishModule(n, p, isRepublishing).value;
    StoreInPackageTidy(n1, id, o, p, isRepublishing);
    var stored := n1.(fields := m.fields);
    WithCellTidy(stored, m.cell);
    assert m == stored.(cell := m.cell);
  }

  lemma CellStepKeepsKind(c: Cell, op: NodeOp)
    requires CellStep(c, op).Ok?
    ensures SameKind(c, CellStep(c, op).value)
  {}

  lemma FieldCallKeepsKind(n: Node, op: NodeOp)
    requires NodeStep(n, op).Ok? && (op.WriteOp? || op.AddOp? || op.RemoveOp?)
    ensures SameKind(n.cell, NodeStep(n, op).value.cell)
  {}

  lemma PublishKeepsKind(n: Node, p: Publication, r: bool)
    requires PublishModule(n, p, r).Ok?
    ensures SameKind(n.cell, PublishModule(n, p, r).value.cell)
  {}

  lemma NodeStepKeepsKind(n: Node, op: NodeOp)
    requires NodeStep(n, op).Ok?
    ensures SameKind(n.cell, NodeStep(n, op).value.cell)
  {
    match op
    case ReadField(_, _) =>
    case BorrowFieldOp(_, _) =>
    case WriteOp(_, _, _) => FieldCallKeepsKind(n, op);
    case AddOp(_, _, _) => FieldCallKeepsKind(n, op);
    case RemoveOp(_, _) => FieldCallKeepsKind(n, op);
    case PublishOp(p, r) => PublishKeepsKind(n, p, r);
    case _ => CellStepKeepsKind(n.cell, op);
  }

  /** A call on an object does not change the kind of its own metadata. */
  lemma StepKeepsKind(n: Node, path: ObjectID, op: NodeOp)
    requires StepAt(n, path, op).Ok?
    ensures SameKind(n.cell, StepAt(n, path, op).value.cell)
  {
    if path == [] {
      NodeStepKeepsKind(n, op);
    }
  }

  lemma NodeStepTidy(n: Node, id: ObjectID, o: Option<ObjectState>, op: NodeOp)
    requires NodeInv(n, id, o) && Tidy(n) && NodeStep(n, op).Ok? && CarefulOp(n, op)
    ensures Tidy(NodeStep(n, op).value)
  {
    match op
    case ReadField(k, _) => LoadFieldTidy(n, k);
    case BorrowFieldOp(k, _) => LoadFieldTidy(n, k);
    case WriteOp(k, t, x) => WriteFieldTidy(n, k, t, x);
    case AddOp(k, t, x) => AddFieldTidy(n, id, o, k, t, x);
    case RemoveOp(k, t) => RemoveFieldTidy(n, id, o, k, t);
    case PublishOp(p, r) => PublishTidy(n, id, o, p, r);
    case _ =>
      NodeStepKeeps(n, id, o, op);
      WithCellTidy(n, CellStep(n.cell, op).value);
  }

  lemma {:induction false} StepTidy(n: Node, id: ObjectID, o: Option<ObjectState>, path: ObjectID, op: NodeOp)
    requires NodeInv(n, id, o) && n.Exists() && Tidy(n) && StepAt(n, path, op).Ok? && StepSatisfies(n, path, op, CarefulOp)
    ensures Tidy(StepAt(n, path, op).value)
    decreases |path|
  {
    if path == [] {
      NodeStepTidy(n, id, o, op);
    } else {
      LoadFieldKeeps(n, id, o, path[0]);
      LoadFieldTidy(n, path[0]);
      var n1 := LoadField(n, path[0]).value.0;
      var child := n1.fields[path[0]];
      assert TidyChild(child, GetFieldAt(n1.Root(), path[0]));
      StepKeeps(child, id + [path[0]], FieldOf(o, path[0]), path[1..], op);
      StepKeepsKind(child, path[1..], op);
      if child.Exists() {
        StepTidy(child, id + [path[0]], FieldOf(o, path[0]), path[1..], op);
      }
      WithChildTidy(n1, path[0], StepAt(child, path[1..], op).value);
    }
  }

  lemma {:induction false} RunTidy(n: Node, id: ObjectID, o: Option<ObjectState>, steps: seq<Step>)
    requires NodeInv(n, id, o) && n.Exists() && Tidy(n) && Run(n, steps).Ok? && RunSatisfies(n, steps, CarefulOp)
    ensures Tidy(Run(n, steps).value)
    decreases |steps|
  {
    if steps != [] {
      StepKeeps(n, id, o, steps[0].path, steps[0].op);
      StepTidy(n, id, o, steps[0].path, steps[0].op);
      RunTidy(StepAt(n, steps[0].path, steps[0].op).value, id, o, steps[1..]);
    }
  }

  /** A careful run's change set is the right diff. */
  lemma CarefulRunIsSound(root: ObjectMeta, steps: seq<Step>, now: nat)
    requires ValidRoot(root) && Run(NewRuntime(root), steps).Ok? && RunSatisfies(NewRuntime(root), steps, CarefulOp)
    ensures var n := Run(NewRuntime(root), steps).value;
            IntoChangeSet(n, now).Ok? && ApplyChangeSet(IntoChangeSet(n, now).value) == Ok(CommittedRoot(n, now))
  {
    NewRuntimeInv(root);
    RunTidy(NewRuntime(root), [], Some(NewRoot(root)), steps);
    TidyIsFaithful(Run(NewRuntime(root), steps).value);
    ChangeSetExact(root, steps, now);
  }

  // ---------- the runs that lose something ----------

  /** A stored field of the root whose pointer is not at rest. */
  ghost predicate StoredField(root: ObjectMeta, k: FieldKey) {
    && ValidRoot(root) && 0 < root.size < U64_LIMIT
    && k in root.stateRoot.fields && root.stateRoot.fields[k].metadata.IsEmbedded()
  }

  /** Removing a stored field, adding it and removing it again: the runtime shows no field, the store keeps it. */
  lemma RemovingTwiceLosesTheRemoval(root: ObjectMeta, k: FieldKey, x: Bytes, now: nat)
    requires StoredField(root, k)
    ensures var t := root.stateRoot.fields[k].metadata.objectType;
            var steps := [Step([], RemoveOp(k, t)), Step([], AddOp(k, t, x)), Step([], RemoveOp(k, t))];
            && Run(NewRuntime(root), steps).Ok?
            && var n := Run(NewRuntime(root), steps).value;
            && k !in CommittedRoot(n, now).fields
            && IntoChangeSet(n, now).Ok? && ApplyChangeSet(IntoChangeSet(n, now).value).Ok?
            && ApplyChangeSet(IntoChangeSet(n, now).value).value != CommittedRoot(n, now)
  {
    var t := root.stateRoot.fields[k].metadata.objectType;
    var steps := [Step([], RemoveOp(k, t)), Step([], AddOp(k, t, x)), Step([], RemoveOp(k, t))];
    var n := NewRuntime(root);
    assert WellIdentified(root.stateRoot.fields[k], [] + [k]);
    var n1 := RemoveField(n, k, t).value;
    var n2 := AddField(n1, k, t, x).value;
    var n3 := RemoveField(n2, k, t).value;
    RunOne(n, steps[0], steps[1..]);
    RunOne(n1, steps[1], steps[2..]);
    RunOne(n2, steps[2], []);
    assert steps == [steps[0]] + steps[1..] && steps[1..] == [steps[1]] + steps[2..] && steps[2..] == [steps[2]] + [];
    assert Run(n, steps) == Ok(n3);
    assert CommittedFields(n3, now)[k] == None;
    assert n3.fields[k].cell.meta.MetaNone? && !FaithfulChild(n3.fields[k], GetFieldAt(n3.Root(), k));
    ChangeSetExact(root, steps, now);
  }

  /** Removing and adding back an object while one of its fields is resident: the runtime still shows the field, the
      store loses it. */
  lemma ReplacingLosesResidentFields(root: ObjectMeta, k: FieldKey, j: FieldKey, x: Bytes, now: nat)
    requires StoredField(root, k) && j in root.stateRoot.fields[k].metadata.stateRoot.fields
    requires root.stateRoot.fields[k].metadata.stateRoot.fields[j].metadata.IsEmbedded()
    ensures var t := root.stateRoot.fields[k].metadata.objectType;
            var steps := [Step([k], ReadField(j, None)), Step([], RemoveOp(k, t)), Step([], AddOp(k, t, x))];
            && Run(NewRuntime(root), steps).Ok?
            && var n := Run(NewRuntime(root), steps).value;
            && IntoChangeSet(n, now).Ok? && ApplyChangeSet(IntoChangeSet(n, now).value).Ok?
            && ApplyChangeSet(IntoChangeSet(n, now).value).value != CommittedRoot(n, now)
  {
    var t := root.stateRoot.fields[k].metadata.objectType;
    var steps := [Step([k], ReadField(j, None)), Step([], RemoveOp(k, t)), Step([], AddOp(k, t, x))];
    var n := NewRuntime(root);
    assert WellIdentified(root.stateRoot.fields[k], [] + [k]);
    var loaded := LoadField(n, k).value.0;
    assert [k][1..] == [];
    assert StepAt(loaded.fields[k], [], ReadField(j, None)) == Ok(LoadField(loaded.fields[k], j).value.0);
    var n1 := StepAt(n, [k], ReadField(j, None)).value;
    var n2 := RemoveField(n1, k, t).value;
    var n3 := AddField(n2, k, t, x).value;
    RunOne(n, steps[0], steps[1..]);
    RunOne(n1, steps[1], steps[2..]);
    RunOne(n2, steps[2], []);
    assert steps == [steps[0]] + steps[1..] && steps[1..] == [steps[1]] + steps[2..] && steps[2..] == [steps[2]] + [];
    assert Run(n, steps) == Ok(n3);
    var child := n3.fields[k];
    assert child.Exists() && j in child.fields && child.fields[j].Exists() && Quiet(child.fields[j]);
    assert !FaithfulChild(child.fields[j], GetFieldAt(child.Root(), j));
    assert !Faithful(child) && !FaithfulChild(child, GetFieldAt(n3.Root(), k));
    ChangeSetExact(root, steps, now);
  }
}

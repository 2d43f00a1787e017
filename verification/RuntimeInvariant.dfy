/** What every successful call keeps, at every node of the tree: the joint state of metadata, value and pointer,
    and the relation between a resident node and the stored object it came from. */
module RuntimeInvariant {
  import opened Common
  import opened TypeTags
  import opened StateStore
  import opened RuntimeNode

  /** The six pairs of metadata and value state a run can reach. */
  predicate JointState(c: Cell) {
    match c.meta
    case MetaNone(_) => c.value.GvNone? || c.value.GvDeleted?
    case MetaFresh(_) => c.value.GvFresh? || (c.value.GvCached? && c.value.dirty)
    case MetaCached(_) => c.value.GvCached?
    case MetaDeleted(_) => c.value.GvDeleted?
  }

  /** A pointer is the one of its object; it is borrowed at most once, only while at rest, and a stored pointer belongs
      to a stored value. */
  predicate PointerState(c: Cell) {
    && c.pointer.borrows <= 1
    && (c.pointer.borrows == 1 ==> c.pointer.value.Exists())
    && (c.pointer.value.Persisted() ==> c.value.Persisted())
    && (c.pointer.value.Exists() ==> c.pointer.value.v == c.meta.Id())
  }

  /** The type and the times of creation and update are the same. */
  predicate SameStamps(a: ObjectMeta, b: ObjectMeta) {
    a.objectType == b.objectType && a.createdAt == b.createdAt && a.updatedAt == b.updatedAt
  }

  /** A cell that was loaded from `o` still has o's fields, type and times, and until dirtied its metadata and value. */
  predicate LoadedFrom(c: Cell, o: ObjectState) {
    match c.meta
    case MetaCached(mv) =>
      && mv.metadata.stateRoot == o.metadata.stateRoot && SameStamps(mv.metadata, o.metadata)
      && (!mv.dirty ==> mv.metadata == o.metadata)
      && (c.value.GvCached? && !c.value.dirty ==> c.value.v == o.value)
    case MetaDeleted(mv) => mv.metadata.stateRoot == o.metadata.stateRoot
    case MetaFresh(mv) => mv.metadata.stateRoot == GENESIS_STATE_ROOT
    case MetaNone(_) => true
  }

  /** The object was made in this run: no stored fields, no times yet. */
  predicate Unstored(m: ObjectMeta) {
    m.stateRoot == GENESIS_STATE_ROOT && m.createdAt == 0 && m.updatedAt == 0
  }

  /** `o` is the stored object at `id`, if any. */
  predicate CellInv(c: Cell, id: ObjectID, o: Option<ObjectState>) {
    && c.meta.Id() == id
    && JointState(c)
    && PointerState(c)
    && (c.value.Persisted() ==> o.Some? && LoadedFrom(c, o.value))
    && (c.meta.MetaFresh? ==> Unstored(c.meta.mv.metadata))
  }

  ghost predicate NodeInv(n: Node, id: ObjectID, o: Option<ObjectState>) {
    && CellInv(n.cell, id, o)
    && (o.Some? ==> WellIdentified(o.value, id))
    && forall k :: k in n.fields ==>
         && NodeInv(n.fields[k], id + [k], FieldOf(o, k))
         && (!n.fields[k].cell.value.Persisted() ==> GetFieldAt(n.Root(), k) == None)
  }

  /** What a call on an object never changes about it. */
  predicate SameOrigin(c: Cell, d: Cell) {
    c.meta.Id() == d.meta.Id() && c.value.Persisted() == d.value.Persisted()
  }

  /** A value that just moved in: no stored fields and none counted. */
  predicate StartsEmpty(c: Cell) {
    c.meta.MetaFresh? && c.meta.Root() == GENESIS_STATE_ROOT && c.meta.mv.metadata.size == 0
  }

  // ---------- calls on one cell ----------

  lemma MoveToKeeps(c: Cell, id: ObjectID, o: Option<ObjectState>, x: Bytes, t: TypeTag)
    requires CellInv(c, id, o) && c.MoveTo(x, t).Ok?
    ensures CellInv(c.MoveTo(x, t).value, id, o) && SameOrigin(c, c.MoveTo(x, t).value)
    ensures StartsEmpty(c.MoveTo(x, t).value) && !c.Exists() && c.MoveTo(x, t).value.Exists()
  {}

  lemma MoveFromKeeps(c: Cell, id: ObjectID, o: Option<ObjectState>, t: Option<TypeTag>)
    requires CellInv(c, id, o) && c.MoveFrom(t).Ok?
    ensures CellInv(c.MoveFrom(t).value.0, id, o) && SameOrigin(c, c.MoveFrom(t).value.0)
    ensures c.Exists() && !c.MoveFrom(t).value.0.Exists()
  {}

  lemma WriteKeeps(c: Cell, id: ObjectID, o: Option<ObjectState>, t: Option<TypeTag>, x: Bytes)
    requires CellInv(c, id, o) && c.WriteValue(t, x).Ok?
    ensures CellInv(c.WriteValue(t, x).value, id, o) && SameOrigin(c, c.WriteValue(t, x).value)
    ensures c.Exists() && c.WriteValue(t, x).value.Exists()
  {}

  lemma CellStepKeeps(c: Cell, id: ObjectID, o: Option<ObjectState>, op: NodeOp)
    requires CellInv(c, id, o) && CellStep(c, op).Ok?
    ensures CellInv(CellStep(c, op).value, id, o) && SameOrigin(c, CellStep(c, op).value)
    ensures CellStep(c, op).value.Exists() == c.Exists() && CellStep(c, op).value.meta.Root() == c.meta.Root()
  {}

  lemma FillCellKeeps(c: Cell, id: ObjectID, o: Option<ObjectState>, t: TypeTag, x: Bytes)
    requires CellInv(c, id, o) && FillCell(c, t, x).Ok?
    ensures CellInv(FillCell(c, t, x).value, id, o) && SameOrigin(c, FillCell(c, t, x).value)
    ensures StartsEmpty(FillCell(c, t, x).value) && !c.Exists() && FillCell(c, t, x).value.Exists()
  {
    MoveToKeeps(c, id, o, x, t);
    CellStepKeeps(c.MoveTo(x, t).value, id, o, TakeOp(Some(t)));
  }

  lemma CreatePackageKeeps(c: Cell, id: ObjectID, o: Option<ObjectState>, p: Publication)
    requires CellInv(c, id, o) && CreatePackage(c, p).Ok?
    ensures CellInv(CreatePackage(c, p).value, id, o) && SameOrigin(c, CreatePackage(c, p).value)
    ensures StartsEmpty(CreatePackage(c, p).value) && !c.Exists() && CreatePackage(c, p).value.Exists()
  {
    MoveToKeeps(c, id, o, p.emptyPackage, p.packageType);
  }

  lemma ReplaceModuleKeeps(c: Cell, id: ObjectID, o: Option<ObjectState>, p: Publication, isRepublishing: bool)
    requires CellInv(c, id, o) && ReplaceModule(c, p, isRepublishing).Ok?
    ensures var d := ReplaceModule(c, p, isRepublishing).value;
            && CellInv(d, id, o) && SameOrigin(c, d)
            && StartsEmpty(d) && d.Exists() && c.Exists() == isRepublishing
  {
    var emptied := c;
    if isRepublishing {
      MoveFromKeeps(c, id, o, Some(p.moduleType));
      emptied := EmptyCell(c, p.moduleType).value;
    }
    MoveToKeeps(emptied, id, o, p.moduleValue, p.moduleType);
  }

  lemma LoadFieldKeeps(n: Node, id: ObjectID, o: Option<ObjectState>, key: FieldKey)
    requires NodeInv(n, id, o) && LoadField(n, key).Ok?
    ensures NodeInv(LoadField(n, key).value.0, id, o)
  {
    var n1 := LoadField(n, key).value.0;
    if key !in n.fields {
      var base := GetFieldAt(n.Root(), key);
      assert n.cell.value.Persisted() && !n.cell.meta.MetaFresh? ==> base == FieldOf(o, key);
      assert base.Some? ==> base == FieldOf(o, key) && WellIdentified(base.value, id + [key]);
      assert NodeInv(Resident(base, id + [key]), id + [key], FieldOf(o, key));
    }
  }

  // ---------- calls on the tree ----------

  /** A call on an object decides neither whether it exists nor where its fields are read from. */
  predicate StaysPut(c: Cell, d: Cell) {
    SameOrigin(c, d) && d.Exists() == c.Exists() && d.meta.Root() == c.meta.Root()
  }

  lemma WithChildKeeps(n: Node, id: ObjectID, o: Option<ObjectState>, key: FieldKey, child: Node)
    requires NodeInv(n, id, o) && key in n.fields
    requires NodeInv(child, id + [key], FieldOf(o, key)) && SameOrigin(n.fields[key].cell, child.cell)
    ensures NodeInv(n.(fields := n.fields[key := child]), id, o)
  {
    var n1 := n.(fields := n.fields[key := child]);
    forall k | k in n1.fields
      ensures NodeInv(n1.fields[k], id + [k], FieldOf(o, k))
      ensures !n1.fields[k].cell.value.Persisted() ==> GetFieldAt(n1.Root(), k) == None
    {
      assert k in n.fields;
    }
  }

  lemma WithFieldCellKeeps(n: Node, id: ObjectID, o: Option<ObjectState>, key: FieldKey, c: Cell)
    requires NodeInv(n, id, o) && key in n.fields
    requires CellInv(c, id + [key], FieldOf(o, key)) && SameOrigin(n.fields[key].cell, c)
    requires n.fields[key].Root() == c.meta.Root() || c.meta.Root() == GENESIS_STATE_ROOT
    ensures NodeInv(WithFieldCell(n, key, c), id, o)
  {
    var child := n.fields[key].(cell := c);
    assert NodeInv(n.fields[key], id + [key], FieldOf(o, key));
    assert forall k :: k in child.fields ==> NodeInv(child.fields[k], id + [key] + [k], FieldOf(FieldOf(o, key), k));
    WithChildKeeps(n, id, o, key, child);
  }

  /** A node whose own cell changed without moving its root. */
  lemma WithCellKeeps(n: Node, id: ObjectID, o: Option<ObjectState>, c: Cell)
    requires NodeInv(n, id, o) && CellInv(c, id, o) && c.meta.Root() == n.Root()
    ensures NodeInv(n.(cell := c), id, o)
  {
    var n1 := n.(cell := c);
    forall k | k in n1.fields
      ensures NodeInv(n1.fields[k], id + [k], FieldOf(o, k))
      ensures !n1.fields[k].cell.value.Persisted() ==> GetFieldAt(n1.Root(), k) == None
    {
      assert k in n.fields;
    }
  }

  lemma GrowKeeps(n: Node, id: ObjectID, o: Option<ObjectState>)
    requires NodeInv(n, id, o) && GrowNode(n).Ok?
    ensures NodeInv(GrowNode(n).value, id, o) && StaysPut(n.cell, GrowNode(n).value.cell)
  {
    WithCellKeeps(n, id, o, GrowNode(n).value.cell);
  }

  lemma ShrinkKeeps(n: Node, id: ObjectID, o: Option<ObjectState>)
    requires NodeInv(n, id, o) && ShrinkNode(n).Ok?
    ensures NodeInv(ShrinkNode(n).value, id, o) && StaysPut(n.cell, ShrinkNode(n).value.cell)
  {
    WithCellKeeps(n, id, o, ShrinkNode(n).value.cell);
  }

  lemma PackageKeeps(n: Node, id: ObjectID, o: Option<ObjectState>, p: Publication)
    requires NodeInv(n, id, o) && LoadOrCreatePackage(n, p).Ok?
    ensures NodeInv(LoadOrCreatePackage(n, p).value, id, o)
    ensures LoadOrCreatePackage(n, p).value.cell == n.cell
  {
    LoadFieldKeeps(n, id, o, p.packageKey);
    var n0 := LoadField(n, p.packageKey).value.0;
    if !n0.fields[p.packageKey].Exists() {
      var c := n0.fields[p.packageKey].cell;
      CreatePackageKeeps(c, id + [p.packageKey], FieldOf(o, p.packageKey), p);
      WithFieldCellKeeps(n0, id, o, p.packageKey, CreatePackage(c, p).value);
    }
  }

  lemma PackageInPlace(n: Node, id: ObjectID, o: Option<ObjectState>, p: Publication)
    requires NodeInv(n, id, o) && LoadOrCreatePackage(n, p).Ok?
    ensures LoadOrCreatePackage(n, p).value.fields[p.packageKey].Exists()
    ensures !n.cell.meta.MetaNone?
  {
    LoadFieldKeeps(n, id, o, p.packageKey);
    var n0 := LoadField(n, p.packageKey).value.0;
    if !n0.fields[p.packageKey].Exists() {
      CreatePackageKeeps(n0.fields[p.packageKey].cell, id + [p.packageKey], FieldOf(o, p.packageKey), p);
    }
  }

  lemma StoreModuleKeeps(package: Node, id: ObjectID, o: Option<ObjectState>, p: Publication, isRepublishing: bool)
    requires NodeInv(package, id, o) && StoreModule(package, p, isRepublishing).Ok?
    ensures NodeInv(StoreModule(package, p, isRepublishing).value, id, o)
    ensures StaysPut(package.cell, StoreModule(package, p, isRepublishing).value.cell)
  {
    LoadFieldKeeps(package, id, o, p.moduleKey);
    var package1 := LoadField(package, p.moduleKey).value.0;
    var c := package1.fields[p.moduleKey].cell;
    ReplaceModuleKeeps(c, id + [p.moduleKey], FieldOf(o, p.moduleKey), p, isRepublishing);
    var d := ReplaceModule(c, p, isRepublishing).value;
    WithFieldCellKeeps(package1, id, o, p.moduleKey, d);
    if !isRepublishing {
      GrowKeeps(WithFieldCell(package1, p.moduleKey, d), id, o);
    }
  }

  lemma PublishKeeps(n: Node, id: ObjectID, o: Option<ObjectState>, p: Publication, isRepublishing: bool)
    requires NodeInv(n, id, o) && PublishModule(n, p, isRepublishing).Ok?
    ensures NodeInv(PublishModule(n, p, isRepublishing).value, id, o)
    ensures StaysPut(n.cell, PublishModule(n, p, isRepublishing).value.cell)
  {
    PackageKeeps(n, id, o, p);
    var n1 := LoadOrCreatePackage(n, p).value;
    StoreModuleKeeps(n1.fields[p.packageKey], id + [p.packageKey], FieldOf(o, p.packageKey), p, isRepublishing);
    var package := StoreModule(n1.fields[p.packageKey], p, isRepublishing).value;
    WithChildKeeps(n1, id, o, p.packageKey, package);
    var n2 := n1.(fields := n1.fields[p.packageKey := package]);
    if !HasField(n, p.packageKey) {
      GrowKeeps(n2, id, o);
    }
  }

  lemma PublishedFields(n: Node, p: Publication, r: bool)
    requires PublishModule(n, p, r).Ok?
    ensures LoadOrCreatePackage(n, p).Ok?
    ensures var n1 := LoadOrCreatePackage(n, p).value;
            && StoreModule(n1.fields[p.packageKey], p, r).Ok?
            && PublishModule(n, p, r).value.fields ==
                 n1.fields[p.packageKey := StoreModule(n1.fields[p.packageKey], p, r).value]
            && PublishModule(n, p, r).value.Root() == n1.Root()
  {}

  lemma AddFieldKeeps(n: Node, id: ObjectID, o: Option<ObjectState>, k: FieldKey, t: TypeTag, x: Bytes)
    requires NodeInv(n, id, o) && AddField(n, k, t, x).Ok?
    ensures NodeInv(AddField(n, k, t, x).value, id, o) && StaysPut(n.cell, AddField(n, k, t, x).value.cell)
  {
    LoadFieldKeeps(n, id, o, k);
    var n1 := LoadField(n, k).value.0;
    FillCellKeeps(n1.fields[k].cell, id + [k], FieldOf(o, k), t, x);
    WithFieldCellKeeps(n1, id, o, k, FillCell(n1.fields[k].cell, t, x).value);
    GrowKeeps(FillField(n, k, t, x).value, id, o);
  }

  lemma RemoveFieldKeeps(n: Node, id: ObjectID, o: Option<ObjectState>, k: FieldKey, t: TypeTag)
    requires NodeInv(n, id, o) && RemoveField(n, k, t).Ok?
    ensures NodeInv(RemoveField(n, k, t).value, id, o) && StaysPut(n.cell, RemoveField(n, k, t).value.cell)
  {
    LoadFieldKeeps(n, id, o, k);
    var n1 := LoadField(n, k).value.0;
    MoveFromKeeps(n1.fields[k].cell, id + [k], FieldOf(o, k), Some(t));
    WithFieldCellKeeps(n1, id, o, k, EmptyCell(n1.fields[k].cell, t).value);
    ShrinkKeeps(EmptyField(n, k, t).value, id, o);
  }

  lemma WriteFieldKeeps(n: Node, id: ObjectID, o: Option<ObjectState>, k: FieldKey, t: TypeTag, x: Bytes)
    requires NodeInv(n, id, o) && WriteField(n, k, t, x).Ok?
    ensures NodeInv(WriteField(n, k, t, x).value, id, o) && StaysPut(n.cell, WriteField(n, k, t, x).value.cell)
  {
    LoadFieldKeeps(n, id, o, k);
    var n1 := LoadField(n, k).value.0;
    WriteKeeps(n1.fields[k].cell, id + [k], FieldOf(o, k), Some(t), x);
    WithFieldCellKeeps(n1, id, o, k, n1.fields[k].cell.WriteValue(Some(t), x).value);
  }

  lemma {:induction false} NodeStepKeeps(n: Node, id: ObjectID, o: Option<ObjectState>, op: NodeOp)
    requires NodeInv(n, id, o) && NodeStep(n, op).Ok?
    ensures NodeInv(NodeStep(n, op).value, id, o) && StaysPut(n.cell, NodeStep(n, op).value.cell)
  {
    StepIs(n, op);
    match op
    case ReadField(k, _) => LoadFieldKeeps(n, id, o, k);
    case BorrowFieldOp(k, _) => LoadFieldKeeps(n, id, o, k);
    case WriteOp(k, t, x) => WriteFieldKeeps(n, id, o, k, t, x);
    case AddOp(k, t, x) => AddFieldKeeps(n, id, o, k, t, x);
    case RemoveOp(k, t) => RemoveFieldKeeps(n, id, o, k, t);
    case PublishOp(p, r) => PublishKeeps(n, id, o, p, r);
    case _ =>
      CellStepKeeps(n.cell, id, o, op);
      WithCellKeeps(n, id, o, CellStep(n.cell, op).value);
  }

  /** A call anywhere below `n` keeps the invariant of the whole tree. */
  lemma {:induction false} StepKeeps(n: Node, id: ObjectID, o: Option<ObjectState>, path: ObjectID, op: NodeOp)
    requires NodeInv(n, id, o) && StepAt(n, path, op).Ok?
    ensures NodeInv(StepAt(n, path, op).value, id, o) && StaysPut(n.cell, StepAt(n, path, op).value.cell)
    decreases |path|
  {
    if path == [] {
      NodeStepKeeps(n, id, o, op);
    } else {
      LoadFieldKeeps(n, id, o, path[0]);
      var n1 := LoadField(n, path[0]).value.0;
      StepKeeps(n1.fields[path[0]], id + [path[0]], FieldOf(o, path[0]), path[1..], op);
      WithChildKeeps(n1, id, o, path[0], StepAt(n1.fields[path[0]], path[1..], op).value);
    }
  }

  lemma {:induction false} RunKeeps(n: Node, id: ObjectID, o: Option<ObjectState>, steps: seq<Step>)
    requires NodeInv(n, id, o) && Run(n, steps).Ok?
    ensures NodeInv(Run(n, steps).value, id, o) && StaysPut(n.cell, Run(n, steps).value.cell)
    decreases |steps|
  {
    if steps != [] {
      StepKeeps(n, id, o, steps[0].path, steps[0].op);
      RunKeeps(StepAt(n, steps[0].path, steps[0].op).value, id, o, steps[1..]);
    }
  }

  /** The root metadata a runtime may start from: the stored tree below it is well identified. */
  ghost predicate ValidRoot(root: ObjectMeta) {
    WellIdentified(NewRoot(root), [])
  }

  lemma NewRuntimeInv(root: ObjectMeta)
    requires ValidRoot(root)
    ensures NodeInv(NewRuntime(root), [], Some(NewRoot(root)))
  {}

  /** In every reachable tree, every node is in one of the six joint states, its value exists exactly when its
      metadata is live, and its pointer is the one of its own object and borrowed at most once. */
  lemma {:induction false} ReachableJointState(root: ObjectMeta, steps: seq<Step>, path: ObjectID)
    requires ValidRoot(root) && Run(NewRuntime(root), steps).Ok?
    ensures var n := NodeAt(Run(NewRuntime(root), steps).value, path);
            n.Some? ==>
              && JointState(n.value.cell) && PointerState(n.value.cell)
              && (n.value.Exists() <==> n.value.cell.meta.Live())
              && n.value.cell.meta.Id() == path
              && n.value.cell.pointer.ReferenceCount() <= 2
              && (n.value.cell.pointer.value.Exists() ==> n.value.cell.pointer.value.v == path)
  {
    NewRuntimeInv(root);
    RunKeeps(NewRuntime(root), [], Some(NewRoot(root)), steps);
    NodeAtInv(Run(NewRuntime(root), steps).value, [], Some(NewRoot(root)), path);
  }

  /** The stored object `path` below `o`. */
  function Below(o: Option<ObjectState>, path: ObjectID): Option<ObjectState>
    decreases |path|
  {
    if path == [] then o else Below(FieldOf(o, path[0]), path[1..])
  }

  lemma {:induction false} NothingBelow(path: ObjectID)
    ensures Below(None, path) == None
    decreases |path|
  {
    if path != [] {
      NothingBelow(path[1..]);
    }
  }

  lemma {:induction false} NodeAtInv(n: Node, id: ObjectID, o: Option<ObjectState>, path: ObjectID)
    requires NodeInv(n, id, o)
    ensures NodeAt(n, path).Some? ==> NodeInv(NodeAt(n, path).value, id + path, Below(o, path))
    decreases |path|
  {
    if path == [] {
      assert id + path == id;
    } else if path[0] in n.fields {
      NodeAtInv(n.fields[path[0]], id + [path[0]], FieldOf(o, path[0]), path[1..]);
      assert id + [path[0]] + path[1..] == id + path;
    }
  }
}

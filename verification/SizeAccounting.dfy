/** An object's recorded size is the number of fields the runtime shows below it. */
module SizeAccounting {
  import opened Common
  import opened TypeTags
  import opened GlobalValues
  import opened StateStore
  import opened RuntimeNode
  import opened RuntimeInvariant
  import opened ChangeSet
  import opened Soundness

  /** The keys of the fields that exist below `n`, resident or not. */
  function ShownKeys(n: Node): set<FieldKey> {
    (set k | k in n.Root().fields && k !in n.fields) + (set k | k in n.fields && n.fields[k].Exists())
  }

  function Size(n: Node): int {
    if n.cell.meta.MetaNone? then 0 else n.cell.meta.mv.metadata.size
  }

  /** How far the recorded size is from the number of fields. */
  function Imbalance(n: Node): int {
    Size(n) - |ShownKeys(n)|
  }

  lemma ShownKeysAreCommitted(n: Node, id: ObjectID, o: Option<ObjectState>, now: nat)
    requires NodeInv(n, id, o)
    ensures CommittedRoot(n, now).fields.Keys == ShownKeys(n)
  {
    var fields := CommittedFields(n, now);
    forall k | k in n.fields ensures fields[k].Some? <==> n.fields[k].Exists() {
      assert CellInv(n.fields[k].cell, id + [k], FieldOf(o, k));
      assert fields[k] == Committed(n.fields[k], now);
    }
  }

  lemma LoadShows(n: Node, key: FieldKey)
    requires LoadField(n, key).Ok?
    ensures ShownKeys(LoadField(n, key).value.0) == ShownKeys(n)
    ensures HasField(n, key) <==> LoadField(n, key).value.0.fields[key].Exists()
    ensures HasField(n, key) <==> key in ShownKeys(n)
  {}

  /** Replacing a resident field's node shows the same keys, plus or minus that one. */
  lemma ReplaceShows(n: Node, key: FieldKey, child: Node, c: Cell)
    requires key in n.fields && c.meta.Root() == n.Root()
    ensures var m := Node(c, n.fields[key := child]);
            ShownKeys(m) == if child.Exists() then ShownKeys(n) + {key} else ShownKeys(n) - {key}
  {}

  lemma FieldCallImbalance(n: Node, key: FieldKey, child: Node, c: Cell)
    requires LoadField(n, key).Ok? && c.meta.Root() == n.Root()
    ensures var m := Node(c, LoadField(n, key).value.0.fields[key := child]);
            |ShownKeys(m)| - |ShownKeys(n)| ==
            (if child.Exists() then 1 else 0) - (if HasField(n, key) then 1 else 0)
  {
    LoadShows(n, key);
    ReplaceShows(LoadField(n, key).value.0, key, child, c);
    OneKeyMore(ShownKeys(n), key, child.Exists());
  }

  lemma OneKeyMore(keys: set<FieldKey>, key: FieldKey, present: bool)
    ensures |if present then keys + {key} else keys - {key}| - |keys| ==
            (if present then 1 else 0) - (if key in keys then 1 else 0)
  {
    if key in keys {
      assert keys + {key} == keys && |keys - {key}| == |keys| - 1;
    } else {
      assert keys - {key} == keys && |keys + {key}| == |keys| + 1;
    }
  }

  lemma GrowShows(n: Node)
    ensures GrowNode(n).Ok? ==> ShownKeys(GrowNode(n).value) == ShownKeys(n) && Size(GrowNode(n).value) == Size(n) + 1
    ensures ShrinkNode(n).Ok? ==>
              ShownKeys(ShrinkNode(n).value) == ShownKeys(n) && Size(ShrinkNode(n).value) == Size(n) - 1
  {}

  lemma WriteKeepsImbalance(n: Node, k: FieldKey, t: TypeTag, x: Bytes)
    requires WriteField(n, k, t, x).Ok?
    ensures ShownKeys(WriteField(n, k, t, x).value) == ShownKeys(n)
    ensures Imbalance(WriteField(n, k, t, x).value) == Imbalance(n)
  {
    LoadShows(n, k);
    var n1 := LoadField(n, k).value.0;
    var c := n1.fields[k].cell.WriteValue(Some(t), x).value;
    ReplaceShows(n1, k, n1.fields[k].(cell := c), n1.cell);
  }

  lemma AddKeepsImbalance(n: Node, id: ObjectID, o: Option<ObjectState>, k: FieldKey, t: TypeTag, x: Bytes)
    requires NodeInv(n, id, o) && AddField(n, k, t, x).Ok?
    ensures !HasField(n, k) && Imbalance(AddField(n, k, t, x).value) == Imbalance(n)
  {
    LoadShows(n, k);
    LoadFieldKeeps(n, id, o, k);
    var n1 := FillField(n, k, t, x).value;
    FillCellKeeps(LoadField(n, k).value.0.fields[k].cell, id + [k], FieldOf(o, k), t, x);
    FieldCallImbalance(n, k, n1.fields[k], n1.cell);
    GrowShows(n1);
  }

  lemma EmptiedCell(n: Node, k: FieldKey, t: TypeTag)
    requires EmptyField(n, k, t).Ok?
    ensures LoadField(n, k).Ok? && EmptyCell(LoadField(n, k).value.0.fields[k].cell, t).Ok?
    ensures var (n1, m) := (LoadField(n, k).value.0, EmptyField(n, k, t).value);
            && m.cell == n.cell && m.fields == n1.fields[k := m.fields[k]]
            && m.fields[k].cell == EmptyCell(n1.fields[k].cell, t).value
  {}

  lemma {:induction false} RemoveKeepsImbalance(n: Node, id: ObjectID, o: Option<ObjectState>, k: FieldKey, t: TypeTag)
    requires NodeInv(n, id, o) && RemoveField(n, k, t).Ok?
    ensures HasField(n, k) && Imbalance(RemoveField(n, k, t).value) == Imbalance(n)
  {
    LoadShows(n, k);
    LoadFieldKeeps(n, id, o, k);
    var n1 := EmptyField(n, k, t).value;
    MoveFromKeeps(LoadField(n, k).value.0.fields[k].cell, id + [k], FieldOf(o, k), Some(t));
    EmptiedCell(n, k, t);
    FieldCallImbalance(n, k, n1.fields[k], n1.cell);
    GrowShows(n1);
  }

  lemma StoreModuleKeepsImbalance(n: Node, id: ObjectID, o: Option<ObjectState>, p: Publication, r: bool)
    requires NodeInv(n, id, o) && StoreModule(n, p, r).Ok?
    ensures HasField(n, p.moduleKey) == r && Imbalance(StoreModule(n, p, r).value) == Imbalance(n)
  {
    var k := p.moduleKey;
    LoadShows(n, k);
    LoadFieldKeeps(n, id, o, k);
    var n0 := LoadField(n, k).value.0;
    var c := ReplaceModule(n0.fields[k].cell, p, r).value;
    ReplaceModuleKeeps(n0.fields[k].cell, id + [k], FieldOf(o, k), p, r);
    FieldCallImbalance(n, k, n0.fields[k].(cell := c), n0.cell);
    GrowShows(WithFieldCell(n0, k, c));
  }

  lemma PackageShows(n: Node, id: ObjectID, o: Option<ObjectState>, p: Publication)
    requires NodeInv(n, id, o) && LoadOrCreatePackage(n, p).Ok?
    ensures var n1 := LoadOrCreatePackage(n, p).value;
            && n1.fields[p.packageKey].Exists() && n1.cell == n.cell
            && |ShownKeys(n1)| - |ShownKeys(n)| == if HasField(n, p.packageKey) then 0 else 1
  {
    LoadShows(n, p.packageKey);
    LoadFieldKeeps(n, id, o, p.packageKey);
    var n0, n1 := LoadField(n, p.packageKey).value.0, LoadOrCreatePackage(n, p).value;
    if !n0.fields[p.packageKey].Exists() {
      CreatePackageKeeps(n0.fields[p.packageKey].cell, id + [p.packageKey], FieldOf(o, p.packageKey), p);
      FieldCallImbalance(n, p.packageKey, n1.fields[p.packageKey], n1.cell);
    }
  }

  /** Storing the module in its package does not change the fields of the module store. */
  lemma StoredPackageShows(n: Node, id: ObjectID, o: Option<ObjectState>, p: Publication, r: bool)
    requires NodeInv(n, id, o) && p.packageKey in n.fields && n.fields[p.packageKey].Exists()
    requires StoreModule(n.fields[p.packageKey], p, r).Ok?
    ensures var m := n.(fields := n.fields[p.packageKey := StoreModule(n.fields[p.packageKey], p, r).value]);
            ShownKeys(m) == ShownKeys(n)
  {
    var key := p.packageKey;
    StoreModuleKeeps(n.fields[key], id + [key], FieldOf(o, key), p, r);
    ReplaceShows(n, key, StoreModule(n.fields[key], p, r).value, n.cell);
    assert key in ShownKeys(n);
  }

  lemma {:induction false} PublishKeepsImbalance(n: Node, id: ObjectID, o: Option<ObjectState>, p: Publication, r: bool)
    requires NodeInv(n, id, o) && PublishModule(n, p, r).Ok?
    ensures Imbalance(PublishModule(n, p, r).value) == Imbalance(n)
  {
    PackageShows(n, id, o, p);
    PackageKeeps(n, id, o, p);
    var n1 := LoadOrCreatePackage(n, p).value;
    StoredPackageShows(n1, id, o, p, r);
    GrowShows(n1.(fields := n1.fields[p.packageKey := StoreModule(n1.fields[p.packageKey], p, r).value]));
  }

  lemma CellStepKeepsSize(n: Node, op: NodeOp)
    requires CellStep(n.cell, op).Ok?
    ensures var m := n.(cell := CellStep(n.cell, op).value);
            Size(m) == Size(n) && m.Root() == n.Root()
  {}

  lemma CellStepKeepsImbalance(n: Node, op: NodeOp)
    requires CellStep(n.cell, op).Ok?
    ensures Imbalance(n.(cell := CellStep(n.cell, op).value)) == Imbalance(n)
  {
    CellStepKeepsSize(n, op);
    assert ShownKeys(n.(cell := CellStep(n.cell, op).value)) == ShownKeys(n);
  }

  lemma ReadKeepsImbalance(n: Node, k: FieldKey)
    requires LoadField(n, k).Ok?
    ensures Imbalance(LoadField(n, k).value.0) == Imbalance(n)
  {
    LoadShows(n, k);
  }

  /** Whatever the tree looks like, no call changes how far an object's size is from its number of fields. */
  lemma {:induction false} CallKeepsImbalance(n: Node, id: ObjectID, o: Option<ObjectState>, op: NodeOp)
    requires NodeInv(n, id, o) && NodeStep(n, op).Ok?
    ensures Imbalance(NodeStep(n, op).value) == Imbalance(n)
  {
    StepIs(n, op);
    match op
    case ReadField(k, _) => ReadKeepsImbalance(n, k);
    case BorrowFieldOp(k, _) => ReadKeepsImbalance(n, k);
    case WriteOp(k, t, x) => WriteKeepsImbalance(n, k, t, x);
    case AddOp(k, t, x) => AddKeepsImbalance(n, id, o, k, t, x);
    case RemoveOp(k, t) => RemoveKeepsImbalance(n, id, o, k, t);
    case PublishOp(p, r) => PublishKeepsImbalance(n, id, o, p, r);
    case _ => CellStepKeepsImbalance(n, op);
  }

  // ---------- runs that remove only objects without fields ----------

  /** Every stored object's size is its number of fields. */
  ghost predicate WellSizedStore(o: ObjectState) {
    && o.metadata.size == |o.metadata.stateRoot.fields|
    && forall k :: k in o.metadata.stateRoot.fields ==> WellSizedStore(o.metadata.stateRoot.fields[k])
  }

  /** A live object's size is its number of fields, and an object that is gone shows none. */
  predicate Counted(n: Node) {
    if n.cell.meta.Live() then Imbalance(n) == 0 else ShownKeys(n) == {}
  }

  ghost predicate WellSized(n: Node)
    decreases n, 1
  {
    Counted(n) && WellSizedFields(n)
  }

  ghost predicate WellSizedFields(n: Node)
    decreases n, 0
  {
    && (forall k :: k in n.fields ==> WellSized(n.fields[k]))
    && (forall k :: k in n.Root().fields && k !in n.fields ==> WellSizedStore(n.Root().fields[k]))
  }

  /** The field has no fields of its own: what `object::remove` checks before it removes an object. */
  predicate WithoutFields(n: Node, key: FieldKey) {
    LoadField(n, key).Ok? ==> Size(LoadField(n, key).value.0.fields[key]) == 0
  }

  predicate GuardedOp(n: Node, op: NodeOp) {
    match op
    case RemoveOp(k, _) => WithoutFields(n, k)
    case PublishOp(p, r) =>
      r && LoadOrCreatePackage(n, p).Ok? ==>
        WithoutFields(LoadOrCreatePackage(n, p).value.fields[p.packageKey], p.moduleKey)
    case _ => true
  }

  lemma AbsentWellSized(id: ObjectID)
    ensures WellSized(Resident(None, id))
  {
    assert ShownKeys(Resident(None, id)) == {};
  }

  lemma LoadedShows(o: ObjectState, id: ObjectID)
    ensures ShownKeys(Resident(Some(o), id)) == o.metadata.stateRoot.fields.Keys
    ensures Size(Resident(Some(o), id)) == o.metadata.size
  {}

  lemma ResidentWellSized(o: Option<ObjectState>, id: ObjectID)
    requires o.Some? ==> WellSizedStore(o.value)
    ensures WellSized(Resident(o, id))
  {
    if o.None? {
      AbsentWellSized(id);
    } else {
      LoadedShows(o.value, id);
      var n := Resident(o, id);
      assert n.Root() == o.value.metadata.stateRoot && n.fields == map[];
      assert Counted(n);
    }
  }

  lemma LoadWellSized(n: Node, key: FieldKey)
    requires LoadField(n, key).Ok?
    ensures WellSizedFields(n) ==> WellSizedFields(LoadField(n, key).value.0)
    ensures WellSized(n) ==> WellSized(LoadField(n, key).value.0)
  {
    LoadShows(n, key);
    if key !in n.fields && WellSizedFields(n) {
      ResidentWellSized(GetFieldAt(n.Root(), key), n.cell.meta.Id() + [key]);
      var n1 := LoadField(n, key).value.0;
      forall k | k in n1.fields ensures WellSized(n1.fields[k]) {
        assert k != key ==> n1.fields[k] == n.fields[k];
      }
    }
  }

  lemma ReplaceWellSized(n: Node, key: FieldKey, child: Node, c: Cell)
    requires WellSizedFields(n) && key in n.fields && WellSized(child) && c.meta.Root() == n.Root()
    ensures WellSizedFields(Node(c, n.fields[key := child]))
  {
    var m := Node(c, n.fields[key := child]);
    forall k | k in m.fields ensures WellSized(m.fields[k]) {
      assert k != key ==> m.fields[k] == n.fields[k];
    }
  }

  /** A value moves into an object that showed no fields. */
  lemma FilledWellSized(n: Node, c: Cell)
    requires WellSizedFields(n) && ShownKeys(n) == {} && StartsEmpty(c)
    ensures WellSized(n.(cell := c))
  {
    var m := n.(cell := c);
    forall k | k in n.fields ensures !n.fields[k].Exists() {
      assert k !in ShownKeys(n);
    }
    assert ShownKeys(m) == {};
    forall k | k in m.fields ensures WellSized(m.fields[k]) {
      assert m.fields[k] == n.fields[k];
    }
  }

  /** An object without fields goes away. */
  lemma EmptiedWellSized(n: Node, id: ObjectID, o: Option<ObjectState>, t: TypeTag)
    requires CellInv(n.cell, id, o) && WellSized(n) && Size(n) == 0 && EmptyCell(n.cell, t).Ok?
    ensures WellSized(n.(cell := EmptyCell(n.cell, t).value)) && ShownKeys(n.(cell := EmptyCell(n.cell, t).value)) == {}
  {
    var m := n.(cell := EmptyCell(n.cell, t).value);
    MoveFromKeeps(n.cell, id, o, Some(t));
    assert m.Root() == n.Root();
    assert ShownKeys(m) == ShownKeys(n) == {};
    forall k | k in m.fields ensures WellSized(m.fields[k]) {
      assert m.fields[k] == n.fields[k];
    }
  }

  lemma WithCellWellSized(n: Node, c: Cell)
    requires WellSizedFields(n) && c.meta.Root() == n.Root()
    ensures WellSizedFields(n.(cell := c))
    ensures c.meta == n.cell.meta && WellSized(n) ==> WellSized(n.(cell := c))
  {
    var m := n.(cell := c);
    forall k | k in m.fields ensures WellSized(m.fields[k]) {
      assert m.fields[k] == n.fields[k];
    }
    assert ShownKeys(m) == ShownKeys(n);
  }

  lemma WriteWellSized(n: Node, k: FieldKey, t: TypeTag, x: Bytes)
    requires WellSized(n) && WriteField(n, k, t, x).Ok?
    ensures WellSizedFields(WriteField(n, k, t, x).value)
  {
    LoadWellSized(n, k);
    var n1 := LoadField(n, k).value.0;
    var c := n1.fields[k].cell.WriteValue(Some(t), x).value;
    WithCellWellSized(n1.fields[k], c);
    ReplaceWellSized(n1, k, n1.fields[k].(cell := c), n1.cell);
  }

  lemma AddWellSized(n: Node, id: ObjectID, o: Option<ObjectState>, k: FieldKey, t: TypeTag, x: Bytes)
    requires NodeInv(n, id, o) && WellSized(n) && AddField(n, k, t, x).Ok?
    ensures WellSizedFields(AddField(n, k, t, x).value)
  {
    LoadWellSized(n, k);
    LoadFieldKeeps(n, id, o, k);
    var n1 := LoadField(n, k).value.0;
    var c := FillCell(n1.fields[k].cell, t, x).value;
    FillCellKeeps(n1.fields[k].cell, id + [k], FieldOf(o, k), t, x);
    FilledWellSized(n1.fields[k], c);
    ReplaceWellSized(n1, k, n1.fields[k].(cell := c), AddField(n, k, t, x).value.cell);
  }

  lemma RemoveWellSized(n: Node, id: ObjectID, o: Option<ObjectState>, k: FieldKey, t: TypeTag)
    requires NodeInv(n, id, o) && WellSized(n) && RemoveField(n, k, t).Ok? && WithoutFields(n, k)
    ensures WellSizedFields(RemoveField(n, k, t).value)
  {
    LoadWellSized(n, k);
    LoadFieldKeeps(n, id, o, k);
    var n1 := LoadField(n, k).value.0;
    EmptiedWellSized(n1.fields[k], id + [k], FieldOf(o, k), t);
    ReplaceWellSized(n1, k, n1.fields[k].(cell := EmptyCell(n1.fields[k].cell, t).value), RemoveField(n, k, t).value.cell);
  }

  lemma ReplacedModuleWellSized(n: Node, id: ObjectID, o: Option<ObjectState>, p: Publication, r: bool)
    requires NodeInv(n, id, o) && WellSized(n) && ReplaceModule(n.cell, p, r).Ok? && (r ==> Size(n) == 0)
    ensures WellSized(n.(cell := ReplaceModule(n.cell, p, r).value))
  {
    ReplaceModuleKeeps(n.cell, id, o, p, r);
    var c := ReplaceModule(n.cell, p, r).value;
    if r {
      EmptiedWellSized(n, id, o, p.moduleType);
      FilledWellSized(n.(cell := EmptyCell(n.cell, p.moduleType).value), c);
    } else {
      FilledWellSized(n, c);
    }
  }

  lemma {:induction false} StoreModuleWellSized(n: Node, id: ObjectID, o: Option<ObjectState>, p: Publication, r: bool)
    requires NodeInv(n, id, o) && WellSized(n) && n.Exists() && StoreModule(n, p, r).Ok?
    requires r ==> WithoutFields(n, p.moduleKey)
    ensures WellSized(StoreModule(n, p, r).value)
  {
    LoadWellSized(n, p.moduleKey);
    LoadFieldKeeps(n, id, o, p.moduleKey);
    var n1 := LoadField(n, p.moduleKey).value.0;
    ReplacedModuleWellSized(n1.fields[p.moduleKey], id + [p.moduleKey], FieldOf(o, p.moduleKey), p, r);
    var c := ReplaceModule(n1.fields[p.moduleKey].cell, p, r).value;
    ReplaceWellSized(n1, p.moduleKey, n1.fields[p.moduleKey].(cell := c), StoreModule(n, p, r).value.cell);
    StoreModuleKeepsImbalance(n, id, o, p, r);
  }

  lemma PackageWellSized(n: Node, id: ObjectID, o: Option<ObjectState>, p: Publication)
    requires NodeInv(n, id, o) && WellSized(n) && LoadOrCreatePackage(n, p).Ok?
    ensures WellSizedFields(LoadOrCreatePackage(n, p).value)
  {
    LoadWellSized(n, p.packageKey);
    LoadFieldKeeps(n, id, o, p.packageKey);
    var n0 := LoadField(n, p.packageKey).value.0;
    if !n0.fields[p.packageKey].Exists() {
      var c := CreatePackage(n0.fields[p.packageKey].cell, p).value;
      CreatePackageKeeps(n0.fields[p.packageKey].cell, id + [p.packageKey], FieldOf(o, p.packageKey), p);
      FilledWellSized(n0.fields[p.packageKey], c);
      ReplaceWellSized(n0, p.packageKey, n0.fields[p.packageKey].(cell := c), n0.cell);
    }
  }

  lemma PublishWellSized(n: Node, id: ObjectID, o: Option<ObjectState>, p: Publication, r: bool)
    requires NodeInv(n, id, o) && WellSized(n) && PublishModule(n, p, r).Ok? && GuardedOp(n, PublishOp(p, r))
    ensures WellSizedFields(PublishModule(n, p, r).value)
  {
    PublishedFields(n, p, r);
    PackageShows(n, id, o, p);
    PackageKeeps(n, id, o, p);
    PackageWellSized(n, id, o, p);
    var n1, m := LoadOrCreatePackage(n, p).value, PublishModule(n, p, r).value;
    StoreModuleWellSized(n1.fields[p.packageKey], id + [p.packageKey], FieldOf(o, p.packageKey), p, r);
    ReplaceWellSized(n1, p.packageKey, m.fields[p.packageKey], m.cell);
    assert m == Node(m.cell, n1.fields[p.packageKey := m.fields[p.packageKey]]);
  }

  /** Nothing is counted in an object that is gone. */
  lemma GoneKeepsMeta(n: Node, op: NodeOp)
    requires NodeStep(n, op).Ok? && !n.cell.meta.Live()
    ensures NodeStep(n, op).value.cell.meta == n.cell.meta
  {}

  lemma {:induction false} FieldsStayWellSized(n: Node, id: ObjectID, o: Option<ObjectState>, op: NodeOp)
    requires NodeInv(n, id, o) && WellSized(n) && NodeStep(n, op).Ok? && GuardedOp(n, op)
    ensures WellSizedFields(NodeStep(n, op).value)
  {
    StepIs(n, op);
    match op
    case ReadField(k, _) => LoadWellSized(n, k);
    case BorrowFieldOp(k, _) => LoadWellSized(n, k);
    case WriteOp(k, t, x) => WriteWellSized(n, k, t, x);
    case AddOp(k, t, x) => AddWellSized(n, id, o, k, t, x);
    case RemoveOp(k, t) => RemoveWellSized(n, id, o, k, t);
    case PublishOp(p, r) => PublishWellSized(n, id, o, p, r);
    case _ =>
      CellStepKeepsSize(n, op);
      WithCellWellSized(n, CellStep(n.cell, op).value);
  }

  lemma {:induction false} StaysCounted(n: Node, id: ObjectID, o: Option<ObjectState>, op: NodeOp)
    requires NodeInv(n, id, o) && Counted(n) && NodeStep(n, op).Ok?
    ensures Counted(NodeStep(n, op).value)
  {
    CallKeepsImbalance(n, id, o, op);
    NodeStepKeeps(n, id, o, op);
    StepKeepsKind(n, [], op);
    if !n.cell.meta.Live() {
      GoneKeepsMeta(n, op);
    }
  }

  lemma {:induction false} NodeStepWellSized(n: Node, id: ObjectID, o: Option<ObjectState>, op: NodeOp)
    requires NodeInv(n, id, o) && WellSized(n) && NodeStep(n, op).Ok? && GuardedOp(n, op)
    ensures WellSized(NodeStep(n, op).value)
  {
    StaysCounted(n, id, o, op);
    FieldsStayWellSized(n, id, o, op);
  }

  lemma SameKeysCounted(n: Node, m: Node)
    requires Counted(n) && m.cell == n.cell && ShownKeys(m) == ShownKeys(n)
    ensures Counted(m)
  {}

  lemma {:induction false} WithChildWellSized(n: Node, key: FieldKey, child: Node)
    requires WellSized(n) && key in n.fields && WellSized(child) && child.Exists() == n.fields[key].Exists()
    ensures WellSized(n.(fields := n.fields[key := child]))
  {
    var m := n.(fields := n.fields[key := child]);
    ReplaceWellSized(n, key, child, n.cell);
    ReplaceShows(n, key, child, n.cell);
    assert ShownKeys(m) == ShownKeys(n);
    SameKeysCounted(n, m);
  }

  lemma {:induction false} StepWellSized(n: Node, id: ObjectID, o: Option<ObjectState>, path: ObjectID, op: NodeOp)
    requires NodeInv(n, id, o) && WellSized(n) && StepAt(n, path, op).Ok? && StepSatisfies(n, path, op, GuardedOp)
    ensures WellSized(StepAt(n, path, op).value)
    decreases |path|
  {
    if path == [] {
      NodeStepWellSized(n, id, o, op);
    } else {
      LoadWellSized(n, path[0]);
      LoadFieldKeeps(n, id, o, path[0]);
      var n1 := LoadField(n, path[0]).value.0;
      StepWellSized(n1.fields[path[0]], id + [path[0]], FieldOf(o, path[0]), path[1..], op);
      StepKeeps(n1.fields[path[0]], id + [path[0]], FieldOf(o, path[0]), path[1..], op);
      WithChildWellSized(n1, path[0], StepAt(n1.fields[path[0]], path[1..], op).value);
    }
  }

  lemma {:induction false} RunWellSized(n: Node, id: ObjectID, o: Option<ObjectState>, steps: seq<Step>)
    requires NodeInv(n, id, o) && WellSized(n) && Run(n, steps).Ok? && RunSatisfies(n, steps, GuardedOp)
    ensures WellSized(Run(n, steps).value)
    decreases |steps|
  {
    if steps != [] {
      StepKeeps(n, id, o, steps[0].path, steps[0].op);
      StepWellSized(n, id, o, steps[0].path, steps[0].op);
      RunWellSized(StepAt(n, steps[0].path, steps[0].op).value, id, o, steps[1..]);
    }
  }

  lemma {:induction false} WellSizedAt(n: Node, path: ObjectID)
    requires WellSized(n) && NodeAt(n, path).Some?
    ensures WellSized(NodeAt(n, path).value)
    decreases |path|
  {
    if path != [] {
      WellSizedAt(n.fields[path[0]], path[1..]);
    }
  }

  /** Over every run that removes only objects without fields, the size of every live object, at any depth, is the
      number of its fields, so removing a field that is there never underflows. */
  lemma {:induction false} SizeIsFieldCount(root: ObjectMeta, steps: seq<Step>, path: ObjectID, k: FieldKey, t: TypeTag)
    requires ValidRoot(root) && WellSizedStore(NewRoot(root))
    requires Run(NewRuntime(root), steps).Ok? && RunSatisfies(NewRuntime(root), steps, GuardedOp)
    ensures var n := NodeAt(Run(NewRuntime(root), steps).value, path);
            n.Some? && n.value.cell.meta.Live() ==>
              && n.value.cell.meta.mv.metadata.size == |ShownKeys(n.value)|
              && RemoveField(n.value, k, t) != Err(InvariantViolation)
  {
    NewRuntimeInv(root);
    ResidentWellSized(Some(NewRoot(root)), []);
    RunWellSized(NewRuntime(root), [], Some(NewRoot(root)), steps);
    RunKeeps(NewRuntime(root), [], Some(NewRoot(root)), steps);
    var n := NodeAt(Run(NewRuntime(root), steps).value, path);
    if n.Some? {
      NodeAtInv(Run(NewRuntime(root), steps).value, [], Some(NewRoot(root)), path);
      WellSizedAt(Run(NewRuntime(root), steps).value, path);
      NoUnderflow(n.value, path, Below(Some(NewRoot(root)), path), k, t);
    }
  }

  /** The size of an object that counts all its fields does not underflow. */
  lemma NoUnderflow(n: Node, id: ObjectID, o: Option<ObjectState>, k: FieldKey, t: TypeTag)
    requires NodeInv(n, id, o) && (n.cell.meta.Live() ==> Imbalance(n) >= 0)
    ensures RemoveField(n, k, t) != Err(InvariantViolation)
  {
    if EmptyField(n, k, t).Ok? {
      EmptiedIsShown(n, id, o, k, t);
      assert |ShownKeys(n)| > 0;
      EmptiedCounts(n, k, t);
    } else {
      assert RemoveField(n, k, t) == Err(EmptyField(n, k, t).error);
      EmptyFieldErrors(n, k, t);
    }
  }

  lemma EmptiedIsShown(n: Node, id: ObjectID, o: Option<ObjectState>, k: FieldKey, t: TypeTag)
    requires NodeInv(n, id, o) && EmptyField(n, k, t).Ok?
    ensures k in ShownKeys(n) && n.cell == EmptyField(n, k, t).value.cell
  {
    LoadShows(n, k);
    LoadFieldKeeps(n, id, o, k);
    MoveFromKeeps(LoadField(n, k).value.0.fields[k].cell, id + [k], FieldOf(o, k), Some(t));
  }

  lemma EmptiedCounts(n: Node, k: FieldKey, t: TypeTag)
    requires EmptyField(n, k, t).Ok? && EmptyField(n, k, t).value.cell == n.cell
    requires n.cell.meta.Live() ==> Size(n) > 0
    ensures RemoveField(n, k, t) != Err(InvariantViolation)
  {}

  lemma EmptyFieldErrors(n: Node, k: FieldKey, t: TypeTag)
    ensures EmptyField(n, k, t) != Err(InvariantViolation)
  {}

  // ---------- soundness of guarded runs ----------

  /** The call removes no field that this run has already removed from the store's copy and added back. */
  predicate FirstRemoval(n: Node, op: NodeOp) {
    op.RemoveOp? ==> !Readded(n, op.key)
  }

  lemma GoneShowsNothing(n: Node, id: ObjectID, o: Option<ObjectState>)
    requires NodeInv(n, id, o) && WellSized(n) && !n.Exists()
    ensures NoFieldExists(n)
  {
    forall k | k in n.fields ensures !n.fields[k].Exists() {
      assert k !in ShownKeys(n);
    }
  }

  lemma WellSizedFillable(n: Node, id: ObjectID, o: Option<ObjectState>, key: FieldKey)
    requires NodeInv(n, id, o) && WellSized(n)
    ensures Fillable(n, key)
  {
    if key in n.fields && !n.fields[key].Exists() {
      GoneShowsNothing(n.fields[key], id + [key], FieldOf(o, key));
    }
  }

  lemma ResidentWithoutFields(n: Node, key: FieldKey)
    requires WithoutFields(n, key) && key in n.fields && n.cell.meta.Live()
    ensures Size(n.fields[key]) == 0
  {}

  lemma GuardedModuleIsCareful(n: Node, id: ObjectID, o: Option<ObjectState>, p: Publication, r: bool)
    requires NodeInv(n, id, o) && WellSized(n)
    requires r && p.moduleKey in n.fields ==> n.fields[p.moduleKey].Exists() ==> Size(n.fields[p.moduleKey]) == 0
    ensures CarefulModule(n, p, r)
  {
    WellSizedFillable(n, id, o, p.moduleKey);
    if r && p.moduleKey in n.fields {
      var m := n.fields[p.moduleKey];
      if m.Exists() {
        assert WellSized(m);
        EmptyShowsNothing(m);
      }
      assert NoFieldExists(m);
    }
  }

  lemma EmptyShowsNothing(n: Node)
    requires Counted(n) && Size(n) == 0
    ensures NoFieldExists(n)
  {
    forall k | k in n.fields ensures !n.fields[k].Exists() {
      assert k !in ShownKeys(n);
    }
  }

  lemma GuardedPackageIsCareful(package: Node, id: ObjectID, o: Option<ObjectState>, p: Publication, r: bool)
    requires NodeInv(package, id, o) && WellSized(package)
    requires package.Exists() && r ==> WithoutFields(package, p.moduleKey) && package.cell.meta.Live()
    requires !package.Exists() ==> NoFieldExists(package)
    ensures CarefulModule(package, p, r)
  {
    if package.Exists() && r && p.moduleKey in package.fields {
      ResidentWithoutFields(package, p.moduleKey);
    }
    GuardedModuleIsCareful(package, id, o, p, r);
  }

  lemma GuardedPublishIsCareful(n: Node, id: ObjectID, o: Option<ObjectState>, p: Publication, r: bool)
    requires NodeInv(n, id, o) && WellSized(n) && GuardedOp(n, PublishOp(p, r)) && PublishModule(n, p, r).Ok?
    ensures CarefulOp(n, PublishOp(p, r))
  {
    WellSizedFillable(n, id, o, p.packageKey);
    if p.packageKey in n.fields {
      var package := n.fields[p.packageKey];
      if !package.Exists() {
        GoneShowsNothing(package, id + [p.packageKey], FieldOf(o, p.packageKey));
      }
      GuardedPackageIsCareful(package, id + [p.packageKey], FieldOf(o, p.packageKey), p, r);
    }
  }

  /** The guard of `object::remove` makes a call careful, unless it removes a field twice. */
  lemma GuardedOpIsCareful(n: Node, id: ObjectID, o: Option<ObjectState>, op: NodeOp)
    requires NodeInv(n, id, o) && WellSized(n) && GuardedOp(n, op) && FirstRemoval(n, op) && NodeStep(n, op).Ok?
    ensures CarefulOp(n, op)
  {
    match op
    case AddOp(k, _, _) => WellSizedFillable(n, id, o, k);
    case PublishOp(p, r) => GuardedPublishIsCareful(n, id, o, p, r);
    case _ =>
  }

  lemma {:induction false} GuardedStepIsCareful(n: Node, id: ObjectID, o: Option<ObjectState>, path: ObjectID, op: NodeOp)
    requires NodeInv(n, id, o) && WellSized(n) && StepAt(n, path, op).Ok?
    requires StepSatisfies(n, path, op, GuardedOp) && StepSatisfies(n, path, op, FirstRemoval)
    ensures StepSatisfies(n, path, op, CarefulOp)
    decreases |path|
  {
    if path == [] {
      GuardedOpIsCareful(n, id, o, op);
    } else {
      LoadWellSized(n, path[0]);
      LoadFieldKeeps(n, id, o, path[0]);
      GuardedStepIsCareful(LoadField(n, path[0]).value.0.fields[path[0]], id + [path[0]], FieldOf(o, path[0]), path[1..], op);
    }
  }

  lemma {:induction false} GuardedRunIsCareful(n: Node, id: ObjectID, o: Option<ObjectState>, steps: seq<Step>)
    requires NodeInv(n, id, o) && WellSized(n) && Run(n, steps).Ok?
    requires RunSatisfies(n, steps, GuardedOp) && RunSatisfies(n, steps, FirstRemoval)
    ensures RunSatisfies(n, steps, CarefulOp)
    decreases |steps|
  {
    if steps != [] {
      StepKeeps(n, id, o, steps[0].path, steps[0].op);
      StepWellSized(n, id, o, steps[0].path, steps[0].op);
      GuardedStepIsCareful(n, id, o, steps[0].path, steps[0].op);
      GuardedRunIsCareful(StepAt(n, steps[0].path, steps[0].op).value, id, o, steps[1..]);
    }
  }

  /** Over a well-sized store, a run that removes only objects without fields and removes no field twice commits
      exactly the tree it shows. */
  lemma GuardedRunIsSound(root: ObjectMeta, steps: seq<Step>, now: nat)
    requires ValidRoot(root) && WellSizedStore(NewRoot(root)) && Run(NewRuntime(root), steps).Ok?
    requires RunSatisfies(NewRuntime(root), steps, GuardedOp) && RunSatisfies(NewRuntime(root), steps, FirstRemoval)
    ensures var n := Run(NewRuntime(root), steps).value;
            IntoChangeSet(n, now).Ok? && ApplyChangeSet(IntoChangeSet(n, now).value) == Ok(CommittedRoot(n, now))
  {
    NewRuntimeInv(root);
    ResidentWellSized(Some(NewRoot(root)), []);
    GuardedRunIsCareful(NewRuntime(root), [], Some(NewRoot(root)), steps);
    CarefulRunIsSound(root, steps, now);
  }
}

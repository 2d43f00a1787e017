/** The object runtime as a state machine on values: one cell per object, a tree of cells, and the calls that
    Move code can make on an object of the tree. The classes in ObjectRuntime.dfy are proved against it. */
module RuntimeNode {
  import opened Common
  import opened TypeTags
  import opened GlobalValues
  import opened StateStore
  import opened RuntimeMeta

  const ERROR_NOT_FOUND: nat := 2
  const ERROR_OBJECT_ALREADY_BORROWED: nat := 7
  const ERROR_OBJECT_ALREADY_TAKEN_OUT_OR_EMBEDDED: nat := 15

  /** `None`: already resident; `Some(None)`: newly found absent; `Some(Some(n))`: `n` bytes newly read. */
  type LoadCost = Option<Option<nat>>

  // ---------- one object ----------

  /** The `Object<T>` slot, with the number of references to it that are outstanding. */
  datatype Pointer = Pointer(value: GlobalValue<ObjectID>, borrows: nat) {
    function ReferenceCount(): nat {
      (if value.Exists() then 1 else 0) + borrows
    }

    predicate HasBorrowed() {
      ReferenceCount() >= 2
    }
  }

  /** Metadata, value and pointer of one object. */
  datatype Cell = Cell(meta: RtMeta, value: GlobalValue<Bytes>, pointer: Pointer) {
    predicate Exists() {
      value.Exists()
    }

    function CheckType(expected: Option<TypeTag>): Result<(), StatusCode> {
      if expected.None? then Ok(())
      else
        var m :- meta.Metadata();
        if m.objectType == expected.value then Ok(()) else Err(TypeMismatch)
    }

    function MoveTo(x: Bytes, valueType: TypeTag): Result<Cell, StatusCode> {
      if value.Exists() then Err(ResourceAlreadyExists)
      else
        var p :- pointer.value.MoveTo(meta.Id());
        var v :- value.MoveTo(x);
        Ok(Cell(meta.Init(valueType), v, Pointer(p, pointer.borrows)))
    }

    function MoveFrom(expected: Option<TypeTag>): Result<(Cell, Bytes), StatusCode> {
      var _ :- CheckType(expected);
      var m :- meta.MoveFrom();
      var v :- value.MoveFrom();
      Ok((Cell(m.0, v.0, pointer), v.1))
    }

    /** There is a value, of the type if one is given. */
    predicate Holds(expected: Option<TypeTag>) {
      value.Exists() && (expected.None? || (!meta.MetaNone? && meta.mv.metadata.objectType == expected.value))
    }

    function BorrowValue(expected: Option<TypeTag>): Result<Bytes, StatusCode> {
      var _ :- CheckType(expected);
      value.Borrow()
    }

    /** Borrow the value mutably and write through the reference. */
    function WriteValue(expected: Option<TypeTag>, x: Bytes): Result<Cell, StatusCode> {
      var _ :- CheckType(expected);
      var v :- value.Write(x);
      Ok(this.(value := v))
    }

    function BorrowObject(expected: Option<TypeTag>): Result<(Cell, ObjectID), StatusCode> {
      var _ :- CheckType(expected);
      if !value.Exists() then Err(Aborted(ERROR_NOT_FOUND))
      else if !pointer.value.Exists() then Err(Aborted(ERROR_OBJECT_ALREADY_TAKEN_OUT_OR_EMBEDDED))
      else if pointer.HasBorrowed() then Err(Aborted(ERROR_OBJECT_ALREADY_BORROWED))
      else Ok((this.(pointer := pointer.(borrows := pointer.borrows + 1)), pointer.value.v))
    }

    /** A reference to the pointer is dropped. */
    function ReleaseObject(): Result<Cell, StatusCode> {
      if pointer.borrows == 0 then Err(InvariantViolation)
      else Ok(this.(pointer := pointer.(borrows := pointer.borrows - 1)))
    }

    function TakeObject(expected: Option<TypeTag>): Result<(Cell, ObjectID), StatusCode> {
      var _ :- CheckType(expected);
      if !pointer.value.Exists() then Err(Aborted(ERROR_OBJECT_ALREADY_TAKEN_OUT_OR_EMBEDDED))
      else if pointer.HasBorrowed() then Err(Aborted(ERROR_OBJECT_ALREADY_BORROWED))
      else
        var p :- pointer.value.MoveFrom();
        Ok((this.(pointer := pointer.(value := p.0)), p.1))
    }

    function ReturnPointer(p: ObjectID, expected: Option<TypeTag>): Result<Cell, StatusCode> {
      var _ :- CheckType(expected);
      var v :- pointer.value.MoveTo(p);
      Ok(this.(pointer := pointer.(value := v)))
    }

    function TransferObject(p: ObjectID, newOwner: AccountAddress, expected: Option<TypeTag>): Result<Cell, StatusCode> {
      var c :- ReturnPointer(p, expected);
      var m :- c.meta.Transfer(newOwner);
      Ok(c.(meta := m))
    }

    function ToSharedObject(p: ObjectID, expected: Option<TypeTag>): Result<Cell, StatusCode> {
      var c :- ReturnPointer(p, expected);
      var m :- c.meta.ToShared();
      Ok(c.(meta := m))
    }

    function ToFrozenObject(p: ObjectID, expected: Option<TypeTag>): Result<Cell, StatusCode> {
      var c :- ReturnPointer(p, expected);
      var m :- c.meta.ToFrozen();
      Ok(c.(meta := m))
    }
  }

  /** An object read from the store. An embedded object has its pointer elsewhere, so none is at rest here. */
  function LoadCell(o: ObjectState): Cell {
    Cell(MetaCached(MetaValue(o.metadata, false)),
         GvCached(o.value, false),
         Pointer(if o.metadata.IsEmbedded() then GvNone else GvCached(o.metadata.id, false), 0))
  }

  function AbsentCell(id: ObjectID): Cell {
    Cell(MetaNone(id), GvNone, Pointer(GvNone, 0))
  }

  // ---------- the tree ----------

  datatype Node = Node(cell: Cell, fields: map<FieldKey, Node>) {
    predicate Exists() {
      cell.Exists()
    }

    function Root(): StateTree {
      cell.meta.Root()
    }
  }

  function Resident(o: Option<ObjectState>, id: ObjectID): Node {
    Node(if o.Some? then LoadCell(o.value) else AbsentCell(id), map[])
  }

  function LoadField(n: Node, key: FieldKey): (r: Result<(Node, LoadCost), StatusCode>)
    ensures r.Ok? ==> key in r.value.0.fields && r.value.0.cell == n.cell
  {
    var m :- n.cell.meta.Metadata();
    if key in n.fields then Ok((n, None))
    else
      var o := GetFieldAt(m.stateRoot, key);
      Ok((n.(fields := n.fields[key := Resident(o, n.cell.meta.Id() + [key])]),
          if o.Some? then Some(Some(|o.value.value|)) else Some(None)))
  }

  function WithMeta(n: Node, m: RtMeta): Node {
    n.(cell := n.cell.(meta := m))
  }

  /** Replace the cell of a resident field. */
  function WithFieldCell(n: Node, key: FieldKey, c: Cell): Node
    requires key in n.fields
  {
    n.(fields := n.fields[key := n.fields[key].(cell := c)])
  }

  /** Count one more, or one less, field. */
  function GrowNode(n: Node): Result<Node, StatusCode> {
    var m :- n.cell.meta.IncreaseSize();
    Ok(WithMeta(n, m))
  }

  function ShrinkNode(n: Node): Result<Node, StatusCode> {
    var m :- n.cell.meta.DecreaseSize();
    Ok(WithMeta(n, m))
  }

  /** A value moves in and its pointer is handed to the caller. */
  function FillCell(c: Cell, valueType: TypeTag, x: Bytes): Result<Cell, StatusCode> {
    var filled :- c.MoveTo(x, valueType);
    var taken :- filled.TakeObject(Some(valueType));
    Ok(taken.0)
  }

  function EmptyCell(c: Cell, valueType: TypeTag): Result<Cell, StatusCode> {
    var moved :- c.MoveFrom(Some(valueType));
    Ok(moved.0)
  }

  function FillField(n: Node, key: FieldKey, valueType: TypeTag, x: Bytes): Result<Node, StatusCode> {
    var loaded :- LoadField(n, key);
    var c :- FillCell(loaded.0.fields[key].cell, valueType, x);
    Ok(WithFieldCell(loaded.0, key, c))
  }

  function EmptyField(n: Node, key: FieldKey, valueType: TypeTag): Result<Node, StatusCode> {
    var loaded :- LoadField(n, key);
    var c :- EmptyCell(loaded.0.fields[key].cell, valueType);
    Ok(WithFieldCell(loaded.0, key, c))
  }

  function AddField(n: Node, key: FieldKey, valueType: TypeTag, x: Bytes): Result<Node, StatusCode> {
    var n1 :- FillField(n, key, valueType, x);
    GrowNode(n1)
  }

  function RemoveField(n: Node, key: FieldKey, valueType: TypeTag): Result<Node, StatusCode> {
    var n1 :- EmptyField(n, key, valueType);
    ShrinkNode(n1)
  }

  /** The field's value is read. */
  function BorrowField(n: Node, key: FieldKey, valueType: TypeTag): Result<(Node, Bytes), StatusCode> {
    var loaded :- LoadField(n, key);
    var x :- loaded.0.fields[key].cell.BorrowValue(Some(valueType));
    Ok((loaded.0, x))
  }

  /** Borrow a field's value mutably and write through the reference. */
  function WriteField(n: Node, key: FieldKey, valueType: TypeTag, x: Bytes): Result<Node, StatusCode> {
    var loaded :- LoadField(n, key);
    var n1 := loaded.0;
    var written :- n1.fields[key].cell.WriteValue(Some(valueType), x);
    Ok(WithFieldCell(n1, key, written))
  }

  /** What publishing needs to know about a module: where it goes and what is stored there. */
  datatype Publication = Publication(
    packageKey: FieldKey,
    packageOwner: AccountAddress,
    packageType: TypeTag,
    emptyPackage: Bytes,
    moduleKey: FieldKey,
    moduleType: TypeTag,
    moduleValue: Bytes)

  /** A new package: its value moves in, and it belongs to the publisher. */
  function CreatePackage(c: Cell, p: Publication): Result<Cell, StatusCode> {
    var created :- c.MoveTo(p.emptyPackage, p.packageType);
    var owned :- created.meta.Transfer(p.packageOwner);
    Ok(created.(meta := owned))
  }

  /** The package field of the module store, created when absent. */
  function LoadOrCreatePackage(n: Node, p: Publication): (r: Result<Node, StatusCode>)
    ensures r.Ok? ==> p.packageKey in r.value.fields
  {
    var loaded :- LoadField(n, p.packageKey);
    if loaded.0.fields[p.packageKey].Exists() then Ok(loaded.0)
    else
      var c :- CreatePackage(loaded.0.fields[p.packageKey].cell, p);
      Ok(WithFieldCell(loaded.0, p.packageKey, c))
  }

  /** The module value moves in; republishing first moves the previous value out. */
  function ReplaceModule(c: Cell, p: Publication, isRepublishing: bool): Result<Cell, StatusCode> {
    var emptied :- if isRepublishing then EmptyCell(c, p.moduleType) else Ok(c);
    emptied.MoveTo(p.moduleValue, p.moduleType)
  }

  /** Put the module value into its package; a new module counts as one more field. */
  function StoreModule(package: Node, p: Publication, isRepublishing: bool): Result<Node, StatusCode> {
    var loaded :- LoadField(package, p.moduleKey);
    var c :- ReplaceModule(loaded.0.fields[p.moduleKey].cell, p, isRepublishing);
    var stored := WithFieldCell(loaded.0, p.moduleKey, c);
    if isRepublishing then Ok(stored) else GrowNode(stored)
  }

  /** The field is there already. */
  predicate HasField(n: Node, key: FieldKey) {
    if key in n.fields then n.fields[key].Exists() else key in n.Root().fields
  }

  /** Store the module in its resident package. */
  function StoreInPackage(n: Node, p: Publication, isRepublishing: bool): Result<Node, StatusCode>
    requires p.packageKey in n.fields
  {
    var package :- StoreModule(n.fields[p.packageKey], p, isRepublishing);
    Ok(n.(fields := n.fields[p.packageKey := package]))
  }

  /** A package that was just created counts as one more field of the store. */
  function StoreAndCount(n: Node, p: Publication, isRepublishing: bool, newPackage: bool): Result<Node, StatusCode>
    requires p.packageKey in n.fields
  {
    var stored :- StoreInPackage(n, p, isRepublishing);
    if newPackage then GrowNode(stored) else Ok(stored)
  }

  /** Publish a module under the module store `n`; a new package counts as one more field of the store. */
  function PublishModule(n: Node, p: Publication, isRepublishing: bool): Result<Node, StatusCode> {
    var n1 :- LoadOrCreatePackage(n, p);
    StoreAndCount(n1, p, isRepublishing, !HasField(n, p.packageKey))
  }

  // ---------- runs ----------

  /** One call on an object of the tree. */
  datatype NodeOp =
    | Touch
    | ReadField(key: FieldKey, expected: Option<TypeTag>)
    | BorrowFieldOp(key: FieldKey, valueType: TypeTag)
    | WriteOp(key: FieldKey, valueType: TypeTag, x: Bytes)
    | AddOp(key: FieldKey, valueType: TypeTag, x: Bytes)
    | RemoveOp(key: FieldKey, valueType: TypeTag)
    | BorrowOp(expected: Option<TypeTag>)
    | ReleaseOp
    | TakeOp(expected: Option<TypeTag>)
    | TransferOp(newOwner: AccountAddress, expected: Option<TypeTag>)
    | ShareOp(expected: Option<TypeTag>)
    | FreezeOp(expected: Option<TypeTag>)
    | PublishOp(publication: Publication, isRepublishing: bool)

  /** The calls that only concern the object itself. */
  function CellStep(c: Cell, op: NodeOp): Result<Cell, StatusCode> {
    match op
    case BorrowOp(t) => (match c.BorrowObject(t) case Ok(r) => Ok(r.0) case Err(e) => Err(e))
    case ReleaseOp => c.ReleaseObject()
    case TakeOp(t) => (match c.TakeObject(t) case Ok(r) => Ok(r.0) case Err(e) => Err(e))
    case TransferOp(o, t) => c.TransferObject(c.meta.Id(), o, t)
    case ShareOp(t) => c.ToSharedObject(c.meta.Id(), t)
    case FreezeOp(t) => c.ToFrozenObject(c.meta.Id(), t)
    case _ => Ok(c)
  }

  function NodeStep(n: Node, op: NodeOp): Result<Node, StatusCode> {
    match op
    case ReadField(k, _) => (match LoadField(n, k) case Ok(r) => Ok(r.0) case Err(e) => Err(e))
    case BorrowFieldOp(k, t) => (match BorrowField(n, k, t) case Ok(r) => Ok(r.0) case Err(e) => Err(e))
    case WriteOp(k, t, x) => WriteField(n, k, t, x)
    case AddOp(k, t, x) => AddField(n, k, t, x)
    case RemoveOp(k, t) => RemoveField(n, k, t)
    case PublishOp(p, r) => PublishModule(n, p, r)
    case _ =>
      var c :- CellStep(n.cell, op);
      Ok(n.(cell := c))
  }

  /** What a call does to a node, case by case. */
  lemma StepIs(n: Node, op: NodeOp)
    requires NodeStep(n, op).Ok?
    ensures op.WriteOp? ==> WriteField(n, op.key, op.valueType, op.x) == NodeStep(n, op)
    ensures op.AddOp? ==> AddField(n, op.key, op.valueType, op.x) == NodeStep(n, op)
    ensures op.RemoveOp? ==> RemoveField(n, op.key, op.valueType) == NodeStep(n, op)
    ensures op.PublishOp? ==> PublishModule(n, op.publication, op.isRepublishing) == NodeStep(n, op)
    ensures op.ReadField? || op.BorrowFieldOp? ==>
              LoadField(n, op.key).Ok? && LoadField(n, op.key).value.0 == NodeStep(n, op).value
    ensures IsOwnCall(op) ==> CellStep(n.cell, op).Ok? && n.(cell := CellStep(n.cell, op).value) == NodeStep(n, op).value
  {}

  /** What a call hands to its caller. */
  datatype Answer = Nothing | YesNo(yes: bool) | ValueOf(x: Bytes) | PointerTo(id: ObjectID)

  /** The field's cell as a call on the field finds it. */
  function FieldCell(n: Node, key: FieldKey): Cell
    requires LoadField(n, key).Ok?
  {
    LoadField(n, key).value.0.fields[key].cell
  }

  /** The answer of a call that succeeds. */
  function Gives(n: Node, op: NodeOp): Answer
    requires NodeStep(n, op).Ok?
  {
    match op
    case ReadField(k, t) => YesNo(FieldCell(n, k).Holds(t))
    case BorrowFieldOp(k, t) => ValueOf(BorrowField(n, k, t).value.1)
    case AddOp(k, _, _) => PointerTo(FieldCell(n, k).meta.Id())
    case RemoveOp(k, t) => ValueOf(FieldCell(n, k).MoveFrom(Some(t)).value.1)
    case BorrowOp(t) => PointerTo(n.cell.BorrowObject(t).value.1)
    case TakeOp(t) => PointerTo(n.cell.TakeObject(t).value.1)
    case _ => Nothing
  }

  /** The call concerns the object itself, not its fields. */
  predicate IsOwnCall(op: NodeOp) {
    op.Touch? || op.BorrowOp? || op.ReleaseOp? || op.TakeOp? || op.TransferOp? || op.ShareOp? || op.FreezeOp?
  }

  /** Load the object at `path` below `n` and run `op` on it. */
  function StepAt(n: Node, path: ObjectID, op: NodeOp): Result<Node, StatusCode>
    decreases |path|
  {
    if path == [] then NodeStep(n, op)
    else
      var loaded :- LoadField(n, path[0]);
      var n1 := loaded.0;
      var child :- StepAt(n1.fields[path[0]], path[1..], op);
      Ok(n1.(fields := n1.fields[path[0] := child]))
  }

  /** The answer of a call at `path` that succeeds. */
  function AnswerAt(n: Node, path: ObjectID, op: NodeOp): Answer
    requires StepAt(n, path, op).Ok?
    decreases |path|
  {
    if path == [] then Gives(n, op) else AnswerAt(LoadField(n, path[0]).value.0.fields[path[0]], path[1..], op)
  }

  /** The resident node at `path` below `n`. */
  function NodeAt(n: Node, path: ObjectID): Option<Node>
    decreases |path|
  {
    if path == [] then Some(n)
    else if path[0] in n.fields then NodeAt(n.fields[path[0]], path[1..])
    else None
  }

  datatype Step = Step(path: ObjectID, op: NodeOp)

  /** A run of successful calls. */
  function Run(n: Node, steps: seq<Step>): Result<Node, StatusCode>
    decreases |steps|
  {
    if steps == [] then Ok(n)
    else
      var n1 :- StepAt(n, steps[0].path, steps[0].op);
      Run(n1, steps[1..])
  }

  lemma RunOne(n: Node, step: Step, rest: seq<Step>)
    requires StepAt(n, step.path, step.op).Ok?
    ensures Run(n, [step] + rest) == Run(StepAt(n, step.path, step.op).value, rest)
  {
    assert ([step] + rest)[1..] == rest;
  }

  /** The object a call at `path` is made on satisfies `p` together with the call. */
  predicate StepSatisfies(n: Node, path: ObjectID, op: NodeOp, p: (Node, NodeOp) -> bool)
    decreases |path|
  {
    if path == [] then p(n, op)
    else LoadField(n, path[0]).Ok? ==> StepSatisfies(LoadField(n, path[0]).value.0.fields[path[0]], path[1..], op, p)
  }

  predicate RunSatisfies(n: Node, steps: seq<Step>, p: (Node, NodeOp) -> bool)
    decreases |steps|
  {
    steps == [] ||
    (StepSatisfies(n, steps[0].path, steps[0].op, p) &&
     (StepAt(n, steps[0].path, steps[0].op).Ok? ==>
        RunSatisfies(StepAt(n, steps[0].path, steps[0].op).value, steps[1..], p)))
  }

  /** The runtime's tree when it starts. */
  function NewRuntime(root: ObjectMeta): Node {
    Node(LoadCell(NewRoot(root)), map[])
  }
}

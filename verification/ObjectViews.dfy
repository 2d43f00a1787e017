/** Objects as their callers know them: an object is there or not, and its pointer is at rest, lent or out. Every call of
    the runtime, with its answer and its error, is the call on these views. */
module ObjectViews {
  import opened Common
  import opened TypeTags
  import opened GlobalValues
  import opened StateStore
  import opened RuntimeNode
  import opened RuntimeInvariant
  import opened Lookup

  datatype Place = Out | Resting | Lent

  /** `original`: the object is the stored one, not one made in this run in its place. A stored object that was removed
      leaves its type behind. */
  datatype Content =
    | Gone(lastType: Option<TypeTag>)
    | There(metadata: ObjectMeta, value: Bytes, written: bool, original: bool)

  datatype ObjectView = ObjectView(id: ObjectID, content: Content, place: Place, pointerStored: bool)

  // ---------- calls on one view ----------

  /** A new object: owned by the system, not shared, not frozen, without fields and times. */
  function Made(id: ObjectID, valueType: TypeTag): ObjectMeta {
    ObjectMeta(id, ZERO_ADDRESS, ObjectFlag(false, false), StateTree(map[]), 0, 0, 0, valueType)
  }

  /** A stored object is loaded as it is; its pointer is at rest unless the object is embedded in another one. */
  function AsLoaded(stored: Option<ObjectState>, id: ObjectID): ObjectView {
    match stored
    case None => ObjectView(id, Gone(None), Out, false)
    case Some(s) =>
      var embedded := s.metadata.owner == ZERO_ADDRESS && !s.metadata.flag.shared && !s.metadata.flag.frozen;
      ObjectView(id, There(s.metadata, s.value, false, true), if embedded then Out else Resting, !embedded)
  }

  function TypeOf(v: ObjectView): Option<TypeTag> {
    match v.content
    case Gone(last) => last
    case There(m, _, _, _) => Some(m.objectType)
  }

  /** Why a call that expects a type does not even start. */
  function Mistyped(v: ObjectView, expected: Option<TypeTag>): Option<StatusCode> {
    if expected.None? || expected == TypeOf(v) then None
    else if TypeOf(v).None? then Some(MissingData) else Some(TypeMismatch)
  }

  function Read(v: ObjectView, expected: Option<TypeTag>): Result<Bytes, StatusCode> {
    if Mistyped(v, expected).Some? then Err(Mistyped(v, expected).value)
    else if v.content.Gone? then Err(MissingData)
    else Ok(v.content.value)
  }

  function Write(v: ObjectView, expected: Option<TypeTag>, x: Bytes): Result<ObjectView, StatusCode> {
    var _ :- Read(v, expected);
    Ok(v.(content := v.content.(value := x, written := true)))
  }

  function MoveIn(v: ObjectView, x: Bytes, valueType: TypeTag): Result<ObjectView, StatusCode> {
    if v.content.There? || v.place != Out then Err(ResourceAlreadyExists)
    else Ok(v.(content := There(Made(v.id, valueType), x, true, false), place := Resting))
  }

  function MoveOut(v: ObjectView, expected: Option<TypeTag>): Result<ObjectView, StatusCode> {
    var _ :- Read(v, expected);
    Ok(v.(content := Gone(if v.content.original then TypeOf(v) else None)))
  }

  function Lend(v: ObjectView, expected: Option<TypeTag>): Result<ObjectView, StatusCode> {
    if Mistyped(v, expected).Some? then Err(Mistyped(v, expected).value)
    else if v.content.Gone? then Err(Aborted(2))
    else if v.place == Out then Err(Aborted(15))
    else if v.place == Lent then Err(Aborted(7))
    else Ok(v.(place := Lent))
  }

  function Release(v: ObjectView): Result<ObjectView, StatusCode> {
    if v.place == Lent then Ok(v.(place := Resting)) else Err(InvariantViolation)
  }

  function TakeOut(v: ObjectView, expected: Option<TypeTag>): Result<ObjectView, StatusCode> {
    if Mistyped(v, expected).Some? then Err(Mistyped(v, expected).value)
    else if v.place == Out then Err(Aborted(15))
    else if v.place == Lent then Err(Aborted(7))
    else Ok(v.(place := Out))
  }

  /** The pointer comes back, and the object gets an owner and flags. */
  function GiveBack(v: ObjectView, expected: Option<TypeTag>, owner: AccountAddress, shared: bool, frozen: bool)
    : Result<ObjectView, StatusCode>
  {
    if Mistyped(v, expected).Some? then Err(Mistyped(v, expected).value)
    else if v.place != Out then Err(ResourceAlreadyExists)
    else if v.content.Gone? then Err(MissingData)
    else
      var m := v.content.metadata;
      var flag := ObjectFlag(m.flag.shared || shared, m.flag.frozen || frozen);
      Ok(v.(place := Resting, content := v.content.(metadata := m.(owner := owner, flag := flag))))
  }

  /** One field more or less is counted, within 64 bits. */
  function Resize(v: ObjectView, change: int): Result<ObjectView, StatusCode> {
    if v.content.Gone? then Err(MissingData)
    else
      var size := v.content.metadata.size + change;
      if size < 0 || (change > 0 && size >= 0x1_0000_0000_0000_0000) then Err(InvariantViolation)
      else Ok(v.(content := v.content.(metadata := v.content.metadata.(size := size))))
  }

  function OwnCall(v: ObjectView, op: NodeOp): Result<ObjectView, StatusCode> {
    match op
    case BorrowOp(t) => Lend(v, t)
    case ReleaseOp => Release(v)
    case TakeOp(t) => TakeOut(v, t)
    case TransferOp(owner, t) => GiveBack(v, t, owner, false, false)
    case ShareOp(t) => GiveBack(v, t, ZERO_ADDRESS, true, false)
    case FreezeOp(t) => GiveBack(v, t, ZERO_ADDRESS, false, true)
    case _ => Ok(v)
  }

  // ---------- the cells behave like their views ----------

  function View(c: Cell): ObjectView {
    ObjectView(
      c.meta.Id(),
      if c.meta.MetaNone? then Gone(None)
      else if c.value.GvFresh? then There(c.meta.mv.metadata, c.value.v, true, c.meta.MetaCached?)
      else if c.value.GvCached? then There(c.meta.mv.metadata, c.value.v, c.value.dirty, c.meta.MetaCached?)
      else Gone(Some(c.meta.mv.metadata.objectType)),
      if c.pointer.value.GvNone? || c.pointer.value.GvDeleted? then Out else if c.pointer.borrows == 0 then Resting else Lent,
      c.pointer.value.GvCached? || c.pointer.value.GvDeleted?)
  }

  /** A call on a cell has the outcome of the call on its view. */
  predicate Refines(r: Result<Cell, StatusCode>, s: Result<ObjectView, StatusCode>) {
    match r
    case Ok(c) => s == Ok(View(c))
    case Err(e) => s == Err(e)
  }

  lemma LoadedView(o: ObjectState, id: ObjectID)
    requires o.metadata.id == id
    ensures View(LoadCell(o)) == AsLoaded(Some(o), id)
  {}

  lemma CheckedAlike(c: Cell, id: ObjectID, o: Option<ObjectState>, t: Option<TypeTag>)
    requires CellInv(c, id, o)
    ensures Mistyped(View(c), t).None? ==> c.CheckType(t) == Ok(())
    ensures Mistyped(View(c), t).Some? ==> c.CheckType(t) == Err(Mistyped(View(c), t).value)
  {}

  /** Reading an object answers its value, of its type only, exactly while it is there. */
  lemma ReadAlike(c: Cell, id: ObjectID, o: Option<ObjectState>, t: Option<TypeTag>)
    requires CellInv(c, id, o)
    ensures c.BorrowValue(t) == Read(View(c), t)
    ensures c.Holds(t) <==> Read(View(c), t).Ok?
  {
    CheckedAlike(c, id, o, t);
  }

  lemma WriteAlike(c: Cell, id: ObjectID, o: Option<ObjectState>, t: Option<TypeTag>, x: Bytes)
    requires CellInv(c, id, o)
    ensures Refines(c.WriteValue(t, x), Write(View(c), t, x))
  {
    CheckedAlike(c, id, o, t);
  }

  lemma MoveInAlike(c: Cell, id: ObjectID, o: Option<ObjectState>, x: Bytes, t: TypeTag)
    requires CellInv(c, id, o)
    ensures Refines(c.MoveTo(x, t), MoveIn(View(c), x, t))
  {}

  /** A call that hands something out has the outcome of the call on the view, and hands out what is expected. */
  predicate HandsOut<T(==)>(r: Result<(Cell, T), StatusCode>, s: Result<ObjectView, StatusCode>, expected: Result<T, StatusCode>) {
    if r.Ok? then s == Ok(View(r.value.0)) && expected == Ok(r.value.1) else s == Err(r.error)
  }

  /** What moves out is what could be read. */
  lemma MoveOutAlike(c: Cell, id: ObjectID, o: Option<ObjectState>, t: Option<TypeTag>)
    requires CellInv(c, id, o)
    ensures HandsOut(c.MoveFrom(t), MoveOut(View(c), t), Read(View(c), t))
  {
    CheckedAlike(c, id, o, t);
  }

  /** A borrowed or taken pointer is the one of the object itself. */
  lemma PointerAlike(c: Cell, id: ObjectID, o: Option<ObjectState>, t: Option<TypeTag>)
    requires CellInv(c, id, o)
    ensures HandsOut(c.BorrowObject(t), Lend(View(c), t), Ok(id))
    ensures HandsOut(c.TakeObject(t), TakeOut(View(c), t), Ok(id))
  {
    CheckedAlike(c, id, o, t);
  }

  lemma OwnCallAlike(c: Cell, id: ObjectID, o: Option<ObjectState>, op: NodeOp)
    requires CellInv(c, id, o)
    ensures Refines(CellStep(c, op), OwnCall(View(c), op))
  {
    match op
    case BorrowOp(t) => PointerAlike(c, id, o, t);
    case TakeOp(t) => PointerAlike(c, id, o, t);
    case TransferOp(_, t) => CheckedAlike(c, id, o, t);
    case ShareOp(t) => CheckedAlike(c, id, o, t);
    case FreezeOp(t) => CheckedAlike(c, id, o, t);
    case _ =>
  }

  // ---------- calls on fields ----------

  predicate IsFieldCall(op: NodeOp) {
    op.ReadField? || op.BorrowFieldOp? || op.WriteOp? || op.AddOp? || op.RemoveOp?
  }

  /** The field of an object, resident or still in the store. */
  function FieldView(n: Node, k: FieldKey): ObjectView {
    if k in n.fields then View(n.fields[k].cell) else AsLoaded(GetFieldAt(n.Root(), k), n.cell.meta.Id() + [k])
  }

  /** Reading changes nothing; a new field counts one more, and its pointer goes to the caller; a removed one counts one
      less. */
  function FieldCall(own: ObjectView, field: ObjectView, op: NodeOp): Result<(ObjectView, ObjectView), StatusCode>
    requires IsFieldCall(op)
  {
    if own.content == Gone(None) then Err(MissingData)
    else
      match op
      case ReadField(_, _) => Ok((own, field))
      case BorrowFieldOp(_, t) =>
        var _ :- Read(field, Some(t));
        Ok((own, field))
      case WriteOp(_, t, x) =>
        var written :- Write(field, Some(t), x);
        Ok((own, written))
      case AddOp(_, t, x) =>
        var filled :- MoveIn(field, x, t);
        var grown :- Resize(own, 1);
        Ok((grown, filled.(place := Out)))
      case RemoveOp(_, t) =>
        var emptied :- MoveOut(field, Some(t));
        var shrunk :- Resize(own, -1);
        Ok((shrunk, emptied))
  }

  lemma FieldLoads(n: Node, id: ObjectID, o: Option<ObjectState>, k: FieldKey)
    requires NodeInv(n, id, o)
    ensures if View(n.cell).content == Gone(None) then LoadField(n, k) == Err(MissingData) else LoadField(n, k).Ok?
    ensures LoadField(n, k).Ok? ==>
              && View(FieldCell(n, k)) == FieldView(n, k) && CellInv(FieldCell(n, k), id + [k], FieldOf(o, k))
  {
    if LoadField(n, k).Ok? {
      LoadFieldKeeps(n, id, o, k);
      var stored := GetFieldAt(n.Root(), k);
      assert NodeInv(LoadField(n, k).value.0.fields[k], id + [k], FieldOf(o, k));
      if k !in n.fields && stored.Some? {
        LoadedView(stored.value, id + [k]);
      }
    }
  }

  /** A value moved in, and the pointer went out. */
  predicate Fills(r: Result<Cell, StatusCode>, s: Result<ObjectView, StatusCode>) {
    match r
    case Ok(c) => s.Ok? && s.value.(place := Out) == View(c)
    case Err(e) => s == Err(e)
  }

  lemma FillAlike(c: Cell, id: ObjectID, o: Option<ObjectState>, t: TypeTag, x: Bytes)
    requires CellInv(c, id, o)
    ensures Fills(FillCell(c, t, x), MoveIn(View(c), x, t))
  {
    MoveInAlike(c, id, o, x, t);
    if c.MoveTo(x, t).Ok? {
      MoveToKeeps(c, id, o, x, t);
      PointerAlike(c.MoveTo(x, t).value, id, o, Some(t));
    }
  }

  lemma ResizeAlike(n: Node)
    requires JointState(n.cell)
    ensures Refines(NodeCell(GrowNode(n)), Resize(View(n.cell), 1))
    ensures Refines(NodeCell(ShrinkNode(n)), Resize(View(n.cell), -1))
  {}

  function NodeCell(r: Result<Node, StatusCode>): Result<Cell, StatusCode> {
    match r
    case Ok(n) => Ok(n.cell)
    case Err(e) => Err(e)
  }

  /** The call has the outcome of the call on the two views. */
  predicate FieldRefines(r: Result<Node, StatusCode>, k: FieldKey, s: Result<(ObjectView, ObjectView), StatusCode>) {
    match r
    case Ok(m) => k in m.fields && s == Ok((View(m.cell), View(m.fields[k].cell)))
    case Err(e) => s == Err(e)
  }

  lemma ReadFieldAlike(n: Node, id: ObjectID, o: Option<ObjectState>, op: NodeOp)
    requires NodeInv(n, id, o) && (op.ReadField? || op.BorrowFieldOp?)
    ensures FieldRefines(NodeStep(n, op), op.key, FieldCall(View(n.cell), FieldView(n, op.key), op))
    ensures NodeStep(n, op).Ok? && op.ReadField? ==> Gives(n, op) == YesNo(Read(FieldView(n, op.key), op.expected).Ok?)
    ensures NodeStep(n, op).Ok? && op.BorrowFieldOp? ==>
              Read(FieldView(n, op.key), Some(op.valueType)).Ok?
              && Gives(n, op) == ValueOf(Read(FieldView(n, op.key), Some(op.valueType)).value)
  {
    var k := op.key;
    FieldLoads(n, id, o, k);
    if LoadField(n, k).Ok? {
      ReadAlike(FieldCell(n, k), id + [k], FieldOf(o, k), if op.ReadField? then op.expected else Some(op.valueType));
    }
  }

  lemma WriteFieldAlike(n: Node, id: ObjectID, o: Option<ObjectState>, k: FieldKey, t: TypeTag, x: Bytes)
    requires NodeInv(n, id, o)
    ensures FieldRefines(WriteField(n, k, t, x), k, FieldCall(View(n.cell), FieldView(n, k), WriteOp(k, t, x)))
  {
    FieldLoads(n, id, o, k);
    if LoadField(n, k).Ok? {
      WriteAlike(FieldCell(n, k), id + [k], FieldOf(o, k), Some(t), x);
    }
  }

  /** The parts of adding a field, put together. */
  lemma AddedAlike(n: Node, loaded: Node, k: FieldKey, t: TypeTag, x: Bytes)
    requires JointState(n.cell) && LoadField(n, k).Ok? && loaded == LoadField(n, k).value.0
    requires View(n.cell).content != Gone(None)
    requires Fills(FillCell(loaded.fields[k].cell, t, x), MoveIn(FieldView(n, k), x, t))
    ensures FieldRefines(AddField(n, k, t, x), k, FieldCall(View(n.cell), FieldView(n, k), AddOp(k, t, x)))
  {
    if FillField(n, k, t, x).Ok? {
      ResizeAlike(FillField(n, k, t, x).value);
    }
  }

  lemma AddFieldAlike(n: Node, id: ObjectID, o: Option<ObjectState>, k: FieldKey, t: TypeTag, x: Bytes)
    requires NodeInv(n, id, o)
    ensures FieldRefines(AddField(n, k, t, x), k, FieldCall(View(n.cell), FieldView(n, k), AddOp(k, t, x)))
  {
    FieldLoads(n, id, o, k);
    if LoadField(n, k).Ok? {
      FillAlike(FieldCell(n, k), id + [k], FieldOf(o, k), t, x);
      AddedAlike(n, LoadField(n, k).value.0, k, t, x);
    }
  }

  lemma AddAnswers(n: Node, id: ObjectID, o: Option<ObjectState>, k: FieldKey, t: TypeTag, x: Bytes)
    requires NodeInv(n, id, o) && NodeStep(n, AddOp(k, t, x)).Ok?
    ensures Gives(n, AddOp(k, t, x)) == PointerTo(id + [k])
  {
    FieldLoads(n, id, o, k);
  }

  lemma RemovedAlike(n: Node, loaded: Node, k: FieldKey, t: TypeTag)
    requires JointState(n.cell) && LoadField(n, k).Ok? && loaded == LoadField(n, k).value.0
    requires View(n.cell).content != Gone(None)
    requires Refines(EmptyCell(loaded.fields[k].cell, t), MoveOut(FieldView(n, k), Some(t)))
    ensures FieldRefines(RemoveField(n, k, t), k, FieldCall(View(n.cell), FieldView(n, k), RemoveOp(k, t)))
  {
    if EmptyField(n, k, t).Ok? {
      ResizeAlike(EmptyField(n, k, t).value);
    }
  }

  lemma EmptyAlike(c: Cell, id: ObjectID, o: Option<ObjectState>, t: TypeTag)
    requires CellInv(c, id, o)
    ensures Refines(EmptyCell(c, t), MoveOut(View(c), Some(t)))
  {
    MoveOutAlike(c, id, o, Some(t));
  }

  lemma RemoveFieldAlike(n: Node, id: ObjectID, o: Option<ObjectState>, k: FieldKey, t: TypeTag)
    requires NodeInv(n, id, o)
    ensures FieldRefines(RemoveField(n, k, t), k, FieldCall(View(n.cell), FieldView(n, k), RemoveOp(k, t)))
  {
    FieldLoads(n, id, o, k);
    if LoadField(n, k).Ok? {
      EmptyAlike(FieldCell(n, k), id + [k], FieldOf(o, k), t);
      RemovedAlike(n, LoadField(n, k).value.0, k, t);
    }
  }

  lemma RemoveAnswers(n: Node, id: ObjectID, o: Option<ObjectState>, k: FieldKey, t: TypeTag)
    requires NodeInv(n, id, o) && NodeStep(n, RemoveOp(k, t)).Ok?
    ensures Read(FieldView(n, k), Some(t)).Ok? && Gives(n, RemoveOp(k, t)) == ValueOf(Read(FieldView(n, k), Some(t)).value)
  {
    FieldLoads(n, id, o, k);
    MoveOutAlike(FieldCell(n, k), id + [k], FieldOf(o, k), Some(t));
  }

  // ---------- publishing ----------

  /** A new package belongs to its publisher. */
  function NewPackage(v: ObjectView, p: Publication): Result<ObjectView, StatusCode> {
    var made :- MoveIn(v, p.emptyPackage, p.packageType);
    Ok(made.(content := made.content.(metadata := made.content.metadata.(owner := p.packageOwner))))
  }

  /** The package, made if it is not there. */
  function PackageCall(package: ObjectView, p: Publication): Result<ObjectView, StatusCode> {
    if package.content.There? then Ok(package) else NewPackage(package, p)
  }

  /** The module moves into its place, a republished one after the old one has moved out; a new one is counted. */
  function StoreCall(package: ObjectView, code: ObjectView, p: Publication, isRepublishing: bool)
    : Result<(ObjectView, ObjectView), StatusCode>
  {
    var emptied :- if isRepublishing then MoveOut(code, Some(p.moduleType)) else Ok(code);
    var stored :- MoveIn(emptied, p.moduleValue, p.moduleType);
    var counted :- if isRepublishing then Ok(package) else Resize(package, 1);
    Ok((counted, stored))
  }

  /** Publishing in the module store: its package, created if it is not there and then counted, and the module. */
  function PublishCall(own: ObjectView, package: ObjectView, code: ObjectView, p: Publication, isRepublishing: bool)
    : Result<(ObjectView, ObjectView, ObjectView), StatusCode>
  {
    if own.content == Gone(None) then Err(MissingData)
    else
      var package1 :- PackageCall(package, p);
      var stored :- StoreCall(package1, code, p, isRepublishing);
      var counted :- if package.content.There? then Ok(own) else Resize(own, 1);
      Ok((counted, stored.0, stored.1))
  }

  /** The module as the call finds it: below a package that is there, or below one about to be made. */
  function ModuleView(n: Node, p: Publication): ObjectView {
    var id := n.cell.meta.Id() + [p.packageKey];
    if p.packageKey in n.fields then
      var package := n.fields[p.packageKey];
      if package.Exists() || p.moduleKey in package.fields then FieldView(package, p.moduleKey)
      else AsLoaded(None, id + [p.moduleKey])
    else AsLoaded(FieldOf(GetFieldAt(n.Root(), p.packageKey), p.moduleKey), id + [p.moduleKey])
  }

  lemma NewPackageAlike(c: Cell, id: ObjectID, o: Option<ObjectState>, p: Publication)
    requires CellInv(c, id, o)
    ensures Refines(CreatePackage(c, p), NewPackage(View(c), p))
  {
    MoveInAlike(c, id, o, p.emptyPackage, p.packageType);
  }

  lemma ReplaceAlike(c: Cell, id: ObjectID, o: Option<ObjectState>, p: Publication, r: bool)
    requires CellInv(c, id, o)
    ensures r ==> Refines(EmptyCell(c, p.moduleType), MoveOut(View(c), Some(p.moduleType)))
    ensures r && EmptyCell(c, p.moduleType).Ok? ==>
              Refines(ReplaceModule(c, p, r), MoveIn(View(EmptyCell(c, p.moduleType).value), p.moduleValue, p.moduleType))
    ensures r && EmptyCell(c, p.moduleType).Err? ==> ReplaceModule(c, p, r) == Err(EmptyCell(c, p.moduleType).error)
    ensures !r ==> Refines(ReplaceModule(c, p, r), MoveIn(View(c), p.moduleValue, p.moduleType))
  {
    if !r {
      MoveInAlike(c, id, o, p.moduleValue, p.moduleType);
    } else {
      EmptyAlike(c, id, o, p.moduleType);
      if EmptyCell(c, p.moduleType).Ok? {
        MoveFromKeeps(c, id, o, Some(p.moduleType));
        MoveInAlike(EmptyCell(c, p.moduleType).value, id, o, p.moduleValue, p.moduleType);
      }
    }
  }

  lemma StoreAlike(n: Node, id: ObjectID, o: Option<ObjectState>, p: Publication, r: bool)
    requires NodeInv(n, id, o) && n.Exists()
    ensures FieldRefines(StoreModule(n, p, r), p.moduleKey, StoreCall(View(n.cell), FieldView(n, p.moduleKey), p, r))
  {
    var k := p.moduleKey;
    FieldLoads(n, id, o, k);
    var loaded := LoadField(n, k).value.0;
    ReplaceAlike(loaded.fields[k].cell, id + [k], FieldOf(o, k), p, r);
    if ReplaceModule(loaded.fields[k].cell, p, r).Ok? {
      ResizeAlike(WithFieldCell(loaded, k, ReplaceModule(loaded.fields[k].cell, p, r).value));
    }
  }

  predicate PackageRefines(r: Result<Node, StatusCode>, p: Publication, s: Result<ObjectView, StatusCode>) {
    match r
    case Ok(m) => p.packageKey in m.fields && s == Ok(View(m.fields[p.packageKey].cell))
    case Err(e) => s == Err(e)
  }

  lemma PackageAlike(n: Node, id: ObjectID, o: Option<ObjectState>, p: Publication)
    requires NodeInv(n, id, o) && LoadField(n, p.packageKey).Ok?
    ensures PackageRefines(LoadOrCreatePackage(n, p), p, PackageCall(FieldView(n, p.packageKey), p))
    ensures FieldView(n, p.packageKey).content.There? <==> HasField(n, p.packageKey)
  {
    FieldLoads(n, id, o, p.packageKey);
    var loaded := LoadField(n, p.packageKey).value.0;
    NewPackageAlike(loaded.fields[p.packageKey].cell, id + [p.packageKey], FieldOf(o, p.packageKey), p);
  }

  lemma ModuleFound(n: Node, id: ObjectID, o: Option<ObjectState>, p: Publication)
    requires NodeInv(n, id, o) && LoadOrCreatePackage(n, p).Ok?
    ensures FieldView(LoadOrCreatePackage(n, p).value.fields[p.packageKey], p.moduleKey) == ModuleView(n, p)
  {
    LoadFieldKeeps(n, id, o, p.packageKey);
    var package := LoadField(n, p.packageKey).value.0.fields[p.packageKey];
    if !package.Exists() {
      CreatePackageKeeps(package.cell, id + [p.packageKey], FieldOf(o, p.packageKey), p);
    }
  }

  predicate PublishRefines(r: Result<Node, StatusCode>, p: Publication,
                           s: Result<(ObjectView, ObjectView, ObjectView), StatusCode>)
  {
    match r
    case Ok(m) =>
      && p.packageKey in m.fields && p.moduleKey in m.fields[p.packageKey].fields
      && s == Ok((View(m.cell), View(m.fields[p.packageKey].cell), View(m.fields[p.packageKey].fields[p.moduleKey].cell)))
    case Err(e) => s == Err(e)
  }

  /** The parts of publishing, put together. */
  lemma PublishedAlike(n: Node, m: Node, p: Publication, r: bool, package: ObjectView, code: ObjectView)
    requires JointState(n.cell) && View(n.cell).content != Gone(None)
    requires LoadOrCreatePackage(n, p) == Ok(m) && PackageCall(package, p) == Ok(View(m.fields[p.packageKey].cell))
    requires package.content.There? <==> HasField(n, p.packageKey)
    requires FieldRefines(StoreModule(m.fields[p.packageKey], p, r), p.moduleKey,
                          StoreCall(View(m.fields[p.packageKey].cell), code, p, r))
    ensures PublishRefines(PublishModule(n, p, r), p, PublishCall(View(n.cell), package, code, p, r))
  {
    if StoreInPackage(m, p, r).Ok? {
      assert m.cell == n.cell;
      ResizeAlike(StoreInPackage(m, p, r).value);
    }
  }

  lemma PublishAlike(n: Node, id: ObjectID, o: Option<ObjectState>, p: Publication, r: bool)
    requires NodeInv(n, id, o)
    ensures PublishRefines(PublishModule(n, p, r), p,
                           PublishCall(View(n.cell), FieldView(n, p.packageKey), ModuleView(n, p), p, r))
  {
    FieldLoads(n, id, o, p.packageKey);
    if LoadField(n, p.packageKey).Ok? {
      PackageAlike(n, id, o, p);
      if LoadOrCreatePackage(n, p).Ok? {
        var m := LoadOrCreatePackage(n, p).value;
        ModuleFound(n, id, o, p);
        PackageKeeps(n, id, o, p);
        PackageInPlace(n, id, o, p);
        StoreAlike(m.fields[p.packageKey], id + [p.packageKey], FieldOf(o, p.packageKey), p, r);
        PublishedAlike(n, m, p, r, FieldView(n, p.packageKey), ModuleView(n, p));
      }
    }
  }

  // ---------- every call of every run ----------

  /** The views a call is about: the object's own, and those of the fields it names. */
  function Involved(n: Node, op: NodeOp): seq<ObjectView> {
    if IsFieldCall(op) then [View(n.cell), FieldView(n, op.key)]
    else if op.PublishOp? then
      [View(n.cell), FieldView(n, op.publication.packageKey), ModuleView(n, op.publication)]
    else [View(n.cell)]
  }

  /** What the call makes of them, and its answer. */
  function CallOn(views: seq<ObjectView>, op: NodeOp): Result<(seq<ObjectView>, Answer), StatusCode>
    requires |views| == if IsFieldCall(op) then 2 else if op.PublishOp? then 3 else 1
  {
    if IsFieldCall(op) then
      var after :- FieldCall(views[0], views[1], op);
      Ok(([after.0, after.1], FieldAnswer(views[1], op)))
    else if op.PublishOp? then
      var after :- PublishCall(views[0], views[1], views[2], op.publication, op.isRepublishing);
      Ok(([after.0, after.1, after.2], Nothing))
    else
      var after :- OwnCall(views[0], op);
      Ok(([after], if op.BorrowOp? || op.TakeOp? then PointerTo(views[0].id) else Nothing))
  }

  /** The answer of a call on a field that succeeds: the value it has, or the pointer it gets. */
  function FieldAnswer(field: ObjectView, op: NodeOp): Answer {
    match op
    case ReadField(_, t) => YesNo(Read(field, t).Ok?)
    case BorrowFieldOp(_, _) => if field.content.There? then ValueOf(field.content.value) else Nothing
    case AddOp(_, _, _) => PointerTo(field.id)
    case RemoveOp(_, _) => if field.content.There? then ValueOf(field.content.value) else Nothing
    case _ => Nothing
  }

  /** A call on an object and the call on the views agree in outcome, answer and error. */
  predicate Exact(n: Node, op: NodeOp) {
    match NodeStep(n, op)
    case Ok(m) => CallOn(Involved(n, op), op) == Ok((Involved(m, op), Gives(n, op)))
    case Err(e) => CallOn(Involved(n, op), op) == Err(e)
  }

  lemma FieldCallExact(n: Node, id: ObjectID, o: Option<ObjectState>, op: NodeOp)
    requires NodeInv(n, id, o) && IsFieldCall(op)
    ensures Exact(n, op)
  {
    match op
    case ReadField(_, _) => ReadFieldAlike(n, id, o, op);
    case BorrowFieldOp(_, _) => ReadFieldAlike(n, id, o, op);
    case WriteOp(k, t, x) => WriteFieldAlike(n, id, o, k, t, x);
    case AddOp(k, t, x) =>
      AddFieldAlike(n, id, o, k, t, x);
      if NodeStep(n, op).Ok? {
        AddAnswers(n, id, o, k, t, x);
        FieldLoads(n, id, o, k);
      }
    case RemoveOp(k, t) =>
      RemoveFieldAlike(n, id, o, k, t);
      if NodeStep(n, op).Ok? {
        RemoveAnswers(n, id, o, k, t);
      }
  }

  lemma PublishedInvolved(m: Node, op: NodeOp)
    requires op.PublishOp? && op.publication.packageKey in m.fields && m.fields[op.publication.packageKey].Exists()
    requires op.publication.moduleKey in m.fields[op.publication.packageKey].fields
    ensures var package := m.fields[op.publication.packageKey];
            Involved(m, op) == [View(m.cell), View(package.cell), View(package.fields[op.publication.moduleKey].cell)]
  {}

  lemma PublishedPackage(n: Node, id: ObjectID, o: Option<ObjectState>, p: Publication, r: bool)
    requires NodeInv(n, id, o) && PublishModule(n, p, r).Ok?
    ensures var m := PublishModule(n, p, r).value;
            p.packageKey in m.fields && m.fields[p.packageKey].Exists()
  {
    PublishedFields(n, p, r);
    PackageInPlace(n, id, o, p);
    PackageKeeps(n, id, o, p);
    StoreModuleKeeps(LoadOrCreatePackage(n, p).value.fields[p.packageKey], id + [p.packageKey],
                     FieldOf(o, p.packageKey), p, r);
  }

  lemma PublishExact(n: Node, id: ObjectID, o: Option<ObjectState>, op: NodeOp)
    requires NodeInv(n, id, o) && op.PublishOp?
    ensures Exact(n, op)
  {
    var p, r := op.publication, op.isRepublishing;
    PublishAlike(n, id, o, p, r);
    if PublishModule(n, p, r).Ok? {
      PublishedPackage(n, id, o, p, r);
      PublishedInvolved(PublishModule(n, p, r).value, op);
    }
  }

  lemma OwnCallExact(n: Node, id: ObjectID, o: Option<ObjectState>, op: NodeOp)
    requires NodeInv(n, id, o) && IsOwnCall(op)
    ensures Exact(n, op)
  {
    OwnCallAlike(n.cell, id, o, op);
    if op.BorrowOp? || op.TakeOp? {
      PointerAlike(n.cell, id, o, op.expected);
    }
  }

  lemma CallIsExact(n: Node, id: ObjectID, o: Option<ObjectState>, op: NodeOp)
    requires NodeInv(n, id, o)
    ensures Exact(n, op)
  {
    if IsFieldCall(op) {
      FieldCallExact(n, id, o, op);
    } else if op.PublishOp? {
      PublishExact(n, id, o, op);
    } else {
      OwnCallExact(n, id, o, op);
    }
  }

  /** The object at `path`, loaded if it is not resident; none if something above it was never there. */
  function ObjectAt(n: Node, path: ObjectID): Option<Node> {
    if LoadPath(n, path).Ok? then NodeAt(LoadPath(n, path).value.0, path) else None
  }

  lemma {:induction false} ObjectAtInv(n: Node, id: ObjectID, o: Option<ObjectState>, path: ObjectID)
    requires NodeInv(n, id, o)
    ensures LoadPath(n, path).Err? ==> LoadPath(n, path).error == MissingData && ObjectAt(n, path) == None
    ensures LoadPath(n, path).Ok? ==>
              ObjectAt(n, path).Some? && NodeInv(ObjectAt(n, path).value, id + path, Below(o, path))
    decreases |path|
  {
    if path == [] {
      assert id + path == id;
    } else if LoadField(n, path[0]).Ok? {
      LoadFieldKeeps(n, id, o, path[0]);
      ObjectAtInv(LoadField(n, path[0]).value.0.fields[path[0]], id + [path[0]], FieldOf(o, path[0]), path[1..]);
      assert id + [path[0]] + path[1..] == id + path;
    }
  }

  lemma {:induction false} ReplacedAt(n: Node, path: ObjectID, m: Node)
    requires NodeAt(n, path).Some?
    ensures NodeAt(ReplaceAt(n, path, m), path) == Some(m)
    decreases |path|
  {
    if path != [] {
      ReplacedAt(n.fields[path[0]], path[1..], m);
    }
  }

  /** A call at `path` and the call on the views of the objects it finds there agree. */
  predicate StepExact(n: Node, path: ObjectID, op: NodeOp) {
    var r, obj := StepAt(n, path, op), ObjectAt(n, path);
    if obj.None? then r == Err(MissingData)
    else if r.Err? then CallOn(Involved(obj.value, op), op) == Err(r.error)
    else
      && NodeAt(r.value, path).Some?
      && CallOn(Involved(obj.value, op), op) == Ok((Involved(NodeAt(r.value, path).value, op), AnswerAt(n, path, op)))
  }

  /** In every reachable tree a call, at any depth, does to the objects involved exactly what it does to their views,
      with the same answer or the same error. */
  lemma EveryCallIsExact(root: ObjectMeta, steps: seq<Step>, path: ObjectID, op: NodeOp)
    requires ValidRoot(root) && Run(NewRuntime(root), steps).Ok?
    ensures StepExact(Run(NewRuntime(root), steps).value, path, op)
  {
    var n, o := Run(NewRuntime(root), steps).value, Some(NewRoot(root));
    NewRuntimeInv(root);
    RunKeeps(NewRuntime(root), [], o, steps);
    ObjectAtInv(n, [], o, path);
    StepIsLoadThenCall(n, path, op);
    if LoadPath(n, path).Ok? {
      var m := ObjectAt(n, path).value;
      CallIsExact(m, [] + path, Below(o, path), op);
      if NodeStep(m, op).Ok? {
        AnswerIsGiven(n, path, op);
        ReplacedAt(LoadPath(n, path).value.0, path, NodeStep(m, op).value);
      }
    }
  }

  /** The root of a new runtime reads as the one byte of an empty struct; embedded nowhere, its pointer is at rest. */
  lemma NewRootView(root: ObjectMeta)
    requires ValidRoot(root)
    ensures View(NewRuntime(root).cell) == AsLoaded(Some(ObjectState(root, [0])), [])
  {
    LoadedView(NewRoot(root), []);
  }

  /** A stored field that is loaded can be read: it answers its stored value, to its own type alone. */
  lemma LoadedFieldIsRead(n: Node, id: ObjectID, o: Option<ObjectState>, k: FieldKey, s: ObjectState, t: TypeTag)
    requires NodeInv(n, id, o) && n.Exists() && k !in n.fields && GetFieldAt(n.Root(), k) == Some(s)
    ensures LoadField(n, k).Ok?
    ensures var c := FieldCell(n, k);
            && c.BorrowValue(None) == Ok(s.value)
            && c.BorrowValue(Some(t)) == if t == s.metadata.objectType then Ok(s.value) else Err(TypeMismatch)
    ensures BorrowField(n, k, t).Ok? <==> t == s.metadata.objectType
    ensures BorrowField(n, k, t).Ok? ==> BorrowField(n, k, t).value.1 == s.value
  {
    FieldLoads(n, id, o, k);
    ReadAlike(FieldCell(n, k), id + [k], FieldOf(o, k), None);
    ReadAlike(FieldCell(n, k), id + [k], FieldOf(o, k), Some(t));
  }
}

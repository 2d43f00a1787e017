/** The `Object<T>` of an object is in one place at a time. */
module PointerLinearity {
  import opened Common
  import opened TypeTags
  import opened GlobalValues
  import opened StateStore
  import opened RuntimeMeta
  import opened RuntimeNode
  import opened RuntimeInvariant
  import opened ChangeSet

  /** 1 when the pointer is at rest (possibly borrowed), 0 when it is out. */
  function AtRest(c: Cell): nat {
    if c.pointer.value.Exists() then 1 else 0
  }

  /** When the pointer can be taken or borrowed, and what blocks it otherwise. */
  lemma PointerAccess(c: Cell, id: ObjectID, o: Option<ObjectState>)
    requires CellInv(c, id, o)
    ensures c.TakeObject(None).Ok? <==> AtRest(c) == 1 && c.pointer.borrows == 0
    ensures c.BorrowObject(None).Ok? <==> c.Exists() && AtRest(c) == 1 && c.pointer.borrows == 0
    ensures c.TakeObject(None).Ok? ==>
              var d := c.TakeObject(None).value.0;
              && d.TakeObject(None) == Err(Aborted(ERROR_OBJECT_ALREADY_TAKEN_OUT_OR_EMBEDDED))
              && d.ReturnPointer(c.TakeObject(None).value.1, None).Ok?
              && d.ReturnPointer(c.TakeObject(None).value.1, None).value.TakeObject(None).Ok?
    ensures c.BorrowObject(None).Ok? ==>
              var d := c.BorrowObject(None).value.0;
              && d.TakeObject(None) == Err(Aborted(ERROR_OBJECT_ALREADY_BORROWED))
              && d.BorrowObject(None) == Err(Aborted(ERROR_OBJECT_ALREADY_BORROWED))
              && d.ReleaseObject() == Ok(c)
  {}

  // ---------- the ledger of one object over a run ----------

  predicate Takes(step: Step, q: ObjectID) {
    step.path == q && step.op.TakeOp?
  }

  /** The call gives a pointer back: to a user or the system, or by sharing or freezing its object. */
  predicate GivesBack(op: NodeOp) {
    op.ShareOp? || op.FreezeOp? || op.TransferOp?
  }

  /** The call gives the pointer of `q` back. */
  predicate Returns(step: Step, q: ObjectID) {
    step.path == q && GivesBack(step.op)
  }

  /** The call publishes at `q`: it stores a module there, or creates the package there. */
  predicate Publishes(n: Node, step: Step, q: ObjectID) {
    step.op.PublishOp? &&
    (q == step.path + [step.op.publication.packageKey, step.op.publication.moduleKey] ||
     (q == step.path + [step.op.publication.packageKey] && NodeAt(n, q).Some? && !NodeAt(n, q).value.Exists()))
  }

  /** The call puts the pointer of `q` to rest. */
  predicate Places(n: Node, step: Step, q: ObjectID) {
    Returns(step, q) || Publishes(n, step, q)
  }

  function CountTakes(steps: seq<Step>, q: ObjectID): nat {
    if steps == [] then 0 else (if Takes(steps[0], q) then 1 else 0) + CountTakes(steps[1..], q)
  }

  function CountPlaced(n: Node, steps: seq<Step>, q: ObjectID): nat
    decreases |steps|
  {
    if steps == [] || StepAt(n, steps[0].path, steps[0].op).Err? then 0
    else
      (if Places(n, steps[0], q) then 1 else 0)
      + CountPlaced(StepAt(n, steps[0].path, steps[0].op).value, steps[1..], q)
  }

  /** The cell of the resident node at `q`. */
  function CellAt(n: Node, q: ObjectID): Cell
    requires NodeAt(n, q).Some?
  {
    NodeAt(n, q).value.cell
  }

  function Owner(c: Cell): AccountAddress {
    if c.meta.MetaNone? then SYSTEM_OWNER_ADDRESS else c.meta.mv.metadata.owner
  }

  function Flag(c: Cell): ObjectFlag {
    if c.meta.MetaNone? then ObjectFlag(false, false) else c.meta.mv.metadata.flag
  }

  /** If the object exists afterwards it existed before, with the same owner and flags. */
  predicate StaysOwned(c: Cell, d: Cell) {
    d.Exists() ==> c.Exists() && Owner(d) == Owner(c) && Flag(d) == Flag(c)
  }

  /** What a call can do to a pointer: the slot stays stored or not, and the pointer moves by `delta`. One that stays at
      rest pins the object's owner and flags. */
  predicate CellMoves(c: Cell, d: Cell, delta: int) {
    && c.pointer.value.Persisted() == d.pointer.value.Persisted()
    && AtRest(d) - AtRest(c) == delta
    && (AtRest(c) == 1 && delta == 0 ==> StaysOwned(c, d))
  }

  function Delta(n: Node, step: Step, q: ObjectID): int {
    if Takes(step, q) then -1 else if Places(n, step, q) then 1 else 0
  }

  lemma CellMovesTwice(c: Cell, d: Cell, e: Cell, first: nat, second: nat)
    requires CellMoves(c, d, first) && CellMoves(d, e, second)
    ensures CellMoves(c, e, first + second)
  {}

  lemma FillMoves(c: Cell, t: TypeTag, x: Bytes)
    requires FillCell(c, t, x).Ok?
    ensures CellMoves(c, FillCell(c, t, x).value, 0)
  {}

  lemma EmptyMoves(c: Cell, t: TypeTag)
    requires EmptyCell(c, t).Ok?
    ensures CellMoves(c, EmptyCell(c, t).value, 0)
  {}

  lemma WriteMoves(c: Cell, t: TypeTag, x: Bytes)
    requires c.WriteValue(Some(t), x).Ok?
    ensures CellMoves(c, c.WriteValue(Some(t), x).value, 0)
  {}

  lemma GrowMoves(n: Node)
    ensures GrowNode(n).Ok? ==> CellMoves(n.cell, GrowNode(n).value.cell, 0) && GrowNode(n).value.fields == n.fields
    ensures ShrinkNode(n).Ok? ==> CellMoves(n.cell, ShrinkNode(n).value.cell, 0) && ShrinkNode(n).value.fields == n.fields
  {}

  lemma CreateMoves(c: Cell, p: Publication)
    requires CreatePackage(c, p).Ok?
    ensures CellMoves(c, CreatePackage(c, p).value, 1)
  {}

  lemma ReplaceMoves(c: Cell, p: Publication, r: bool)
    requires ReplaceModule(c, p, r).Ok?
    ensures CellMoves(c, ReplaceModule(c, p, r).value, 1)
  {}

  lemma CellCallMoves(c: Cell, op: NodeOp)
    requires CellStep(c, op).Ok?
    ensures CellMoves(c, CellStep(c, op).value,
                      if op.TakeOp? then -1 else if GivesBack(op) then 1 else 0)
  {}

  lemma LoadKeepsNodes(n: Node, key: FieldKey, q: ObjectID)
    requires LoadField(n, key).Ok? && NodeAt(n, q).Some?
    ensures NodeAt(LoadField(n, key).value.0, q).Some?
    ensures CellAt(LoadField(n, key).value.0, q) == CellAt(n, q)
  {
    if q != [] && key !in n.fields {
      assert LoadField(n, key).value.0.fields[q[0]] == n.fields[q[0]];
    }
  }

  /** The cell of one field moves, the node's own cell moves not, and everything else stays. */
  lemma FieldMoves(n: Node, k: FieldKey, c: Cell, own: Cell, delta: int, q: ObjectID)
    requires k in n.fields && NodeAt(n, q).Some?
    requires CellMoves(n.fields[k].cell, c, delta) && CellMoves(n.cell, own, 0)
    ensures var m := WithFieldCell(n, k, c).(cell := own);
            NodeAt(m, q).Some? && CellMoves(CellAt(n, q), CellAt(m, q), if q == [k] then delta else 0)
  {
    var m := WithFieldCell(n, k, c).(cell := own);
    if q != [] {
      assert q == [q[0]] + q[1..];
      assert q[0] != k ==> m.fields[q[0]] == n.fields[q[0]];
      if q[0] == k && q[1..] != [] {
        assert NodeAt(m.fields[k], q[1..]) == NodeAt(n.fields[k], q[1..]);
      }
    }
  }

  lemma FieldCallMoves(n: Node, op: NodeOp, q: ObjectID)
    requires op.WriteOp? || op.AddOp? || op.RemoveOp?
    requires NodeStep(n, op).Ok? && NodeAt(n, q).Some?
    ensures NodeAt(NodeStep(n, op).value, q).Some?
    ensures CellMoves(CellAt(n, q), CellAt(NodeStep(n, op).value, q), 0)
  {
    var k, m, n1 := op.key, NodeStep(n, op).value, LoadField(n, op.key).value.0;
    LoadKeepsNodes(n, k, q);
    if op.WriteOp? {
      WriteMoves(n1.fields[k].cell, op.valueType, op.x);
    } else if op.AddOp? {
      FillMoves(n1.fields[k].cell, op.valueType, op.x);
      GrowMoves(FillField(n, k, op.valueType, op.x).value);
    } else {
      EmptyMoves(n1.fields[k].cell, op.valueType);
      GrowMoves(EmptyField(n, k, op.valueType).value);
    }
    FieldMoves(n1, k, m.fields[k].cell, m.cell, 0, q);
    assert m == WithFieldCell(n1, k, m.fields[k].cell).(cell := m.cell);
  }

  lemma StoreModuleMoves(n: Node, p: Publication, r: bool, q: ObjectID)
    requires StoreModule(n, p, r).Ok? && NodeAt(n, q).Some?
    ensures NodeAt(StoreModule(n, p, r).value, q).Some?
    ensures CellMoves(CellAt(n, q), CellAt(StoreModule(n, p, r).value, q), if q == [p.moduleKey] then 1 else 0)
  {
    var k, m, n1 := p.moduleKey, StoreModule(n, p, r).value, LoadField(n, p.moduleKey).value.0;
    LoadKeepsNodes(n, k, q);
    ReplaceMoves(n1.fields[k].cell, p, r);
    GrowMoves(WithFieldCell(n1, k, ReplaceModule(n1.fields[k].cell, p, r).value));
    FieldMoves(n1, k, m.fields[k].cell, m.cell, 1, q);
    assert m == WithFieldCell(n1, k, m.fields[k].cell).(cell := m.cell);
  }

  lemma PackageMoves(n: Node, p: Publication, q: ObjectID)
    requires LoadOrCreatePackage(n, p).Ok? && NodeAt(n, q).Some?
    ensures NodeAt(LoadOrCreatePackage(n, p).value, q).Some?
    ensures CellMoves(CellAt(n, q), CellAt(LoadOrCreatePackage(n, p).value, q),
                      if q == [p.packageKey] && !NodeAt(n, q).value.Exists() then 1 else 0)
  {
    var k, n1 := p.packageKey, LoadField(n, p.packageKey).value.0;
    LoadKeepsNodes(n, k, q);
    if !n1.fields[k].Exists() {
      CreateMoves(n1.fields[k].cell, p);
      FieldMoves(n1, k, CreatePackage(n1.fields[k].cell, p).value, n1.cell, 1, q);
    }
    if q == [k] {
      assert NodeAt(n, q) == NodeAt(n.fields[k], []) by { assert [k][1..] == []; }
    }
  }

  /** Changing one field's node, and maybe counting it, moves what moves in that node. */
  lemma ChildMoves(n: Node, k: FieldKey, child: Node, own: Cell, delta: int, q: ObjectID)
    requires k in n.fields && NodeAt(n, q).Some? && CellMoves(n.cell, own, 0)
    requires q != [] && q[0] == k ==>
               NodeAt(child, q[1..]).Some? && CellMoves(CellAt(n.fields[k], q[1..]), CellAt(child, q[1..]), delta)
    requires !(q != [] && q[0] == k) ==> delta == 0
    ensures var m := Node(own, n.fields[k := child]);
            NodeAt(m, q).Some? && CellMoves(CellAt(n, q), CellAt(m, q), delta)
  {
    if q != [] && q[0] != k {
      assert Node(own, n.fields[k := child]).fields[q[0]] == n.fields[q[0]];
    }
  }

  lemma StoreAndCountMoves(n: Node, p: Publication, r: bool, newPackage: bool, q: ObjectID)
    requires p.packageKey in n.fields && StoreAndCount(n, p, r, newPackage).Ok? && NodeAt(n, q).Some?
    ensures NodeAt(StoreAndCount(n, p, r, newPackage).value, q).Some?
    ensures CellMoves(CellAt(n, q), CellAt(StoreAndCount(n, p, r, newPackage).value, q),
                      if q == [p.packageKey, p.moduleKey] then 1 else 0)
  {
    var k, m := p.packageKey, StoreAndCount(n, p, r, newPackage).value;
    GrowMoves(StoreInPackage(n, p, r).value);
    if q != [] && q[0] == k {
      StoreModuleMoves(n.fields[k], p, r, q[1..]);
      assert q == [k] + q[1..];
    }
    ChildMoves(n, k, StoreModule(n.fields[k], p, r).value, m.cell, if q == [k, p.moduleKey] then 1 else 0, q);
    assert m == Node(m.cell, n.fields[k := StoreModule(n.fields[k], p, r).value]);
  }

  lemma PublishMoves(n: Node, p: Publication, r: bool, q: ObjectID)
    requires PublishModule(n, p, r).Ok? && NodeAt(n, q).Some?
    ensures NodeAt(PublishModule(n, p, r).value, q).Some?
    ensures CellMoves(CellAt(n, q), CellAt(PublishModule(n, p, r).value, q),
                      if Publishes(n, Step([], PublishOp(p, r)), q) then 1 else 0)
  {
    var n1, m := LoadOrCreatePackage(n, p).value, PublishModule(n, p, r).value;
    assert [] + [p.packageKey] == [p.packageKey] && [] + [p.packageKey, p.moduleKey] == [p.packageKey, p.moduleKey];
    PackageMoves(n, p, q);
    StoreAndCountMoves(n1, p, r, !HasField(n, p.packageKey), q);
    CellMovesTwice(CellAt(n, q), CellAt(n1, q), CellAt(m, q),
                   if q == [p.packageKey] && !NodeAt(n, q).value.Exists() then 1 else 0,
                   if q == [p.packageKey, p.moduleKey] then 1 else 0);
  }

  lemma NodeStepMoves(n: Node, op: NodeOp, q: ObjectID)
    requires NodeStep(n, op).Ok? && NodeAt(n, q).Some?
    ensures NodeAt(NodeStep(n, op).value, q).Some?
    ensures CellMoves(CellAt(n, q), CellAt(NodeStep(n, op).value, q), Delta(n, Step([], op), q))
  {
    match op
    case ReadField(k, _) => LoadKeepsNodes(n, k, q);
    case BorrowFieldOp(k, _) => LoadKeepsNodes(n, k, q);
    case WriteOp(_, _, _) => FieldCallMoves(n, op, q);
    case AddOp(_, _, _) => FieldCallMoves(n, op, q);
    case RemoveOp(_, _) => FieldCallMoves(n, op, q);
    case PublishOp(p, r) => PublishMoves(n, p, r, q);
    case _ => CellCallMoves(n.cell, op);
  }

  lemma DeltaBelow(n: Node, path: ObjectID, op: NodeOp, q: ObjectID)
    requires path != [] && q != [] && path[0] == q[0] && q[0] in n.fields
    ensures Delta(n, Step(path, op), q) == Delta(n.fields[q[0]], Step(path[1..], op), q[1..])
  {
    assert path == [path[0]] + path[1..] && q == [q[0]] + q[1..];
    assert forall tail: ObjectID :: path + tail == [path[0]] + (path[1..] + tail);
  }

  lemma DeltaAside(n: Node, path: ObjectID, op: NodeOp, q: ObjectID)
    requires path != [] && (q == [] || q[0] != path[0])
    ensures Delta(n, Step(path, op), q) == 0
  {
    assert forall tail: ObjectID :: tail != [] ==> (path + tail)[0] == path[0];
  }

  /** A call moves the pointer of `q` only if it takes it from `q` or puts it to rest there. */
  lemma {:induction false} StepMoves(n: Node, path: ObjectID, op: NodeOp, q: ObjectID)
    requires StepAt(n, path, op).Ok? && NodeAt(n, q).Some?
    ensures NodeAt(StepAt(n, path, op).value, q).Some?
    ensures CellMoves(CellAt(n, q), CellAt(StepAt(n, path, op).value, q), Delta(n, Step(path, op), q))
    decreases |path|
  {
    if path == [] {
      NodeStepMoves(n, op, q);
    } else {
      var k, n1 := path[0], LoadField(n, path[0]).value.0;
      LoadKeepsNodes(n, k, q);
      if q != [] && q[0] == k {
        DeltaBelow(n, path, op, q);
        StepMoves(n1.fields[k], path[1..], op, q[1..]);
      } else {
        DeltaAside(n, path, op, q);
      }
      ChildMoves(n1, k, StepAt(n1.fields[k], path[1..], op).value, n1.cell, Delta(n, Step(path, op), q), q);
    }
  }

  /** Over any run, the times the pointer of `q` was taken and put to rest account exactly for where it is now. So from
      rest it is never taken twice without being put back between, and from outside never put back twice. */
  lemma {:induction false} PointerLedger(n: Node, steps: seq<Step>, q: ObjectID)
    requires Run(n, steps).Ok? && NodeAt(n, q).Some?
    ensures NodeAt(Run(n, steps).value, q).Some?
    ensures AtRest(CellAt(n, q)) + CountPlaced(n, steps, q) == AtRest(CellAt(Run(n, steps).value, q)) + CountTakes(steps, q)
    ensures CellAt(n, q).pointer.value.Persisted() == CellAt(Run(n, steps).value, q).pointer.value.Persisted()
    decreases |steps|
  {
    if steps != [] {
      assert steps[0] == Step(steps[0].path, steps[0].op);
      StepMoves(n, steps[0].path, steps[0].op, q);
      PointerLedger(StepAt(n, steps[0].path, steps[0].op).value, steps[1..], q);
    }
  }

  /** While it is not taken, a pointer at rest stays there, and the object keeps its owner and flags for as long as it
      exists. */
  lemma {:induction false} RestStays(n: Node, steps: seq<Step>, q: ObjectID)
    requires Run(n, steps).Ok? && NodeAt(n, q).Some? && AtRest(CellAt(n, q)) == 1 && CountTakes(steps, q) == 0
    ensures NodeAt(Run(n, steps).value, q).Some? && AtRest(CellAt(Run(n, steps).value, q)) == 1
    ensures StaysOwned(CellAt(n, q), CellAt(Run(n, steps).value, q))
    decreases |steps|
  {
    if steps != [] {
      assert steps[0] == Step(steps[0].path, steps[0].op);
      StepMoves(n, steps[0].path, steps[0].op, q);
      RestStays(StepAt(n, steps[0].path, steps[0].op).value, steps[1..], q);
    }
  }

  /** A stored pointer that is out at the end marks its object as owned by the system. */
  lemma OutMeansSystemOwned(c: Cell, id: ObjectID, o: Option<ObjectState>, now: nat)
    requires CellInv(c, id, o) && c.Exists() && c.pointer.value.Persisted() && AtRest(c) == 0
    ensures Stamped(c, now).owner == SYSTEM_OWNER_ADDRESS
  {}

  // ---------- across transactions ----------

  /** The pointer the next transaction will find when it loads what this one committed. */
  function NextPointer(c: Cell, now: nat): nat
    requires c.meta.Live() && c.Exists()
  {
    AtRest(LoadCell(ObjectState(Stamped(c, now), c.value.v)))
  }

  /** The next transaction finds the pointer where this one left it exactly when the recorded owner and flags say so:
      at rest for an object that is user owned, shared or frozen; out for one that is neither shared nor frozen and
      either system owned or had its pointer stored. */
  lemma NextPointerAgrees(c: Cell, id: ObjectID, o: Option<ObjectState>, now: nat)
    requires CellInv(c, id, o) && c.Exists()
    ensures var m := c.meta.mv.metadata;
            NextPointer(c, now) == AtRest(c) <==>
              if AtRest(c) == 1 then m.owner != SYSTEM_OWNER_ADDRESS || m.flag.shared || m.flag.frozen
              else !m.flag.shared && !m.flag.frozen && (m.owner == SYSTEM_OWNER_ADDRESS || c.pointer.value.Persisted())
  {}

  /** The owner and the flags that giving the pointer back leaves. */
  function GivenOwner(op: NodeOp): AccountAddress {
    if op.TransferOp? then op.newOwner else SYSTEM_OWNER_ADDRESS
  }

  function GivenFlag(op: NodeOp, flag: ObjectFlag): ObjectFlag {
    ObjectFlag(flag.shared || op.ShareOp?, flag.frozen || op.FreezeOp?)
  }

  /** A pointer that is given back had been out and is at rest, with the owner and flags the call names. */
  lemma ReturnedCell(c: Cell, id: ObjectID, o: Option<ObjectState>, op: NodeOp)
    requires CellInv(c, id, o) && c.Exists() && CellStep(c, op).Ok? && GivesBack(op)
    ensures var d := CellStep(c, op).value;
            && AtRest(c) == 0 && AtRest(d) == 1 && d.value == c.value
            && Owner(d) == GivenOwner(op) && Flag(d) == GivenFlag(op, Flag(c))
  {}

  lemma ReturnedRests(n: Node, o: Option<ObjectState>, op: NodeOp, after: seq<Step>, q: ObjectID)
    requires NodeInv(n, [], o) && NodeAt(n, q).Some? && NodeAt(n, q).value.Exists() && GivesBack(op)
    requires StepAt(n, q, op).Ok? && Run(StepAt(n, q, op).value, after).Ok? && CountTakes(after, q) == 0
    ensures var m := Run(StepAt(n, q, op).value, after).value;
            && NodeInv(m, [], o) && NodeAt(m, q).Some? && AtRest(CellAt(m, q)) == 1
            && (CellAt(m, q).Exists() ==>
                  Owner(CellAt(m, q)) == GivenOwner(op) && Flag(CellAt(m, q)) == GivenFlag(op, Flag(CellAt(n, q))))
  {
    NodeAtInv(n, [], o, q);
    StepAtNode(n, q, op);
    ReturnedCell(CellAt(n, q), [] + q, Below(o, q), op);
    RestStays(StepAt(n, q, op).value, after, q);
    StepKeeps(n, [], o, q, op);
    RunKeeps(StepAt(n, q, op).value, [], o, after);
  }

  lemma RestedNext(c: Cell, id: ObjectID, o: Option<ObjectState>, now: nat)
    requires CellInv(c, id, o) && c.Exists() && AtRest(c) == 1
    ensures c.meta.Live() && Stamped(c, now).owner == Owner(c) && Stamped(c, now).flag == Flag(c)
    ensures NextPointer(c, now) == 1 <==> !Stamped(c, now).IsEmbedded()
  {}

  /** After a pointer is given back, a run that does not take it again leaves it at rest; an object that still exists is
      committed with the owner and flags the call named; and the next transaction finds the pointer at rest, unless
      they make the object embedded, as a transfer to the system does. */
  lemma ReturnedIsAtRestNext(root: ObjectMeta, before: seq<Step>, op: NodeOp, after: seq<Step>, q: ObjectID, now: nat)
    requires ValidRoot(root) && Run(NewRuntime(root), before).Ok? && GivesBack(op) && CountTakes(after, q) == 0
    requires var n := Run(NewRuntime(root), before).value;
             && NodeAt(n, q).Some? && NodeAt(n, q).value.Exists()
             && StepAt(n, q, op).Ok? && Run(StepAt(n, q, op).value, after).Ok?
    ensures var n := Run(NewRuntime(root), before).value;
            var m := Run(StepAt(n, q, op).value, after).value;
            && NodeAt(m, q).Some? && AtRest(CellAt(m, q)) == 1
            && (CellAt(m, q).Exists() ==>
                  var d := CellAt(m, q);
                  && d.meta.Live() && Stamped(d, now).owner == GivenOwner(op)
                  && Stamped(d, now).flag == GivenFlag(op, Flag(CellAt(n, q)))
                  && (NextPointer(d, now) == 1 <==> !Stamped(d, now).IsEmbedded()))
  {
    var n, o := Run(NewRuntime(root), before).value, Some(NewRoot(root));
    NewRuntimeInv(root);
    RunKeeps(NewRuntime(root), [], o, before);
    ReturnedRests(n, o, op, after, q);
    var m := Run(StepAt(n, q, op).value, after).value;
    NodeAtInv(m, [], o, q);
    if CellAt(m, q).Exists() {
      RestedNext(CellAt(m, q), [] + q, Below(o, q), now);
    }
  }

  /** A call on the resident object at `q` leaves there what the call makes of it. */
  lemma {:induction false} StepAtNode(n: Node, q: ObjectID, op: NodeOp)
    requires StepAt(n, q, op).Ok? && NodeAt(n, q).Some?
    ensures NodeStep(NodeAt(n, q).value, op).Ok?
    ensures NodeAt(StepAt(n, q, op).value, q) == Some(NodeStep(NodeAt(n, q).value, op).value)
    decreases |q|
  {
    if q != [] {
      StepAtNode(n.fields[q[0]], q[1..], op);
    }
  }

  /** An object created, transferred and taken again in one run is committed as if its pointer were at rest. */
  lemma CreatedThenTakenIsAtRestNext(root: ObjectMeta, k: FieldKey, t: TypeTag, x: Bytes, owner: AccountAddress, now: nat)
    requires ValidRoot(root) && k !in root.stateRoot.fields && root.size + 1 < U64_LIMIT && owner != SYSTEM_OWNER_ADDRESS
    ensures var steps := [Step([], AddOp(k, t, x)), Step([k], TransferOp(owner, Some(t))), Step([k], TakeOp(Some(t)))];
            && Run(NewRuntime(root), steps).Ok?
            && NodeAt(Run(NewRuntime(root), steps).value, [k]).Some?
            && var c := NodeAt(Run(NewRuntime(root), steps).value, [k]).value.cell;
            c.Exists() && c.meta.Live() && AtRest(c) == 0 && NextPointer(c, now) == 1
  {
    var transfer, take := TransferOp(owner, Some(t)), TakeOp(Some(t));
    var n, c1 := NewRuntime(root), CreatedCell(k, t, x);
    CreatedInRoot(root, k, t, x);
    TransferredThenTaken(k, t, x, owner, now);
    var c2 := CellStep(c1, transfer).value;
    var c3 := CellStep(c2, take).value;
    var n1 := StepAt(n, [], AddOp(k, t, x)).value;
    StepOnField(n1, k, transfer, Node(c2, map[]));
    var n2 := n1.(fields := n1.fields[k := Node(c2, map[])]);
    StepOnField(n2, k, take, Node(c3, map[]));
    var n3 := n2.(fields := n2.fields[k := Node(c3, map[])]);
    RunThree(n, Step([], AddOp(k, t, x)), n1, Step([k], transfer), n2, Step([k], take), n3);
    assert NodeAt(n3, [k]) == NodeAt(n3.fields[k], []) by { assert [k][1..] == []; }
  }

  function CreatedCell(k: FieldKey, t: TypeTag, x: Bytes): Cell {
    Cell(MetaFresh(MetaValue(GenesisMeta([k], t), true)), GvFresh(x), Pointer(GvNone, 0))
  }

  lemma CreatedInRoot(root: ObjectMeta, k: FieldKey, t: TypeTag, x: Bytes)
    requires ValidRoot(root) && k !in root.stateRoot.fields && root.size + 1 < U64_LIMIT
    ensures var r := StepAt(NewRuntime(root), [], AddOp(k, t, x));
            && r.Ok? && r.value.cell.meta.Live() && r.value.fields == map[k := Node(CreatedCell(k, t, x), map[])]
  {
    var n := NewRuntime(root);
    assert n.cell.meta.Id() == [] && [] + [k] == [k];
    var absent := Resident(None, [k]);
    assert LoadField(n, k) == Ok((n.(fields := map[k := absent]), Some(None)));
    assert FillCell(absent.cell, t, x) == Ok(CreatedCell(k, t, x));
  }

  lemma TransferredThenTaken(k: FieldKey, t: TypeTag, x: Bytes, owner: AccountAddress, now: nat)
    requires owner != SYSTEM_OWNER_ADDRESS
    ensures var c2 := CellStep(CreatedCell(k, t, x), TransferOp(owner, Some(t)));
            && c2.Ok? && CellStep(c2.value, TakeOp(Some(t))).Ok?
            && var c3 := CellStep(c2.value, TakeOp(Some(t))).value;
            c3.Exists() && c3.meta.Live() && AtRest(c3) == 0 && NextPointer(c3, now) == 1
  {}

  lemma RunThree(n: Node, s1: Step, n1: Node, s2: Step, n2: Node, s3: Step, n3: Node)
    requires StepAt(n, s1.path, s1.op) == Ok(n1) && StepAt(n1, s2.path, s2.op) == Ok(n2)
    requires StepAt(n2, s3.path, s3.op) == Ok(n3)
    ensures Run(n, [s1, s2, s3]) == Ok(n3)
  {
    RunOne(n, s1, [s2, s3]);
    RunOne(n1, s2, [s3]);
    RunOne(n2, s3, []);
    assert [s1] + [s2, s3] == [s1, s2, s3] && [s2] + [s3] == [s2, s3] && [s3] + [] == [s3];
  }

  lemma StepOnField(n: Node, k: FieldKey, op: NodeOp, child: Node)
    requires k in n.fields && n.cell.meta.Live() && NodeStep(n.fields[k], op) == Ok(child)
    ensures StepAt(n, [k], op) == Ok(n.(fields := n.fields[k := child]))
  {
    assert [k][1..] == [] && LoadField(n, k).value.0 == n;
    assert StepAt(n.fields[k], [], op) == NodeStep(n.fields[k], op);
  }
}

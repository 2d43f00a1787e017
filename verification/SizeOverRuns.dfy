/** Over whole runs, the size of an object that is never replaced moves with the number of its fields. */
module SizeOverRuns {
  import opened Common
  import opened TypeTags
  import opened GlobalValues
  import opened StateStore
  import opened RuntimeNode
  import opened RuntimeInvariant
  import opened Shown
  import opened ReadYourWrites
  import opened SizeAccounting

  /** The call puts another object at `q`, or at one above it: it adds or removes a field there, or stores a module. */
  predicate Replaces(path: ObjectID, op: NodeOp, q: ObjectID) {
    match op
    case AddOp(k, _, _) => path + [k] <= q
    case RemoveOp(k, _) => path + [k] <= q
    case PublishOp(p, _) => path + [p.packageKey, p.moduleKey] <= q
    case _ => false
  }

  /** The object at `q` survives from `n` to `m`, and its size moved with the number of its fields. */
  predicate Counts(n: Node, m: Node, q: ObjectID) {
    ReadNode(n, q).Some? && ReadNode(m, q).Some? && Imbalance(ReadNode(m, q).value) == Imbalance(ReadNode(n, q).value)
  }

  // ---------- one call ----------

  lemma WrittenCounts(n: Node, k: FieldKey, t: TypeTag, x: Bytes, tail: ObjectID)
    requires WriteField(n, k, t, x).Ok? && ReadNode(n, [k] + tail).Some?
    ensures Counts(n, WriteField(n, k, t, x).value, [k] + tail)
  {
    var n1, m := LoadField(n, k).value.0, WriteField(n, k, t, x).value;
    var child := n1.fields[k];
    ReadNodeResident(n1, k, tail);
    ReadNodeResident(m, k, tail);
    assert ([k] + tail)[0] == k && ([k] + tail)[1..] == tail;
    if tail == [] {
      assert ShownKeys(m.fields[k]) == ShownKeys(child);
    } else {
      ReadNodeAlike(child, m.fields[k], tail);
    }
  }

  lemma StoredCounts(n: Node, id: ObjectID, o: Option<ObjectState>, p: Publication, r: bool, tail: ObjectID)
    requires NodeInv(n, id, o) && StoreModule(n, p, r).Ok? && ReadNode(n, tail).Some? && !([p.moduleKey] <= tail)
    ensures Counts(n, StoreModule(n, p, r).value, tail)
  {
    var m := StoreModule(n, p, r).value;
    StoreModuleKeeps(n, id, o, p, r);
    if tail == [] {
      StoreModuleKeepsImbalance(n, id, o, p, r);
    } else {
      assert tail[0] != p.moduleKey by { assert tail[..1] == [tail[0]]; }
      StoreModuleStays(n, p, r, tail[0]);
      ReadNodeAlike(n, m, tail);
    }
  }

  lemma StoreModuleStays(n: Node, p: Publication, r: bool, j: FieldKey)
    requires StoreModule(n, p, r).Ok? && j != p.moduleKey
    ensures var m := StoreModule(n, p, r).value;
            && (j in m.fields <==> j in n.fields) && (j in n.fields ==> m.fields[j] == n.fields[j])
            && m.cell.meta.MetaNone? == n.cell.meta.MetaNone? && m.cell.meta.Id() == n.cell.meta.Id()
  {}

  /** A package that exists is used as it is. */
  lemma ExistingPackage(n: Node, p: Publication)
    requires LoadOrCreatePackage(n, p).Ok? && LoadField(n, p.packageKey).value.0.fields[p.packageKey].Exists()
    ensures LoadOrCreatePackage(n, p).value == LoadField(n, p.packageKey).value.0
  {}

  lemma PublishedCounts(n: Node, id: ObjectID, o: Option<ObjectState>, p: Publication, r: bool, tail: ObjectID)
    requires NodeInv(n, id, o) && PublishModule(n, p, r).Ok?
    requires ReadNode(n, [p.packageKey] + tail).Some? && !([p.moduleKey] <= tail)
    ensures Counts(n, PublishModule(n, p, r).value, [p.packageKey] + tail)
  {
    var k, m := p.packageKey, PublishModule(n, p, r).value;
    assert ([k] + tail)[0] == k && ([k] + tail)[1..] == tail;
    var n1 := LoadField(n, k).value.0;
    LoadFieldKeeps(n, id, o, k);
    PublishedFields(n, p, r);
    PublishKeeps(n, id, o, p, r);
    ExistingPackage(n, p);
    StoredCounts(n1.fields[k], id + [k], FieldOf(o, k), p, r, tail);
    ReadNodeResident(m, k, tail);
  }

  lemma ReadCounts(n: Node, k: FieldKey, tail: ObjectID)
    requires LoadField(n, k).Ok? && ReadNode(n, [k] + tail).Some?
    ensures Counts(n, LoadField(n, k).value.0, [k] + tail)
  {
    assert ([k] + tail)[0] == k && ([k] + tail)[1..] == tail;
    ReadNodeResident(LoadField(n, k).value.0, k, tail);
  }

  lemma OwnCallCounts(n: Node, id: ObjectID, o: Option<ObjectState>, op: NodeOp, q: ObjectID)
    requires NodeInv(n, id, o) && NodeStep(n, op).Ok? && ReadNode(n, q).Some? && !Replaces([], op, q)
    ensures Counts(n, NodeStep(n, op).value, q)
  {
    if q == [] {
      CallCountsItself(n, id, o, op);
    } else {
      if FieldOfOp(op) != Some(q[0]) {
        OtherFieldCounts(n, op, q);
      } else {
        FieldCallCounts(n, id, o, op, q);
      }
    }
  }

  lemma CallCountsItself(n: Node, id: ObjectID, o: Option<ObjectState>, op: NodeOp)
    requires NodeInv(n, id, o) && NodeStep(n, op).Ok? && n.Exists()
    ensures Counts(n, NodeStep(n, op).value, [])
  {
    CallKeepsImbalance(n, id, o, op);
    NodeStepKeeps(n, id, o, op);
  }

  lemma OtherFieldCounts(n: Node, op: NodeOp, q: ObjectID)
    requires NodeStep(n, op).Ok? && q != [] && FieldOfOp(op) != Some(q[0]) && ReadNode(n, q).Some?
    ensures Counts(n, NodeStep(n, op).value, q)
  {
    OtherFieldsStay(n, op, q[0]);
    ReadNodeAlike(n, NodeStep(n, op).value, q);
  }

  lemma {:induction false} FieldCallCounts(n: Node, id: ObjectID, o: Option<ObjectState>, op: NodeOp, q: ObjectID)
    requires NodeInv(n, id, o) && NodeStep(n, op).Ok? && q != [] && FieldOfOp(op) == Some(q[0])
    requires ReadNode(n, q).Some? && !Replaces([], op, q)
    ensures Counts(n, NodeStep(n, op).value, q)
  {
    var k, tail := q[0], q[1..];
    assert q == [k] + tail && [] + [k] == [k] && [k] <= q;
    match op
    case ReadField(_, _) => ReadCounts(n, k, tail);
    case BorrowFieldOp(_, _) => ReadCounts(n, k, tail);
    case WriteOp(_, t, x) => WrittenCounts(n, k, t, x, tail);
    case PublishOp(p, r) =>
      assert [p.moduleKey] <= tail ==> [] + [p.packageKey, p.moduleKey] <= [k] + tail;
      PublishedCounts(n, id, o, p, r, tail);
  }

  // ---------- runs ----------

  lemma ReplacesBelow(path: ObjectID, op: NodeOp, q: ObjectID)
    requires path != [] && q != [] && path[0] == q[0]
    ensures Replaces(path, op, q) <==> Replaces(path[1..], op, q[1..])
  {
    assert path == [path[0]] + path[1..] && q == [q[0]] + q[1..];
    if op.AddOp? || op.RemoveOp? {
      assert path + [op.key] == [path[0]] + (path[1..] + [op.key]);
      assert path + [op.key] <= q <==> path[1..] + [op.key] <= q[1..];
    } else if op.PublishOp? {
      var keys := [op.publication.packageKey, op.publication.moduleKey];
      assert path + keys == [path[0]] + (path[1..] + keys);
      assert path + keys <= q <==> path[1..] + keys <= q[1..];
    }
  }

  /** A call below a field does not change the object's own count. */
  lemma ChildCallCounts(n: Node, k: FieldKey, child: Node)
    requires LoadField(n, k).Ok? && child.Exists() == LoadField(n, k).value.0.fields[k].Exists() && n.Exists()
    ensures var n1 := LoadField(n, k).value.0;
            Counts(n, n1.(fields := n1.fields[k := child]), [])
  {
    var n1 := LoadField(n, k).value.0;
    LoadShows(n, k);
    ReplaceShows(n1, k, child, n1.cell);
    var m := n1.(fields := n1.fields[k := child]);
    assert ShownKeys(m) == ShownKeys(n) by {
      assert child.Exists() <==> k in ShownKeys(n);
    }
  }

  lemma ChangedChildCounts(n: Node, k: FieldKey, child: Node, q: ObjectID)
    requires LoadField(n, k).Ok? && ReadNode(n, q).Some?
    requires child.Exists() == LoadField(n, k).value.0.fields[k].Exists()
    requires q != [] && q[0] == k ==> Counts(LoadField(n, k).value.0.fields[k], child, q[1..])
    ensures var n1 := LoadField(n, k).value.0;
            Counts(n, n1.(fields := n1.fields[k := child]), q)
  {
    var n1 := LoadField(n, k).value.0;
    var m := n1.(fields := n1.fields[k := child]);
    if q == [] {
      ChildCallCounts(n, k, child);
    } else if q[0] == k {
      ReadNodeResident(m, k, q[1..]);
      assert q == [k] + q[1..];
    } else {
      ReadNodeAlike(n, m, q);
    }
  }

  lemma {:induction false} StepCounts(n: Node, id: ObjectID, o: Option<ObjectState>, path: ObjectID, op: NodeOp, q: ObjectID)
    requires NodeInv(n, id, o) && StepAt(n, path, op).Ok? && ReadNode(n, q).Some? && !Replaces(path, op, q)
    ensures Counts(n, StepAt(n, path, op).value, q)
    decreases |path|
  {
    if path == [] {
      OwnCallCounts(n, id, o, op, q);
    } else {
      var k := path[0];
      LoadFieldKeeps(n, id, o, k);
      var child := LoadField(n, k).value.0.fields[k];
      StepKeeps(child, id + [k], FieldOf(o, k), path[1..], op);
      if q != [] && q[0] == k {
        ReplacesBelow(path, op, q);
        StepCounts(child, id + [k], FieldOf(o, k), path[1..], op, q[1..]);
      }
      ChangedChildCounts(n, k, StepAt(child, path[1..], op).value, q);
    }
  }

  lemma {:induction false} RunCounts(n: Node, id: ObjectID, o: Option<ObjectState>, steps: seq<Step>, q: ObjectID)
    requires NodeInv(n, id, o) && Run(n, steps).Ok? && ReadNode(n, q).Some?
    requires forall i :: 0 <= i < |steps| ==> !Replaces(steps[i].path, steps[i].op, q)
    ensures Counts(n, Run(n, steps).value, q)
    decreases |steps|
  {
    if steps != [] {
      StepKeeps(n, id, o, steps[0].path, steps[0].op);
      StepCounts(n, id, o, steps[0].path, steps[0].op, q);
      RunCounts(StepAt(n, steps[0].path, steps[0].op).value, id, o, steps[1..], q);
    }
  }

  // ---------- from the store ----------

  lemma {:induction false} StoredNode(o: ObjectState, id: ObjectID, q: ObjectID)
    requires WellIdentified(o, id) && Below(Some(o), q).Some?
    ensures ReadNode(Resident(Some(o), id), q).Some?
    ensures Imbalance(ReadNode(Resident(Some(o), id), q).value) ==
            Below(Some(o), q).value.metadata.size - |Below(Some(o), q).value.metadata.stateRoot.fields|
    decreases |q|
  {
    var n := Resident(Some(o), id);
    if q == [] {
      LoadedShows(o, id);
    } else {
      if FieldOf(Some(o), q[0]).None? {
        NothingBelow(q[1..]);
      }
      StoredNode(FieldOf(Some(o), q[0]).value, id + [q[0]], q[1..]);
    }
  }

  lemma {:induction false} ReadNodeInv(n: Node, id: ObjectID, o: Option<ObjectState>, q: ObjectID)
    requires NodeInv(n, id, o) && ReadNode(n, q).Some?
    ensures NodeInv(ReadNode(n, q).value, id + q, Below(o, q))
    decreases |q|
  {
    if q == [] {
      assert id + q == id;
    } else {
      LoadFieldKeeps(n, id, o, q[0]);
      ReadNodeInv(LoadField(n, q[0]).value.0.fields[q[0]], id + [q[0]], FieldOf(o, q[0]), q[1..]);
      assert id + [q[0]] + q[1..] == id + q;
    }
  }

  /** Over any run, whatever it removes elsewhere, an object that is stored and never replaced is still there at the
      end, and its size has moved by exactly the change in the number of its fields. If its stored size was at least
      the number of its stored fields, removing another field does not underflow. */
  lemma SizeMovesWithFields(root: ObjectMeta, steps: seq<Step>, q: ObjectID, k: FieldKey, t: TypeTag)
    requires ValidRoot(root) && Run(NewRuntime(root), steps).Ok? && Below(Some(NewRoot(root)), q).Some?
    requires forall i :: 0 <= i < |steps| ==> !Replaces(steps[i].path, steps[i].op, q)
    ensures var stored, n := Below(Some(NewRoot(root)), q).value.metadata, ReadNode(Run(NewRuntime(root), steps).value, q);
            && n.Some?
            && Size(n.value) - |ShownKeys(n.value)| == stored.size - |stored.stateRoot.fields|
            && (stored.size >= |stored.stateRoot.fields| ==> RemoveField(n.value, k, t) != Err(InvariantViolation))
  {
    var o := NewRoot(root);
    NewRuntimeInv(root);
    assert NewRuntime(root) == Resident(Some(o), []);
    StoredNode(o, [], q);
    RunCounts(NewRuntime(root), [], Some(o), steps, q);
    RunKeeps(NewRuntime(root), [], Some(o), steps);
    ReadNodeInv(Run(NewRuntime(root), steps).value, [], Some(o), q);
    var n := ReadNode(Run(NewRuntime(root), steps).value, q).value;
    if Imbalance(n) >= 0 {
      NoUnderflow(n, [] + q, Below(Some(o), q), k, t);
    }
  }
}

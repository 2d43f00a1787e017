/** What a call changes of what can be read: the field it is about, and nothing else. */
module ReadYourWrites {
  import opened Common
  import opened TypeTags
  import opened StateStore
  import opened RuntimeNode
  import opened RuntimeInvariant
  import opened Shown

  /** The field of the object that a call reads or changes; publishing works below the package. */
  function FieldOfOp(op: NodeOp): Option<FieldKey> {
    match op
    case ReadField(k, _) => Some(k)
    case BorrowFieldOp(k, _) => Some(k)
    case WriteOp(k, _, _) => Some(k)
    case AddOp(k, _, _) => Some(k)
    case RemoveOp(k, _) => Some(k)
    case PublishOp(p, _) => Some(p.packageKey)
    case _ => None
  }

  /** The call at `path` is about the object at `q`: its own object, or anything in the field it is about. */
  predicate Concerns(path: ObjectID, op: NodeOp, q: ObjectID) {
    q == path || (FieldOfOp(op).Some? && path + [FieldOfOp(op).value] <= q)
  }

  // ---------- the frame ----------

  /** A call on an object leaves its other fields alone, resident or not. */
  lemma OtherFieldsStay(n: Node, op: NodeOp, j: FieldKey)
    requires NodeStep(n, op).Ok? && FieldOfOp(op) != Some(j)
    ensures var m := NodeStep(n, op).value;
            && (j in m.fields <==> j in n.fields) && (j in n.fields ==> m.fields[j] == n.fields[j])
            && m.cell.value == n.cell.value && m.cell.meta.Id() == n.cell.meta.Id()
            && m.Root() == n.Root() && m.cell.meta.MetaNone? == n.cell.meta.MetaNone?
  {
    match op
    case PublishOp(p, r) => PublishStays(n, p, r, j);
    case ReadField(_, _) =>
    case BorrowFieldOp(_, _) =>
    case WriteOp(_, _, _) =>
    case AddOp(_, _, _) =>
    case RemoveOp(_, _) =>
    case _ => CellStays(n.cell, op);
  }

  lemma CellStays(c: Cell, op: NodeOp)
    requires CellStep(c, op).Ok?
    ensures var d := CellStep(c, op).value;
            && d.value == c.value && d.meta.Id() == c.meta.Id() && d.meta.Root() == c.meta.Root()
            && d.meta.MetaNone? == c.meta.MetaNone?
  {}

  lemma PackageStays(n: Node, p: Publication, j: FieldKey)
    requires LoadOrCreatePackage(n, p).Ok? && j != p.packageKey
    ensures var m := LoadOrCreatePackage(n, p).value;
            (j in m.fields <==> j in n.fields) && (j in n.fields ==> m.fields[j] == n.fields[j]) && m.cell == n.cell
  {}

  lemma PublishStays(n: Node, p: Publication, r: bool, j: FieldKey)
    requires PublishModule(n, p, r).Ok? && j != p.packageKey
    ensures var m := PublishModule(n, p, r).value;
            && (j in m.fields <==> j in n.fields) && (j in n.fields ==> m.fields[j] == n.fields[j])
            && m.cell.value == n.cell.value && m.cell.meta.Id() == n.cell.meta.Id()
            && m.Root() == n.Root() && m.cell.meta.MetaNone? == n.cell.meta.MetaNone?
  {
    PackageStays(n, p, j);
    StoreAndCountStays(LoadOrCreatePackage(n, p).value, p, r, !HasField(n, p.packageKey), j);
  }

  lemma StoreAndCountStays(n: Node, p: Publication, r: bool, newPackage: bool, j: FieldKey)
    requires p.packageKey in n.fields && StoreAndCount(n, p, r, newPackage).Ok? && j != p.packageKey
    ensures var m := StoreAndCount(n, p, r, newPackage).value;
            && (j in m.fields <==> j in n.fields) && (j in n.fields ==> m.fields[j] == n.fields[j])
            && m.cell.value == n.cell.value && m.cell.meta.Id() == n.cell.meta.Id()
            && m.Root() == n.Root() && m.cell.meta.MetaNone? == n.cell.meta.MetaNone?
  {}

  /** Nodes that agree on a field and on how it is loaded read alike below it. */
  lemma ReadNodeAlike(n: Node, m: Node, q: ObjectID)
    requires q != [] && n.Exists() == m.Exists() && n.cell.meta.MetaNone? == m.cell.meta.MetaNone?
    requires n.cell.meta.Id() == m.cell.meta.Id() && n.Root() == m.Root()
    requires (q[0] in m.fields <==> q[0] in n.fields) && (q[0] in n.fields ==> m.fields[q[0]] == n.fields[q[0]])
    ensures ReadNode(m, q) == ReadNode(n, q)
  {
    assert LoadField(n, q[0]).Ok? <==> LoadField(m, q[0]).Ok?;
    assert LoadField(n, q[0]).Ok? ==> LoadField(m, q[0]).value.0.fields[q[0]] == LoadField(n, q[0]).value.0.fields[q[0]];
  }

  lemma ReadNodeResident(n: Node, k: FieldKey, tail: ObjectID)
    requires n.Exists() && !n.cell.meta.MetaNone? && k in n.fields
    ensures ReadNode(n, [k] + tail) == ReadNode(n.fields[k], tail)
  {
    assert ([k] + tail)[0] == k && ([k] + tail)[1..] == tail;
  }

  lemma OwnCallReads(n: Node, op: NodeOp, q: ObjectID)
    requires NodeStep(n, op).Ok? && !Concerns([], op, q)
    ensures Reads(NodeStep(n, op).value, q) == Reads(n, q)
  {
    assert FieldOfOp(op).Some? ==> [] + [FieldOfOp(op).value] == [FieldOfOp(op).value];
    assert FieldOfOp(op) != Some(q[0]) by {
      assert q[..1] == [q[0]];
    }
    OtherFieldsStay(n, op, q[0]);
    ReadNodeAlike(n, NodeStep(n, op).value, q);
  }

  /** A call changes nothing that is read anywhere but in the object and the field it is about. */
  lemma {:induction false} ReadsElsewhereStay(n: Node, path: ObjectID, op: NodeOp, q: ObjectID)
    requires StepAt(n, path, op).Ok? && !Concerns(path, op, q)
    ensures Reads(StepAt(n, path, op).value, q) == Reads(n, q)
    decreases |path|
  {
    if path == [] {
      OwnCallReads(n, op, q);
    } else {
      var child := LoadField(n, path[0]).value.0.fields[path[0]];
      if q != [] && q[0] == path[0] {
        ConcernsBelow(path, op, q);
        ReadsElsewhereStay(child, path[1..], op, q[1..]);
      }
      ChangedChildReads(n, path[0], StepAt(child, path[1..], op).value, q);
    }
  }

  lemma ChangedChildReads(n: Node, k: FieldKey, child: Node, q: ObjectID)
    requires LoadField(n, k).Ok?
    requires q != [] && q[0] == k ==> Reads(child, q[1..]) == Reads(LoadField(n, k).value.0.fields[k], q[1..])
    ensures var n1 := LoadField(n, k).value.0;
            Reads(n1.(fields := n1.fields[k := child]), q) == Reads(n, q)
  {
    var n1 := LoadField(n, k).value.0;
    var m := n1.(fields := n1.fields[k := child]);
    if q != [] && q[0] != k {
      ReadNodeAlike(n, m, q);
    } else if q != [] {
      assert LoadField(m, k).value.0 == m;
    }
  }

  lemma ConcernsBelow(path: ObjectID, op: NodeOp, q: ObjectID)
    requires path != [] && q != [] && path[0] == q[0]
    ensures Concerns(path, op, q) <==> Concerns(path[1..], op, q[1..])
  {
    assert path == [path[0]] + path[1..] && q == [q[0]] + q[1..];
    if FieldOfOp(op).Some? {
      var k := [FieldOfOp(op).value];
      assert path + k == [path[0]] + (path[1..] + k);
      assert path + k <= q <==> path[1..] + k <= q[1..];
    }
  }

  // ---------- the field itself ----------

  /** After a call at `path`, reading `path` and below it is reading the object the call left there. */
  lemma {:induction false} ReadsThrough(n: Node, path: ObjectID, op: NodeOp, tail: ObjectID)
    requires StepAt(n, path, op).Ok?
    requires Reads(StepAt(n, path, op).value, path).Some?
    ensures NodeAt(StepAt(n, path, op).value, path).Some?
    ensures Reads(StepAt(n, path, op).value, path + tail) == Reads(NodeAt(StepAt(n, path, op).value, path).value, tail)
    decreases |path|
  {
    if path == [] {
      assert path + tail == tail;
    } else {
      assert (path + tail)[0] == path[0] && (path + tail)[1..] == path[1..] + tail;
      var n1 := LoadField(n, path[0]).value.0;
      ReadsThrough(n1.fields[path[0]], path[1..], op, tail);
    }
  }

  /** An added field reads as the value and the type given. */
  lemma AddedIsRead(n: Node, id: ObjectID, o: Option<ObjectState>, k: FieldKey, t: TypeTag, x: Bytes)
    requires NodeInv(n, id, o) && n.Exists() && AddField(n, k, t, x).Ok?
    ensures Reads(n, [k]) == None
    ensures var c := Reads(AddField(n, k, t, x).value, [k]);
            c.Some? && c.value.BorrowValue(Some(t)) == Ok(x)
            && c.value.meta.Metadata().Ok? && c.value.meta.Metadata().value.objectType == t
  {
    LoadFieldKeeps(n, id, o, k);
    var c := LoadField(n, k).value.0.fields[k].cell;
    FillCellKeeps(c, id + [k], FieldOf(o, k), t, x);
    FilledIsRead(c, t, x);
    ReadsField(n, k);
    ReadsField(AddField(n, k, t, x).value, k);
  }

  lemma FilledIsRead(c: Cell, t: TypeTag, x: Bytes)
    requires FillCell(c, t, x).Ok?
    ensures var d := FillCell(c, t, x).value;
            d.Exists() && d.BorrowValue(Some(t)) == Ok(x)
            && d.meta.Metadata().Ok? && d.meta.Metadata().value.objectType == t
  {}

  lemma ReadsField(n: Node, k: FieldKey)
    requires n.Exists() && LoadField(n, k).Ok?
    ensures Reads(n, [k]) == var child := LoadField(n, k).value.0.fields[k];
                             if child.Exists() then Some(child.cell) else None
  {
    var child := LoadField(n, k).value.0.fields[k];
    assert [k][1..] == [] && ReadNode(child, []) == if child.Exists() then Some(child) else None;
  }

  /** A written field reads as the value written, with the metadata and the pointer it had. */
  lemma WrittenIsRead(n: Node, id: ObjectID, o: Option<ObjectState>, k: FieldKey, t: TypeTag, x: Bytes)
    requires NodeInv(n, id, o) && n.Exists() && WriteField(n, k, t, x).Ok?
    ensures Reads(n, [k]).Some? && Reads(WriteField(n, k, t, x).value, [k]).Some?
    ensures var (c, d) := (Reads(n, [k]).value, Reads(WriteField(n, k, t, x).value, [k]).value);
            d.BorrowValue(Some(t)) == Ok(x) && d.meta == c.meta && d.pointer == c.pointer
  {
    LoadFieldKeeps(n, id, o, k);
    var c := LoadField(n, k).value.0.fields[k].cell;
    WriteKeeps(c, id + [k], FieldOf(o, k), Some(t), x);
    ReadsField(n, k);
    ReadsField(WriteField(n, k, t, x).value, k);
  }

  /** Writing a field's value changes nothing below it. */
  lemma {:induction false} WrittenKeepsBelow(n: Node, id: ObjectID, o: Option<ObjectState>, k: FieldKey, t: TypeTag, x: Bytes, tail: ObjectID)
    requires NodeInv(n, id, o) && n.Exists() && WriteField(n, k, t, x).Ok? && tail != []
    ensures Reads(WriteField(n, k, t, x).value, [k] + tail) == Reads(n, [k] + tail)
  {
    LoadFieldKeeps(n, id, o, k);
    var child := LoadField(n, k).value.0.fields[k];
    var written := child.(cell := child.cell.WriteValue(Some(t), x).value);
    WriteKeeps(child.cell, id + [k], FieldOf(o, k), Some(t), x);
    ReadNodeAlike(child, written, tail);
    assert ([k] + tail)[0] == k && ([k] + tail)[1..] == tail;
    assert LoadField(WriteField(n, k, t, x).value, k).value.0.fields[k] == written;
  }

  /** A removed field had been there, and is not read any more, nor anything below it. */
  lemma RemovedIsGone(n: Node, id: ObjectID, o: Option<ObjectState>, k: FieldKey, t: TypeTag, tail: ObjectID)
    requires NodeInv(n, id, o) && n.Exists() && RemoveField(n, k, t).Ok?
    ensures Reads(n, [k]).Some? && Reads(RemoveField(n, k, t).value, [k] + tail) == None
  {
    LoadFieldKeeps(n, id, o, k);
    var c := LoadField(n, k).value.0.fields[k].cell;
    MoveFromKeeps(c, id + [k], FieldOf(o, k), Some(t));
    ReadsField(n, k);
    var m := RemoveField(n, k, t).value;
    assert ([k] + tail)[0] == k && ([k] + tail)[1..] == tail;
    assert LoadField(m, k).Ok? ==> ReadNode(LoadField(m, k).value.0.fields[k], tail) == None;
  }

  /** A published module reads as the module value given, in a package that exists. */
  lemma PublishedIsRead(n: Node, id: ObjectID, o: Option<ObjectState>, p: Publication, r: bool)
    requires NodeInv(n, id, o) && n.Exists() && PublishModule(n, p, r).Ok?
    ensures var m := PublishModule(n, p, r).value;
            && Reads(m, [p.packageKey]).Some?
            && Reads(m, [p.packageKey, p.moduleKey]).Some?
            && Reads(m, [p.packageKey, p.moduleKey]).value.BorrowValue(Some(p.moduleType)) == Ok(p.moduleValue)
  {
    var m := PublishModule(n, p, r).value;
    PublishedFields(n, p, r);
    PackageKeeps(n, id, o, p);
    PublishKeeps(n, id, o, p, r);
    PackageInPlace(n, id, o, p);
    StoredIsRead(LoadOrCreatePackage(n, p).value.fields[p.packageKey], id + [p.packageKey], FieldOf(o, p.packageKey), p, r);
    ReadsTwoDown(m, p.packageKey, p.moduleKey);
  }

  lemma ReadsTwoDown(n: Node, k: FieldKey, j: FieldKey)
    requires n.Exists() && !n.cell.meta.MetaNone? && k in n.fields && n.fields[k].Exists()
    ensures Reads(n, [k]) == Some(n.fields[k].cell) && Reads(n, [k, j]) == Reads(n.fields[k], [j])
  {
    ReadNodeResident(n, k, []);
    ReadNodeResident(n, k, [j]);
    assert [k] + [] == [k] && [k] + [j] == [k, j];
  }

  lemma {:induction false} StoredIsRead(n: Node, id: ObjectID, o: Option<ObjectState>, p: Publication, r: bool)
    requires NodeInv(n, id, o) && n.Exists() && StoreModule(n, p, r).Ok?
    ensures var m := StoreModule(n, p, r).value;
            && m.Exists() && Reads(m, [p.moduleKey]).Some?
            && Reads(m, [p.moduleKey]).value.BorrowValue(Some(p.moduleType)) == Ok(p.moduleValue)
  {
    var m := StoreModule(n, p, r).value;
    LoadFieldKeeps(n, id, o, p.moduleKey);
    StoreModuleKeeps(n, id, o, p, r);
    var c := LoadField(n, p.moduleKey).value.0.fields[p.moduleKey].cell;
    ReplaceModuleKeeps(c, id + [p.moduleKey], FieldOf(o, p.moduleKey), p, r);
    ReplacedIsRead(c, p, r);
    ReadNodeResident(m, p.moduleKey, []);
    assert [p.moduleKey] + [] == [p.moduleKey];
  }

  lemma ReplacedIsRead(c: Cell, p: Publication, r: bool)
    requires ReplaceModule(c, p, r).Ok?
    ensures ReplaceModule(c, p, r).value.BorrowValue(Some(p.moduleType)) == Ok(p.moduleValue)
  {}
}

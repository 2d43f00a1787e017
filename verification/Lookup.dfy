/** Loading objects: what it costs, what it finds, and that reading changes nothing. */
module Lookup {
  import opened Common
  import opened GlobalValues
  import opened StateStore
  import opened RuntimeMeta
  import opened RuntimeNode
  import opened RuntimeInvariant
  import opened ChangeSet

  function SumLoadCost(first: LoadCost, second: LoadCost): LoadCost {
    match (first, second)
    case (Some(Some(a)), Some(Some(b))) => Some(Some(a + b))
    case (Some(Some(a)), None) => Some(Some(a))
    case (None, Some(Some(b))) => Some(Some(b))
    case (Some(None), _) => Some(None)
    case (_, Some(None)) => Some(None)
    case _ => None
  }

  lemma SumLoadCostLaws(a: LoadCost, b: LoadCost, c: LoadCost)
    ensures SumLoadCost(SumLoadCost(a, b), c) == SumLoadCost(a, SumLoadCost(b, c))
    ensures SumLoadCost(a, b) == SumLoadCost(b, a)
    ensures SumLoadCost(a, None) == a
    ensures SumLoadCost(a, Some(None)) == Some(None)
  {}

  /** Load every object on the path below `n`; the tree afterwards and the total cost. */
  function LoadPath(n: Node, path: ObjectID): Result<(Node, LoadCost), StatusCode>
    decreases |path|
  {
    if path == [] then Ok((n, None))
    else
      var first :- LoadField(n, path[0]);
      var rest :- LoadPath(first.0.fields[path[0]], path[1..]);
      Ok((first.0.(fields := first.0.fields[path[0] := rest.0]), SumLoadCost(first.1, rest.1)))
  }

  /** Replace the resident node at `path`. */
  function ReplaceAt(n: Node, path: ObjectID, m: Node): Node
    requires NodeAt(n, path).Some?
    decreases |path|
  {
    if path == [] then m
    else n.(fields := n.fields[path[0] := ReplaceAt(n.fields[path[0]], path[1..], m)])
  }

  /** The runtime loads the parent first, then one field of it: the same tree, the same cost, the same error. */
  lemma {:induction false} LoadPathByParent(n: Node, path: ObjectID, key: FieldKey)
    ensures LoadPath(n, path).Err? ==> LoadPath(n, path + [key]) == LoadPath(n, path)
    ensures LoadPath(n, path).Ok? ==>
              var (n1, cost) := LoadPath(n, path).value;
              && NodeAt(n1, path).Some?
              && match LoadField(NodeAt(n1, path).value, key)
                 case Err(e) => LoadPath(n, path + [key]) == Err(e)
                 case Ok((parent, fieldCost)) =>
                   LoadPath(n, path + [key]) == Ok((ReplaceAt(n1, path, parent), SumLoadCost(cost, fieldCost)))
    decreases |path|
  {
    if path == [] {
      assert path + [key] == [key] && [key][1..] == [];
      if LoadField(n, key).Ok? {
        var first := LoadField(n, key).value;
        assert LoadPath(first.0.fields[key], []) == Ok((first.0.fields[key], None));
        assert first.0.fields[key := first.0.fields[key]] == first.0.fields;
      }
    } else {
      assert (path + [key])[0] == path[0] && (path + [key])[1..] == path[1..] + [key];
      if LoadField(n, path[0]).Ok? {
        var first := LoadField(n, path[0]).value;
        var child := first.0.fields[path[0]];
        LoadPathByParent(child, path[1..], key);
        if LoadPath(child, path[1..]).Ok? {
          var rest := LoadPath(child, path[1..]).value;
          var n1 := first.0.(fields := first.0.fields[path[0] := rest.0]);
          if LoadField(NodeAt(rest.0, path[1..]).value, key).Ok? {
            var last := LoadField(NodeAt(rest.0, path[1..]).value, key).value;
            SumLoadCostLaws(first.1, rest.1, last.1);
            assert ReplaceAt(n1, path, last.0).fields == first.0.fields[path[0] := ReplaceAt(rest.0, path[1..], last.0)];
          }
        }
      }
    }
  }

  /** A call at `path` is a load of the path followed by the call on the object found there. */
  lemma {:induction false} StepIsLoadThenCall(n: Node, path: ObjectID, op: NodeOp)
    ensures LoadPath(n, path).Err? ==> StepAt(n, path, op) == Err(LoadPath(n, path).error)
    ensures LoadPath(n, path).Ok? ==>
              var n1 := LoadPath(n, path).value.0;
              && NodeAt(n1, path).Some?
              && StepAt(n, path, op) == (match NodeStep(NodeAt(n1, path).value, op)
                                         case Err(e) => Err(e)
                                         case Ok(m) => Ok(ReplaceAt(n1, path, m)))
    decreases |path|
  {
    if path != [] && LoadField(n, path[0]).Ok? {
      var first := LoadField(n, path[0]).value.0;
      StepIsLoadThenCall(first.fields[path[0]], path[1..], op);
      if LoadPath(first.fields[path[0]], path[1..]).Ok? {
        var rest := LoadPath(first.fields[path[0]], path[1..]).value.0;
        if NodeStep(NodeAt(rest, path[1..]).value, op).Ok? {
          var m := NodeStep(NodeAt(rest, path[1..]).value, op).value;
          var n1 := first.(fields := first.fields[path[0] := rest]);
          assert ReplaceAt(n1, path, m).fields == first.fields[path[0] := ReplaceAt(rest, path[1..], m)];
        }
      }
    }
  }

  /** And it answers what the call on that object answers. */
  lemma {:induction false} AnswerIsGiven(n: Node, path: ObjectID, op: NodeOp)
    requires StepAt(n, path, op).Ok?
    ensures LoadPath(n, path).Ok? && NodeAt(LoadPath(n, path).value.0, path).Some?
    ensures var m := NodeAt(LoadPath(n, path).value.0, path).value;
            NodeStep(m, op).Ok? && AnswerAt(n, path, op) == Gives(m, op)
    decreases |path|
  {
    if path != [] {
      AnswerIsGiven(LoadField(n, path[0]).value.0.fields[path[0]], path[1..], op);
    }
  }

  // ---------- reads of an unmodified runtime ----------

  /** `n` and everything resident below it are unmodified copies of what is stored, or of its absence. */
  ghost predicate Unmodified(n: Node, o: Option<ObjectState>) {
    match o
    case None => n.cell.meta.MetaNone? && n.cell.value.GvNone? && n.cell.pointer.value.GvNone? && n.fields == map[]
    case Some(s) =>
      && n.cell.meta == MetaCached(MetaValue(s.metadata, false)) && n.cell.value == GvCached(s.value, false)
      && n.cell.pointer.value == LoadCell(s).pointer.value
      && forall k :: k in n.fields ==> Unmodified(n.fields[k], FieldOf(o, k))
  }

  predicate ReadOnlyOp(op: NodeOp) {
    op.Touch? || op.ReadField? || op.BorrowFieldOp? || op.BorrowOp? || op.ReleaseOp?
  }

  lemma LoadFieldUnmodified(n: Node, o: Option<ObjectState>, key: FieldKey)
    requires Unmodified(n, o)
    ensures LoadField(n, key).Ok? <==> o.Some?
    ensures LoadField(n, key).Err? ==> LoadField(n, key).error == MissingData
    ensures o.Some? ==> Unmodified(LoadField(n, key).value.0, o)
  {
    if o.Some? {
      var n1 := LoadField(n, key).value.0;
      forall k | k in n1.fields ensures Unmodified(n1.fields[k], FieldOf(o, k)) {
        if k in n.fields {
          assert n1.fields[k] == n.fields[k];
        }
      }
    }
  }

  lemma WithChildUnmodified(n: Node, o: Option<ObjectState>, key: FieldKey, child: Node)
    requires Unmodified(n, o) && key in n.fields && Unmodified(child, FieldOf(o, key))
    ensures Unmodified(n.(fields := n.fields[key := child]), o)
  {
    var n1 := n.(fields := n.fields[key := child]);
    forall k | k in n1.fields ensures Unmodified(n1.fields[k], FieldOf(o, k)) {
      assert k != key ==> n1.fields[k] == n.fields[k];
    }
  }

  lemma {:induction false} ReadOnlyStep(n: Node, o: Option<ObjectState>, path: ObjectID, op: NodeOp)
    requires Unmodified(n, o) && ReadOnlyOp(op) && StepAt(n, path, op).Ok?
    ensures Unmodified(StepAt(n, path, op).value, o)
    decreases |path|
  {
    if path == [] {
      if op.ReadField? || op.BorrowFieldOp? {
        LoadFieldUnmodified(n, o, op.key);
      } else if o.Some? {
        forall k | k in n.fields ensures Unmodified(n.fields[k], FieldOf(o, k)) {}
      }
    } else {
      LoadFieldUnmodified(n, o, path[0]);
      var n1 := LoadField(n, path[0]).value.0;
      ReadOnlyStep(n1.fields[path[0]], FieldOf(o, path[0]), path[1..], op);
      WithChildUnmodified(n1, o, path[0], StepAt(n1.fields[path[0]], path[1..], op).value);
    }
  }

  lemma {:induction false} ReadOnlyRun(n: Node, o: Option<ObjectState>, steps: seq<Step>)
    requires Unmodified(n, o) && Run(n, steps).Ok?
    requires forall i :: 0 <= i < |steps| ==> ReadOnlyOp(steps[i].op)
    ensures Unmodified(Run(n, steps).value, o)
    decreases |steps|
  {
    if steps != [] {
      ReadOnlyStep(n, o, steps[0].path, steps[0].op);
      ReadOnlyRun(StepAt(n, steps[0].path, steps[0].op).value, o, steps[1..]);
    }
  }

  lemma {:induction false} UnmodifiedIsSilent(n: Node, o: Option<ObjectState>, now: nat)
    requires Unmodified(n, o)
    ensures FieldChanges(n, now) == Ok(map[]) && IntoChange(n, now) == Ok(None)
    decreases n
  {
    forall k | k in n.fields ensures IntoChange(n.fields[k], now) == Ok(None) {
      UnmodifiedIsSilent(n.fields[k], FieldOf(o, k), now);
    }
  }

  lemma {:induction false} UnmodifiedAt(n: Node, o: Option<ObjectState>, path: ObjectID)
    requires Unmodified(n, o) && NodeAt(n, path).Some?
    ensures Unmodified(NodeAt(n, path).value, Below(o, path))
    decreases |path|
  {
    if path != [] {
      UnmodifiedAt(n.fields[path[0]], FieldOf(o, path[0]), path[1..]);
    }
  }

  /** A run of loads, reads and borrows commits nothing: no node has a change, and the change set is empty over the
      root it started from. */
  lemma ReadOnlyRunCommitsNothing(root: ObjectMeta, steps: seq<Step>, path: ObjectID, now: nat)
    requires Run(NewRuntime(root), steps).Ok?
    requires forall i :: 0 <= i < |steps| ==> ReadOnlyOp(steps[i].op)
    ensures var n := Run(NewRuntime(root), steps).value;
            && IntoChangeSet(n, now) == Ok(StateChangeSet(root.stateRoot, root.size, map[]))
            && (NodeAt(n, path).Some? ==> IntoChange(NodeAt(n, path).value, now) == Ok(None))
  {
    var o := Some(NewRoot(root));
    ReadOnlyRun(NewRuntime(root), o, steps);
    var n := Run(NewRuntime(root), steps).value;
    UnmodifiedIsSilent(n, o, now);
    if NodeAt(n, path).Some? {
      UnmodifiedAt(n, o, path);
      UnmodifiedIsSilent(NodeAt(n, path).value, Below(o, path), now);
    }
  }

  lemma {:induction false} BelowLast(o: Option<ObjectState>, path: ObjectID, key: FieldKey)
    ensures Below(o, path + [key]) == FieldOf(Below(o, path), key)
    decreases |path|
  {
    if path != [] {
      assert (path + [key])[1..] == path[1..] + [key];
      BelowLast(FieldOf(o, path[0]), path[1..], key);
    }
  }

  /** The resolver's lookup walks the stored tree. */
  lemma {:induction false} GetObjectWalks(root: ObjectMeta, id: ObjectID)
    ensures GetObject(root, id) == Below(Some(NewRoot(root)), id)
    decreases |id|
  {
    if id != [] {
      GetObjectWalks(root, Parent(id));
      BelowLast(Some(NewRoot(root)), Parent(id), KeyOf(id));
      assert Parent(id) + [KeyOf(id)] == id;
    }
  }

  lemma {:induction false} LoadPathUnmodified(n: Node, o: Option<ObjectState>, path: ObjectID)
    requires Unmodified(n, o)
    ensures LoadPath(n, path).Ok? <==> path == [] || Below(o, Parent(path)).Some?
    ensures LoadPath(n, path).Err? ==> LoadPath(n, path).error == MissingData
    ensures LoadPath(n, path).Ok? ==>
              var n1 := LoadPath(n, path).value.0;
              Unmodified(n1, o) && NodeAt(n1, path).Some? && Unmodified(NodeAt(n1, path).value, Below(o, path))
    decreases |path|
  {
    if path != [] {
      LoadFieldUnmodified(n, o, path[0]);
      if |path| > 1 {
        assert Parent(path)[0] == path[0] && Parent(path)[1..] == Parent(path[1..]);
      }
      if o.Some? {
        var n1 := LoadField(n, path[0]).value.0;
        LoadPathUnmodified(n1.fields[path[0]], FieldOf(o, path[0]), path[1..]);
        if LoadPath(n1.fields[path[0]], path[1..]).Ok? {
          WithChildUnmodified(n1, o, path[0], LoadPath(n1.fields[path[0]], path[1..]).value.0);
        }
      } else {
        NothingBelow(Parent(path));
      }
    }
  }

  /** The cell answers as the stored object, or as none. */
  predicate Presents(c: Cell, o: Option<ObjectState>) {
    if o.None? then c.meta.MetaNone? && c.BorrowValue(None) == Err(MissingData)
    else c.meta.Metadata() == Ok(o.value.metadata) && c.BorrowValue(None) == Ok(o.value.value)
  }

  /** After any reads, loading an object finds exactly what the resolver finds: an object that answers the stored
      metadata and value, or one that has none; and it fails, for missing data, exactly when the resolver has no parent for it. */
  lemma LookupAgreement(root: ObjectMeta, steps: seq<Step>, id: ObjectID)
    requires Run(NewRuntime(root), steps).Ok?
    requires forall i :: 0 <= i < |steps| ==> ReadOnlyOp(steps[i].op)
    ensures var loaded := LoadPath(Run(NewRuntime(root), steps).value, id);
            && (loaded.Ok? <==> id == [] || GetObject(root, Parent(id)).Some?)
            && (loaded.Err? ==> loaded.error == MissingData)
            && (loaded.Ok? ==>
                  && NodeAt(loaded.value.0, id).Some?
                  && Presents(NodeAt(loaded.value.0, id).value.cell, GetObject(root, id)))
  {
    var o := Some(NewRoot(root));
    ReadOnlyRun(NewRuntime(root), o, steps);
    LoadPathUnmodified(Run(NewRuntime(root), steps).value, o, id);
    GetObjectWalks(root, id);
    if id != [] {
      GetObjectWalks(root, Parent(id));
    }
  }

  /** The resident node at `path`, if it and all nodes above it below the root are present. */
  function LoadedNode(n: Node, path: ObjectID): Option<Node>
    decreases |path|
  {
    if path == [] then Some(n)
    else if path[0] in n.fields && !n.fields[path[0]].cell.meta.MetaNone? then LoadedNode(n.fields[path[0]], path[1..])
    else None
  }

  /** The runtime looks for the loaded parent first, then for its loaded field. */
  lemma {:induction false} LoadedByParent(n: Node, path: ObjectID, key: FieldKey)
    ensures var parent := LoadedNode(n, path);
            LoadedNode(n, path + [key]) ==
            if parent.Some? && key in parent.value.fields && !parent.value.fields[key].cell.meta.MetaNone?
            then Some(parent.value.fields[key]) else None
    decreases |path|
  {
    if path == [] {
      assert path + [key] == [key] && [key][1..] == [];
      assert key in n.fields ==> LoadedNode(n.fields[key], []) == Some(n.fields[key]);
    } else {
      assert (path + [key])[0] == path[0] && (path + [key])[1..] == path[1..] + [key];
      if path[0] in n.fields {
        LoadedByParent(n.fields[path[0]], path[1..], key);
      }
    }
  }

  lemma {:induction false} LoadedIsResident(n: Node, path: ObjectID)
    ensures LoadedNode(n, path).Some? ==> NodeAt(n, path) == LoadedNode(n, path)
    decreases |path|
  {
    if path != [] && path[0] in n.fields {
      LoadedIsResident(n.fields[path[0]], path[1..]);
    }
  }

  /** After any reads, looking for a loaded object finds it exactly if it is resident and stored, as it is stored. */
  lemma LoadedIsStored(root: ObjectMeta, steps: seq<Step>, id: ObjectID)
    requires Run(NewRuntime(root), steps).Ok?
    requires forall i :: 0 <= i < |steps| ==> ReadOnlyOp(steps[i].op)
    ensures var n := Run(NewRuntime(root), steps).value;
            && (LoadedNode(n, id).Some? <==> NodeAt(n, id).Some? && GetObject(root, id).Some?)
            && (LoadedNode(n, id).Some? ==> Presents(LoadedNode(n, id).value.cell, GetObject(root, id)))
  {
    var n, o := Run(NewRuntime(root), steps).value, Some(NewRoot(root));
    ReadOnlyRun(NewRuntime(root), o, steps);
    GetObjectWalks(root, id);
    UnmodifiedLoaded(n, o, id);
  }

  lemma {:induction false} UnmodifiedLoaded(n: Node, o: Option<ObjectState>, path: ObjectID)
    requires Unmodified(n, o) && o.Some?
    ensures LoadedNode(n, path).Some? <==> NodeAt(n, path).Some? && Below(o, path).Some?
    ensures LoadedNode(n, path).Some? ==> Presents(LoadedNode(n, path).value.cell, Below(o, path))
    decreases |path|
  {
    if path != [] && path[0] in n.fields {
      if FieldOf(o, path[0]).Some? {
        UnmodifiedLoaded(n.fields[path[0]], FieldOf(o, path[0]), path[1..]);
      } else {
        NothingBelow(path[1..]);
      }
    }
  }

  // ---------- what loading costs ----------

  function ValueBytes(c: Cell): nat {
    if c.value.GvCached? then |c.value.v| else 0
  }

  /** The bytes of the loaded values resident on the path below `n`. */
  function PathBytes(n: Node, path: ObjectID): nat
    decreases |path|
  {
    if path == [] || path[0] !in n.fields then 0
    else ValueBytes(n.fields[path[0]].cell) + PathBytes(n.fields[path[0]], path[1..])
  }

  /** Loading a path is free when it is resident, a failure when its object is newly found absent, and otherwise costs
      the bytes it made resident. */
  lemma {:induction false} LoadPathCost(n: Node, path: ObjectID)
    requires LoadPath(n, path).Ok?
    ensures var (n1, cost) := LoadPath(n, path).value;
            && NodeAt(n1, path).Some? && n1.cell == n.cell
            && PathBytes(n1, path) >= PathBytes(n, path)
            && cost == (if NodeAt(n, path).Some? then None
                        else if NodeAt(n1, path).value.cell.meta.MetaNone? then Some(None)
                        else Some(Some(PathBytes(n1, path) - PathBytes(n, path))))
    decreases |path|
  {
    if path != [] {
      var first := LoadField(n, path[0]).value;
      LoadPathCost(first.0.fields[path[0]], path[1..]);
    }
  }

  /** Everything resident in `n` is resident in `m`. */
  ghost predicate Covers(m: Node, n: Node)
    decreases n
  {
    forall k :: k in n.fields ==> k in m.fields && Covers(m.fields[k], n.fields[k])
  }

  lemma {:induction false} CoversItself(n: Node)
    ensures Covers(n, n)
  {
    forall k | k in n.fields ensures Covers(n.fields[k], n.fields[k]) {
      CoversItself(n.fields[k]);
    }
  }

  lemma {:induction false} CoversTransitive(l: Node, m: Node, n: Node)
    requires Covers(l, m) && Covers(m, n)
    ensures Covers(l, n)
    decreases n
  {
    forall k | k in n.fields ensures k in l.fields && Covers(l.fields[k], n.fields[k]) {
      CoversTransitive(l.fields[k], m.fields[k], n.fields[k]);
    }
  }

  /** Replacing cells and extending children keeps everything resident. */
  lemma CoversByFields(m: Node, n: Node, key: FieldKey)
    requires key in m.fields && (key in n.fields ==> Covers(m.fields[key], n.fields[key]))
    requires forall k :: k in n.fields && k != key ==> k in m.fields && m.fields[k] == n.fields[k]
    ensures Covers(m, n)
  {
    forall k | k in n.fields ensures k in m.fields && Covers(m.fields[k], n.fields[k]) {
      CoversItself(n.fields[k]);
    }
  }

  lemma LoadFieldCovers(n: Node, key: FieldKey)
    requires LoadField(n, key).Ok?
    ensures Covers(LoadField(n, key).value.0, n)
  {
    if key in n.fields {
      CoversItself(n.fields[key]);
    }
    CoversByFields(LoadField(n, key).value.0, n, key);
  }

  lemma WithFieldCellCovers(n: Node, key: FieldKey, c: Cell, m: RtMeta)
    requires key in n.fields
    ensures Covers(WithFieldCell(n, key, c), n) && Covers(WithMeta(WithFieldCell(n, key, c), m), n)
  {
    CoversItself(n.fields[key]);
    assert Covers(n.fields[key].(cell := c), n.fields[key]);
    CoversByFields(WithFieldCell(n, key, c), n, key);
    CoversByFields(WithMeta(WithFieldCell(n, key, c), m), n, key);
  }

  lemma PublishCovers(n: Node, p: Publication, r: bool)
    requires PublishModule(n, p, r).Ok?
    ensures Covers(PublishModule(n, p, r).value, n)
  {
    LoadFieldCovers(n, p.packageKey);
    var n0 := LoadField(n, p.packageKey).value.0;
    var n1 := LoadOrCreatePackage(n, p).value;
    var package := n1.fields[p.packageKey];
    WithFieldCellCovers(n0, p.packageKey, package.cell, n0.cell.meta);
    assert Covers(package, n0.fields[p.packageKey]);
    LoadFieldCovers(package, p.moduleKey);
    var package1 := LoadField(package, p.moduleKey).value.0;
    var stored := StoreModule(package, p, r).value;
    WithFieldCellCovers(package1, p.moduleKey, stored.fields[p.moduleKey].cell, stored.cell.meta);
    CoversTransitive(stored, package1, package);
    CoversTransitive(stored, package, n0.fields[p.packageKey]);
    CoversByFields(PublishModule(n, p, r).value, n0, p.packageKey);
    CoversTransitive(PublishModule(n, p, r).value, n0, n);
  }

  lemma OneFieldCovers(n: Node, key: FieldKey, c: Cell, m: RtMeta)
    requires LoadField(n, key).Ok?
    ensures Covers(WithMeta(WithFieldCell(LoadField(n, key).value.0, key, c), m), n)
    ensures Covers(WithFieldCell(LoadField(n, key).value.0, key, c), n)
  {
    LoadFieldCovers(n, key);
    var n1 := LoadField(n, key).value.0;
    WithFieldCellCovers(n1, key, c, m);
    CoversTransitive(WithMeta(WithFieldCell(n1, key, c), m), n1, n);
    CoversTransitive(WithFieldCell(n1, key, c), n1, n);
  }

  lemma NodeStepCovers(n: Node, op: NodeOp)
    requires NodeStep(n, op).Ok?
    ensures Covers(NodeStep(n, op).value, n)
  {
    var n2 := NodeStep(n, op).value;
    match op
    case ReadField(k, _) => LoadFieldCovers(n, k);
    case BorrowFieldOp(k, _) => LoadFieldCovers(n, k);
    case WriteOp(k, _, _) => OneFieldCovers(n, k, n2.fields[k].cell, n2.cell.meta);
    case AddOp(k, _, _) => OneFieldCovers(n, k, n2.fields[k].cell, n2.cell.meta);
    case RemoveOp(k, _) => OneFieldCovers(n, k, n2.fields[k].cell, n2.cell.meta);
    case PublishOp(p, r) => PublishCovers(n, p, r);
    case _ => CoversItself(n);
  }

  lemma {:induction false} StepCovers(n: Node, path: ObjectID, op: NodeOp)
    requires StepAt(n, path, op).Ok?
    ensures Covers(StepAt(n, path, op).value, n)
    decreases |path|
  {
    if path == [] {
      NodeStepCovers(n, op);
    } else {
      LoadFieldCovers(n, path[0]);
      var n1 := LoadField(n, path[0]).value.0;
      StepCovers(n1.fields[path[0]], path[1..], op);
      CoversByFields(StepAt(n, path, op).value, n1, path[0]);
      CoversTransitive(StepAt(n, path, op).value, n1, n);
    }
  }

  lemma {:induction false} RunCovers(n: Node, steps: seq<Step>)
    requires Run(n, steps).Ok?
    ensures Covers(Run(n, steps).value, n)
    decreases |steps|
  {
    if steps == [] {
      CoversItself(n);
    } else {
      var n1 := StepAt(n, steps[0].path, steps[0].op).value;
      StepCovers(n, steps[0].path, steps[0].op);
      RunCovers(n1, steps[1..]);
      CoversTransitive(Run(n, steps).value, n1, n);
    }
  }

  lemma {:induction false} CoveredPath(m: Node, n: Node, path: ObjectID)
    requires Covers(m, n) && NodeAt(n, path).Some?
    ensures NodeAt(m, path).Some?
    decreases |path|
  {
    if path != [] {
      CoveredPath(m.fields[path[0]], n.fields[path[0]], path[1..]);
    }
  }

  /** Once a path has been loaded, nothing that happens later makes loading it cost anything again. */
  lemma ChargedOnce(n: Node, path: ObjectID, steps: seq<Step>)
    requires LoadPath(n, path).Ok? && Run(LoadPath(n, path).value.0, steps).Ok?
    ensures var later := LoadPath(Run(LoadPath(n, path).value.0, steps).value, path);
            later.Ok? ==> later.value.1 == None
  {
    LoadPathCost(n, path);
    var n1 := LoadPath(n, path).value.0;
    RunCovers(n1, steps);
    CoveredPath(Run(n1, steps).value, n1, path);
    if LoadPath(Run(n1, steps).value, path).Ok? {
      LoadPathCost(Run(n1, steps).value, path);
    }
  }
}

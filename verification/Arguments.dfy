/** Loading the object arguments of a call, and releasing them afterwards. */
module Arguments {
  import opened Common
  import opened GlobalValues
  import opened StateStore
  import opened RuntimeNode
  import opened RuntimeInvariant
  import opened ChangeSet
  import opened Lookup
  import opened PointerLinearity
  import opened Shown
  import opened Soundness

  /** A signer or pure argument, an object by (mutable) reference, or an object by value. */
  datatype ResolvedArg = PlainArg | RefArg(id: ObjectID) | ValueArg(id: ObjectID) {
    /** The call that loads the argument's pointer. */
    function Op(): NodeOp {
      if ValueArg? then TakeOp(None) else BorrowOp(None)
    }

    function Held(): HeldArg {
      if ValueArg? then HeldValue else HeldRef
    }
  }

  datatype HeldArg = HeldRef | HeldValue

  type HeldArgs = map<ObjectID, HeldArg>

  function LoadArguments(n: Node, held: HeldArgs, args: seq<ResolvedArg>): Result<(Node, HeldArgs), StatusCode>
    decreases |args|
  {
    if args == [] then Ok((n, held))
    else if args[0].PlainArg? then LoadArguments(n, held, args[1..])
    else
      var n1 :- StepAt(n, args[0].id, args[0].Op());
      LoadArguments(n1, held[args[0].id := args[0].Held()], args[1..])
  }

  /** Dropping the held references: each by-reference object has one reference less. */
  function Released(n: Node, id: ObjectID, held: HeldArgs): Node
    decreases n
  {
    Node(ReleasedCell(n.cell, id, held), map k | k in n.fields :: Released(n.fields[k], id + [k], held))
  }

  function ReleasedCell(c: Cell, id: ObjectID, held: HeldArgs): Cell {
    if id in held && held[id] == HeldRef && c.pointer.borrows > 0
    then c.(pointer := c.pointer.(borrows := c.pointer.borrows - 1))
    else c
  }

  /** One reference to the pointer of the resident object at `path`, if there is any, is dropped. */
  function Dropped(n: Node, path: ObjectID): Node {
    if NodeAt(n, path).None? then n
    else if NodeAt(n, path).value.cell.ReleaseObject().Err? then n
    else ReplaceAt(n, path, NodeAt(n, path).value.(cell := NodeAt(n, path).value.cell.ReleaseObject().value))
  }

  lemma DroppedBelow(n: Node, path: ObjectID)
    requires path != []
    ensures Dropped(n, path) ==
            if path[0] in n.fields then n.(fields := n.fields[path[0] := Dropped(n.fields[path[0]], path[1..])]) else n
  {
    if path[0] in n.fields {
      assert n.fields[path[0] := n.fields[path[0]]] == n.fields;
    }
  }

  /** Holding one more argument does not matter where its object is not. */
  lemma {:induction false} ReleasedElsewhere(n: Node, id: ObjectID, held: HeldArgs, q: ObjectID, h: HeldArg)
    requires !(id <= q)
    ensures Released(n, id, held[q := h]) == Released(n, id, held)
    decreases n
  {
    var more, fewer := Released(n, id, held[q := h]), Released(n, id, held);
    forall k | k in n.fields ensures more.fields[k] == fewer.fields[k] {
      assert id + [k] <= q ==> id <= q;
      ReleasedElsewhere(n.fields[k], id + [k], held, q, h);
    }
    assert more.fields == fewer.fields;
  }

  lemma ReleasedHere(n: Node, id: ObjectID, held: HeldArgs, h: HeldArg)
    requires id !in held
    ensures Released(n, id, held[id := h]) ==
            if h == HeldRef then Dropped(Released(n, id, held), []) else Released(n, id, held)
  {
    var more, fewer := Released(n, id, held[id := h]), Released(n, id, held);
    forall k | k in n.fields ensures more.fields[k] == fewer.fields[k] {
      ReleasedElsewhere(n.fields[k], id + [k], held, id, h);
    }
    assert more.fields == fewer.fields;
  }

  lemma {:induction false} ReleasedBelow(n: Node, id: ObjectID, held: HeldArgs, path: ObjectID, h: HeldArg)
    requires path != []
    requires path[0] in n.fields ==>
               var (child, at) := (n.fields[path[0]], id + [path[0]]);
               Released(child, at, held[id + path := h]) ==
               if h == HeldRef then Dropped(Released(child, at, held), path[1..]) else Released(child, at, held)
    ensures Released(n, id, held[id + path := h]) ==
            if h == HeldRef then Dropped(Released(n, id, held), path) else Released(n, id, held)
  {
    var q := id + path;
    var more, fewer := Released(n, id, held[q := h]), Released(n, id, held);
    forall k | k in n.fields && k != path[0] ensures more.fields[k] == fewer.fields[k] {
      assert !(id + [k] <= q) by { assert q[|id|] == path[0] && (id + [k])[|id|] == k; }
      ReleasedElsewhere(n.fields[k], id + [k], held, q, h);
    }
    assert id != q;
    DroppedBelow(fewer, path);
    assert more.fields == if h == HeldRef then Dropped(fewer, path).fields else fewer.fields;
  }

  /** Releasing one more held argument drops one more reference, if it is held by reference. */
  lemma {:induction false} ReleasedOneMore(n: Node, id: ObjectID, held: HeldArgs, path: ObjectID, h: HeldArg)
    requires id + path !in held
    ensures Released(n, id, held[id + path := h]) ==
            if h == HeldRef then Dropped(Released(n, id, held), path) else Released(n, id, held)
    decreases n
  {
    if path == [] {
      assert id + path == id;
      ReleasedHere(n, id, held, h);
    } else {
      if path[0] in n.fields {
        assert id + [path[0]] + path[1..] == id + path;
        ReleasedOneMore(n.fields[path[0]], id + [path[0]], held, path[1..], h);
      }
      ReleasedBelow(n, id, held, path, h);
    }
  }

  lemma {:induction false} NothingHeld(n: Node, id: ObjectID)
    ensures Released(n, id, map[]) == n
    decreases n
  {
    forall k | k in n.fields ensures Released(n.fields[k], id + [k], map[]) == n.fields[k] {
      NothingHeld(n.fields[k], id + [k]);
    }
    assert Released(n, id, map[]).fields == n.fields;
  }

  /** `done` is `held` without the arguments in `keys`. */
  predicate HeldWithout(held: HeldArgs, keys: set<ObjectID>, done: HeldArgs) {
    held.Keys == keys + done.Keys && keys !! done.Keys && forall q :: q in done ==> done[q] == held[q]
  }

  lemma AllDone(held: HeldArgs, done: HeldArgs)
    requires HeldWithout(held, {}, done)
    ensures done == held
  {}

  lemma ReleaseNext(n: Node, held: HeldArgs, keys: set<ObjectID>, done: HeldArgs, id: ObjectID)
    requires HeldWithout(held, keys, done) && id in keys
    ensures id in held && HeldWithout(held, keys - {id}, done[id := held[id]])
    ensures Released(n, [], done[id := held[id]]) ==
            if held[id] == HeldRef then Dropped(Released(n, [], done), id) else Released(n, [], done)
  {
    assert [] + id == id;
    ReleasedOneMore(n, [], done, id, held[id]);
  }

  /** The cell that loading finds at `q`. */
  function Seen(n: Node, q: ObjectID): Option<Cell>
    decreases |q|
  {
    if q == [] then Some(n.cell)
    else if LoadField(n, q[0]).Err? then None
    else Seen(LoadField(n, q[0]).value.0.fields[q[0]], q[1..])
  }

  lemma {:induction false} ResidentSeen(n: Node, q: ObjectID)
    requires NodeAt(n, q).Some? && Seen(n, q).Some?
    ensures Seen(n, q).value == NodeAt(n, q).value.cell
    decreases |q|
  {
    if q != [] {
      ResidentSeen(n.fields[q[0]], q[1..]);
    }
  }

  /** The object's cell with its pointer loaded as an argument. */
  function Loaded(c: Cell, op: NodeOp): Cell {
    if CellStep(c, op).Ok? then CellStep(c, op).value else c
  }

  /** Borrowing or taking the pointer at `path` changes what is seen at `path` and nothing else. */
  lemma {:induction false} SeenStep(n: Node, path: ObjectID, op: NodeOp, q: ObjectID)
    requires (op.BorrowOp? || op.TakeOp?) && StepAt(n, path, op).Ok?
    ensures NodeAt(StepAt(n, path, op).value, path).Some?
    ensures Seen(n, path).Some? && CellStep(Seen(n, path).value, op).Ok?
    ensures Seen(StepAt(n, path, op).value, q) ==
            if q == path then Some(Loaded(Seen(n, path).value, op)) else Seen(n, q)
    decreases |path|
  {
    if path == [] {
      if q != [] {
        SeenBelow(n, StepAt(n, path, op).value, q);
      }
    } else {
      var n1, m := LoadField(n, path[0]).value.0, StepAt(n, path, op).value;
      SeenStep(n1.fields[path[0]], path[1..], op, if q == [] then [] else q[1..]);
      if q != [] && q[0] != path[0] {
        assert LoadField(m, q[0]).Ok? <==> LoadField(n, q[0]).Ok?;
        assert LoadField(n, q[0]).Ok? ==>
            LoadField(m, q[0]).value.0.fields[q[0]] == LoadField(n, q[0]).value.0.fields[q[0]];
      } else if q != [] {
        assert q == path <==> q[1..] == path[1..] by {
          assert q == [q[0]] + q[1..] && path == [path[0]] + path[1..];
        }
      }
    }
  }

  lemma SeenBelow(n: Node, m: Node, q: ObjectID)
    requires q != [] && m.fields == n.fields && m.cell.meta == n.cell.meta
    ensures Seen(m, q) == Seen(n, q)
  {
    assert LoadField(n, q[0]).Ok? ==> LoadField(m, q[0]).value.0.fields == LoadField(n, q[0]).value.0.fields;
  }

  /** The pointer at `q` can be neither borrowed nor taken. */
  predicate Blocked(n: Node, q: ObjectID) {
    && NodeAt(n, q).Some? && Seen(n, q).Some?
    && (AtRest(Seen(n, q).value) == 0 || Seen(n, q).value.pointer.borrows > 0)
  }

  lemma LoadingBlocks(n: Node, arg: ResolvedArg, q: ObjectID)
    requires !arg.PlainArg? && StepAt(n, arg.id, arg.Op()).Ok?
    ensures Blocked(StepAt(n, arg.id, arg.Op()).value, arg.id) && !Blocked(n, arg.id)
    ensures Blocked(n, q) ==> Blocked(StepAt(n, arg.id, arg.Op()).value, q)
  {
    SeenStep(n, arg.id, arg.Op(), arg.id);
    if Blocked(n, q) {
      SeenStep(n, arg.id, arg.Op(), q);
      StepMoves(n, arg.id, arg.Op(), q);
    }
  }

  predicate Names(arg: ResolvedArg, q: ObjectID) {
    !arg.PlainArg? && arg.id == q
  }

  /** The arguments name pairwise different objects. */
  predicate DistinctObjects(args: seq<ResolvedArg>) {
    forall i, j :: 0 <= i < j < |args| && !args[i].PlainArg? && !args[j].PlainArg? ==> args[i].id != args[j].id
  }

  /** What loading `args` records. */
  predicate Records(held: HeldArgs, args: seq<ResolvedArg>, held': HeldArgs) {
    && (forall i :: 0 <= i < |args| && !args[i].PlainArg? ==> args[i].id in held' && held'[args[i].id] == args[i].Held())
    && (forall q :: q in held' ==> (q in held && held'[q] == held[q]) || exists i :: 0 <= i < |args| && Names(args[i], q))
    && (forall q :: q in held ==> q in held' && held'[q] == held[q])
  }

  /** What loading the first argument adds to what is held. */
  function HeldNext(held: HeldArgs, arg: ResolvedArg): HeldArgs {
    if arg.PlainArg? then held else held[arg.id := arg.Held()]
  }

  lemma RecordsNext(held: HeldArgs, args: seq<ResolvedArg>, held': HeldArgs)
    requires args != [] && (!args[0].PlainArg? ==> args[0].id !in held)
    requires Records(HeldNext(held, args[0]), args[1..], held')
    ensures Records(held, args, held')
  {
    var rest, held1 := args[1..], HeldNext(held, args[0]);
    assert forall i :: 0 < i < |args| ==> args[i] == rest[i - 1];
    forall q | q in held' ensures (q in held && held'[q] == held[q]) || exists i :: 0 <= i < |args| && Names(args[i], q) {
      if q in held1 && held'[q] == held1[q] {
        assert q in held || Names(args[0], q);
      } else {
        var i :| 0 <= i < |rest| && Names(rest[i], q);
        assert Names(args[i + 1], q);
      }
    }
  }

  lemma DistinctNext(held: HeldArgs, args: seq<ResolvedArg>)
    requires args != [] && DistinctObjects(args[1..]) && (!args[0].PlainArg? ==> args[0].id !in held)
    requires forall i :: 0 <= i < |args[1..]| && !args[1..][i].PlainArg? ==> args[1..][i].id !in HeldNext(held, args[0])
    ensures DistinctObjects(args) && forall i :: 0 <= i < |args| && !args[i].PlainArg? ==> args[i].id !in held
  {
    assert forall i :: 0 < i < |args| ==> args[i] == args[1..][i - 1];
  }

  lemma {:induction false} LoadArgumentsRecords(n: Node, held: HeldArgs, args: seq<ResolvedArg>)
    requires LoadArguments(n, held, args).Ok? && forall q :: q in held ==> Blocked(n, q)
    ensures DistinctObjects(args) && Records(held, args, LoadArguments(n, held, args).value.1)
    ensures forall i :: 0 <= i < |args| && !args[i].PlainArg? ==> args[i].id !in held
    ensures forall q :: q in LoadArguments(n, held, args).value.1 ==> Blocked(LoadArguments(n, held, args).value.0, q)
    decreases |args|
  {
    if args != [] {
      var arg, held1 := args[0], HeldNext(held, args[0]);
      var n1 := if arg.PlainArg? then n else StepAt(n, arg.id, arg.Op()).value;
      forall q | q in held1 ensures Blocked(n1, q) {
        if !arg.PlainArg? {
          LoadingBlocks(n, arg, q);
        }
      }
      if !arg.PlainArg? {
        LoadingBlocks(n, arg, arg.id);
      }
      LoadArgumentsRecords(n1, held1, args[1..]);
      DistinctNext(held, args);
      RecordsNext(held, args, LoadArguments(n1, held1, args[1..]).value.1);
    }
  }

  // ---------- what loading and releasing leave behind ----------

  function HeldOp(h: HeldArg): NodeOp {
    if h.HeldValue? then TakeOp(None) else BorrowOp(None)
  }

  /** What the arguments newly held do to the cell seen at `q`. */
  function Effect(c: Option<Cell>, q: ObjectID, held: HeldArgs, held': HeldArgs): Option<Cell> {
    if c.Some? && q in held' && q !in held then Some(Loaded(c.value, HeldOp(held'[q]))) else c
  }

  lemma {:induction false} LoadArgumentsEffect(n: Node, held: HeldArgs, args: seq<ResolvedArg>, q: ObjectID)
    requires LoadArguments(n, held, args).Ok? && forall r :: r in held ==> Blocked(n, r)
    ensures var (n', held') := LoadArguments(n, held, args).value;
            Seen(n', q) == Effect(Seen(n, q), q, held, held')
    decreases |args|
  {
    if args != [] {
      if args[0].PlainArg? {
        LoadArgumentsEffect(n, held, args[1..], q);
      } else {
        var n1, held1 := StepAt(n, args[0].id, args[0].Op()).value, held[args[0].id := args[0].Held()];
        forall r | r in held1 ensures Blocked(n1, r) {
          LoadingBlocks(n, args[0], r);
        }
        LoadingBlocks(n, args[0], q);
        SeenStep(n, args[0].id, args[0].Op(), q);
        LoadArgumentsEffect(n1, held1, args[1..], q);
        LoadArgumentsRecords(n1, held1, args[1..]);
      }
    }
  }

  lemma {:induction false} ReleasedSeen(n: Node, id: ObjectID, held: HeldArgs, q: ObjectID)
    requires NodeAt(n, q).Some? || id + q !in held
    ensures NodeAt(Released(n, id, held), q).Some? <==> NodeAt(n, q).Some?
    ensures Seen(Released(n, id, held), q) ==
            match Seen(n, q) case None => None case Some(c) => Some(ReleasedCell(c, id + q, held))
    decreases |q|
  {
    if q == [] {
      assert id + q == id;
    } else {
      assert id + [q[0]] + q[1..] == id + q;
      var m := Released(n, id, held);
      if q[0] in n.fields {
        assert m.fields[q[0]] == Released(n.fields[q[0]], id + [q[0]], held);
        ReleasedSeen(n.fields[q[0]], id + [q[0]], held, q[1..]);
      } else {
        assert LoadField(n, q[0]).Ok? ==>
            LoadField(m, q[0]).value.0.fields[q[0]] == LoadField(n, q[0]).value.0.fields[q[0]];
      }
    }
  }

  /** Loading arguments succeeds only when their objects are distinct; it records exactly one entry for each; and once
      they are released, every object is seen exactly as before, except that the pointers of the objects passed by
      value have been taken. */
  lemma LoadThenRelease(n: Node, args: seq<ResolvedArg>, q: ObjectID)
    requires LoadArguments(n, map[], args).Ok?
    ensures var (n', held) := LoadArguments(n, map[], args).value;
            && DistinctObjects(args) && Records(map[], args, held)
            && Seen(Released(n', [], held), q) ==
               if q in held && held[q] == HeldValue && Seen(n, q).Some?
               then Some(Loaded(Seen(n, q).value, TakeOp(None)))
               else Seen(n, q)
  {
    LoadArgumentsRecords(n, map[], args);
    var (n', held) := LoadArguments(n, map[], args).value;
    ReleaseRestores(n, args, q);
  }

  lemma ReleaseRestores(n: Node, args: seq<ResolvedArg>, q: ObjectID)
    requires LoadArguments(n, map[], args).Ok?
    ensures var (n', held) := LoadArguments(n, map[], args).value;
            Seen(Released(n', [], held), q) ==
            if q in held && held[q] == HeldValue && Seen(n, q).Some?
            then Some(Loaded(Seen(n, q).value, TakeOp(None)))
            else Seen(n, q)
  {
    LoadArgumentsRecords(n, map[], args);
    LoadArgumentsEffect(n, map[], args, q);
    var (n', held) := LoadArguments(n, map[], args).value;
    assert q in held ==> Blocked(n', q);
    assert [] + q == q;
    ReleasedSeen(n', [], held, q);
    if q in held {
      HeldRefWasBorrowed(n, args, q);
      if held[q] == HeldRef {
        ReleaseUndoesBorrow(Seen(n, q).value, q, held);
      } else {
        assert ReleasedCell(Seen(n', q).value, q, held) == Seen(n', q).value;
      }
    }
  }

  lemma ReleaseUndoesBorrow(c: Cell, q: ObjectID, held: HeldArgs)
    requires q in held && held[q] == HeldRef && CellStep(c, BorrowOp(None)).Ok?
    ensures ReleasedCell(Loaded(c, BorrowOp(None)), q, held) == c
  {}

  lemma HeldRefWasBorrowed(n: Node, args: seq<ResolvedArg>, q: ObjectID)
    requires LoadArguments(n, map[], args).Ok?
    requires q in LoadArguments(n, map[], args).value.1
    ensures Seen(n, q).Some? && CellStep(Seen(n, q).value, HeldOp(LoadArguments(n, map[], args).value.1[q])).Ok?
  {
    LoadArgumentsSucceeded(n, map[], args, q);
  }

  lemma {:induction false} LoadArgumentsSucceeded(n: Node, held: HeldArgs, args: seq<ResolvedArg>, q: ObjectID)
    requires LoadArguments(n, held, args).Ok? && forall r :: r in held ==> Blocked(n, r)
    requires q in LoadArguments(n, held, args).value.1 && q !in held
    ensures Seen(n, q).Some? && CellStep(Seen(n, q).value, HeldOp(LoadArguments(n, held, args).value.1[q])).Ok?
    decreases |args|
  {
    if args[0].PlainArg? {
      LoadArgumentsSucceeded(n, held, args[1..], q);
    } else {
      var n1, held1 := StepAt(n, args[0].id, args[0].Op()).value, held[args[0].id := args[0].Held()];
      forall r | r in held1 ensures Blocked(n1, r) {
        LoadingBlocks(n, args[0], r);
      }
      SeenStep(n, args[0].id, args[0].Op(), q);
      if q == args[0].id {
        LoadArgumentsRecords(n1, held1, args[1..]);
      } else {
        LoadArgumentsSucceeded(n1, held1, args[1..], q);
      }
    }
  }

  // ---------- by-value arguments that are neither returned nor removed ----------

  function ArgumentSteps(args: seq<ResolvedArg>): seq<Step> {
    if args == [] then []
    else if args[0].PlainArg? then ArgumentSteps(args[1..])
    else [Step(args[0].id, args[0].Op())] + ArgumentSteps(args[1..])
  }

  lemma {:induction false} LoadArgumentsIsRun(n: Node, held: HeldArgs, args: seq<ResolvedArg>)
    requires LoadArguments(n, held, args).Ok?
    ensures Run(n, ArgumentSteps(args)) == Ok(LoadArguments(n, held, args).value.0)
    decreases |args|
  {
    if args != [] {
      if args[0].PlainArg? {
        LoadArgumentsIsRun(n, held, args[1..]);
      } else {
        RunOne(n, Step(args[0].id, args[0].Op()), ArgumentSteps(args[1..]));
        LoadArgumentsIsRun(StepAt(n, args[0].id, args[0].Op()).value, held[args[0].id := args[0].Held()], args[1..]);
      }
    }
  }

  /** What a runtime first sees has its pointer, if at rest, in the store. */
  lemma {:induction false} FirstSeen(n: Node, q: ObjectID)
    requires Seen(n, q).Some? && n.fields == map[] && !n.cell.pointer.value.GvFresh?
    ensures !Seen(n, q).value.pointer.value.GvFresh?
    decreases |q|
  {
    if q != [] {
      FirstSeen(LoadField(n, q[0]).value.0.fields[q[0]], q[1..]);
    }
  }

  /** An object passed by value whose pointer is never given back, if it still exists at the end of the run, is
      committed as owned by the system. */
  lemma ByValueEndsSystemOwned(root: ObjectMeta, args: seq<ResolvedArg>, steps: seq<Step>, q: ObjectID, now: nat)
    requires ValidRoot(root) && LoadArguments(NewRuntime(root), map[], args).Ok?
    requires var (n1, held) := LoadArguments(NewRuntime(root), map[], args).value;
             q in held && held[q] == HeldValue && Run(n1, steps).Ok?
    requires CountPlaced(LoadArguments(NewRuntime(root), map[], args).value.0, steps, q) == 0
    ensures var n2 := Run(LoadArguments(NewRuntime(root), map[], args).value.0, steps).value;
            && NodeAt(n2, q).Some?
            && var c := NodeAt(n2, q).value.cell;
               c.Exists() ==> c.meta.Live() && Stamped(c, now).owner == SYSTEM_OWNER_ADDRESS
  {
    var n0 := NewRuntime(root);
    var (n1, held) := LoadArguments(n0, map[], args).value;
    LoadArgumentsRecords(n0, map[], args);
    LoadArgumentsEffect(n0, map[], args, q);
    LoadArgumentsSucceeded(n0, map[], args, q);
    FirstSeen(n0, q);
    ResidentSeen(n1, q);
    assert CellAt(n1, q).pointer.value.GvDeleted?;
    PointerLedger(n1, steps, q);
    NewRuntimeInv(root);
    LoadArgumentsIsRun(n0, map[], args);
    RunKeeps(n0, [], Some(NewRoot(root)), ArgumentSteps(args));
    RunKeeps(n1, [], Some(NewRoot(root)), steps);
    NodeAtInv(Run(n1, steps).value, [], Some(NewRoot(root)), q);
    var c := NodeAt(Run(n1, steps).value, q).value.cell;
    if c.Exists() {
      OutMeansSystemOwned(c, [] + q, Below(Some(NewRoot(root)), q), now);
    }
  }

  lemma {:induction false} ReadsTheResident(n: Node, q: ObjectID)
    requires Reads(n, q).Some? && NodeAt(n, q).Some?
    ensures Reads(n, q) == Some(NodeAt(n, q).value.cell) && NodeAt(n, q).value.Exists()
    decreases |q|
  {
    if q != [] {
      ReadsTheResident(n.fields[q[0]], q[1..]);
    }
  }

  /** Below the root a committed tree is stored as it is. */
  lemma CommittedBelow(n: Node, q: ObjectID, size: nat, now: nat)
    requires n.Exists() && n.cell.meta.Live() && q != []
    ensures Below(Some(NewRoot(RootMetadata(CommittedRoot(n, now), size))), q) == Below(Committed(n, now), q)
  {}

  /** In the store that results from applying the change set, such an object is owned by the system. */
  lemma ByValueIsStoredSystemOwned(root: ObjectMeta, args: seq<ResolvedArg>, steps: seq<Step>, q: ObjectID, now: nat)
    requires ValidRoot(root) && LoadArguments(NewRuntime(root), map[], args).Ok? && q != []
    requires var (n1, held) := LoadArguments(NewRuntime(root), map[], args).value;
             && q in held && held[q] == HeldValue && Run(n1, steps).Ok? && CountPlaced(n1, steps, q) == 0
             && Faithful(Run(n1, steps).value)
    ensures var n2 := Run(LoadArguments(NewRuntime(root), map[], args).value.0, steps).value;
            && IntoChangeSet(n2, now).Ok? && ApplyChangeSet(IntoChangeSet(n2, now).value).Ok?
            && (StoredAfter(n2, now, q).Some? ==> StoredAfter(n2, now, q).value.metadata.owner == SYSTEM_OWNER_ADDRESS)
  {
    var n0, o := NewRuntime(root), Some(NewRoot(root));
    var n1 := LoadArguments(n0, map[], args).value.0;
    var n2 := Run(n1, steps).value;
    ByValueEndsSystemOwned(root, args, steps, q, now);
    NewRuntimeInv(root);
    LoadArgumentsIsRun(n0, map[], args);
    RunKeeps(n0, [], o, ArgumentSteps(args));
    RunKeeps(n1, [], o, steps);
    ChangeSetOfTree(n2, NewRoot(root), now);
    CommittedBelow(n2, q, IntoChangeSet(n2, now).value.globalSize, now);
    CommittedIsRead(n2, [], o, q, now);
    if Reads(n2, q).Some? {
      ReadsTheResident(n2, q);
    }
  }
}

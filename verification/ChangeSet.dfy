/** Folding the runtime's tree into a change set, and when applying that change set to the store gives the tree the
    runtime was showing. */
module ChangeSet {
  import opened Common
  import opened GlobalValues
  import opened StateStore
  import opened RuntimeMeta
  import opened RuntimeNode
  import opened RuntimeInvariant

  // ---------- the fold ----------

  /** The metadata to write: timestamps for a written value, the system as owner when the stored pointer is gone
      and the value is not. */
  function SettleMeta(c: Cell, now: nat): Result<RtMeta, StatusCode> {
    var op := c.value.IntoEffect();
    var m :- if op.Some? && op.value != Delete then c.meta.UpdateTimestamp(now) else Ok(c.meta);
    if c.pointer.value.IntoEffect() == Some(Delete) && op != Some(Delete) then m.ToSystemOwner() else Ok(m)
  }

  function IntoChange(n: Node, now: nat): Result<Option<ObjectChange>, StatusCode>
    decreases n, 1
  {
    var m :- SettleMeta(n.cell, now);
    var fields :- FieldChanges(n, now);
    var value := n.cell.value.IntoEffect();
    match m.IntoEffect()
    case None => Ok(None)
    case Some((metadata, dirty)) =>
      if !dirty && value.None? && fields == map[] then Ok(None)
      else Ok(Some(ObjectChange(metadata, value, fields)))
  }

  /** The changes of the resident fields that have one. */
  function FieldChanges(n: Node, now: nat): Result<map<FieldKey, ObjectChange>, StatusCode>
    decreases n, 0
  {
    if exists k :: k in n.fields && IntoChange(n.fields[k], now).Err? then Err(MissingData)
    else Ok(map k | k in n.fields && IntoChange(n.fields[k], now).value.Some? :: IntoChange(n.fields[k], now).value.value)
  }

  function IntoChangeSet(root: Node, now: nat): Result<StateChangeSet, StatusCode> {
    var metadata :- root.cell.meta.Metadata();
    var change :- IntoChange(root, now);
    var c := if change.Some? then change.value else ObjectChange(metadata, None, map[]);
    Ok(StateChangeSet(c.metadata.stateRoot, c.metadata.size, c.fields))
  }

  // ---------- what should be stored ----------

  /** The object has a value that is not the stored one. */
  predicate Written(c: Cell) {
    c.value.GvFresh? || (c.value.GvCached? && c.value.dirty)
  }

  /** An object's metadata as it should be stored at time `now`. */
  function Stamped(c: Cell, now: nat): ObjectMeta
    requires c.meta.Live()
  {
    var m := c.meta.mv.metadata;
    var m1 := if Written(c) then Touched(m, now) else m;
    if c.pointer.value.GvDeleted? then m1.(owner := SYSTEM_OWNER_ADDRESS) else m1
  }

  /** The tree the runtime shows below a node, with stamps: resident fields override, others read through. */
  function Committed(n: Node, now: nat): Option<ObjectState>
    decreases n, 1, 0
  {
    if !(n.Exists() && n.cell.meta.Live()) then None
    else Some(ObjectState(Stamped(n.cell, now).(stateRoot := CommittedRoot(n, now)), n.cell.value.v))
  }

  function CommittedRoot(n: Node, now: nat): StateTree
    decreases n, 0, 1
  {
    UpdateFields(n.Root(), CommittedFields(n, now))
  }

  function CommittedFields(n: Node, now: nat): map<FieldKey, Option<ObjectState>>
    decreases n, 0, 0
  {
    map k | k in n.fields :: Committed(n.fields[k], now)
  }

  // ---------- when the fold says nothing ----------

  /** Nothing to write here or below. */
  predicate Quiet(n: Node)
    decreases n, 0
  {
    && n.cell.meta.MetaCached? && !n.cell.meta.mv.dirty
    && n.cell.value.GvCached? && !n.cell.value.dirty
    && !n.cell.pointer.value.GvDeleted?
    && forall k :: k in n.fields ==> Silent(n.fields[k])
  }

  predicate Silent(n: Node)
    decreases n, 1
  {
    n.cell.meta.MetaNone? || Quiet(n)
  }

  /** The first write of an object fixes when it was created; every write moves when it was updated. */
  lemma CreatedOnce(m: ObjectMeta, first: nat, later: nat)
    requires first > 0
    ensures Touched(Touched(m, first), later) == Touched(m, first).(updatedAt := later)
    ensures Touched(m, first).createdAt == if m.createdAt == 0 then first else m.createdAt
  {}

  /** Settling never fails; it leaves nothing to write exactly for an untouched object whose pointer is not gone. */
  lemma SettledEffect(c: Cell, id: ObjectID, o: Option<ObjectState>, now: nat)
    requires CellInv(c, id, o)
    ensures SettleMeta(c, now).Ok?
    ensures SettleMeta(c, now).value.IntoEffect().None? <==> c.meta.MetaNone?
    ensures !c.meta.MetaNone? ==>
              (!SettleMeta(c, now).value.IntoEffect().value.1 && c.value.IntoEffect().None? <==>
                 && c.meta.MetaCached? && !c.meta.mv.dirty && c.value.GvCached? && !c.value.dirty
                 && !c.pointer.value.GvDeleted?)
  {}

  lemma NoFieldChanges(n: Node, now: nat)
    requires forall k :: k in n.fields ==> IntoChange(n.fields[k], now).Ok?
    ensures FieldChanges(n, now).Ok?
    ensures FieldChanges(n, now).value == map[] <==>
            forall k :: k in n.fields ==> IntoChange(n.fields[k], now).value.None?
  {
    var fields := FieldChanges(n, now).value;
    if fields == map[] {
      forall k | k in n.fields ensures IntoChange(n.fields[k], now).value.None? { assert k !in fields; }
    }
  }

  /** In a reachable tree the fold never fails, and it is silent exactly where there is nothing to write. */
  lemma {:induction false} IntoChangeSucceeds(n: Node, id: ObjectID, o: Option<ObjectState>, now: nat)
    requires NodeInv(n, id, o)
    ensures FieldChanges(n, now).Ok? && IntoChange(n, now).Ok?
    ensures IntoChange(n, now).value.None? <==> Silent(n)
    decreases n
  {
    forall k | k in n.fields
      ensures IntoChange(n.fields[k], now).Ok? && (IntoChange(n.fields[k], now).value.None? <==> Silent(n.fields[k]))
    {
      IntoChangeSucceeds(n.fields[k], id + [k], FieldOf(o, k), now);
    }
    NoFieldChanges(n, now);
    SettledEffect(n.cell, id, o, now);
  }

  /** The metadata the fold writes is the stamped metadata: a written value was updated now, and created now if it had
      not been before; the owner is the system if the stored pointer is gone; nothing else changes. */
  lemma SettleIsStamped(c: Cell, id: ObjectID, o: Option<ObjectState>, now: nat)
    requires CellInv(c, id, o) && c.Exists()
    ensures SettleMeta(c, now).Ok? && SettleMeta(c, now).value.IntoEffect().Some?
    ensures SettleMeta(c, now).value.IntoEffect().value.0 == Stamped(c, now)
    ensures var m, stored := c.meta.mv.metadata, Stamped(c, now);
            && stored == m.(createdAt := stored.createdAt, updatedAt := stored.updatedAt, owner := stored.owner)
            && stored.updatedAt == (if Written(c) then now else m.updatedAt)
            && stored.createdAt == (if Written(c) && m.createdAt == 0 then now else m.createdAt)
            && stored.owner == (if c.pointer.value.GvDeleted? then ZERO_ADDRESS else m.owner)
  {}

  /** What a change says of its value: new where the object it belongs to stores none, modified or deleted where the
      store has one, and silent where the stored value stands. */
  predicate KindFits(op: Option<Op<Bytes>>, c: Cell, base: Option<ObjectState>, stored: Option<ObjectState>) {
    if op.None? then stored.Some? && c.BorrowValue(None) == Ok(stored.value.value)
    else
      match op.value
      case New(x) => base.None? && c.BorrowValue(None) == Ok(x)
      case Modify(x) => stored.Some? && c.BorrowValue(None) == Ok(x)
      case Delete => stored.Some? && c.BorrowValue(None).Err?
  }

  lemma ChangeKinds(n: Node, id: ObjectID, o: Option<ObjectState>, k: FieldKey, now: nat)
    requires NodeInv(n, id, o) && k in n.fields
    requires IntoChange(n.fields[k], now).Ok? && IntoChange(n.fields[k], now).value.Some?
    ensures KindFits(IntoChange(n.fields[k], now).value.value.value, n.fields[k].cell, GetFieldAt(n.Root(), k), FieldOf(o, k))
  {
    assert NodeInv(n.fields[k], id + [k], FieldOf(o, k));
  }

  // ---------- applying the change ----------

  /** What a child's key holds once the parent's changes are applied: its own outcome, or what was there. */
  function Outcome(root: ObjectMeta, child: Node, base: Option<ObjectState>, now: nat): Option<ObjectState>
    requires IntoChange(child, now).Ok?
  {
    var change := IntoChange(child, now).value;
    if change.None? then base
    else
      var r := ApplyObjectChange(root, change.value);
      if r.Ok? then r.value else base
  }

  /** What every resident field of `n` comes to. */
  function Outcomes(root: ObjectMeta, n: Node, now: nat): map<FieldKey, Option<ObjectState>>
    requires forall k :: k in n.fields ==> IntoChange(n.fields[k], now).Ok?
  {
    map k | k in n.fields :: Outcome(root, n.fields[k], GetFieldAt(n.Root(), k), now)
  }

  /** The state root below `n` once the changes of its fields are applied to the store `root`. */
  function AppliedRoot(root: ObjectMeta, n: Node, now: nat): StateTree
    requires forall k :: k in n.fields ==> IntoChange(n.fields[k], now).Ok?
  {
    UpdateFields(n.Root(), Outcomes(root, n, now))
  }

  /** Applying the field changes, when each of them applies, gives the applied root. */
  lemma FieldChangesApply(root: ObjectMeta, n: Node, change: ObjectChange, now: nat)
    requires forall k :: k in n.fields ==> IntoChange(n.fields[k], now).Ok?
    requires change.metadata.stateRoot == n.Root() && FieldChanges(n, now) == Ok(change.fields)
    requires forall k :: k in change.fields ==> ApplyObjectChange(root, change.fields[k]).Ok?
    ensures ApplyFieldChanges(root, change) == Ok(AppliedRoot(root, n, now))
  {
    var applied := map k | k in change.fields :: ApplyObjectChange(root, change.fields[k]).value;
    var outcomes := Outcomes(root, n, now);
    forall k | k in outcomes
      ensures outcomes[k] == if k in applied then applied[k] else GetFieldAt(n.Root(), k)
    {
      assert k in applied <==> IntoChange(n.fields[k], now).value.Some?;
    }
    UpdatesCompleted(n.Root(), applied, outcomes);
  }

  /** The changes of all the fields of `n` can be applied. */
  lemma {:induction false} AllFieldChangesApply(root: ObjectMeta, n: Node, id: ObjectID, o: Option<ObjectState>, now: nat)
    requires NodeInv(n, id, o)
    requires forall k :: k in n.fields ==> GetObject(root, id + [k]) == FieldOf(o, k)
    ensures forall k :: k in n.fields ==> IntoChange(n.fields[k], now).Ok?
    ensures FieldChanges(n, now).Ok?
    ensures forall k :: k in FieldChanges(n, now).value ==> ApplyObjectChange(root, FieldChanges(n, now).value[k]).Ok?
    decreases n, 0
  {
    IntoChangeSucceeds(n, id, o, now);
    forall k | k in n.fields
      ensures IntoChange(n.fields[k], now).Ok?
      ensures IntoChange(n.fields[k], now).value.Some? ==>
                ApplyObjectChange(root, IntoChange(n.fields[k], now).value.value).Ok?
    {
      IntoChangeSucceeds(n.fields[k], id + [k], FieldOf(o, k), now);
      if IntoChange(n.fields[k], now).value.Some? {
        ChangeApplies(root, n.fields[k], id + [k], FieldOf(o, k), now);
      }
    }
  }

  /** A change always applies: it removes an object that is gone and stores the stamped metadata and the value of one
      that exists, over the applied root. */
  lemma {:induction false} ChangeApplies(root: ObjectMeta, n: Node, id: ObjectID, o: Option<ObjectState>, now: nat)
    requires NodeInv(n, id, o) && id != [] && GetObject(root, id) == o
    requires IntoChange(n, now).Ok? && IntoChange(n, now).value.Some?
    ensures forall k :: k in n.fields ==> IntoChange(n.fields[k], now).Ok?
    ensures ApplyObjectChange(root, IntoChange(n, now).value.value) ==
            Ok(if n.Exists()
               then Some(ObjectState(Stamped(n.cell, now).(stateRoot := AppliedRoot(root, n, now)), n.cell.value.v))
               else None)
    decreases n, 1
  {
    FieldOfIsGetObject(root, id);
    AllFieldChangesApply(root, n, id, o, now);
    if n.Exists() {
      SettleIsStamped(n.cell, id, o, now);
      var change := IntoChange(n, now).value.value;
      FieldChangesApply(root, n, change, now);
      assert ChangedValue(root, change) == Ok(n.cell.value.v);
    }
  }

  lemma FieldOfIsGetObject(root: ObjectMeta, id: ObjectID)
    ensures forall k :: GetObject(root, id + [k]) == FieldOf(GetObject(root, id), k)
  {
    forall k ensures GetObject(root, id + [k]) == FieldOf(GetObject(root, id), k) {
      assert Parent(id + [k]) == id;
    }
  }

  // ---------- exactly when the change set is right ----------

  /** At a child whose key holds `base` below its parent: no removal of a stored object has been forgotten, no
      object left over from before its parent was replaced goes unmentioned, and the same holds below it. */
  ghost predicate FaithfulChild(child: Node, base: Option<ObjectState>)
    decreases child, 1
  {
    if child.Exists() then Faithful(child) && !(base.None? && Quiet(child))
    else !(base.Some? && child.cell.meta.MetaNone?)
  }

  ghost predicate Faithful(n: Node)
    decreases n, 0
  {
    forall k :: k in n.fields ==> FaithfulChild(n.fields[k], GetFieldAt(n.Root(), k))
  }

  lemma {:induction false} FieldsAgree(root: ObjectMeta, n: Node, id: ObjectID, o: Option<ObjectState>, now: nat)
    requires NodeInv(n, id, o)
    requires forall k :: k in n.fields ==> GetObject(root, id + [k]) == FieldOf(o, k)
    requires forall k :: k in n.fields ==> GetFieldAt(n.Root(), k) == None || GetFieldAt(n.Root(), k) == FieldOf(o, k)
    ensures forall k :: k in n.fields ==> IntoChange(n.fields[k], now).Ok?
    ensures forall k :: k in n.fields ==>
              (Outcomes(root, n, now)[k] == CommittedFields(n, now)[k] <==> FaithfulChild(n.fields[k], GetFieldAt(n.Root(), k)))
    decreases n, 0, 0
  {
    forall k | k in n.fields
      ensures IntoChange(n.fields[k], now).Ok?
      ensures Outcome(root, n.fields[k], GetFieldAt(n.Root(), k), now) == Committed(n.fields[k], now)
              <==> FaithfulChild(n.fields[k], GetFieldAt(n.Root(), k))
    {
      ChildAgrees(root, n.fields[k], id + [k], FieldOf(o, k), GetFieldAt(n.Root(), k), now);
    }
  }

  lemma {:induction false} RootsAgree(root: ObjectMeta, n: Node, id: ObjectID, o: Option<ObjectState>, now: nat)
    requires NodeInv(n, id, o)
    requires forall k :: k in n.fields ==> GetObject(root, id + [k]) == FieldOf(o, k)
    requires forall k :: k in n.fields ==> GetFieldAt(n.Root(), k) == None || GetFieldAt(n.Root(), k) == FieldOf(o, k)
    ensures forall k :: k in n.fields ==> IntoChange(n.fields[k], now).Ok?
    ensures AppliedRoot(root, n, now) == CommittedRoot(n, now) <==> Faithful(n)
    decreases n, 0, 1
  {
    FieldsAgree(root, n, id, o, now);
    var outcomes, committed := Outcomes(root, n, now), CommittedFields(n, now);
    UpdatesAgree(n.Root(), outcomes, committed);
    MapsEqual(outcomes, committed, n.fields.Keys);
  }

  lemma MapsEqual<K, V>(a: map<K, V>, b: map<K, V>, keys: set<K>)
    requires a.Keys == b.Keys == keys
    ensures a == b <==> forall k :: k in keys ==> a[k] == b[k]
  {}

  /** A live node reads its fields from the stored object or from nowhere. */
  lemma BasesAreStored(n: Node, id: ObjectID, o: Option<ObjectState>)
    requires NodeInv(n, id, o) && n.cell.meta.Live()
    ensures forall k :: k in n.fields ==> GetFieldAt(n.Root(), k) == None || GetFieldAt(n.Root(), k) == FieldOf(o, k)
  {}

  lemma {:induction false} ChildAgrees(root: ObjectMeta, n: Node, id: ObjectID, o: Option<ObjectState>,
                                       base: Option<ObjectState>, now: nat)
    requires NodeInv(n, id, o) && id != [] && GetObject(root, id) == o
    requires base == None || (base == o && n.cell.value.Persisted())
    ensures IntoChange(n, now).Ok?
    ensures Outcome(root, n, base, now) == Committed(n, now) <==> FaithfulChild(n, base)
    decreases n, 1
  {
    IntoChangeSucceeds(n, id, o, now);
    FieldOfIsGetObject(root, id);
    if n.Exists() {
      BasesAreStored(n, id, o);
      RootsAgree(root, n, id, o, now);
      LiveChildAgrees(root, n, id, o, base, now);
    } else if IntoChange(n, now).value.Some? {
      ChangeApplies(root, n, id, o, now);
    }
  }

  lemma LiveChildAgrees(root: ObjectMeta, n: Node, id: ObjectID, o: Option<ObjectState>, base: Option<ObjectState>, now: nat)
    requires NodeInv(n, id, o) && id != [] && GetObject(root, id) == o && n.Exists()
    requires base == None || base == o
    requires IntoChange(n, now).Ok? && forall k :: k in n.fields ==> IntoChange(n.fields[k], now).Ok?
    ensures Outcome(root, n, base, now) == Committed(n, now)
            <==> AppliedRoot(root, n, now) == CommittedRoot(n, now) && !(base.None? && Quiet(n))
  {
    var stored := ObjectState(Stamped(n.cell, now).(stateRoot := CommittedRoot(n, now)), n.cell.value.v);
    assert Committed(n, now) == Some(stored);
    IntoChangeSucceeds(n, id, o, now);
    if IntoChange(n, now).value.Some? {
      ChangeApplies(root, n, id, o, now);
      assert !Quiet(n);
    } else {
      forall k | k in n.fields ensures IntoChange(n.fields[k], now).value.None? {
        IntoChangeSucceeds(n.fields[k], id + [k], FieldOf(o, k), now);
      }
      QuietAppliesNothing(root, n, now);
      assert base.Some? ==> stored == base.value.(metadata := base.value.metadata.(stateRoot := CommittedRoot(n, now)));
    }
  }

  lemma QuietAppliesNothing(root: ObjectMeta, n: Node, now: nat)
    requires Quiet(n)
    requires forall k :: k in n.fields ==> IntoChange(n.fields[k], now).Ok? && IntoChange(n.fields[k], now).value.None?
    ensures AppliedRoot(root, n, now) == n.Root()
  {
    assert AppliedRoot(root, n, now).fields == n.Root().fields;
  }
}

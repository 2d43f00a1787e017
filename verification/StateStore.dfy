/** The persisted object tree: lookup by object id, change sets, and applying a change set.
    A state root stands for the field map it commits to, so an absent state root and the genesis root
    are both the empty tree. */
module StateStore {
  import opened Common
  import opened TypeTags
  import opened GlobalValues

  type FieldKey = AccountAddress
  type ObjectID = seq<FieldKey>

  const SYSTEM_OWNER_ADDRESS: AccountAddress := ZERO_ADDRESS
  const MOVEOS_STD_ADDRESS: AccountAddress := ZERO_ADDRESS[31 := 2]

  /** The two mask bits of an object's flag byte. */
  datatype ObjectFlag = ObjectFlag(shared: bool, frozen: bool)

  datatype ObjectMeta = ObjectMeta(
    id: ObjectID,
    owner: AccountAddress,
    flag: ObjectFlag,
    stateRoot: StateTree,
    size: nat,
    createdAt: nat,
    updatedAt: nat,
    objectType: TypeTag)
  {
    function ToShared(): ObjectMeta {
      this.(flag := flag.(shared := true), owner := SYSTEM_OWNER_ADDRESS)
    }

    function ToFrozen(): ObjectMeta {
      this.(flag := flag.(frozen := true), owner := SYSTEM_OWNER_ADDRESS)
    }

    /** System owned and neither frozen nor shared: its pointer lives inside another struct. */
    predicate IsEmbedded() {
      owner == SYSTEM_OWNER_ADDRESS && !(flag.frozen || flag.shared)
    }
  }

  datatype ObjectState = ObjectState(metadata: ObjectMeta, value: Bytes)

  datatype StateTree = StateTree(fields: map<FieldKey, ObjectState>)

  const GENESIS_STATE_ROOT: StateTree := StateTree(map[])

  const ROOT_TYPE: TypeTag := Struct(StructTag(MOVEOS_STD_ADDRESS, "object", "Root", []))

  const ROOT_VALUE: Bytes := [0]

  function GenesisMeta(id: ObjectID, objectType: TypeTag): ObjectMeta {
    ObjectMeta(id, SYSTEM_OWNER_ADDRESS, ObjectFlag(false, false), GENESIS_STATE_ROOT, 0, 0, 0, objectType)
  }

  function RootMetadata(stateRoot: StateTree, size: nat): ObjectMeta {
    ObjectMeta([], MOVEOS_STD_ADDRESS, ObjectFlag(true, false), stateRoot, size, 0, 0, ROOT_TYPE)
  }

  function NewRoot(root: ObjectMeta): ObjectState {
    ObjectState(root, ROOT_VALUE)
  }

  function GetFieldAt(root: StateTree, key: FieldKey): Option<ObjectState> {
    if key in root.fields then Some(root.fields[key]) else None
  }

  /** The field `key` of an object that may be absent. */
  function FieldOf(o: Option<ObjectState>, key: FieldKey): Option<ObjectState> {
    if o.Some? then GetFieldAt(o.value.metadata.stateRoot, key) else None
  }

  function Parent(id: ObjectID): ObjectID
    requires id != []
  {
    id[..|id| - 1]
  }

  function KeyOf(id: ObjectID): FieldKey
    requires id != []
  {
    id[|id| - 1]
  }

  /** The state resolver's lookup: resolve the parent, then one field. */
  function GetObject(root: ObjectMeta, id: ObjectID): Option<ObjectState>
    decreases |id|
  {
    if id == [] then Some(NewRoot(root)) else FieldOf(GetObject(root, Parent(id)), KeyOf(id))
  }

  /** Every stored object carries the id of the path it is stored under. */
  ghost predicate WellIdentified(o: ObjectState, id: ObjectID) {
    && o.metadata.id == id
    && forall k :: k in o.metadata.stateRoot.fields ==> WellIdentified(o.metadata.stateRoot.fields[k], id + [k])
  }

  // ---------- change sets ----------

  datatype ObjectChange =
    ObjectChange(metadata: ObjectMeta, value: Option<Op<Bytes>>, fields: map<FieldKey, ObjectChange>)

  datatype StateChangeSet =
    StateChangeSet(stateRoot: StateTree, globalSize: nat, changes: map<FieldKey, ObjectChange>)

  /** Put every present entry of `updates`, remove every absent one, keep the rest. */
  function UpdateFields(root: StateTree, updates: map<FieldKey, Option<ObjectState>>): StateTree {
    StateTree(map k | k in root.fields.Keys + updates.Keys && (k in updates ==> updates[k].Some?)
                :: if k in updates then updates[k].value else root.fields[k])
  }

  /** Two sets of updates to the same keys lead to the same root exactly when they agree. */
  lemma UpdatesAgree(root: StateTree, a: map<FieldKey, Option<ObjectState>>, b: map<FieldKey, Option<ObjectState>>)
    requires a.Keys == b.Keys
    ensures UpdateFields(root, a) == UpdateFields(root, b) <==> a == b
  {
    forall k | k in a
      ensures a[k] == GetFieldAt(UpdateFields(root, a), k) && b[k] == GetFieldAt(UpdateFields(root, b), k)
    {}
  }

  /** Leaving a key out of the updates is the same as updating it to what is there. */
  lemma UpdatesCompleted(root: StateTree, a: map<FieldKey, Option<ObjectState>>, b: map<FieldKey, Option<ObjectState>>)
    requires a.Keys <= b.Keys
    requires forall k :: k in b ==> b[k] == if k in a then a[k] else GetFieldAt(root, k)
    ensures UpdateFields(root, a) == UpdateFields(root, b)
  {
    assert UpdateFields(root, a).fields == UpdateFields(root, b).fields;
  }

  /** The value an object change leaves: the new one, or the one the object has in the store being changed. */
  function ChangedValue(root: ObjectMeta, change: ObjectChange): Result<Bytes, StatusCode>
    requires change.value != Some(Delete)
  {
    match change.value
    case Some(op) => Ok(op.state)
    case None =>
      match GetObject(root, change.metadata.id)
      case None => Err(MissingData)
      case Some(o) => Ok(o.value)
  }

  /** What applying one object's change leaves at that object's key: a state to put, or None for a removal. */
  function ApplyObjectChange(root: ObjectMeta, change: ObjectChange): Result<Option<ObjectState>, StatusCode>
    decreases change, 1
  {
    if change.value == Some(Delete) then Ok(None)
    else
      var value :- ChangedValue(root, change);
      var newRoot :- ApplyFieldChanges(root, change);
      Ok(Some(ObjectState(change.metadata.(stateRoot := newRoot), value)))
  }

  /** The state root of a changed object once the changes to its fields are applied. */
  function ApplyFieldChanges(root: ObjectMeta, change: ObjectChange): Result<StateTree, StatusCode>
    decreases change, 0
  {
    if exists k :: k in change.fields && ApplyObjectChange(root, change.fields[k]).Err? then Err(MissingData)
    else Ok(UpdateFields(change.metadata.stateRoot,
                         map k | k in change.fields :: ApplyObjectChange(root, change.fields[k]).value))
  }

  /** What a change needs: an object whose value it does not say must be stored, here and below; nothing of a removal
      is looked at. */
  predicate Applicable(root: ObjectMeta, change: ObjectChange)
    decreases change
  {
    change.value == Some(Delete) ||
    ((change.value.Some? || GetObject(root, change.metadata.id).Some?)
     && forall k :: k in change.fields ==> Applicable(root, change.fields[k]))
  }

  /** Applying a change fails exactly if something it needs is missing. */
  lemma {:induction false} ApplyingFails(root: ObjectMeta, change: ObjectChange)
    ensures ApplyObjectChange(root, change).Ok? <==> Applicable(root, change)
    ensures ApplyObjectChange(root, change).Err? ==> ApplyObjectChange(root, change).error == MissingData
    decreases change
  {
    forall k | k in change.fields
      ensures ApplyObjectChange(root, change.fields[k]).Ok? <==> Applicable(root, change.fields[k])
    {
      ApplyingFails(root, change.fields[k]);
    }
  }

  /** The state root after a change set. */
  function ApplyChangeSet(cs: StateChangeSet): Result<StateTree, StatusCode> {
    var root := RootMetadata(cs.stateRoot, cs.globalSize);
    ApplyFieldChanges(root, ObjectChange(root, None, cs.changes))
  }
}

/** The object runtime as it runs: mutable objects that own their metadata and their resident fields, proved against
    the value machine of RuntimeNode. */
module ObjectRuntimes {
  import opened Common
  import opened TypeTags
  import opened GlobalValues
  import opened StateStore
  import opened RuntimeMeta
  import opened RuntimeNode
  import opened Lookup
  import opened Arguments

  /** Metadata state, replaced in place. */
  class RuntimeObjectMeta {
    var state: RtMeta

    constructor (state: RtMeta)
      ensures this.state == state
    {
      this.state := state;
    }

    method Init(valueType: TypeTag)
      modifies this
      ensures state == old(state).Init(valueType)
    {
      match state {
        case MetaNone(id) =>
          state := MetaFresh(MetaValue(GenesisMeta(id, valueType), true));
        case MetaDeleted(m) =>
          // a removed object that is filled again is fresh
          state := MetaFresh(MetaValue(GenesisMeta(m.metadata.id, valueType), true));
        case MetaFresh(m) =>
          state := MetaFresh(m.(metadata := m.metadata.(objectType := valueType)));
        case MetaCached(m) =>
          state := MetaCached(m.(metadata := m.metadata.(objectType := valueType)));
      }
    }

    method MoveFrom() returns (r: Result<ObjectMeta, StatusCode>)
      modifies this
      ensures match old(state).MoveFrom()
              case Ok((m, metadata)) => state == m && r == Ok(metadata)
              case Err(e) => state == old(state) && r == Err(e)
    {
      match state {
        case MetaFresh(m) =>
          state := MetaNone(m.metadata.id);
          r := Ok(m.metadata);
        case MetaCached(m) =>
          state := MetaDeleted(m);
          r := Ok(m.metadata);
        case _ =>
          r := Err(MissingData);
      }
    }

    /** Mark the metadata dirty and replace it, unless the object is absent or deleted. */
    method Replace(metadata: ObjectMeta) returns (r: Result<(), StatusCode>)
      modifies this
      ensures if old(state).Live() then state == old(state).With(metadata) && r == Ok(())
              else state == old(state) && r == Err(MissingData)
    {
      match state {
        case MetaFresh(_) =>
          state := MetaFresh(MetaValue(metadata, true));
          r := Ok(());
        case MetaCached(_) =>
          state := MetaCached(MetaValue(metadata, true));
          r := Ok(());
        case _ =>
          r := Err(MissingData);
      }
    }

    /** The state is what the specification says an update makes of it, or the update failed as specified. */
    ghost predicate Updated(r: Result<(), StatusCode>, spec: Result<RtMeta, StatusCode>)
      reads this
    {
      match spec
      case Ok(m) => state == m && r == Ok(())
      case Err(e) => r == Err(e)
    }

    method Transfer(newOwner: AccountAddress) returns (r: Result<(), StatusCode>)
      modifies this
      ensures Updated(r, old(state).Transfer(newOwner))
    {
      if !state.Live() {
        return Err(MissingData);
      }
      r := Replace(state.mv.metadata.(owner := newOwner));
    }

    method ToShared() returns (r: Result<(), StatusCode>)
      modifies this
      ensures Updated(r, old(state).ToShared())
    {
      if !state.Live() {
        return Err(MissingData);
      }
      r := Replace(state.mv.metadata.ToShared());
    }

    method ToFrozen() returns (r: Result<(), StatusCode>)
      modifies this
      ensures Updated(r, old(state).ToFrozen())
    {
      if !state.Live() {
        return Err(MissingData);
      }
      r := Replace(state.mv.metadata.ToFrozen());
    }

    method ToSystemOwner() returns (r: Result<(), StatusCode>)
      modifies this
      ensures Updated(r, old(state).ToSystemOwner())
    {
      if !state.Live() {
        return Err(MissingData);
      }
      r := Replace(state.mv.metadata.(owner := SYSTEM_OWNER_ADDRESS));
    }

    method IncreaseSize() returns (r: Result<(), StatusCode>)
      modifies this
      ensures Updated(r, old(state).IncreaseSize())
    {
      if !state.Live() {
        return Err(MissingData);
      }
      var size := state.mv.metadata.size;
      if size + 1 >= U64_LIMIT {
        return Err(InvariantViolation);
      }
      r := Replace(state.mv.metadata.(size := size + 1));
    }

    method DecreaseSize() returns (r: Result<(), StatusCode>)
      modifies this
      ensures Updated(r, old(state).DecreaseSize())
    {
      if !state.Live() {
        return Err(MissingData);
      }
      var size := state.mv.metadata.size;
      if size == 0 {
        return Err(InvariantViolation);
      }
      r := Replace(state.mv.metadata.(size := size - 1));
    }

    method UpdateTimestamp(now: nat) returns (r: Result<(), StatusCode>)
      modifies this
      ensures Updated(r, old(state).UpdateTimestamp(now))
    {
      if !state.Live() {
        return Err(MissingData);
      }
      var metadata := state.mv.metadata;
      if metadata.createdAt == 0 {
        metadata := metadata.(createdAt := now);
      }
      metadata := metadata.(updatedAt := now);
      r := Replace(metadata);
    }
  }

  /** One object of the runtime: its metadata, its value, its pointer and its resident fields. */
  class RuntimeObject {
    const rtMeta: RuntimeObjectMeta
    var value: GlobalValue<Bytes>
    var pointer: Pointer
    var fields: map<FieldKey, RuntimeObject>

    /** The object's own state, without its fields. */
    ghost function Cell(): Cell
      reads this, rtMeta
    {
      RuntimeNode.Cell(rtMeta.state, value, pointer)
    }

    constructor Load(o: ObjectState)
      ensures Cell() == LoadCell(o) && fields == map[] && fresh(rtMeta)
    {
      var meta := new RuntimeObjectMeta(MetaCached(MetaValue(o.metadata, false)));
      rtMeta := meta;
      value := GvCached(o.value, false);
      pointer := Pointer(if o.metadata.IsEmbedded() then GvNone else GvCached(o.metadata.id, false), 0);
      fields := map[];
    }

    constructor None(id: ObjectID)
      ensures Cell() == AbsentCell(id) && fields == map[] && fresh(rtMeta)
    {
      var meta := new RuntimeObjectMeta(MetaNone(id));
      rtMeta := meta;
      value := GvNone;
      pointer := Pointer(GvNone, 0);
      fields := map[];
    }

    // ---------- value and pointer calls ----------

    /** The object's own state is what the specification says a call makes of it, or the call failed as specified. */
    ghost predicate Became<T>(r: Result<T, StatusCode>, spec: Result<RuntimeNode.Cell, StatusCode>)
      reads this, rtMeta
    {
      match spec
      case Ok(c) => r.Ok? && Cell() == c
      case Err(e) => r == Err(e)
    }

    /** As `Became`, for a call that also hands out a value. */
    ghost predicate Gave<T>(r: Result<T, StatusCode>, spec: Result<(RuntimeNode.Cell, T), StatusCode>)
      reads this, rtMeta
    {
      match spec
      case Ok((c, x)) => r == Ok(x) && Cell() == c
      case Err(e) => r == Err(e)
    }

    method CheckType(expected: Option<TypeTag>) returns (r: Result<(), StatusCode>)
      ensures r == Cell().CheckType(expected)
    {
      if expected.Some? {
        if rtMeta.state.MetaNone? {
          return Err(MissingData);
        }
        if rtMeta.state.mv.metadata.objectType != expected.value {
          return Err(TypeMismatch);
        }
      }
      r := Ok(());
    }

    method MoveTo(x: Bytes, valueType: TypeTag) returns (r: Result<(), StatusCode>)
      modifies this`value, this`pointer, rtMeta
      ensures Became(r, old(Cell()).MoveTo(x, valueType))
    {
      var id := rtMeta.state.Id();
      if value.Exists() {
        return Err(ResourceAlreadyExists);
      }
      rtMeta.Init(valueType);
      var p :- pointer.value.MoveTo(id);
      pointer := pointer.(value := p);
      assert value.MoveTo(x).Ok?;
      value := value.MoveTo(x).value;
      r := Ok(());
    }

    method MoveFrom(expected: Option<TypeTag>) returns (r: Result<Bytes, StatusCode>)
      modifies this`value, rtMeta
      ensures Gave(r, old(Cell()).MoveFrom(expected))
    {
      var _ :- CheckType(expected);
      var _ :- rtMeta.MoveFrom();
      var v :- value.MoveFrom();
      value := v.0;
      r := Ok(v.1);
    }

    method HasValue(expected: Option<TypeTag>) returns (r: bool)
      ensures r == Cell().Holds(expected)
    {
      if !value.Exists() {
        return false;
      }
      if expected.Some? {
        return !rtMeta.state.MetaNone? && rtMeta.state.mv.metadata.objectType == expected.value;
      }
      r := true;
    }

    method BorrowValue(expected: Option<TypeTag>) returns (r: Result<Bytes, StatusCode>)
      ensures r == Cell().BorrowValue(expected)
    {
      var _ :- CheckType(expected);
      r := value.Borrow();
    }

    /** Borrow the value mutably and write through the reference. */
    method WriteValue(expected: Option<TypeTag>, x: Bytes) returns (r: Result<(), StatusCode>)
      modifies this`value
      ensures Became(r, old(Cell()).WriteValue(expected, x))
    {
      var _ :- CheckType(expected);
      var v :- value.Write(x);
      value := v;
      r := Ok(());
    }

    method BorrowObject(expected: Option<TypeTag>) returns (r: Result<ObjectID, StatusCode>)
      modifies this`pointer
      ensures Gave(r, old(Cell()).BorrowObject(expected))
    {
      var _ :- CheckType(expected);
      if !value.Exists() {
        return Err(Aborted(ERROR_NOT_FOUND));
      }
      if !pointer.value.Exists() {
        return Err(Aborted(ERROR_OBJECT_ALREADY_TAKEN_OUT_OR_EMBEDDED));
      }
      if pointer.HasBorrowed() {
        return Err(Aborted(ERROR_OBJECT_ALREADY_BORROWED));
      }
      pointer := pointer.(borrows := pointer.borrows + 1);
      r := Ok(pointer.value.v);
    }

    /** A reference to the pointer is dropped. */
    method ReleaseObject() returns (r: Result<(), StatusCode>)
      modifies this`pointer
      ensures Became(r, old(Cell()).ReleaseObject())
    {
      if pointer.borrows == 0 {
        return Err(InvariantViolation);
      }
      pointer := pointer.(borrows := pointer.borrows - 1);
      r := Ok(());
    }

    method TakeObject(expected: Option<TypeTag>) returns (r: Result<ObjectID, StatusCode>)
      modifies this`pointer
      ensures Gave(r, old(Cell()).TakeObject(expected))
    {
      var _ :- CheckType(expected);
      if !pointer.value.Exists() {
        return Err(Aborted(ERROR_OBJECT_ALREADY_TAKEN_OUT_OR_EMBEDDED));
      }
      if pointer.HasBorrowed() {
        return Err(Aborted(ERROR_OBJECT_ALREADY_BORROWED));
      }
      var p :- pointer.value.MoveFrom();
      pointer := pointer.(value := p.0);
      r := Ok(p.1);
    }

    method ReturnPointer(p: ObjectID, expected: Option<TypeTag>) returns (r: Result<(), StatusCode>)
      modifies this`pointer
      ensures Became(r, old(Cell()).ReturnPointer(p, expected))
    {
      var _ :- CheckType(expected);
      var v :- pointer.value.MoveTo(p);
      pointer := pointer.(value := v);
      r := Ok(());
    }

    method TransferObject(p: ObjectID, newOwner: AccountAddress, expected: Option<TypeTag>)
      returns (r: Result<(), StatusCode>)
      modifies this`pointer, rtMeta
      ensures Became(r, old(Cell()).TransferObject(p, newOwner, expected))
    {
      var _ :- ReturnPointer(p, expected);
      r := rtMeta.Transfer(newOwner);
    }

    method ToSharedObject(p: ObjectID, expected: Option<TypeTag>) returns (r: Result<(), StatusCode>)
      modifies this`pointer, rtMeta
      ensures Became(r, old(Cell()).ToSharedObject(p, expected))
    {
      var _ :- ReturnPointer(p, expected);
      r := rtMeta.ToShared();
    }

    method ToFrozenObject(p: ObjectID, expected: Option<TypeTag>) returns (r: Result<(), StatusCode>)
      modifies this`pointer, rtMeta
      ensures Became(r, old(Cell()).ToFrozenObject(p, expected))
    {
      var _ :- ReturnPointer(p, expected);
      r := rtMeta.ToFrozen();
    }

    // ---------- field calls ----------

    /** Put a new object into the fields. */
    method InsertField(key: FieldKey, child: RuntimeObject, ghost s: Shape) returns (ghost t: Shape)
      requires s.o == this && ValidShape(s) && key !in s.kids
      requires child !in s.footprint && child.rtMeta !in s.footprint && child.fields == map[]
      modifies this`fields
      ensures t == WithKid(s, key, Leaf(child)) && ValidShape(t)
      ensures TreeOf(t) == old(TreeOf(s)).(fields := old(TreeOf(s)).fields[key := Node(old(child.Cell()), map[])])
    {
      fields := fields[key := child];
      t := WithKid(s, key, Leaf(child));
      KidUpdated(s, key, Leaf(child));
    }

    /** Load a field, from the store the first time. */
    method LoadField(key: FieldKey, ghost s: Shape) returns (r: Result<(RuntimeObject, LoadCost), StatusCode>, ghost t: Shape)
      requires s.o == this && ValidShape(s)
      modifies this`fields
      ensures t.o == this && ValidShape(t) && s.footprint <= t.footprint && Grown(s.footprint, t.footprint)
      ensures r.Err? ==> RuntimeNode.LoadField(old(TreeOf(s)), key) == Err(r.error) && t == s && TreeOf(t) == old(TreeOf(s))
      ensures r.Ok? ==>
                && RuntimeNode.LoadField(old(TreeOf(s)), key) == Ok((TreeOf(t), r.value.1))
                && key in t.kids && r.value.0 == t.kids[key].o
                && (t == s || (key !in s.kids && t == WithKid(s, key, t.kids[key])))
    {
      t := s;
      if rtMeta.state.MetaNone? {
        return Err(MissingData), s;
      }
      if key in fields {
        return Ok((fields[key], Option.None)), s;
      }
      var state := GetFieldAt(rtMeta.state.mv.metadata.stateRoot, key);
      var child: RuntimeObject;
      if state.Some? {
        child := new RuntimeObject.Load(state.value);
        r := Ok((child, Some(Some(|state.value.value|))));
      } else {
        child := new RuntimeObject.None(rtMeta.state.Id() + [key]);
        r := Ok((child, Some(Option.None)));
      }
      LoadsFromStore(TreeOf(s), key);
      assert Node(child.Cell(), map[]) == Resident(state, rtMeta.state.Id() + [key]);
      t := InsertField(key, child, s);
    }

    /** The tree is what the specification says a call makes of it, or the call failed as specified. */
    ghost predicate TreeBecame<T>(t: Shape, r: Result<T, StatusCode>, spec: Result<Node, StatusCode>)
      requires ValidShape(t)
      reads t.footprint
    {
      match spec
      case Ok(n) => r.Ok? && TreeOf(t) == n
      case Err(e) => r == Err(e)
    }

    /** As `TreeBecame`, for a call on the resident field `key` of the tree `n`. */
    ghost predicate KidBecame<T>(s: Shape, n: Node, key: FieldKey, r: Result<T, StatusCode>,
                                 spec: Result<RuntimeNode.Cell, StatusCode>)
      requires ValidShape(s) && key in n.fields
      reads s.footprint
    {
      match spec
      case Ok(c) => r.Ok? && TreeOf(s) == WithFieldCell(n, key, c)
      case Err(e) => r == Err(e)
    }

    /** A value moves into this object, and its pointer is handed out. */
    method Fill(valueType: TypeTag, x: Bytes) returns (r: Result<ObjectID, StatusCode>)
      modifies this`value, this`pointer, rtMeta
      ensures Became(r, FillCell(old(Cell()), valueType, x))
      ensures r.Ok? ==> r.value == old(Cell()).meta.Id()
    {
      var _ :- MoveTo(x, valueType);
      r := TakeObject(Some(valueType));
    }

    /** The value moves into the resident field, and its pointer is handed out. */
    method FillKid(key: FieldKey, valueType: TypeTag, x: Bytes, ghost s: Shape) returns (r: Result<ObjectID, StatusCode>)
      requires s.o == this && ValidShape(s) && key in s.kids
      modifies s.kids[key].o`value, s.kids[key].o`pointer, s.kids[key].o.rtMeta
      ensures ValidShape(s) && key in old(TreeOf(s)).fields
      ensures KidBecame(s, old(TreeOf(s)), key, r, FillCell(old(TreeOf(s)).fields[key].cell, valueType, x))
      ensures r.Ok? ==> r.value == old(TreeOf(s)).fields[key].cell.meta.Id()
    {
      KidTree(s, key);
      r := fields[key].Fill(valueType, x);
      KidCellUpdated(s, key);
    }

    method EmptyKid(key: FieldKey, valueType: TypeTag, ghost s: Shape) returns (r: Result<Bytes, StatusCode>)
      requires s.o == this && ValidShape(s) && key in s.kids
      modifies s.kids[key].o`value, s.kids[key].o.rtMeta
      ensures ValidShape(s) && key in old(TreeOf(s)).fields
      ensures KidBecame(s, old(TreeOf(s)), key, r, EmptyCell(old(TreeOf(s)).fields[key].cell, valueType))
      ensures r.Ok? ==> r.value == old(TreeOf(s)).fields[key].cell.MoveFrom(Some(valueType)).value.1
    {
      KidTree(s, key);
      r := fields[key].MoveFrom(Some(valueType));
      KidCellUpdated(s, key);
    }

    method WriteKid(key: FieldKey, valueType: TypeTag, x: Bytes, ghost s: Shape) returns (r: Result<(), StatusCode>)
      requires s.o == this && ValidShape(s) && key in s.kids
      modifies s.kids[key].o`value
      ensures ValidShape(s) && key in old(TreeOf(s)).fields
      ensures KidBecame(s, old(TreeOf(s)), key, r, old(TreeOf(s)).fields[key].cell.WriteValue(Some(valueType), x))
    {
      KidTree(s, key);
      r := fields[key].WriteValue(Some(valueType), x);
      KidCellUpdated(s, key);
    }

    method KidHolds(key: FieldKey, expected: Option<TypeTag>, ghost s: Shape) returns (r: bool)
      requires s.o == this && ValidShape(s) && key in s.kids
      ensures key in TreeOf(s).fields && r == TreeOf(s).fields[key].cell.Holds(expected)
    {
      KidTree(s, key);
      r := fields[key].HasValue(expected);
    }

    method ReadKid(key: FieldKey, valueType: TypeTag, ghost s: Shape) returns (r: Result<Bytes, StatusCode>)
      requires s.o == this && ValidShape(s) && key in s.kids
      ensures key in TreeOf(s).fields && r == TreeOf(s).fields[key].cell.BorrowValue(Some(valueType))
    {
      KidTree(s, key);
      r := fields[key].BorrowValue(Some(valueType));
    }

    /** Count one more field. */
    method Grow(ghost s: Shape) returns (r: Result<(), StatusCode>)
      requires s.o == this && ValidShape(s)
      modifies rtMeta
      ensures ValidShape(s) && TreeBecame(s, r, GrowNode(old(TreeOf(s))))
    {
      r := rtMeta.IncreaseSize();
      CellUpdated(s);
    }

    /** Count one field less. */
    method Shrink(ghost s: Shape) returns (r: Result<(), StatusCode>)
      requires s.o == this && ValidShape(s)
      modifies rtMeta
      ensures ValidShape(s) && TreeBecame(s, r, ShrinkNode(old(TreeOf(s))))
    {
      r := rtMeta.DecreaseSize();
      CellUpdated(s);
    }

    /** Load the field and fill it. */
    method FillField(key: FieldKey, valueType: TypeTag, x: Bytes, ghost s: Shape)
      returns (r: Result<ObjectID, StatusCode>, ghost t: Shape)
      requires s.o == this && ValidShape(s)
      modifies s.footprint
      ensures t.o == this && ValidShape(t) && s.footprint <= t.footprint && Grown(s.footprint, t.footprint)
      ensures TreeBecame(t, r, RuntimeNode.FillField(old(TreeOf(s)), key, valueType, x))
      ensures r.Ok? ==> r.value == FieldCell(old(TreeOf(s)), key).meta.Id()
    {
      var loaded;
      loaded, t := LoadField(key, s);
      if loaded.Err? {
        return Err(loaded.error), t;
      }
      r := FillKid(key, valueType, x, t);
    }

    /** Load the field and empty it. */
    method EmptyField(key: FieldKey, valueType: TypeTag, ghost s: Shape)
      returns (r: Result<Bytes, StatusCode>, ghost t: Shape)
      requires s.o == this && ValidShape(s)
      modifies s.footprint
      ensures t.o == this && ValidShape(t) && s.footprint <= t.footprint && Grown(s.footprint, t.footprint)
      ensures TreeBecame(t, r, RuntimeNode.EmptyField(old(TreeOf(s)), key, valueType))
      ensures r.Ok? ==> r.value == FieldCell(old(TreeOf(s)), key).MoveFrom(Some(valueType)).value.1
    {
      var loaded;
      loaded, t := LoadField(key, s);
      if loaded.Err? {
        return Err(loaded.error), t;
      }
      r := EmptyKid(key, valueType, t);
    }

    /** A value moves into a field; its pointer is handed to the caller. */
    method AddField(key: FieldKey, valueType: TypeTag, x: Bytes, ghost s: Shape)
      returns (r: Result<ObjectID, StatusCode>, ghost t: Shape)
      requires s.o == this && ValidShape(s)
      modifies s.footprint
      ensures t.o == this && ValidShape(t) && s.footprint <= t.footprint && Grown(s.footprint, t.footprint)
      ensures TreeBecame(t, r, RuntimeNode.AddField(old(TreeOf(s)), key, valueType, x))
      ensures r.Ok? ==> r.value == FieldCell(old(TreeOf(s)), key).meta.Id()
    {
      r, t := FillField(key, valueType, x, s);
      if r.Ok? {
        var grown := Grow(t);
        if grown.Err? {
          r := Err(grown.error);
        }
      }
    }

    /** A field's value moves out. */
    method RemoveField(key: FieldKey, valueType: TypeTag, ghost s: Shape)
      returns (r: Result<Bytes, StatusCode>, ghost t: Shape)
      requires s.o == this && ValidShape(s)
      modifies s.footprint
      ensures t.o == this && ValidShape(t) && s.footprint <= t.footprint && Grown(s.footprint, t.footprint)
      ensures TreeBecame(t, r, RuntimeNode.RemoveField(old(TreeOf(s)), key, valueType))
      ensures r.Ok? ==> r.value == FieldCell(old(TreeOf(s)), key).MoveFrom(Some(valueType)).value.1
    {
      r, t := EmptyField(key, valueType, s);
      if r.Ok? {
        var shrunk := Shrink(t);
        if shrunk.Err? {
          r := Err(shrunk.error);
        }
      }
    }

    /** Whether a field has a value, of the type if one is given. */
    method ContainsField(key: FieldKey, expected: Option<TypeTag>, ghost s: Shape)
      returns (r: Result<bool, StatusCode>, ghost t: Shape)
      requires s.o == this && ValidShape(s)
      modifies this`fields
      ensures t.o == this && ValidShape(t) && s.footprint <= t.footprint && Grown(s.footprint, t.footprint)
      ensures r.Err? ==> RuntimeNode.LoadField(old(TreeOf(s)), key) == Err(r.error)
      ensures r.Ok? ==>
                && RuntimeNode.LoadField(old(TreeOf(s)), key).Ok?
                && TreeOf(t) == RuntimeNode.LoadField(old(TreeOf(s)), key).value.0
                && r.value == FieldCell(old(TreeOf(s)), key).Holds(expected)
    {
      var loaded;
      loaded, t := LoadField(key, s);
      if loaded.Err? {
        return Err(loaded.error), t;
      }
      var holds := KidHolds(key, expected, t);
      r := Ok(holds);
    }

    /** Read a field's value. */
    method BorrowField(key: FieldKey, valueType: TypeTag, ghost s: Shape)
      returns (r: Result<Bytes, StatusCode>, ghost t: Shape)
      requires s.o == this && ValidShape(s)
      modifies this`fields
      ensures t.o == this && ValidShape(t) && s.footprint <= t.footprint && Grown(s.footprint, t.footprint)
      ensures r.Err? ==> RuntimeNode.BorrowField(old(TreeOf(s)), key, valueType) == Err(r.error)
      ensures r.Ok? ==> RuntimeNode.BorrowField(old(TreeOf(s)), key, valueType) == Ok((TreeOf(t), r.value))
    {
      var loaded;
      loaded, t := LoadField(key, s);
      if loaded.Err? {
        return Err(loaded.error), t;
      }
      r := ReadKid(key, valueType, t);
    }

    /** Borrow a field's value mutably and write through the reference. */
    method WriteField(key: FieldKey, valueType: TypeTag, x: Bytes, ghost s: Shape)
      returns (r: Result<(), StatusCode>, ghost t: Shape)
      requires s.o == this && ValidShape(s)
      modifies s.footprint
      ensures t.o == this && ValidShape(t) && s.footprint <= t.footprint && Grown(s.footprint, t.footprint)
      ensures TreeBecame(t, r, RuntimeNode.WriteField(old(TreeOf(s)), key, valueType, x))
    {
      var loaded;
      loaded, t := LoadField(key, s);
      if loaded.Err? {
        return Err(loaded.error), t;
      }
      r := WriteKid(key, valueType, x, t);
    }

    // ---------- publishing ----------

    /** A new package moves into this object, and it belongs to the publisher. */
    method BecomePackage(p: Publication) returns (r: Result<(), StatusCode>)
      modifies this`value, this`pointer, rtMeta
      ensures Became(r, CreatePackage(old(Cell()), p))
    {
      var _ :- MoveTo(p.emptyPackage, p.packageType);
      r := rtMeta.Transfer(p.packageOwner);
    }

    /** A new package moves into the resident field, and it belongs to the publisher. */
    method CreatePackageKid(p: Publication, ghost s: Shape) returns (r: Result<(), StatusCode>)
      requires s.o == this && ValidShape(s) && p.packageKey in s.kids
      modifies s.kids[p.packageKey].o`value, s.kids[p.packageKey].o`pointer, s.kids[p.packageKey].o.rtMeta
      ensures ValidShape(s) && p.packageKey in old(TreeOf(s)).fields
      ensures KidBecame(s, old(TreeOf(s)), p.packageKey, r, CreatePackage(old(TreeOf(s)).fields[p.packageKey].cell, p))
    {
      KidTree(s, p.packageKey);
      r := fields[p.packageKey].BecomePackage(p);
      KidCellUpdated(s, p.packageKey);
    }

    /** Load the package field of this module store, and create the package when it is absent. */
    method LoadOrCreatePackage(p: Publication, ghost s: Shape)
      returns (r: Result<bool, StatusCode>, ghost t: Shape)
      requires s.o == this && ValidShape(s)
      modifies s.footprint
      ensures t.o == this && ValidShape(t) && s.footprint <= t.footprint && Grown(s.footprint, t.footprint)
      ensures TreeBecame(t, r, RuntimeNode.LoadOrCreatePackage(old(TreeOf(s)), p))
      ensures r.Ok? ==> r.value == !HasField(old(TreeOf(s)), p.packageKey) && p.packageKey in t.kids
    {
      var loaded;
      loaded, t := LoadField(p.packageKey, s);
      if loaded.Err? {
        return Err(loaded.error), t;
      }
      KidTree(t, p.packageKey);
      var newPackage := !loaded.value.0.value.Exists();
      if newPackage {
        var created := CreatePackageKid(p, t);
        if created.Err? {
          return Err(created.error), t;
        }
      }
      r := Ok(newPackage);
    }

    /** The module value moves into this object; republishing first moves the previous value out. */
    method BecomeModule(p: Publication, isRepublishing: bool) returns (r: Result<(), StatusCode>)
      modifies this`value, this`pointer, rtMeta
      ensures Became(r, ReplaceModule(old(Cell()), p, isRepublishing))
    {
      if isRepublishing {
        var _ :- MoveFrom(Some(p.moduleType));
      }
      r := MoveTo(p.moduleValue, p.moduleType);
    }

    /** The module value moves into the resident field. */
    method ReplaceModuleKid(p: Publication, isRepublishing: bool, ghost s: Shape) returns (r: Result<(), StatusCode>)
      requires s.o == this && ValidShape(s) && p.moduleKey in s.kids
      modifies s.kids[p.moduleKey].o`value, s.kids[p.moduleKey].o`pointer, s.kids[p.moduleKey].o.rtMeta
      ensures ValidShape(s) && p.moduleKey in old(TreeOf(s)).fields
      ensures KidBecame(s, old(TreeOf(s)), p.moduleKey, r,
                        ReplaceModule(old(TreeOf(s)).fields[p.moduleKey].cell, p, isRepublishing))
    {
      KidTree(s, p.moduleKey);
      r := fields[p.moduleKey].BecomeModule(p, isRepublishing);
      KidCellUpdated(s, p.moduleKey);
    }

    /** Put the module value into this package; a new module counts as one more field. */
    method StoreModule(p: Publication, isRepublishing: bool, ghost s: Shape)
      returns (r: Result<(), StatusCode>, ghost t: Shape)
      requires s.o == this && ValidShape(s)
      modifies s.footprint
      ensures t.o == this && ValidShape(t) && s.footprint <= t.footprint && Grown(s.footprint, t.footprint)
      ensures TreeBecame(t, r, RuntimeNode.StoreModule(old(TreeOf(s)), p, isRepublishing))
    {
      var loaded;
      loaded, t := LoadField(p.moduleKey, s);
      if loaded.Err? {
        return Err(loaded.error), t;
      }
      r := ReplaceModuleKid(p, isRepublishing, t);
      if r.Ok? && !isRepublishing {
        r := Grow(t);
      }
    }

    /** Store the module in the resident package of this module store. */
    method StoreInPackage(p: Publication, isRepublishing: bool, ghost s: Shape)
      returns (r: Result<(), StatusCode>, ghost t: Shape)
      requires s.o == this && ValidShape(s) && p.packageKey in s.kids
      modifies s.kids[p.packageKey].footprint
      ensures t.o == this && ValidShape(t) && s.footprint <= t.footprint && Grown(s.footprint, t.footprint)
      ensures p.packageKey in old(TreeOf(s)).fields
      ensures TreeBecame(t, r, RuntimeNode.StoreInPackage(old(TreeOf(s)), p, isRepublishing))
    {
      KidTree(s, p.packageKey);
      ghost var kid;
      r, kid := fields[p.packageKey].StoreModule(p, isRepublishing, s.kids[p.packageKey]);
      t := WithKid(s, p.packageKey, kid);
      KidUpdated(s, p.packageKey, kid);
    }

    /** Store the module, and count a package that was just created. */
    method StoreAndCount(p: Publication, isRepublishing: bool, newPackage: bool, ghost s: Shape)
      returns (r: Result<(), StatusCode>, ghost t: Shape)
      requires s.o == this && ValidShape(s) && p.packageKey in s.kids
      modifies s.footprint
      ensures t.o == this && ValidShape(t) && s.footprint <= t.footprint && Grown(s.footprint, t.footprint)
      ensures p.packageKey in old(TreeOf(s)).fields
      ensures TreeBecame(t, r, RuntimeNode.StoreAndCount(old(TreeOf(s)), p, isRepublishing, newPackage))
    {
      r, t := StoreInPackage(p, isRepublishing, s);
      if r.Ok? && newPackage {
        r := Grow(t);
      }
    }

    /** Publish a module under this module store; a new package counts as one more field of the store. */
    method PublishModule(p: Publication, isRepublishing: bool, ghost s: Shape)
      returns (r: Result<(), StatusCode>, ghost t: Shape)
      requires s.o == this && ValidShape(s)
      modifies s.footprint
      ensures t.o == this && ValidShape(t) && s.footprint <= t.footprint && Grown(s.footprint, t.footprint)
      ensures TreeBecame(t, r, RuntimeNode.PublishModule(old(TreeOf(s)), p, isRepublishing))
    {
      var created;
      ghost var u;
      created, u := LoadOrCreatePackage(p, s);
      if created.Err? {
        return Err(created.error), u;
      }
      r, t := StoreAndCount(p, isRepublishing, created.value, u);
    }

    // ---------- native calls ----------

    /** The calls that only concern the object itself. */
    method CellCall(op: NodeOp, ghost s: Shape) returns (r: Result<Answer, StatusCode>)
      requires s.o == this && ValidShape(s)
      requires IsOwnCall(op)
      modifies this`pointer, rtMeta
      ensures Became(r, CellStep(old(Cell()), op))
      ensures r.Ok? ==> r.value == Gives(old(TreeOf(s)), op)
    {
      r := Ok(Nothing);
      var id := rtMeta.state.Id();
      match op {
        case BorrowOp(t) =>
          var p :- BorrowObject(t);
          r := Ok(PointerTo(p));
        case ReleaseOp =>
          var _ :- ReleaseObject();
        case TakeOp(t) =>
          var p :- TakeObject(t);
          r := Ok(PointerTo(p));
        case TransferOp(newOwner, t) =>
          var _ :- TransferObject(id, newOwner, t);
        case ShareOp(t) =>
          var _ :- ToSharedObject(id, t);
        case FreezeOp(t) =>
          var _ :- ToFrozenObject(id, t);
        case _ =>
      }
    }

    method OwnCall(op: NodeOp, ghost s: Shape) returns (r: Result<Answer, StatusCode>)
      requires s.o == this && ValidShape(s)
      requires IsOwnCall(op)
      modifies this`pointer, rtMeta
      ensures ValidShape(s) && TreeBecame(s, r, NodeStep(old(TreeOf(s)), op))
      ensures r.Ok? ==> r.value == Gives(old(TreeOf(s)), op)
    {
      r := CellCall(op, s);
      CellUpdated(s);
    }

    /** Run one call on this object. */
    method Call(op: NodeOp, ghost s: Shape) returns (r: Result<Answer, StatusCode>, ghost t: Shape)
      requires s.o == this && ValidShape(s)
      modifies s.footprint
      ensures t.o == this && ValidShape(t) && s.footprint <= t.footprint && Grown(s.footprint, t.footprint)
      ensures TreeBecame(t, r, NodeStep(old(TreeOf(s)), op))
      ensures r.Ok? ==> r.value == Gives(old(TreeOf(s)), op)
    {
      match op {
        case ReadField(key, expected) =>
          var contained;
          contained, t := ContainsField(key, expected, s);
          r := if contained.Err? then Err(contained.error) else Ok(YesNo(contained.value));
        case BorrowFieldOp(key, valueType) =>
          var read;
          read, t := BorrowField(key, valueType, s);
          r := if read.Err? then Err(read.error) else Ok(ValueOf(read.value));
        case WriteOp(key, valueType, x) =>
          var written;
          written, t := WriteField(key, valueType, x, s);
          r := if written.Err? then Err(written.error) else Ok(Nothing);
        case AddOp(key, valueType, x) =>
          var added;
          added, t := AddField(key, valueType, x, s);
          r := if added.Err? then Err(added.error) else Ok(PointerTo(added.value));
        case RemoveOp(key, valueType) =>
          var removed;
          removed, t := RemoveField(key, valueType, s);
          r := if removed.Err? then Err(removed.error) else Ok(ValueOf(removed.value));
        case PublishOp(p, isRepublishing) =>
          var published;
          published, t := PublishModule(p, isRepublishing, s);
          r := if published.Err? then Err(published.error) else Ok(Nothing);
        case _ =>
          t := s;
          r := OwnCall(op, s);
      }
    }

    // ---------- the change set ----------

    /** The metadata to write, settled on a copy. */
    method SettleMeta(now: nat) returns (r: Result<RtMeta, StatusCode>)
      ensures r == ChangeSet.SettleMeta(Cell(), now)
    {
      var meta := new RuntimeObjectMeta(rtMeta.state);
      var valueOp := value.IntoEffect();
      if valueOp.Some? && valueOp.value != Delete {
        var _ :- meta.UpdateTimestamp(now);
      }
      if pointer.value.IntoEffect() == Some(Delete) && valueOp != Some(Delete) {
        // the pointer was taken out and the value stays: it is embedded in another struct
        var _ :- meta.ToSystemOwner();
      }
      r := Ok(meta.state);
    }

    /** Fold this object and its resident fields into a change. */
    method IntoChange(now: nat, ghost s: Shape) returns (r: Result<Option<ObjectChange>, StatusCode>)
      requires s.o == this && ValidShape(s)
      ensures r == ChangeSet.IntoChange(TreeOf(s), now)
      decreases s, 2
    {
      var meta :- SettleMeta(now);
      var fieldsChange :- FieldsIntoChange(now, s);
      var valueChange := value.IntoEffect();
      match meta.IntoEffect() {
        case None =>
          r := Ok(Option.None);
        case Some((metadata, dirty)) =>
          if !dirty && valueChange.None? && fieldsChange == map[] {
            r := Ok(Option.None);
          } else {
            r := Ok(Some(ObjectChange(metadata, valueChange, fieldsChange)));
          }
      }
    }

    method KidIntoChange(key: FieldKey, now: nat, ghost s: Shape) returns (r: Result<Option<ObjectChange>, StatusCode>)
      requires s.o == this && ValidShape(s) && key in s.kids
      ensures r == ChangeSet.IntoChange(TreeOf(s).fields[key], now)
      decreases s, 0
    {
      KidTree(s, key);
      r := fields[key].IntoChange(now, s.kids[key]);
    }

    method FieldsIntoChange(now: nat, ghost s: Shape) returns (r: Result<map<FieldKey, ObjectChange>, StatusCode>)
      requires s.o == this && ValidShape(s)
      ensures r == ChangeSet.FieldChanges(TreeOf(s), now)
      decreases s, 1
    {
      var changes: map<FieldKey, ObjectChange> := map[];
      var keys := fields.Keys;
      ghost var n, done := TreeOf(s), {};
      while keys != {}
        invariant fields.Keys == n.fields.Keys == keys + done && keys !! done
        invariant ValidShape(s) && TreeOf(s) == n
        invariant ChangesOf(n, done, changes, now)
        decreases keys
      {
        var k :| k in keys;
        var change := KidIntoChange(k, now, s);
        if change.Err? {
          ChangeFails(n, k, now);
          return Err(MissingData);
        }
        ChangeAdded(n, done, changes, k, now);
        if change.value.Some? {
          changes := changes[k := change.value.value];
        }
        keys, done := keys - {k}, done + {k};
      }
      AllChanges(n, changes, now);
      r := Ok(changes);
    }
  }

  /** A field that is not resident is loaded from the store. */
  lemma LoadsFromStore(n: Node, key: FieldKey)
    requires !n.cell.meta.MetaNone? && key !in n.fields
    ensures var state := GetFieldAt(n.Root(), key);
            RuntimeNode.LoadField(n, key) ==
            Ok((n.(fields := n.fields[key := Resident(state, n.cell.meta.Id() + [key])]),
                if state.Some? then Some(Some(|state.value.value|)) else Some(Option.None)))
  {}

  /** The changes of the fields in `done`. */
  ghost predicate ChangesOf(n: Node, done: set<FieldKey>, changes: map<FieldKey, ObjectChange>, now: nat) {
    && (forall k :: k in n.fields && k in done ==> ChangeSet.IntoChange(n.fields[k], now).Ok?)
    && (forall k :: k in changes <==>
          k in n.fields && k in done && ChangeSet.IntoChange(n.fields[k], now).Ok?
          && ChangeSet.IntoChange(n.fields[k], now).value.Some?)
    && (forall k :: k in changes ==> ChangeSet.IntoChange(n.fields[k], now) == Ok(Some(changes[k])))
  }

  lemma ChangeFails(n: Node, k: FieldKey, now: nat)
    requires k in n.fields && ChangeSet.IntoChange(n.fields[k], now).Err?
    ensures ChangeSet.FieldChanges(n, now) == Err(MissingData)
  {}

  lemma ChangeAdded(n: Node, done: set<FieldKey>, changes: map<FieldKey, ObjectChange>, k: FieldKey, now: nat)
    requires ChangesOf(n, done, changes, now) && k in n.fields && k !in done
    requires ChangeSet.IntoChange(n.fields[k], now).Ok?
    ensures var change := ChangeSet.IntoChange(n.fields[k], now).value;
            ChangesOf(n, done + {k}, if change.Some? then changes[k := change.value] else changes, now)
  {}

  lemma AllChanges(n: Node, changes: map<FieldKey, ObjectChange>, now: nat)
    requires ChangesOf(n, n.fields.Keys, changes, now)
    ensures ChangeSet.FieldChanges(n, now) == Ok(changes)
  {
    assert forall k :: k in n.fields ==> ChangeSet.IntoChange(n.fields[k], now).Ok?;
    var spec := ChangeSet.FieldChanges(n, now).value;
    assert forall k :: k in spec <==> k in changes;
    assert spec == changes;
  }

  /** The runtime of one transaction: the tree of objects, and the pointers its arguments hold. */
  class ObjectRuntime {
    const root: RuntimeObject
    var objectPointerInArgs: HeldArgs
    ghost var shape: Shape

    ghost predicate Valid()
      reads this, shape.footprint
    {
      shape.o == root && this !in shape.footprint && ValidShape(shape)
    }

    /** The value of the runtime's tree. */
    ghost function Tree(): Node
      requires Valid()
      reads this, shape.footprint
    {
      TreeOf(shape)
    }

    constructor (rootMetadata: ObjectMeta)
      ensures Valid() && fresh(shape.footprint)
      ensures Tree() == NewRuntime(rootMetadata) && objectPointerInArgs == map[]
    {
      var r := new RuntimeObject.Load(NewRoot(rootMetadata));
      root := r;
      objectPointerInArgs := map[];
      shape := Leaf(r);
    }

    /** The shape is kept up to date; the objects are what they are. */
    ghost method SetShape(whole: Shape)
      requires ValidShape(whole) && whole.o == root && this !in whole.footprint
      modifies this`shape
      ensures shape == whole && Valid() && Tree() == old(TreeOf(whole))
    {
      shape := whole;
    }

    /** Load a field of the resident object `parent`, which is at `path`. */
    method LoadFieldAt(parent: RuntimeObject, ghost path: ObjectID, key: FieldKey)
      returns (r: Result<(RuntimeObject, LoadCost), StatusCode>)
      requires Valid() && ShapeAt(shape, path).Some? && ShapeAt(shape, path).value.o == parent
      modifies this`shape, shape.footprint
      ensures Valid() && Grown(old(shape.footprint), shape.footprint)
      ensures NodeAt(old(Tree()), path).Some?
      ensures r.Err? ==> LoadField(NodeAt(old(Tree()), path).value, key) == Err(r.error)
      ensures r.Ok? ==>
                && LoadField(NodeAt(old(Tree()), path).value, key).Ok?
                && Tree() == ReplaceAt(old(Tree()), path, LoadField(NodeAt(old(Tree()), path).value, key).value.0)
                && r.value.1 == LoadField(NodeAt(old(Tree()), path).value, key).value.1
                && ShapeAt(shape, path + [key]).Some? && r.value.0 == ShapeAt(shape, path + [key]).value.o
    {
      ghost var s, sub, t := shape, ShapeAt(shape, path).value, shape;
      ShapeAtValid(s, path);
      r, t := parent.LoadField(key, sub);
      Reshaped(s, path, sub, t);
      assert this !in ReplaceShape(s, path, t).footprint;
      SetShape(ReplaceShape(s, path, t));
      ShapeOfKid(s, path, t, key);
    }

    /** Load an object: its parent first, then the field of the parent. */
    method LoadObject(id: ObjectID) returns (r: Result<(RuntimeObject, LoadCost), StatusCode>)
      requires Valid()
      modifies this`shape, shape.footprint
      ensures Valid() && Grown(old(shape.footprint), shape.footprint)
      ensures r.Err? ==> LoadPath(old(Tree()), id) == Err(r.error)
      ensures r.Ok? ==> LoadPath(old(Tree()), id) == Ok((Tree(), r.value.1))
      ensures r.Ok? ==> ShapeAt(shape, id).Some? && r.value.0 == ShapeAt(shape, id).value.o
      decreases |id|
    {
      if id == [] {
        return Ok((root, Option.None));
      }
      LoadPathByParent(Tree(), Parent(id), KeyOf(id));
      assert Parent(id) + [KeyOf(id)] == id;
      var parent := LoadObject(Parent(id));
      if parent.Err? {
        return parent;
      }
      var field := LoadFieldAt(parent.value.0, Parent(id), KeyOf(id));
      if field.Err? {
        return field;
      }
      r := Ok((field.value.0, SumLoadCost(parent.value.1, field.value.1)));
    }

    /** Run one call on the resident object `obj`, which is at `path`. */
    method CallAt(obj: RuntimeObject, ghost path: ObjectID, op: NodeOp) returns (r: Result<Answer, StatusCode>)
      requires Valid() && ShapeAt(shape, path).Some? && ShapeAt(shape, path).value.o == obj
      modifies this`shape, shape.footprint
      ensures Valid() && Grown(old(shape.footprint), shape.footprint)
      ensures NodeAt(old(Tree()), path).Some?
      ensures match NodeStep(NodeAt(old(Tree()), path).value, op)
              case Ok(n) => && r == Ok(Gives(NodeAt(old(Tree()), path).value, op))
                            && Tree() == ReplaceAt(old(Tree()), path, n)
              case Err(e) => r == Err(e)
    {
      ghost var s, sub, t := shape, ShapeAt(shape, path).value, shape;
      ShapeAtValid(s, path);
      r, t := obj.Call(op, sub);
      Reshaped(s, path, sub, t);
      assert this !in ReplaceShape(s, path, t).footprint;
      SetShape(ReplaceShape(s, path, t));
    }

    /** A native call: load the object, then run the call on it. */
    method Dispatch(id: ObjectID, op: NodeOp) returns (r: Result<Answer, StatusCode>)
      requires Valid()
      modifies this`shape, shape.footprint
      ensures Valid() && Grown(old(shape.footprint), shape.footprint)
      ensures match StepAt(old(Tree()), id, op)
              case Ok(n) => r == Ok(AnswerAt(old(Tree()), id, op)) && Tree() == n
              case Err(e) => r == Err(e)
    {
      StepIsLoadThenCall(Tree(), id, op);
      ghost var before := Tree();
      var loaded := LoadObject(id);
      if loaded.Err? {
        return Err(loaded.error);
      }
      r := CallAt(loaded.value.0, id, op);
      if r.Ok? {
        AnswerIsGiven(before, id, op);
      }
    }

    /** Load the object arguments of a call, and hold on to their pointers. */
    method LoadArguments(args: seq<ResolvedArg>) returns (r: Result<(), StatusCode>)
      requires Valid()
      modifies this`shape, this`objectPointerInArgs, shape.footprint
      ensures Valid()
      ensures match Arguments.LoadArguments(old(Tree()), old(objectPointerInArgs), args)
              case Ok((n, held)) => r.Ok? && Tree() == n && objectPointerInArgs == held
              case Err(e) => r == Err(e)
    {
      var i := 0;
      while i < |args|
        invariant 0 <= i <= |args|
        invariant Valid() && Grown(old(shape.footprint), shape.footprint)
        invariant Arguments.LoadArguments(Tree(), objectPointerInArgs, args[i..]) ==
                  Arguments.LoadArguments(old(Tree()), old(objectPointerInArgs), args)
      {
        var arg := args[i];
        assert args[i..][0] == arg && args[i..][1..] == args[i + 1..];
        if !arg.PlainArg? {
          var loaded := Dispatch(arg.id, arg.Op());
          if loaded.Err? {
            return Err(loaded.error);
          }
          objectPointerInArgs := objectPointerInArgs[arg.id := arg.Held()];
        }
        i := i + 1;
      }
      r := Ok(());
    }

    /** The resident object at `id`. */
    method ResidentObject(id: ObjectID) returns (r: Option<RuntimeObject>)
      requires Valid()
      ensures r.Some? <==> ShapeAt(shape, id).Some?
      ensures r.Some? ==> r.value == ShapeAt(shape, id).value.o
      decreases |id|
    {
      if id == [] {
        return Some(root);
      }
      assert Parent(id) + [KeyOf(id)] == id;
      ShapeAtNext(shape, Parent(id), KeyOf(id));
      var parent := ResidentObject(Parent(id));
      if parent.Some? {
        ShapeAtValid(shape, Parent(id));
        if KeyOf(id) in parent.value.fields {
          return Some(parent.value.fields[KeyOf(id)]);
        }
      }
      return Option.None;
    }

    /** The loaded object at `id`: its loaded parent first, then a field that is resident and not absent. */
    method GetLoadedObject(id: ObjectID) returns (r: Option<RuntimeObject>)
      requires Valid()
      ensures r.Some? <==> LoadedNode(Tree(), id).Some?
      ensures r.Some? ==> ShapeAt(shape, id).Some? && r.value == ShapeAt(shape, id).value.o
      ensures r.Some? ==> ShapeAt(shape, id).value.footprint <= shape.footprint
      ensures r.Some? ==> r.value.Cell() == LoadedNode(Tree(), id).value.cell
      decreases |id|
    {
      if id == [] {
        return Some(root);
      }
      assert Parent(id) + [KeyOf(id)] == id;
      ShapeAtNext(shape, Parent(id), KeyOf(id));
      LoadedByParent(Tree(), Parent(id), KeyOf(id));
      LoadedIsResident(Tree(), Parent(id));
      var parent := GetLoadedObject(Parent(id));
      if parent.Some? {
        ShapeAtValid(shape, Parent(id));
        ghost var s := ShapeAt(shape, Parent(id)).value;
        if KeyOf(id) in parent.value.fields {
          KidTree(s, KeyOf(id));
          var field := parent.value.fields[KeyOf(id)];
          if !field.rtMeta.state.MetaNone? {
            return Some(field);
          }
        }
      }
      return Option.None;
    }

    /** A reference to the pointer of the object at `id` is dropped, wherever the object is now. */
    method DropReference(id: ObjectID)
      requires Valid()
      modifies this`shape, shape.footprint
      ensures Valid() && Grown(old(shape.footprint), shape.footprint)
      ensures Tree() == Dropped(old(Tree()), id)
    {
      ShapeIsNode(shape, id);
      var obj := ResidentObject(id);
      if obj.Some? {
        ShapeAtValid(shape, id);
        if obj.value.pointer.borrows > 0 {
          var _ := CallAt(obj.value, id, ReleaseOp);
        }
      }
    }

    method LetGo(id: ObjectID, arg: HeldArg)
      requires Valid()
      modifies this`shape, shape.footprint
      ensures Valid() && Grown(old(shape.footprint), shape.footprint)
      ensures Tree() == if arg == HeldRef then Dropped(old(Tree()), id) else old(Tree())
    {
      match arg {
        case HeldRef => DropReference(id);
        case HeldValue =>
      }
    }

    /** Let go of the arguments: references are dropped; an object passed by value stays taken. */
    method ReleaseArguments()
      requires Valid()
      modifies this`objectPointerInArgs, this`shape, shape.footprint
      ensures Valid() && objectPointerInArgs == map[]
      ensures Tree() == Released(old(Tree()), [], old(objectPointerInArgs))
    {
      ghost var n, done: HeldArgs := Tree(), map[];
      NothingHeld(n, []);
      var held := objectPointerInArgs;
      objectPointerInArgs := map[];
      var keys := held.Keys;
      while keys != {}
        invariant Valid() && Grown(old(shape.footprint), shape.footprint) && objectPointerInArgs == map[]
        invariant HeldWithout(held, keys, done) && Tree() == Released(n, [], done)
        decreases keys
      {
        var id :| id in keys;
        ReleaseNext(n, held, keys, done, id);
        LetGo(id, held[id]);
        keys, done := keys - {id}, done[id := held[id]];
      }
      AllDone(held, done);
    }

    /** Fold the whole tree into a change set. */
    method IntoChangeSet(now: nat) returns (r: Result<StateChangeSet, StatusCode>)
      requires Valid()
      ensures r == ChangeSet.IntoChangeSet(Tree(), now)
    {
      if root.rtMeta.state.MetaNone? {
        return Err(MissingData);
      }
      var metadata := root.rtMeta.state.mv.metadata;
      var change :- root.IntoChange(now, shape);
      var c := if change.Some? then change.value else ObjectChange(metadata, Option.None, map[]);
      r := Ok(StateChangeSet(c.metadata.stateRoot, c.metadata.size, c.fields));
    }
  }

  // ---------- ownership ----------

  /** The ghost mirror of a tree of runtime objects: which object owns which, and all that a subtree is made of. */
  datatype Shape = Shape(o: RuntimeObject, footprint: set<object>, kids: map<FieldKey, Shape>)

  /** The object and its kids have nothing in common. */
  ghost predicate Apart(s: Shape) {
    && s.o in s.footprint && s.o.rtMeta in s.footprint
    && (forall k :: k in s.kids ==> s.kids[k].footprint <= s.footprint - {s.o, s.o.rtMeta})
    && (forall j, k :: j in s.kids && k in s.kids && j != k ==> s.kids[j].footprint !! s.kids[k].footprint)
  }

  /** The shape mirrors the resident fields, and no object is owned twice. */
  ghost predicate ValidShape(s: Shape)
    reads s.footprint
    decreases s
  {
    && Apart(s)
    && s.o.fields.Keys == s.kids.Keys
    && (forall k :: k in s.kids ==> s.kids[k].o == s.o.fields[k] && ValidShape(s.kids[k]))
  }

  /** The value of the tree. */
  ghost function TreeOf(s: Shape): Node
    requires ValidShape(s)
    reads s.footprint
    decreases s, 1
  {
    Node(s.o.Cell(), KidTrees(s))
  }

  ghost function KidTrees(s: Shape): (m: map<FieldKey, Node>)
    requires ValidShape(s)
    reads s.footprint
    ensures m.Keys == s.kids.Keys
    decreases s, 0
  {
    map k | k in s.kids :: TreeOf(s.kids[k])
  }

  lemma KidTree(s: Shape, key: FieldKey)
    requires ValidShape(s) && key in s.kids
    ensures TreeOf(s).fields[key] == TreeOf(s.kids[key]) && TreeOf(s).fields[key].cell == s.kids[key].o.Cell()
  {
    assert KidTrees(s)[key] == TreeOf(s.kids[key]);
  }

  ghost function WithKid(s: Shape, key: FieldKey, kid: Shape): Shape {
    Shape(s.o, s.footprint + kid.footprint, s.kids[key := kid])
  }

  /** The footprint of the kid at `key`, if there is one. */
  ghost function KidFootprint(s: Shape, key: FieldKey): set<object> {
    if key in s.kids then s.kids[key].footprint else {}
  }

  /** What was added is new. */
  twostate predicate Grown(new before: set<object>, new after: set<object>) {
    forall x :: x in after ==> x in before || fresh(x)
  }

  /** None of the objects changed. */
  twostate predicate Same(objects: set<object>)
    reads objects
  {
    forall x :: x in objects ==> unchanged(x)
  }

  twostate lemma SameSubset(objects: set<object>, new more: set<object>)
    requires objects <= more
    requires forall x :: x in more ==> old(allocated(x))
    requires Same(more)
    ensures Same(objects)
  {}

  /** A subtree none of whose objects changed is what it was. */
  twostate lemma SubtreeUnchanged(s: Shape)
    requires old(ValidShape(s))
    requires Same(s.footprint)
    ensures ValidShape(s) && TreeOf(s) == old(TreeOf(s))
  {}

  /** The kids of `s` other than the one at `key` are what they are in the tree `n`. */
  ghost predicate OthersAre(s: Shape, key: FieldKey, n: Node)
    reads s.footprint
  {
    && Apart(s) && n.fields.Keys == s.kids.Keys
    && forall k :: k in s.kids && k != key ==> ValidShape(s.kids[k]) && n.fields[k] == TreeOf(s.kids[k])
  }

  twostate lemma OthersUnchanged(s: Shape, new key: FieldKey)
    requires old(ValidShape(s))
    requires forall k :: k in s.kids && k != key ==> Same(s.kids[k].footprint)
    ensures OthersAre(s, key, old(TreeOf(s)))
  {
    forall k | k in s.kids && k != key
      ensures ValidShape(s.kids[k]) && TreeOf(s.kids[k]) == old(TreeOf(s.kids[k]))
    {
      SubtreeUnchanged(s.kids[k]);
    }
  }

  lemma ValidWithKid(s: Shape, key: FieldKey, kid: Shape)
    requires Apart(s) && ValidShape(kid) && s.o !in kid.footprint && s.o.rtMeta !in kid.footprint
    requires kid.footprint !! s.footprint - KidFootprint(s, key)
    requires s.o.fields.Keys == s.kids.Keys + {key} && s.o.fields[key] == kid.o
    requires forall k :: k in s.kids && k != key ==> ValidShape(s.kids[k]) && s.o.fields[k] == s.kids[k].o
    ensures ValidShape(WithKid(s, key, kid))
  {
    ApartWithKid(s, key, kid);
    var t := WithKid(s, key, kid);
    forall k | k in t.kids ensures t.kids[k].o == t.o.fields[k] && ValidShape(t.kids[k]) {
      assert k != key ==> t.kids[k] == s.kids[k];
    }
  }

  /** The tree `n` with the field `key` replaced. */
  lemma {:induction false} TreeWithKid(s: Shape, key: FieldKey, kid: Shape, n: Node)
    requires OthersAre(s, key, n) && ValidShape(kid) && ValidShape(WithKid(s, key, kid)) && s.o.Cell() == n.cell
    ensures TreeOf(WithKid(s, key, kid)) == n.(fields := n.fields[key := TreeOf(kid)])
  {
    var t := WithKid(s, key, kid);
    forall k | k in t.kids ensures KidTrees(t)[k] == if k == key then TreeOf(kid) else n.fields[k] {
      assert k != key ==> t.kids[k] == s.kids[k];
    }
    MapUpdated(KidTrees(t), n.fields, key, TreeOf(kid));
  }

  lemma MapUpdated<K, V>(a: map<K, V>, b: map<K, V>, key: K, v: V)
    requires a.Keys == b.Keys + {key} && forall k :: k in a ==> a[k] == if k == key then v else b[k]
    ensures a == b[key := v]
  {}

  /** The field `key` of `s` was put in place or changed, and nothing else below `s` was. */
  twostate lemma KidUpdated(s: Shape, new key: FieldKey, new kid: Shape)
    requires old(ValidShape(s))
    requires ValidShape(kid) && s.o !in kid.footprint && s.o.rtMeta !in kid.footprint
    requires kid.footprint !! s.footprint - KidFootprint(s, key)
    requires forall k :: k in s.kids && k != key ==> Same(s.kids[k].footprint)
    requires s.o.fields == old(s.o.fields)[key := kid.o] && s.o.Cell() == old(s.o.Cell())
    ensures ValidShape(WithKid(s, key, kid))
    ensures TreeOf(WithKid(s, key, kid)) == old(TreeOf(s)).(fields := old(TreeOf(s)).fields[key := TreeOf(kid)])
  {
    OthersUnchanged(s, key);
    ValidWithKid(s, key, kid);
    TreeWithKid(s, key, kid, old(TreeOf(s)));
  }

  lemma ApartWithKid(s: Shape, key: FieldKey, kid: Shape)
    requires Apart(s) && s.o !in kid.footprint && s.o.rtMeta !in kid.footprint
    requires kid.footprint !! s.footprint - KidFootprint(s, key)
    ensures Apart(WithKid(s, key, kid))
  {
    var t := WithKid(s, key, kid);
    forall k | k in s.kids && k != key ensures s.kids[k].footprint !! kid.footprint {
      assert s.kids[k].footprint <= s.footprint - KidFootprint(s, key);
    }
    forall j, k | j in t.kids && k in t.kids && j != k ensures t.kids[j].footprint !! t.kids[k].footprint {
      assert j != key ==> t.kids[j] == s.kids[j];
      assert k != key ==> t.kids[k] == s.kids[k];
    }
  }

  ghost function Leaf(o: RuntimeObject): Shape {
    Shape(o, {o, o.rtMeta}, map[])
  }

  /** Only the own state of `s` changed. */
  twostate lemma CellUpdated(s: Shape)
    requires old(ValidShape(s))
    requires Same(s.footprint - {s.o, s.o.rtMeta})
    requires s.o.fields == old(s.o.fields)
    ensures ValidShape(s) && TreeOf(s) == old(TreeOf(s)).(cell := s.o.Cell())
  {
    forall k | k in s.kids ensures ValidShape(s.kids[k]) && TreeOf(s.kids[k]) == old(TreeOf(s.kids[k])) {
      SubtreeUnchanged(s.kids[k]);
    }
    assert KidTrees(s) == old(KidTrees(s));
  }

  /** Outside the own state of one field of `s` nothing changed. */
  twostate lemma KidAloneChanged(s: Shape, new key: FieldKey)
    requires old(ValidShape(s)) && key in s.kids
    requires Same(s.footprint - {s.kids[key].o, s.kids[key].o.rtMeta})
    ensures Same(s.kids[key].footprint - {s.kids[key].o, s.kids[key].o.rtMeta})
    ensures s.o.fields == old(s.o.fields) && s.o.Cell() == old(s.o.Cell())
    ensures forall k :: k in s.kids && k != key ==> Same(s.kids[k].footprint)
  {
    var kid, rest := s.kids[key], s.footprint - {s.kids[key].o, s.kids[key].o.rtMeta};
    assert kid.o in kid.footprint && kid.o.rtMeta in kid.footprint && kid.footprint <= s.footprint - {s.o, s.o.rtMeta};
    assert s.o in rest && s.o.rtMeta in rest;
    SameSubset(kid.footprint - {kid.o, kid.o.rtMeta}, rest);
    forall k | k in s.kids && k != key ensures Same(s.kids[k].footprint) {
      assert s.kids[k].footprint <= s.footprint - {s.o, s.o.rtMeta};
      SameSubset(s.kids[k].footprint, rest);
    }
  }

  /** Only the own state of one field of `s` changed. */
  twostate lemma KidCellUpdated(s: Shape, new key: FieldKey)
    requires old(ValidShape(s))
    requires key in s.kids
    requires Same(s.footprint - {s.kids[key].o, s.kids[key].o.rtMeta})
    requires s.kids[key].o.fields == old(s.kids[key].o.fields)
    ensures ValidShape(s) && TreeOf(s) == WithFieldCell(old(TreeOf(s)), key, s.kids[key].o.Cell())
  {
    var kid := s.kids[key];
    KidAloneChanged(s, key);
    CellUpdated(kid);
    assert old(KidTrees(s))[key] == old(TreeOf(kid));
    assert s.o.fields == old(s.o.fields)[key := kid.o];
    KidUpdated(s, key, kid);
    WithOwnKid(s, key);
  }

  lemma WithOwnKid(s: Shape, key: FieldKey)
    requires Apart(s) && key in s.kids
    ensures WithKid(s, key, s.kids[key]) == s
  {
    assert s.kids[key := s.kids[key]] == s.kids;
    assert s.footprint + s.kids[key].footprint == s.footprint;
  }

  // ---------- paths ----------

  ghost function ShapeAt(s: Shape, path: ObjectID): Option<Shape>
    decreases |path|
  {
    if path == [] then Some(s)
    else if path[0] in s.kids then ShapeAt(s.kids[path[0]], path[1..])
    else None
  }

  ghost function ReplaceShape(s: Shape, path: ObjectID, t: Shape): Shape
    requires ShapeAt(s, path).Some?
    decreases |path|
  {
    if path == [] then t else WithKid(s, path[0], ReplaceShape(s.kids[path[0]], path[1..], t))
  }

  lemma {:induction false} ShapeAtValid(s: Shape, path: ObjectID)
    requires ValidShape(s) && ShapeAt(s, path).Some?
    ensures ValidShape(ShapeAt(s, path).value) && ShapeAt(s, path).value.footprint <= s.footprint
    ensures NodeAt(TreeOf(s), path) == Some(TreeOf(ShapeAt(s, path).value))
    decreases |path|
  {
    if path != [] {
      KidTree(s, path[0]);
      ShapeAtValid(s.kids[path[0]], path[1..]);
    }
  }

  /** As `ShapeAtValid`, about the earlier state. */
  twostate lemma {:induction false} ShapeAtWasValid(s: Shape, new path: ObjectID)
    requires old(ValidShape(s)) && ShapeAt(s, path).Some?
    ensures old(ValidShape(ShapeAt(s, path).value)) && ShapeAt(s, path).value.footprint <= s.footprint
    ensures NodeAt(old(TreeOf(s)), path) == Some(old(TreeOf(ShapeAt(s, path).value)))
    decreases |path|
  {
    if path != [] {
      assert old(KidTrees(s))[path[0]] == old(TreeOf(s.kids[path[0]]));
      ShapeAtWasValid(s.kids[path[0]], path[1..]);
    }
  }

  lemma {:induction false} ShapeAtNext(s: Shape, path: ObjectID, key: FieldKey)
    ensures ShapeAt(s, path + [key]) ==
            if ShapeAt(s, path).Some? && key in ShapeAt(s, path).value.kids then Some(ShapeAt(s, path).value.kids[key])
            else Option.None
    decreases |path|
  {
    if path == [] {
      assert path + [key] == [key] && [key][1..] == [];
      assert key in s.kids ==> ShapeAt(s.kids[key], []) == Some(s.kids[key]);
    } else {
      assert (path + [key])[0] == path[0] && (path + [key])[1..] == path[1..] + [key];
      if path[0] in s.kids {
        ShapeAtNext(s.kids[path[0]], path[1..], key);
      }
    }
  }

  /** The shape has a place exactly where the tree has a node. */
  lemma {:induction false} ShapeIsNode(s: Shape, path: ObjectID)
    requires ValidShape(s)
    ensures ShapeAt(s, path).Some? <==> NodeAt(TreeOf(s), path).Some?
    decreases |path|
  {
    if path != [] && path[0] in s.kids {
      KidTree(s, path[0]);
      ShapeIsNode(s.kids[path[0]], path[1..]);
    }
  }

  lemma {:induction false} ShapeAtReplaced(s: Shape, path: ObjectID, t: Shape, tail: ObjectID)
    requires ShapeAt(s, path).Some?
    ensures ShapeAt(ReplaceShape(s, path, t), path + tail) == ShapeAt(t, tail)
    decreases |path|
  {
    if path == [] {
      assert path + tail == tail;
    } else {
      assert (path + tail)[0] == path[0] && (path + tail)[1..] == path[1..] + tail;
      ShapeAtReplaced(s.kids[path[0]], path[1..], t, tail);
    }
  }

  lemma ShapeOfKid(s: Shape, path: ObjectID, t: Shape, key: FieldKey)
    requires ShapeAt(s, path).Some?
    ensures key in t.kids ==> ShapeAt(ReplaceShape(s, path, t), path + [key]) == Some(t.kids[key])
  {
    ShapeAtReplaced(s, path, t, [key]);
    assert key in t.kids ==> ShapeAt(t, [key]) == ShapeAt(t.kids[key], []) by { assert [key][1..] == []; }
  }

  twostate lemma {:induction false} FootprintReplaced(s: Shape, new path: ObjectID, new t: Shape)
    requires old(ValidShape(s)) && ShapeAt(s, path).Some? && ShapeAt(s, path).value.footprint <= t.footprint
    ensures ReplaceShape(s, path, t).footprint == s.footprint + t.footprint
    decreases |path|
  {
    if path == [] {
      assert s.footprint + t.footprint == t.footprint;
    } else {
      FootprintReplaced(s.kids[path[0]], path[1..], t);
      assert s.kids[path[0]].footprint <= s.footprint;
    }
  }

  /** The subtree at `path` became `t`, and nothing outside it changed. */
  twostate lemma {:induction false} PathUpdated(s: Shape, new path: ObjectID, new t: Shape)
    requires old(ValidShape(s))
    requires ShapeAt(s, path).Some?
    requires t.o == ShapeAt(s, path).value.o && ValidShape(t)
    requires ShapeAt(s, path).value.footprint <= t.footprint
    requires t.footprint - ShapeAt(s, path).value.footprint !! s.footprint
    requires Same(s.footprint - ShapeAt(s, path).value.footprint)
    ensures ValidShape(ReplaceShape(s, path, t)) && ReplaceShape(s, path, t).o == s.o
    ensures ReplaceShape(s, path, t).footprint == s.footprint + t.footprint
    ensures NodeAt(old(TreeOf(s)), path).Some?
    ensures TreeOf(ReplaceShape(s, path, t)) == ReplaceAt(old(TreeOf(s)), path, TreeOf(t))
    decreases |path|
  {
    if path != [] {
      var key, sub := path[0], ShapeAt(s, path).value.footprint;
      var kid := s.kids[key];
      ShapeAtWasValid(kid, path[1..]);
      SameSubset(kid.footprint - sub, s.footprint - sub);
      PathUpdated(kid, path[1..], t);
      KidPathUpdated(s, key, sub, ReplaceShape(kid, path[1..], t));
    }
    FootprintReplaced(s, path, t);
  }

  twostate lemma NewIsApart(s: Shape, new part: set<object>, new grown: set<object>)
    requires Grown(part, grown) && forall x :: x in s.footprint ==> old(allocated(x))
    ensures grown - part !! s.footprint
  {}

  twostate lemma GrownTogether(whole: set<object>, new part: set<object>, new grown: set<object>)
    requires part <= whole && Grown(part, grown)
    ensures Grown(whole, whole + grown)
  {}

  /** As `PathUpdated`, for a subtree that grew by new objects only. */
  twostate lemma Reshaped(s: Shape, new path: ObjectID, new sub: Shape, new t: Shape)
    requires old(ValidShape(s)) && ShapeAt(s, path) == Some(sub)
    requires t.o == sub.o && ValidShape(t) && sub.footprint <= t.footprint && Grown(sub.footprint, t.footprint)
    requires Same(s.footprint - sub.footprint)
    ensures ValidShape(ReplaceShape(s, path, t)) && ReplaceShape(s, path, t).o == s.o
    ensures Grown(s.footprint, ReplaceShape(s, path, t).footprint)
    ensures NodeAt(old(TreeOf(s)), path).Some?
    ensures TreeOf(ReplaceShape(s, path, t)) == ReplaceAt(old(TreeOf(s)), path, TreeOf(t))
  {
    NewIsApart(s, sub.footprint, t.footprint);
    ShapeAtWasValid(s, path);
    GrownTogether(s.footprint, sub.footprint, t.footprint);
    PathUpdated(s, path, t);
  }

  /** The kid at `key` became `kid` through a change confined to `sub`. */
  twostate lemma KidPathUpdated(s: Shape, new key: FieldKey, new sub: set<object>, new kid: Shape)
    requires old(ValidShape(s)) && key in s.kids
    requires sub <= s.kids[key].footprint && Same(s.footprint - sub)
    requires ValidShape(kid) && kid.o == s.kids[key].o
    requires kid.footprint - s.kids[key].footprint !! s.footprint
    ensures ValidShape(WithKid(s, key, kid))
    ensures TreeOf(WithKid(s, key, kid)) == old(TreeOf(s)).(fields := old(TreeOf(s)).fields[key := TreeOf(kid)])
  {
    var rest := s.footprint - sub;
    forall k | k in s.kids && k != key ensures Same(s.kids[k].footprint) {
      assert s.kids[k].footprint <= rest;
      SameSubset(s.kids[k].footprint, rest);
    }
    assert s.kids[key].footprint <= s.footprint - {s.o, s.o.rtMeta};
    assert s.o in rest && s.o.rtMeta in rest;
    assert s.o.fields == old(s.o.fields)[key := kid.o];
    KidUpdated(s, key, kid);
  }
}

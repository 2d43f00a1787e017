/** When a module can be published, and when it can be republished. */
module Publishing {
  import opened Common
  import opened GlobalValues
  import opened StateStore
  import opened RuntimeNode
  import opened RuntimeInvariant
  import opened ChangeSet

  /** The object can count one more field. */
  predicate CanGrow(n: Node) {
    n.cell.meta.Live() && n.cell.meta.mv.metadata.size + 1 < U64_LIMIT
  }

  /** A new package can be put there, or one exists. */
  predicate PackageReady(c: Cell) {
    c.Exists() || !c.pointer.value.Exists()
  }

  predicate HoldsModule(c: Cell, p: Publication) {
    c.Exists() && c.meta.Metadata().Ok? && c.meta.Metadata().value.objectType == p.moduleType
  }

  /** The module value can be put there: its pointer is not at rest, and a module is there exactly for a
      republication. */
  predicate ModuleReady(c: Cell, p: Publication, isRepublishing: bool) {
    !c.pointer.value.Exists() && (if isRepublishing then HoldsModule(c, p) else !c.Exists())
  }

  /** The module's cell as the call finds it, in a package that exists or in one it creates. */
  function ModuleCell(package: Node, p: Publication): Cell {
    if p.moduleKey in package.fields then package.fields[p.moduleKey].cell
    else
      var stored := if package.Exists() then GetFieldAt(package.Root(), p.moduleKey) else None;
      Resident(stored, package.cell.meta.Id() + [p.moduleKey]).cell
  }

  function PackageNode(n: Node, p: Publication): Node
    requires LoadField(n, p.packageKey).Ok?
  {
    LoadField(n, p.packageKey).value.0.fields[p.packageKey]
  }

  /** What a caller can look up before publishing. */
  predicate CanPublish(n: Node, p: Publication, isRepublishing: bool) {
    && LoadField(n, p.packageKey).Ok?
    && var package := PackageNode(n, p);
    && PackageReady(package.cell)
    && ModuleReady(ModuleCell(package, p), p, isRepublishing)
    && (if package.Exists() then isRepublishing || CanGrow(package) else CanGrow(n))
  }

  // ---------- one module, one package ----------

  lemma ReplaceExactly(c: Cell, id: ObjectID, o: Option<ObjectState>, p: Publication, r: bool)
    requires CellInv(c, id, o)
    ensures ReplaceModule(c, p, r).Ok? <==> ModuleReady(c, p, r)
    ensures HoldsModule(c, p) && c.pointer.value.Exists() ==> ReplaceModule(c, p, true) == Err(ResourceAlreadyExists)
  {}

  /** Storing in a package that exists. */
  lemma StoreExactly(n: Node, id: ObjectID, o: Option<ObjectState>, p: Publication, r: bool)
    requires NodeInv(n, id, o) && n.Exists()
    ensures StoreModule(n, p, r).Ok? <==> ModuleReady(ModuleCell(n, p), p, r) && (r || CanGrow(n))
    ensures HoldsModule(ModuleCell(n, p), p) && ModuleCell(n, p).pointer.value.Exists() ==>
              StoreModule(n, p, true) == Err(ResourceAlreadyExists)
  {
    var n1, k := LoadField(n, p.moduleKey).value.0, p.moduleKey;
    LoadFieldKeeps(n, id, o, k);
    assert n1.fields[k].cell == ModuleCell(n, p);
    ReplaceExactly(n1.fields[k].cell, id + [k], FieldOf(o, k), p, r);
  }

  lemma CreateExactly(c: Cell, id: ObjectID, o: Option<ObjectState>, p: Publication)
    requires CellInv(c, id, o) && !c.Exists()
    ensures CreatePackage(c, p).Ok? <==> PackageReady(c)
    ensures CreatePackage(c, p).Ok? ==> CreatePackage(c, p).value.meta.Id() == c.meta.Id()
  {}

  lemma PackageExactly(n: Node, id: ObjectID, o: Option<ObjectState>, p: Publication)
    requires NodeInv(n, id, o) && LoadField(n, p.packageKey).Ok?
    ensures LoadOrCreatePackage(n, p).Ok? <==> PackageReady(PackageNode(n, p).cell)
    ensures PackageNode(n, p).Exists() <==> HasField(n, p.packageKey)
  {
    LoadFieldKeeps(n, id, o, p.packageKey);
    var c := PackageNode(n, p).cell;
    if !c.Exists() {
      CreateExactly(c, id + [p.packageKey], FieldOf(o, p.packageKey), p);
    }
  }

  /** The package the module is stored in, where the call finds the same module cell as the caller did. */
  lemma PackageFound(n: Node, id: ObjectID, o: Option<ObjectState>, p: Publication)
    requires NodeInv(n, id, o) && LoadOrCreatePackage(n, p).Ok?
    ensures var (n1, before) := (LoadOrCreatePackage(n, p).value, PackageNode(n, p));
            var package := n1.fields[p.packageKey];
            && NodeInv(package, id + [p.packageKey], FieldOf(o, p.packageKey)) && package.Exists() && n1.cell == n.cell
            && ModuleCell(package, p) == ModuleCell(before, p)
            && (before.Exists() ==> package == before) && (!before.Exists() ==> CanGrow(package))
  {
    var k := p.packageKey;
    PackageKeeps(n, id, o, p);
    LoadFieldKeeps(n, id, o, k);
    var c := PackageNode(n, p).cell;
    if !c.Exists() {
      CreateExactly(c, id + [k], FieldOf(o, k), p);
      CreatePackageKeeps(c, id + [k], FieldOf(o, k), p);
    }
  }

  // ---------- publishing ----------

  lemma GrowExactly(n: Node)
    ensures GrowNode(n).Ok? <==> CanGrow(n)
  {}

  lemma StoreAndCountExactly(n: Node, p: Publication, r: bool, newPackage: bool)
    requires p.packageKey in n.fields
    ensures StoreAndCount(n, p, r, newPackage).Ok? <==>
            StoreModule(n.fields[p.packageKey], p, r).Ok? && (newPackage ==> CanGrow(n))
  {
    if StoreInPackage(n, p, r).Ok? {
      GrowExactly(StoreInPackage(n, p, r).value);
    }
  }

  /** Publishing and republishing succeed exactly when what a caller can look up before says so. */
  lemma PublishExactly(n: Node, id: ObjectID, o: Option<ObjectState>, p: Publication, r: bool)
    requires NodeInv(n, id, o)
    ensures PublishModule(n, p, r).Ok? <==> CanPublish(n, p, r)
  {
    if LoadField(n, p.packageKey).Ok? {
      PackageExactly(n, id, o, p);
      if LoadOrCreatePackage(n, p).Ok? {
        PackageFound(n, id, o, p);
        var n1 := LoadOrCreatePackage(n, p).value;
        StoreExactly(n1.fields[p.packageKey], id + [p.packageKey], FieldOf(o, p.packageKey), p, r);
        StoreAndCountExactly(n1, p, r, !HasField(n, p.packageKey));
      }
    }
  }

  /** In a package that exists, a republication succeeds exactly if the module is there with its type and its pointer
      is not at rest; if only the pointer stands in the way, the error says so. */
  lemma RepublishExactly(n: Node, id: ObjectID, o: Option<ObjectState>, p: Publication)
    requires NodeInv(n, id, o) && LoadField(n, p.packageKey).Ok? && PackageNode(n, p).Exists()
    ensures var c := ModuleCell(PackageNode(n, p), p);
            && (PublishModule(n, p, true).Ok? <==> HoldsModule(c, p) && !c.pointer.value.Exists())
            && (HoldsModule(c, p) && c.pointer.value.Exists() ==> PublishModule(n, p, true) == Err(ResourceAlreadyExists))
  {
    PublishExactly(n, id, o, p, true);
    PackageExactly(n, id, o, p);
    PackageFound(n, id, o, p);
    StoreExactly(PackageNode(n, p), id + [p.packageKey], FieldOf(o, p.packageKey), p, true);
    StoreFails(LoadOrCreatePackage(n, p).value, p, !HasField(n, p.packageKey));
  }

  lemma StoreFails(n: Node, p: Publication, newPackage: bool)
    requires p.packageKey in n.fields
    ensures StoreModule(n.fields[p.packageKey], p, true).Err? ==>
              StoreAndCount(n, p, true, newPackage) == Err(StoreModule(n.fields[p.packageKey], p, true).error)
  {}

  lemma StoredAtRest(n: Node, id: ObjectID, o: Option<ObjectState>, p: Publication, r: bool)
    requires NodeInv(n, id, o) && StoreModule(n, p, r).Ok?
    ensures var c := ModuleCell(StoreModule(n, p, r).value, p);
            HoldsModule(c, p) && c.pointer.value.Exists()
  {
    LoadFieldKeeps(n, id, o, p.moduleKey);
    var c := LoadField(n, p.moduleKey).value.0.fields[p.moduleKey].cell;
    ReplaceModuleKeeps(c, id + [p.moduleKey], FieldOf(o, p.moduleKey), p, r);
    ReplacedAtRest(c, p, r);
  }

  lemma ReplacedAtRest(c: Cell, p: Publication, r: bool)
    requires ReplaceModule(c, p, r).Ok?
    ensures HoldsModule(ReplaceModule(c, p, r).value, p) && ReplaceModule(c, p, r).value.pointer.value.Exists()
  {}

  /** So a module that this runtime has published, or republished, cannot be republished in it: its pointer is still
      at rest. */
  lemma RepublishFailsAfterPublish(n: Node, id: ObjectID, o: Option<ObjectState>, p: Publication, r: bool, x: Bytes)
    requires NodeInv(n, id, o) && PublishModule(n, p, r).Ok?
    ensures PublishModule(PublishModule(n, p, r).value, p.(moduleValue := x), true) == Err(ResourceAlreadyExists)
  {
    var m, q := PublishModule(n, p, r).value, p.(moduleValue := x);
    PublishedFields(n, p, r);
    PackageFound(n, id, o, p);
    var package := LoadOrCreatePackage(n, p).value.fields[p.packageKey];
    StoreModuleKeeps(package, id + [p.packageKey], FieldOf(o, p.packageKey), p, r);
    StoredAtRest(package, id + [p.packageKey], FieldOf(o, p.packageKey), p, r);
    PublishKeeps(n, id, o, p, r);
    ResidentPackage(m, q);
    assert ModuleCell(PackageNode(m, q), q) == ModuleCell(PackageNode(m, q), p);
    RepublishExactly(m, id, o, q);
  }

  lemma ResidentPackage(n: Node, p: Publication)
    requires p.packageKey in n.fields && !n.cell.meta.MetaNone?
    ensures LoadField(n, p.packageKey).Ok? && PackageNode(n, p) == n.fields[p.packageKey]
  {}

  /** A module that is stored, and not loaded yet, can be republished exactly if it has its type and its pointer is not
      stored with it; and that is how a published module is committed. */
  lemma StoredRepublishes(n: Node, id: ObjectID, o: Option<ObjectState>, p: Publication)
    requires NodeInv(n, id, o) && LoadField(n, p.packageKey).Ok? && PackageNode(n, p).Exists()
    requires p.moduleKey !in PackageNode(n, p).fields && p.moduleKey in PackageNode(n, p).Root().fields
    ensures var stored := PackageNode(n, p).Root().fields[p.moduleKey].metadata;
            PublishModule(n, p, true).Ok? <==> stored.objectType == p.moduleType && stored.IsEmbedded()
  {
    RepublishExactly(n, id, o, p);
  }

  lemma ReplacedIsEmbedded(c: Cell, id: ObjectID, o: Option<ObjectState>, p: Publication, r: bool, now: nat)
    requires CellInv(c, id, o) && ReplaceModule(c, p, r).Ok?
    ensures var d := ReplaceModule(c, p, r).value;
            d.meta.Live() && Stamped(d, now).IsEmbedded() && Stamped(d, now).objectType == p.moduleType
  {}

  lemma StoredIsEmbedded(n: Node, id: ObjectID, o: Option<ObjectState>, p: Publication, r: bool, now: nat)
    requires NodeInv(n, id, o) && StoreModule(n, p, r).Ok?
    ensures var c := ModuleCell(StoreModule(n, p, r).value, p);
            c.meta.Live() && Stamped(c, now).IsEmbedded() && Stamped(c, now).objectType == p.moduleType
  {
    LoadFieldKeeps(n, id, o, p.moduleKey);
    ReplacedIsEmbedded(LoadField(n, p.moduleKey).value.0.fields[p.moduleKey].cell, id + [p.moduleKey],
                       FieldOf(o, p.moduleKey), p, r, now);
  }

  lemma PublishedIsCommittedWithoutPointer(n: Node, id: ObjectID, o: Option<ObjectState>, p: Publication, r: bool, now: nat)
    requires NodeInv(n, id, o) && PublishModule(n, p, r).Ok?
    ensures p.packageKey in PublishModule(n, p, r).value.fields
    ensures var c := ModuleCell(PublishModule(n, p, r).value.fields[p.packageKey], p);
            c.meta.Live() && Stamped(c, now).IsEmbedded() && Stamped(c, now).objectType == p.moduleType
  {
    PublishedFields(n, p, r);
    PackageFound(n, id, o, p);
    StoredIsEmbedded(LoadOrCreatePackage(n, p).value.fields[p.packageKey], id + [p.packageKey], FieldOf(o, p.packageKey),
                     p, r, now);
  }
}

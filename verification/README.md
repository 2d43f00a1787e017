# Rooch: verified models of five components

Dafny models of the parts of Rooch where one form of data stands in for another, with proofs that it may. `dafny verify
dfyconfig.toml` checks the whole project.

**Object runtime** (`GlobalValues`, `RuntimeMeta`, `StateStore`, `RuntimeNode`, `RuntimeInvariant`, `ChangeSet`,
`Soundness`, `Shown`, `ReadYourWrites`, `SizeAccounting`, `SizeOverRuns`, `Transactions`, `Timestamps`, `Lookup`,
`PointerLinearity`, `Publishing`, `Arguments`, `ObjectViews`, `ObjectRuntime`). The runtime of a transaction is a
lazily loaded, mutable tree over the persisted object tree; at the end it is folded into a change set. Every object
runs three state machines at once: metadata, value, and the `Object<T>` pointer. `RuntimeNode` is the specification, a
state machine on values; `ObjectRuntime` holds the mutable classes, proved against it down to the heap: each call
changes the tree of objects as specified and nothing else, through whatever path it is reached. `ObjectViews` says
what all this comes to for a caller: on views that know nothing of loading or of states, every call is shown to have
exactly the outcome, the answer and the error that the runtime gives.

**Type tags** (`TypeTags`, `TypeTagText`, `TypeTagRoundTrip`, `TypeTagAcceptance`, `TypeTagGrammar`, `TypeTagTables`).
The matching relation, the printer, the mutually recursive parser with its bracket counter, and which texts it takes for
which tag.

**Indexer queries** (`QueryStrings`, `Pagination`). A string range stands for a type and all its instantiations, and
keyset cursors stand for a full scan.

**BRC-20 replay** (`Brc20Ledger`, `Brc20Accounts`, `Brc20Tables`). Deploy, mint and transfer over three tables with
32-bit columns, and what they come to for every account and every transaction.

**DA segments** (`Segment`). The byte layout with its checksums, and the text form of segment ids.

`Common` and `Strings` hold shared types and string search.

## Where the code and its promises part

Each of these is a proved fact about the code as it is, with the exact condition where there is one.

- A stored field that is removed, added and removed again in one run stays in the store
  (`Soundness.RemovingTwiceLosesTheRemoval`), and an object that is removed and added back while one of its fields is
  resident and untouched loses that field (`Soundness.ReplacingLosesResidentFields`). `Soundness.ChangeSetExact` shows
  that these are the only two ways in which a change set can be wrong. The second cannot happen while objects are
  removed only when they have no fields, as `object::remove` demands; the first can, and a debug build stops at the
  assertion in the fold.
- A module published in a runtime cannot be republished in the same runtime (`Publishing.RepublishFailsAfterPublish`),
  since its pointer is at rest there; it can be in the next one. `Publishing.PublishExactly` gives the exact condition
  under which publishing and republishing succeed.
- A pointer that is taken out is recorded in the stored owner only if the pointer itself had been stored before, so a
  pointer created, returned and taken again in one transaction is found at rest by the next one; so is the pointer of a
  shared or frozen object (`PointerLinearity.NextPointerAgrees` gives the condition).
- A newly found absence absorbs the cost of the parents loaded on the way to it (`Lookup.LoadPathCost`).
- `parse_type_tag` promises to accept what `to_string` prints, but refuses every vector of structs in the short form:
  only texts that start with `0x` are parsed with short addresses (`TypeTagAcceptance.ParseTypeTagReadsBack`).
- A query by a type with parameters is equality, so it can miss instantiations below the top level that the tag filter
  accepts. It agrees with the tag filter on all types exactly if every struct below the filter names its parameters
  (`QueryStrings.QueryWithParamsAgrees`).
- The incremented query string is an upper bound of its prefix unless all characters are the largest, but a tight one
  only under the condition of `QueryStrings.IncrementIsTight`; the type queries do not depend on its being tight.
- `SegmentV0::from_bytes` does not look at the version byte, and takes every nonzero flag byte for true, so accepted
  bytes are not always re-encoded to themselves: they are exactly under the condition of `Segment.DecodeEncode`, and
  `Segment.SomeAreRespelled` gives accepted bytes that are not.

## Model

| member | source | states |
|---|---|---|
| Soundness.ChangeSetExact | moveos/moveos-object-runtime/src/runtime.rs:438-460 | For every run from a new runtime the fold and its application succeed, and applying the change set gives the tree the runtime was showing, with its stamps, if and only if the final tree is faithful: no stored object was forgotten by a removal, no untouched leftover sits below a replaced object |
| Soundness.CarefulRunIsSound | moveos/moveos-object-runtime/src/runtime.rs:438-460 | Runs in which no call removes a field it has added back over the stored one, and none fills a field above objects still shown, always commit exactly the tree shown |
| SizeAccounting.GuardedRunIsSound | frameworks/moveos-stdlib/sources/object.move:287-291 | From a store whose sizes are field counts, runs that remove only objects without fields and remove no field twice always commit exactly the tree shown |
| Soundness.RemovingTwiceLosesTheRemoval | moveos/moveos-object-runtime/src/runtime_object.rs:327-333 | Removing a stored field, adding it and removing it again succeeds, shows no field, and commits a change set after which the store still holds it |
| Soundness.ReplacingLosesResidentFields | moveos/moveos-object-runtime/src/runtime_object.rs:254-335 | Removing an object and adding it back while one of its own fields is resident and untouched commits a change set that loses this field, which the runtime still shows |
| ChangeSet.ChangeApplies | moveos/moveos-store/src/state_store/statedb.rs:84-132 | Applying an object's change succeeds; it removes an object that is gone, and stores stamped metadata, value and applied field root of one that exists |
| ChangeSet.SettleIsStamped | moveos/moveos-object-runtime/src/runtime_object.rs:254-305 | The metadata written for an existing object: a written value is updated now, and created now if it had no creation time; an unwritten one keeps both times; the owner is the system exactly if the stored pointer is gone; nothing else changes |
| ChangeSet.IntoChangeSucceeds | moveos/moveos-object-runtime/src/runtime_object.rs:254-335 | In reachable trees the fold never meets missing metadata, and it is silent exactly for absent objects and untouched ones all of whose resident fields are silent |
| ChangeSet.FieldChangesApply | moveos/moveos-store/src/state_store/statedb.rs:135-189 | Applying the changes of all fields puts every outcome at its key and leaves every unmentioned key as stored |
| Shown.CommittedIsRead | moveos/moveos-object-runtime/src/runtime_object.rs:202-240 | The committed tree holds, at every path, the value that reading the object loaded there answers and its stamped metadata, and nothing where loading finds nothing |
| Shown.LoadingCommitsTheSame | moveos/moveos-object-runtime/src/runtime_object.rs:202-240 | Loading a field, present or absent, changes nothing that is committed |
| ReadYourWrites.ReadsElsewhereStay | moveos/moveos-object-runtime/src/runtime_object.rs:456-516 | A call at any depth changes nothing that is read anywhere but in its own object and the one field it is about, resident or still in the store |
| ReadYourWrites.AddedIsRead | moveos/moveos-object-runtime/src/runtime_object.rs:456-480 | An added field was not read before, and reads as the value and type given |
| ReadYourWrites.WrittenIsRead | moveos/moveos-object-runtime/src/runtime_object.rs:505-516 | A written field reads as the value written, with the metadata and pointer it had |
| ReadYourWrites.WrittenKeepsBelow | moveos/moveos-object-runtime/src/runtime_object.rs:505-516 | Writing a value changes nothing below it |
| ReadYourWrites.RemovedIsGone | moveos/moveos-object-runtime/src/runtime_object.rs:482-503 | A removed field was read before, and neither it nor anything below it is read afterwards |
| ReadYourWrites.PublishedIsRead | moveos/moveos-object-runtime/src/runtime.rs:318-366 | A published module reads as the module value given, in a package that exists |
| ReadYourWrites.ReadsThrough | moveos/moveos-object-runtime/src/runtime_object.rs:202-240 | After a call at any depth, reading through its path is reading the object the call left there |
| Transactions.CommitsAreShown | moveos/moveos-store/src/state_store/statedb.rs:135-189 | Over any sequence of guarded transactions, each on the store the one before left, every commit succeeds and stores exactly the tree its runtime was showing, and the last root is again one whose objects carry the ids of their paths and the numbers of their fields |
| Transactions.NextRoot | moveos/moveos-types/src/moveos_std/object.rs:471-482 | The root that a guarded transaction leaves has the root's id, type, owner and flags, is not embedded, and its size is the number of its fields |
| ChangeSet.ChangeKinds | moveos/moveos-object-runtime/src/runtime_object.rs:258-269 | A change says New only of a key its parent stores nothing under, Modify or Delete only of an object that is stored, and nothing of a value only if the stored one stands; what it says is what reading answers |
| StateStore.ApplyingFails | moveos/moveos-store/src/state_store/statedb.rs:84-132 | Applying a change fails if and only if it, or one it applies below it, says no value of an object that is not stored |
| Timestamps.TimesAreExact | moveos/moveos-object-runtime/src/runtime_object_meta.rs:247-254 | After every run with a right change set, an object not stored before, or made anew, is stored as created and updated now; a written one as updated now and created when it was; any other with its value and both times as they were |
| Timestamps.AddedIsStored | moveos/moveos-object-runtime/src/runtime_object.rs:456-480 | A field added by the last call of a guarded transaction is stored, if its object is read, as exactly this: the value and type given, owned by the system, not shared or frozen, no fields, created and updated now |
| ObjectViews.EveryCallIsExact | moveos/moveos-object-runtime/src/runtime_object.rs:155-516 | In every reachable tree, every call at any depth does to the objects involved exactly what it does to their views, which only know whether an object is there, its metadata and value, and where its pointer is: the same outcome, the same answer, the same error |
| ObjectViews.CallIsExact | moveos/moveos-object-runtime/src/runtime_object.rs:155-516 | The same for one object, and so the exact conditions under which adding, removing, reading, writing, borrowing, taking and giving back succeed |
| ObjectViews.PublishAlike | moveos/moveos-object-runtime/src/runtime.rs:318-366 | Publishing does to the module store, the package and the module exactly what it does to their views: a new package belongs to the publisher and is counted, a new module is counted, a republished one takes the place of the old |
| ObjectViews.LoadedFieldIsRead | moveos/moveos-object-runtime/src/runtime_object.rs:178-240 | A stored field that is loaded can be read: it answers its stored value, to its own type alone |
| ObjectViews.PointerAlike | moveos/moveos-object-runtime/src/runtime_object.rs:361-406 | A pointer that is borrowed or taken is the one of the object itself, under exactly the conditions and with the refusals of the views |
| ObjectViews.NewRootView | moveos/moveos-object-runtime/src/runtime.rs:112-131 | The root of a new runtime reads as the stored root, its pointer at rest |
| RuntimeInvariant.ReachableJointState | moveos/moveos-object-runtime/src/runtime_object_meta.rs:55-102 | At every node of every reachable tree metadata and value are in one of six joint states, the value exists exactly if the metadata is fresh or cached, the pointer is the one of the node's own object, borrowed at most once, with a reference count of at most two |
| RuntimeInvariant.RunKeeps | moveos/moveos-object-runtime/src/runtime_object.rs:155-191 | Every run of successful calls keeps the invariant of the whole tree against the store it was loaded from |
| RuntimeInvariant.MoveToKeeps | moveos/moveos-object-runtime/src/runtime_object.rs:155-176 | A value moves only into an object that does not exist, which so becomes fresh with no fields and size zero: the initialiser never meets fresh or cached metadata |
| RuntimeInvariant.MoveFromKeeps | moveos/moveos-object-runtime/src/runtime_object.rs:183-191 | A value moves only out of an object that exists and leaves one that does not, in a legal joint state |
| SizeAccounting.CallKeepsImbalance | moveos/moveos-object-runtime/src/runtime_object.rs:456-503 | No call, on any reachable tree, changes the difference between an object's recorded size and its number of existing fields |
| SizeAccounting.AddKeepsImbalance | moveos/moveos-object-runtime/src/runtime_object.rs:456-480 | Adding succeeds only for a field that does not exist, and counts exactly the field added |
| SizeAccounting.RemoveKeepsImbalance | moveos/moveos-object-runtime/src/runtime_object.rs:482-503 | Removing succeeds only for a field that exists, and discounts exactly the field removed |
| SizeAccounting.PublishKeepsImbalance | moveos/moveos-object-runtime/src/runtime.rs:318-366 | Publishing counts a package in the store exactly if it created one |
| SizeAccounting.StoreModuleKeepsImbalance | moveos/moveos-object-runtime/src/runtime.rs:336-365 | Storing a module counts one more in the package exactly if it is not a republication, and fails unless that agrees with the module being there |
| SizeOverRuns.SizeMovesWithFields | moveos/moveos-object-runtime/src/runtime_object.rs:456-503 | Over any run, an object that is stored and never replaced is there at the end, its size has moved by exactly the change in the number of its existing fields, and removing a field does not underflow if its stored size was at least the number of its stored fields |
| SizeOverRuns.StepCounts | moveos/moveos-object-runtime/src/runtime_object.rs:456-503 | A call at any depth that does not replace the object at a path, or one above it, leaves it there with size and number of fields moved alike |
| SizeAccounting.SizeIsFieldCount | moveos/moveos-object-runtime/src/runtime_object_meta.rs:196-245 | Over every run that removes only objects without fields, the size of every live object at any depth is its number of existing fields, and the underflow error is unreachable |
| SizeAccounting.ShownKeysAreCommitted | moveos/moveos-object-runtime/src/runtime_object.rs:202-240 | The fields counted are the fields committed |
| PointerLinearity.PointerLedger | moveos/moveos-object-runtime/src/runtime_object.rs:361-451 | Over any run, publishing included, resting places before plus times put to rest equal resting places after plus takes: a pointer is never taken twice without being put back between, nor put back twice |
| PointerLinearity.RestStays | moveos/moveos-object-runtime/src/runtime_object.rs:361-451 | While it is not taken, a pointer at rest stays there over any run, and its object keeps owner and flags for as long as it exists |
| PointerLinearity.ReturnedIsAtRestNext | moveos/moveos-object-runtime/src/runtime_object.rs:409-451 | After a pointer is given back, a run that does not take it again leaves it at rest; an object that still exists is committed with the owner and flags the call named, and the next transaction finds the pointer at rest exactly if these do not make the object embedded |
| Publishing.PublishExactly | moveos/moveos-object-runtime/src/runtime.rs:318-366 | Publishing or republishing succeeds if and only if what can be looked up before says so: the pointer of the module is not at rest; the module is there with its type for a republication, and not there otherwise; the package exists or can be created; and what is counted can grow |
| Publishing.RepublishExactly | moveos/moveos-object-runtime/src/runtime.rs:318-366 | In a package that exists, a republication succeeds if and only if the module is there with its type and its pointer is not at rest; if only the pointer stands in the way, the error says so |
| Publishing.RepublishFailsAfterPublish | moveos/moveos-object-runtime/src/runtime.rs:318-366 | So a module published or republished in a runtime cannot be republished in it |
| Publishing.StoredRepublishes | moveos/moveos-object-runtime/src/runtime.rs:318-366 | A module that is stored and not loaded yet can be republished if and only if it has its type and its pointer is not stored with it |
| Publishing.PublishedIsCommittedWithoutPointer | moveos/moveos-object-runtime/src/runtime.rs:318-366 | And a published module is committed so: the next transaction can republish it |
| PointerLinearity.PointerAccess | moveos/moveos-object-runtime/src/runtime_object.rs:361-406 | A pointer can be taken exactly if it is at rest and not borrowed; taken or borrowed, it can be neither taken nor borrowed again; releasing a borrow restores the object |
| PointerLinearity.OutMeansSystemOwned | moveos/moveos-object-runtime/src/runtime_object.rs:271-305 | A stored pointer that is out at the end leaves its object owned by the system in the committed state |
| PointerLinearity.NextPointerAgrees | moveos/moveos-object-runtime/src/runtime_object.rs:95-112 | The next transaction finds the pointer where this one left it exactly if owner and flags say so: the condition, for every reachable object |
| PointerLinearity.CreatedThenTakenIsAtRestNext | moveos/moveos-object-runtime/src/runtime_object.rs:271-305 | An object created, transferred to a user and taken again in one run has its pointer out, but the next transaction finds it at rest |
| Arguments.LoadThenRelease | moveos/moveos-object-runtime/src/runtime.rs:372-425 | Loading arguments succeeds only for pairwise distinct objects and records exactly one entry for each; after release every object is seen as before, except that pointers passed by value are taken |
| Arguments.ByValueEndsSystemOwned | moveos/moveos-object-runtime/src/runtime_object.rs:271-305 | An object passed by value whose pointer the run never puts back to rest, if it still exists at the end, is to be committed as owned by the system |
| Arguments.ByValueIsStoredSystemOwned | moveos/moveos-object-runtime/src/runtime_object.rs:271-305 | In the store that results from applying the change set of such a run, if its final tree is faithful, the object, unless it is the root, is owned by the system |
| Arguments.LoadArgumentsRecords | moveos/moveos-object-runtime/src/runtime.rs:372-406 | Arguments already held block a second load of the same object, at any point of the list |
| Lookup.LookupAgreement | moveos/moveos-types/src/state_resolver.rs:43-58 | After any reads, loading an id finds an object that answers exactly the metadata and value the resolver finds, or one that has none; it fails, for missing data, exactly if the resolver finds no parent |
| Lookup.LoadedIsStored | moveos/moveos-object-runtime/src/runtime.rs:247-264 | After any reads, looking for a loaded object finds it exactly if it is resident and stored, as it is stored |
| Lookup.GetObjectWalks | moveos/moveos-types/src/state_resolver.rs:32-58 | The resolver's recursion on the parent id is a walk down the stored tree |
| Lookup.ReadOnlyRunCommitsNothing | moveos/moveos/src/vm/moveos_vm.rs:590-598 | A run of loads, reads and borrows has no change at any node, and its change set is empty over the root and size it started from |
| Lookup.SumLoadCostLaws | moveos/moveos-object-runtime/src/runtime.rs:468-479 | Adding load costs is associative and commutative, with the resident cost as identity and a newly found absence as absorbing element |
| Lookup.LoadPathCost | moveos/moveos-object-runtime/src/runtime.rs:229-245 | Loading costs nothing if the object is resident, is a newly found absence if it is absent, and otherwise costs exactly the bytes made resident along the path |
| Lookup.ChargedOnce | moveos/moveos-object-runtime/src/runtime.rs:229-245 | Once an object has been loaded, no later calls make loading it cost anything again |
| Lookup.LoadPathByParent | moveos/moveos-object-runtime/src/runtime.rs:229-245 | Loading the parent and then one field is loading the whole path: the same tree, cost and error |
| Lookup.StepIsLoadThenCall | frameworks/moveos-stdlib/src/natives/moveos_stdlib/object/object_fn.rs:237-262 | A native call is a load of the object followed by the call on the node loaded, and changes nothing elsewhere |
| ObjectRuntimes.RuntimeObject.Load | moveos/moveos-object-runtime/src/runtime_object.rs:95-112 | A loaded object is the specified cell: the stored metadata and value, and its own pointer at rest unless it is embedded |
| ObjectRuntimes.RuntimeObject.MoveTo | moveos/moveos-object-runtime/src/runtime_object.rs:155-176 | The mutable object becomes what the specification makes of it, or fails as specified |
| ObjectRuntimes.RuntimeObject.MoveFrom | moveos/moveos-object-runtime/src/runtime_object.rs:183-191 | Moves the value out with type and existence checks as specified |
| ObjectRuntimes.RuntimeObject.BorrowObject | moveos/moveos-object-runtime/src/runtime_object.rs:361-388 | Borrows the pointer as specified, with the three distinct refusals |
| ObjectRuntimes.RuntimeObject.TakeObject | moveos/moveos-object-runtime/src/runtime_object.rs:390-406 | Takes the pointer as specified |
| ObjectRuntimes.RuntimeObject.TransferObject | moveos/moveos-object-runtime/src/runtime_object.rs:409-418 | Returns the pointer and changes the owner as specified |
| ObjectRuntimes.RuntimeObject.LoadField | moveos/moveos-object-runtime/src/runtime_object.rs:202-240 | The tree of objects becomes the specified tree, with the specified cost; new objects only are added to it |
| ObjectRuntimes.RuntimeObject.AddField | moveos/moveos-object-runtime/src/runtime_object.rs:456-480 | The tree of objects becomes the specified tree, or the call fails as specified; the pointer handed out is the one of the field's object |
| ObjectRuntimes.RuntimeObject.RemoveField | moveos/moveos-object-runtime/src/runtime_object.rs:482-503 | The tree of objects becomes the specified tree, or the call fails as specified; the value handed out is the one the field had |
| ObjectRuntimes.RuntimeObject.WriteField | moveos/moveos-object-runtime/src/runtime_object.rs:505-516 | Borrowing a field and writing through the reference changes the specified tree and no other |
| ObjectRuntimes.RuntimeObject.BorrowField | moveos/moveos-object-runtime/src/runtime_object.rs:505-516 | Loads the field and answers its value, as specified |
| ObjectRuntimes.RuntimeObject.ContainsField | frameworks/moveos-stdlib/src/natives/moveos_stdlib/object/object_field_fn.rs:117-179 | Loads the field and answers whether it has a value, of the given type if there is one |
| ObjectRuntimes.RuntimeObject.PublishModule | moveos/moveos-object-runtime/src/runtime.rs:318-366 | The tree of objects becomes the specified tree, or the call fails as specified |
| ObjectRuntimes.RuntimeObject.SettleMeta | moveos/moveos-object-runtime/src/runtime_object.rs:256-305 | The metadata to write, settled on a copy, is the specified one |
| ObjectRuntimes.RuntimeObject.FieldsIntoChange | moveos/moveos-object-runtime/src/runtime_object.rs:307-313 | The loop over the resident fields collects exactly the specified changes, in whatever order it visits them |
| ObjectRuntimes.RuntimeObject.IntoChange | moveos/moveos-object-runtime/src/runtime_object.rs:254-335 | Folding the mutable tree gives the specified change |
| ObjectRuntimes.ObjectRuntime.constructor | moveos/moveos-object-runtime/src/runtime.rs:112-131 | A new runtime shows the root object and nothing resident |
| ObjectRuntimes.ObjectRuntime.LoadObject | moveos/moveos-object-runtime/src/runtime.rs:229-245 | The recursion on the parent id loads the specified tree at the specified cost and returns the object at that path |
| ObjectRuntimes.ObjectRuntime.Dispatch | frameworks/moveos-stdlib/src/natives/moveos_stdlib/object/object_fn.rs:237-262 | A native call on any object of the mutable tree is the specified step of the whole tree, with the specified answer: nothing else changes, through no alias |
| ObjectRuntimes.ObjectRuntime.LoadArguments | moveos/moveos-object-runtime/src/runtime.rs:372-406 | The loop over the arguments gives the specified tree and held pointers, or fails as specified |
| ObjectRuntimes.ObjectRuntime.ReleaseArguments | moveos/moveos-object-runtime/src/runtime.rs:410-425 | The loop over the held arguments, in whatever order, drops exactly one reference for each held by reference and forgets them all |
| Arguments.ReleasedOneMore | moveos/moveos-object-runtime/src/runtime.rs:410-425 | Releasing one more argument drops one reference at its object, if it is held by reference, and changes nothing else |
| ObjectRuntimes.ObjectRuntime.GetLoadedObject | moveos/moveos-object-runtime/src/runtime.rs:247-264 | The recursion on the parent id finds the object of the specified loaded node, or none |
| ObjectRuntimes.ObjectRuntime.IntoChangeSet | moveos/moveos-object-runtime/src/runtime.rs:438-460 | The change set of the mutable tree is the specified one |
| TypeTags.MatchReflexive | moveos/moveos-types/src/move_types.rs:115-152 | Tag matching is reflexive |
| TypeTags.MatchTransitive | moveos/moveos-types/src/move_types.rs:115-121 | Tag matching is transitive at any depth, jointly with struct matching |
| TypeTags.StructMatchTransitive | moveos/moveos-types/src/move_types.rs:124-152 | Struct matching is transitive at any depth |
| TypeTags.MatchAntisymmetric | moveos/moveos-types/src/move_types.rs:115-121 | Tags that match each other are equal |
| TypeTags.StructMatchAntisymmetric | moveos/moveos-types/src/move_types.rs:124-152 | Struct tags that match each other are equal |
| TypeTags.StructTagMatch | moveos/moveos-types/src/move_types.rs:124-152 | The loop with early return decides the matching relation |
| TypeTags.TypeTagMatch | moveos/moveos-types/src/move_types.rs:115-121 | The mutual recursion decides the matching relation |
| TypeTagRoundTrip.RoundTrip | moveos/moveos-types/src/move_types.rs:251-272 | Parsing the printed form of any tag with 32-byte addresses and ordinary names gives the tag back, at every depth, in both address forms and with any spaces after commas |
| TypeTagRoundTrip.StructRoundTrip | moveos/moveos-types/src/move_types.rs:274-314 | The same for struct tags |
| TypeTagRoundTrip.ListRoundTrip | moveos/moveos-types/src/move_types.rs:316-348 | The same for parameter lists |
| TypeTagRoundTrip.SplitList | moveos/moveos-types/src/move_types.rs:321-342 | Cut by the depth counter, a printed list falls apart exactly into its elements: the counter is zero exactly at the top-level commas |
| TypeTagRoundTrip.PrintShape | moveos/moveos-types/src/move_types.rs:321-342 | Printed tags have nested brackets that enclose all their commas, and start and end with no white space |
| TypeTagText.SplitAndParse | moveos/moveos-types/src/move_types.rs:321-342 | The one-pass loop with depth and start is cutting first and parsing the pieces in order until one fails, for any parser |
| TypeTagText.ParseTypeParams | moveos/moveos-types/src/move_types.rs:316-348 | The parameter parser with the loop is the specified one, refusing empty lists |
| TypeTagText.PiecesShorter | moveos/moveos-types/src/move_types.rs:251-348 | No piece is longer than the list it is cut from: with lists shorter than their tags, this ends the mutual recursion of the three parsers on every text, malformed ones included |
| TypeTagAcceptance.ParsedIsWellFormed | moveos/moveos-types/src/move_types.rs:251-348 | Whatever is accepted, malformed texts included, has 32-byte addresses and ordinary names throughout |
| TypeTagAcceptance.AcceptedSurvives | moveos/moveos-types/src/move_types.rs:251-348 | Every accepted tag survives printing and parsing again |
| TypeTagAcceptance.PrintInjective | moveos/moveos-types/src/move_types.rs:251-272 | Different tags are printed differently |
| TypeTagAcceptance.ParseTypeTagReadsBack | moveos/moveos-types/src/move_types.rs:350-365 | The parser that is to accept both forms reads every canonical text back, and of the short form all but vectors of structs, which it always refuses; short texts that start with 0x are parsed by the grammar of this model in place of move-core-types |
| TypeTagTables.NamesAreParsed | moveos/moveos-types/src/move_types.rs:251-263 | A text is parsed to a tag without parts if and only if it is the name in the table, in either form, and the tag is printed as that name |
| TypeTagTables.MarksAreParsed | moveos/moveos-types/src/move_types.rs:350-357 | The texts of the documentation, for any address and names: two colons between address, module and name, parameters in angle brackets with a comma between, each parsed to the tag it stands for |
| TypeTagTables.DigitAddressText | moveos/moveos-types/src/move_types.rs:350-357 | An address that ends in one nonzero digit is written as 63 zeros and the digit, or as 0x and the digit |
| TypeTagTables.HexEncodedAt | moveos/moveos-types/src/move_types.rs:274-314 | Addresses are written byte by byte, high digit first, in lower-case hexadecimal digits |
| TypeTagGrammar.VectorsAreParsed | moveos/moveos-types/src/move_types.rs:264-268 | A text is parsed to a vector if and only if it is vector<, a text of the element, and > |
| TypeTagGrammar.BareStructsAreParsed | moveos/moveos-types/src/move_types.rs:274-314 | A text is parsed to a struct without parameters if and only if it is the text of its address, its module and its name, joined by double colons |
| TypeTagGrammar.StructsAreParsed | moveos/moveos-types/src/move_types.rs:274-314 | And to one with parameters if and only if a text of the parameters follows in angle brackets |
| TypeTagGrammar.ListsAreParsed | moveos/moveos-types/src/move_types.rs:316-348 | A text is parsed to a list of parameters if and only if its pieces, trimmed, are parsed to them one by one; the pieces joined by commas are the text, but for a comma that may follow the last |
| TypeTagGrammar.BothFormsAreParsed | moveos/moveos-types/src/move_types.rs:358-365 | White space around a text does not matter to the parser of both forms, and 0x at the start of what it encloses decides between them |
| QueryStrings.IncrementQueryString | crates/rooch-indexer/src/indexer_reader.rs:623-634 | The backward carry loop, with its early exit, computes the incremented string |
| QueryStrings.IncrementBoundsPrefix | crates/rooch-indexer/src/indexer_reader.rs:623-634 | The incremented string is above every string with the given prefix if and only if some character of the prefix is not the largest |
| QueryStrings.IncrementIsTight | crates/rooch-indexer/src/indexer_reader.rs:623-634 | The strings from a prefix up to the incremented one are exactly those with the prefix if and only if the last character is neither the largest nor the one before the surrogate gap |
| QueryStrings.QueryRefinesMatching | crates/rooch-indexer/src/indexer_reader.rs:576-589 | For a filter without parameters the string condition selects exactly the printed types that struct matching accepts |
| QueryStrings.QueryWithParamsIsEquality | crates/rooch-indexer/src/indexer_reader.rs:586-588 | For a filter with parameters the condition selects exactly the equal type |
| QueryStrings.QueryWithParamsAgrees | crates/rooch-indexer/src/indexer_reader.rs:586-588 | A filter with parameters agrees, on all types, with struct matching if and only if it is rigid: every struct below it names its parameters |
| QueryStrings.NotQueryIsComplement | crates/rooch-indexer/src/indexer_reader.rs:591-604 | The excluding condition holds exactly where the including one does not, for every stored string |
| QueryStrings.BetweenNeighbours | crates/rooch-indexer/src/indexer_reader.rs:608-621 | The strings from a prefix with one character up to the prefix with the next character are exactly those that start with the former |
| Pagination.DrainIsComplete | crates/rooch-indexer/src/indexer_reader.rs:287-401 | Pages from no cursor, each from the last row's cursor, until one is empty, are together the filtered table, sorted; only a descending scan of an empty table fails |
| Pagination.DrainFromCursor | crates/rooch-indexer/src/indexer_reader.rs:300-320 | From any cursor, even of a row that does not exist, the pages together are exactly the filtered rows beyond it, in order |
| Pagination.DrainFromCursorHolds | crates/rooch-indexer/src/indexer_reader.rs:300-320 | A row is in those pages if and only if it is in the filtered table and its columns, the first before the second, lie beyond the cursor |
| Pagination.SortedSelection | crates/rooch-indexer/src/indexer_reader.rs:360-383 | The sorted filtered table is in strict order by its first column, then by its second, and holds every row that satisfies the filter once |
| Pagination.AscendingIsReverse | crates/rooch-indexer/src/indexer_reader.rs:403-499 | Ascending pages together are the descending ones in reverse, whatever the page sizes |
| Pagination.RestOfRest | crates/rooch-indexer/src/indexer_reader.rs:360-376 | Restarting from the key of any row of a scan gives exactly the rows after it |
| Brc20Ledger.SupplyIsConserved | crates/data_verify/src/brc20_helper.rs:24-157 | After any operations, of any sign, exactly the ticks deployed are in the coin table, and supply left plus all overall balances equal the first deployed maximum modulo 2^32 |
| Brc20Ledger.SupplyIsExact | crates/data_verify/src/brc20_helper.rs:24-157 | With non-negative amounts this holds exactly, every row has overall = available + transferable, and no column is negative |
| Brc20Ledger.ReplayWellKept | crates/data_verify/src/brc20_helper.rs:234-340 | After any operations ticks and (tick, address) entries are unique, and overall is available plus transferable modulo 2^32 |
| Brc20Ledger.ColumnsWithinBounds | crates/data_verify/src/brc20_helper.rs:159-340 | With non-negative amounts every column of every row of both tables is between zero and the maximum of its tick |
| Brc20Ledger.NothingWraps | crates/data_verify/src/brc20_helper.rs:159-340 | With non-negative amounts no addition or subtraction of the next operation, on the coin or on a row of the sender, leaves the range from zero to the maximum, whether or not the address has an entry |
| Brc20Ledger.SupplyLeftIsUnclaimed | crates/data_verify/src/brc20_helper.rs:73-121 | What is left of a tick is its maximum less all mints within the limit since its first deployment, and never less than zero |
| Brc20Ledger.TotalIsClaimedUpToMax | crates/data_verify/src/brc20_helper.rs:73-121 | The balances of a tick add up to those mints, capped by the maximum |
| Brc20Ledger.HeldIsGranted | crates/data_verify/src/brc20_helper.rs:234-303 | Every address holds overall exactly what its own mints were granted, each its amount or the rest if less was unclaimed |
| Brc20Ledger.TransferMovesOrFails | crates/data_verify/src/brc20_helper.rs:159-232 | A transfer either moves the amount within the one entry of the sender, or moves nothing and is recorded as failed once |
| Brc20Ledger.TransferWithoutEntryFails | crates/data_verify/src/brc20_helper.rs:222-224 | A transfer without an entry changes no balance and is recorded as failed |
| Brc20Ledger.RefusedMintFails | crates/data_verify/src/brc20_helper.rs:58-92 | A mint of an undeployed tick or beyond its limit changes neither table and its transaction counts as failed |
| Brc20Accounts.RowsAreAccounts | crates/data_verify/src/brc20_helper.rs:159-303 | With non-negative amounts an address has an entry if and only if it has minted; overall is what its mints were granted, transferable the sum of its accepted transfers, available the rest, and the id is that of the transaction that last changed it |
| Brc20Accounts.FailuresAreExact | crates/data_verify/src/brc20_helper.rs:58-232 | A transaction is among the failures if and only if it was before, or is an invalid mint, or a transfer of more than its address has available; one that is among them transfers nothing |
| Brc20Accounts.CoinsAreDeployments | crates/data_verify/src/brc20_helper.rs:24-57 | Whatever the amounts, a coin has the limit and the id of the first deployment of its tick |
| Brc20Tables.ProcessTransactions | crates/data_verify/src/brc20_helper.rs:24-157 | The driver over the mutable tables computes the specified replay |
| Brc20Tables.Tables.UpdateCoin | crates/data_verify/src/brc20_helper.rs:305-340 | The rewriting loop debits exactly the rows of the tick |
| Brc20Tables.Tables.UpdateBalance | crates/data_verify/src/brc20_helper.rs:234-303 | The rewriting loop with its entry flag credits overall and available of the entry, or opens one |
| Brc20Tables.Tables.ProcessEntry | crates/data_verify/src/brc20_helper.rs:159-232 | The rewriting loop reserves in the entry or records the failure, and does nothing else |
| Brc20Tables.Tables.ProcessMint | crates/data_verify/src/brc20_helper.rs:51-126 | The branches on deployment, failure record, limit and supply come to the specified mint |
| Segment.EncodeDecode | crates/rooch-da/src/segment.rs:56-110 | Decoding an encoded segment gives it back with both checksums computed afresh, for any checksum function |
| Segment.DecodeEncode | crates/rooch-da/src/segment.rs:56-95 | Accepted bytes are encoded to themselves again if and only if the version byte is zero and the flag byte zero or one |
| Segment.AcceptedSpelling | crates/rooch-da/src/segment.rs:56-95 | For every version byte, flag byte, id and data there are bytes the decoder accepts, whatever the checksum function |
| Segment.SomeAreRespelled | crates/rooch-da/src/segment.rs:56-95 | So for every other version byte, and for every flag byte beyond one, some accepted bytes are not encoded to themselves |
| Segment.ToBytes | crates/rooch-da/src/segment.rs:98-110 | Appending field by field builds the specified layout, the header checksum over the first 34 bytes |
| Segment.HeaderFields | crates/rooch-da/src/segment.rs:98-106 | The header fields sit at the byte positions the decoder reads them from |
| Segment.DecodingFails | crates/rooch-da/src/segment.rs:56-95 | Decoding fails if and only if the bytes are fewer than 42, or the header checksum does not fit, or the data checksum does not, each with its error and in this order; by version, also if the first byte is not zero |
| Segment.FromLeAppended | crates/rooch-da/src/segment.rs:68-71 | Numbers are little-endian: each further byte counts 256 times as much as the one before |
| Segment.NumbersAreParsed | crates/rooch-da/src/segment.rs:153-171 | A text is read as a number below the limit if and only if it is the number in decimal, perhaps after zeros, perhaps after a plus sign |
| Segment.IDsAreParsed | crates/rooch-da/src/segment.rs:153-171 | A text is read as an id if and only if it is two such numbers, of 128 and 64 bits, with an underscore between |
| Segment.LeRoundTrip | crates/rooch-da/src/segment.rs:68-71 | Little-endian numbers of any width are read back |
| Segment.IDRoundTrip | crates/rooch-da/src/segment.rs:147-171 | Parsing a printed segment id gives it back |
| Segment.ParsedIDPrints | crates/rooch-da/src/segment.rs:153-171 | An accepted text is the printed id if and only if both numbers have no sign and no leading zeros |

## Left out

- Move values, layouts and BCS: a value is a string of bytes, and its layout is there exactly when its type is; what a
  Move value can refer to, and dangling references into it, are not part of this model.
- State-root hashing: a state root is the field map it commits to, so no state root and the genesis root are both the
  empty tree. The sparse Merkle tree and the node store are not part of this model.
- The state a failed call leaves behind: the transaction aborts and its runtime is discarded, so runs consist of
  successful calls; the errors themselves are specified.
- The timestamp object: the time of the transaction is a parameter of the fold.
- Genesis insertion of objects, which puts fields in place without counting them.
- A held reference is dropped by looking its object up in the tree; that the reference count belongs to the object the
  reference came from, even after that object was replaced, is assumed of Rust's `Rc`.
- The transaction context, `list_fields`, and the module loader's cache.
- Arguments are already resolved to objects; their Move types are checked before and are not modelled.
- Field keys and package keys are derived by hashing; here they are given.
- The identifier `<SELF>`, which Move accepts as a name: names are ordinary identifiers.
- `TypeTag::from_str` of move-core-types is not part of this model; texts that start with `0x` are parsed by the same
  grammar with short addresses. The depth counter of the parameter parser is an unbounded integer.
- SQL text, escaping of quotes, connection pools and timeouts: a query is a filter, a sort and a limit over a table that
  does not change between pages. Stored text is compared by code point, which is the order of its bytes.
- The last state index of a transaction (`query_last_state_index_by_tx_order`): one maximum.
- TSV files, JSON and the splitting of columns: rows are structured, numbers are already parsed as the code parses them
  (anything unreadable is zero), and an arithmetic step wraps around as an unchecked 32-bit build does.
- The failure table keeps entries of earlier runs, so every replay is proved for an arbitrary one to start from.
- xxh3: the checksum is any function of bytes; nothing is claimed about collisions.
- Segments of unknown versions beyond their refusal, and the empty byte string, on which decoding by version panics.
- Numeric overflow while parsing a segment id is an error as in the code, but which of its errors is reported is not
  modelled.
- BRC-20 comparisons against an external service, config handling, and everything else of the data-verification tool.
- RPC, CLI, web front ends, faucet, metrics, chain configuration, gas, and the Bitcoin and cryptography crates: plumbing
  or library calls.

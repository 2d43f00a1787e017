/** The committed tree is the tree that reads find. */
module Shown {
  import opened Common
  import opened StateStore
  import opened RuntimeNode
  import opened RuntimeInvariant
  import opened ChangeSet

  /** The node that loading field by field from an object that exists finds at `q`, if it exists. */
  function ReadNode(n: Node, q: ObjectID): Option<Node>
    decreases |q|
  {
    if !n.Exists() then None
    else if q == [] then Some(n)
    else if LoadField(n, q[0]).Err? then None
    else ReadNode(LoadField(n, q[0]).value.0.fields[q[0]], q[1..])
  }

  /** What it finds there. */
  function Reads(n: Node, q: ObjectID): Option<Cell> {
    if ReadNode(n, q).Some? then Some(ReadNode(n, q).value.cell) else None
  }

  lemma ResidentCommits(o: Option<ObjectState>, id: ObjectID, now: nat)
    ensures Committed(Resident(o, id), now) == o
  {
    var n := Resident(o, id);
    assert CommittedRoot(n, now).fields == n.Root().fields;
  }

  /** Reading a field finds the committed field. */
  lemma FieldCommits(n: Node, id: ObjectID, o: Option<ObjectState>, key: FieldKey, now: nat)
    requires NodeInv(n, id, o) && n.Exists()
    ensures LoadField(n, key).Ok?
    ensures Committed(LoadField(n, key).value.0.fields[key], now) == FieldOf(Committed(n, now), key)
  {
    var fields := CommittedFields(n, now);
    assert GetFieldAt(CommittedRoot(n, now), key) == if key in fields then fields[key] else GetFieldAt(n.Root(), key);
    if key !in n.fields {
      ResidentCommits(GetFieldAt(n.Root(), key), n.cell.meta.Id() + [key], now);
    }
  }

  /** The stored object a committed tree has at a path, against what the cell that reads find there answers. */
  predicate Matches(c: Option<Cell>, s: Option<ObjectState>, now: nat) {
    && (c.Some? <==> s.Some?)
    && (c.Some? ==>
          && c.value.meta.Live() && c.value.BorrowValue(None) == Ok(s.value.value)
          && s.value.metadata == Stamped(c.value, now).(stateRoot := s.value.metadata.stateRoot))
  }

  /** At every path, the committed tree holds the value and the stamped metadata that reading the path finds, and holds
      nothing where reading finds nothing. */
  lemma {:induction false} CommittedIsRead(n: Node, id: ObjectID, o: Option<ObjectState>, path: ObjectID, now: nat)
    requires NodeInv(n, id, o)
    ensures Matches(Reads(n, path), Below(Committed(n, now), path), now)
    decreases |path|
  {
    if !n.Exists() {
      assert Committed(n, now) == None;
      NothingBelow(path);
    } else if path != [] {
      FieldCommits(n, id, o, path[0], now);
      LoadFieldKeeps(n, id, o, path[0]);
      CommittedIsRead(LoadField(n, path[0]).value.0.fields[path[0]], id + [path[0]], FieldOf(o, path[0]), path[1..], now);
    }
  }

  /** Loading changes nothing that is committed. */
  lemma LoadingCommitsTheSame(n: Node, id: ObjectID, o: Option<ObjectState>, key: FieldKey, now: nat)
    requires NodeInv(n, id, o) && LoadField(n, key).Ok?
    ensures CommittedRoot(LoadField(n, key).value.0, now) == CommittedRoot(n, now)
  {
    var n1 := LoadField(n, key).value.0;
    if key !in n.fields {
      ResidentCommits(GetFieldAt(n.Root(), key), n.cell.meta.Id() + [key], now);
      forall k | k in n1.fields
        ensures CommittedFields(n1, now)[k] ==
                if k in CommittedFields(n, now) then CommittedFields(n, now)[k] else GetFieldAt(n.Root(), k)
      {
        assert k != key ==> n1.fields[k] == n.fields[k];
      }
      UpdatesCompleted(n.Root(), CommittedFields(n, now), CommittedFields(n1, now));
    }
  }
}

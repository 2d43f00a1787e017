/** The metadata state machine of a runtime object. */
module RuntimeMeta {
  import opened Common
  import opened TypeTags
  import opened GlobalValues
  import opened StateStore

  datatype MetaValue = MetaValue(metadata: ObjectMeta, dirty: bool)

  function Touched(m: ObjectMeta, now: nat): ObjectMeta {
    m.(createdAt := if m.createdAt == 0 then now else m.createdAt, updatedAt := now)
  }

  datatype RtMeta =
    | MetaNone(absentId: ObjectID)
    | MetaFresh(mv: MetaValue)
    | MetaCached(mv: MetaValue)
    | MetaDeleted(mv: MetaValue)
  {
    function Id(): ObjectID {
      if MetaNone? then absentId else mv.metadata.id
    }

    /** Metadata may still be read after a deletion. */
    function Metadata(): Result<ObjectMeta, StatusCode> {
      if MetaNone? then Err(MissingData) else Ok(mv.metadata)
    }

    /** The root under which the object's fields are looked up; empty for an absent object. */
    function Root(): StateTree {
      if MetaNone? then GENESIS_STATE_ROOT else mv.metadata.stateRoot
    }

    /** The object is there: it can be written, and it has a value layout. */
    predicate Live() {
      MetaFresh? || MetaCached?
    }

    function Init(valueType: TypeTag): RtMeta {
      match this
      case MetaNone(id) => MetaFresh(MetaValue(GenesisMeta(id, valueType), true))
      case MetaDeleted(m) => MetaFresh(MetaValue(GenesisMeta(m.metadata.id, valueType), true))
      case MetaFresh(m) => MetaFresh(m.(metadata := m.metadata.(objectType := valueType)))
      case MetaCached(m) => MetaCached(m.(metadata := m.metadata.(objectType := valueType)))
    }

    function MoveFrom(): Result<(RtMeta, ObjectMeta), StatusCode> {
      match this
      case MetaFresh(m) => Ok((MetaNone(m.metadata.id), m.metadata))
      case MetaCached(m) => Ok((MetaDeleted(m), m.metadata))
      case _ => Err(MissingData)
    }

    /** A live object with new metadata, marked dirty. */
    function With(metadata: ObjectMeta): RtMeta
      requires Live()
    {
      if MetaFresh? then MetaFresh(MetaValue(metadata, true)) else MetaCached(MetaValue(metadata, true))
    }

    function Transfer(newOwner: AccountAddress): Result<RtMeta, StatusCode> {
      if Live() then Ok(With(mv.metadata.(owner := newOwner))) else Err(MissingData)
    }

    function ToShared(): Result<RtMeta, StatusCode> {
      if Live() then Ok(With(mv.metadata.ToShared())) else Err(MissingData)
    }

    function ToFrozen(): Result<RtMeta, StatusCode> {
      if Live() then Ok(With(mv.metadata.ToFrozen())) else Err(MissingData)
    }

    function ToSystemOwner(): Result<RtMeta, StatusCode> {
      if Live() then Ok(With(mv.metadata.(owner := SYSTEM_OWNER_ADDRESS))) else Err(MissingData)
    }

    function IncreaseSize(): Result<RtMeta, StatusCode> {
      if !Live() then Err(MissingData)
      else if mv.metadata.size + 1 >= U64_LIMIT then Err(InvariantViolation)
      else Ok(With(mv.metadata.(size := mv.metadata.size + 1)))
    }

    function DecreaseSize(): Result<RtMeta, StatusCode> {
      if !Live() then Err(MissingData)
      else if mv.metadata.size == 0 then Err(InvariantViolation)
      else Ok(With(mv.metadata.(size := mv.metadata.size - 1)))
    }

    function UpdateTimestamp(now: nat): Result<RtMeta, StatusCode> {
      if Live() then Ok(With(Touched(mv.metadata, now))) else Err(MissingData)
    }

    /** The metadata to write and whether it changed. */
    function IntoEffect(): Option<(ObjectMeta, bool)> {
      match this
      case MetaNone(_) => None
      case MetaCached(m) => Some((m.metadata, m.dirty))
      case _ => Some((mv.metadata, true))
    }
  }
}

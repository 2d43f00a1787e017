/** Move type tags and the filter relation on them. */
module TypeTags {
  import opened Common

  type Identifier = string

  datatype TypeTag =
    | Bool | U8 | U16 | U32 | U64 | U128 | U256 | Address | Signer
    | Vector(elem: TypeTag)
    | Struct(tag: StructTag)

  datatype StructTag =
    StructTag(address: AccountAddress, moduleName: Identifier, name: Identifier, typeParams: seq<TypeTag>)

  predicate SameName(a: StructTag, b: StructTag) {
    a.address == b.address && a.moduleName == b.moduleName && a.name == b.name
  }

  /** The filter accepts the target: equal tags, or struct tags whose heads agree and whose parameters are missing
      from the filter or accepted one by one. */
  predicate TypeTagMatches(filter: TypeTag, target: TypeTag)
    decreases filter, 1
  {
    if filter.Struct? && target.Struct? then StructTagMatches(filter.tag, target.tag) else filter == target
  }

  predicate StructTagMatches(filter: StructTag, target: StructTag)
    decreases filter, 0
  {
    || filter == target
    || (SameName(filter, target) &&
        (filter.typeParams == [] ||
         (|filter.typeParams| == |target.typeParams| &&
          forall i :: 0 <= i < |filter.typeParams| ==> TypeTagMatches(filter.typeParams[i], target.typeParams[i]))))
  }

  method TypeTagMatch(filter: TypeTag, target: TypeTag) returns (matches: bool)
    ensures matches == TypeTagMatches(filter, target)
    decreases filter, 1
  {
    if filter.Struct? && target.Struct? {
      matches := StructTagMatch(filter.tag, target.tag);
    } else {
      matches := filter == target;
    }
  }

  method StructTagMatch(filter: StructTag, target: StructTag) returns (matches: bool)
    ensures matches == StructTagMatches(filter, target)
    decreases filter, 0
  {
    if filter == target {
      return true;
    }
    if filter.address != target.address || filter.moduleName != target.moduleName || filter.name != target.name {
      return false;
    }
    if filter.typeParams == [] {
      return true;
    }
    if |filter.typeParams| != |target.typeParams| {
      return false;
    }
    for i := 0 to |filter.typeParams|
      invariant forall j :: 0 <= j < i ==> TypeTagMatches(filter.typeParams[j], target.typeParams[j])
    {
      var accepted := TypeTagMatch(filter.typeParams[i], target.typeParams[i]);
      if !accepted {
        return false;
      }
    }
    return true;
  }

  // ---------- matching is a partial order ----------

  lemma MatchReflexive(t: TypeTag)
    ensures TypeTagMatches(t, t) && (t.Struct? ==> StructTagMatches(t.tag, t.tag))
  {}

  lemma {:induction false} MatchTransitive(a: TypeTag, b: TypeTag, c: TypeTag)
    requires TypeTagMatches(a, b) && TypeTagMatches(b, c)
    ensures TypeTagMatches(a, c)
    decreases a, 1
  {
    if a.Struct? && b.Struct? && c.Struct? {
      StructMatchTransitive(a.tag, b.tag, c.tag);
    }
  }

  lemma {:induction false} StructMatchTransitive(a: StructTag, b: StructTag, c: StructTag)
    requires StructTagMatches(a, b) && StructTagMatches(b, c)
    ensures StructTagMatches(a, c)
    decreases a, 0
  {
    if a != b && b != c && a.typeParams != [] {
      forall i | 0 <= i < |a.typeParams| ensures TypeTagMatches(a.typeParams[i], c.typeParams[i]) {
        MatchTransitive(a.typeParams[i], b.typeParams[i], c.typeParams[i]);
      }
    }
  }

  lemma {:induction false} MatchAntisymmetric(a: TypeTag, b: TypeTag)
    requires TypeTagMatches(a, b) && TypeTagMatches(b, a)
    ensures a == b
    decreases a, 1
  {
    if a.Struct? && b.Struct? {
      StructMatchAntisymmetric(a.tag, b.tag);
    }
  }

  lemma {:induction false} StructMatchAntisymmetric(a: StructTag, b: StructTag)
    requires StructTagMatches(a, b) && StructTagMatches(b, a)
    ensures a == b
    decreases a, 0
  {
    if |a.typeParams| == |b.typeParams| {
      forall i | 0 <= i < |a.typeParams| ensures a.typeParams[i] == b.typeParams[i] {
        MatchReflexive(a.typeParams[i]);
        MatchAntisymmetric(a.typeParams[i], b.typeParams[i]);
      }
      assert a.typeParams == b.typeParams;
    }
  }
}

/** The string conditions that stand for "this object type, or any instantiation of it" in an indexer query. */
module QueryStrings {
  import opened Strings
  import opened TypeTags
  import opened TypeTagText
  import opened TypeTagRoundTrip
  import opened TypeTagAcceptance

  /** The order of stored text: by code point, first difference first. */
  predicate SortsBefore(a: string, b: string) {
    b != [] && (a == [] || a[0] < b[0] || (a[0] == b[0] && SortsBefore(a[1..], b[1..])))
  }

  // ---------- the upper bound of a prefix ----------

  const CHAR_MAX: char := '\U{10FFFF}'

  /** The next character; past the surrogate gap there is no successor by one, and the largest is used. */
  function NextChar(c: char): char
    requires c < CHAR_MAX
  {
    if c == '\U{D7FF}' then CHAR_MAX else (c as int + 1) as char
  }

  /** Add one to the last character, carrying over the largest ones. */
  function Increment(s: string): string {
    if s == [] then []
    else if s[|s| - 1] < CHAR_MAX then s[..|s| - 1] + [NextChar(s[|s| - 1])]
    else Increment(s[..|s| - 1]) + ['\0']
  }

  lemma {:induction false} IncrementCarries(s: string, n: nat)
    requires n <= |s| && forall j :: n <= j < |s| ==> s[j] == CHAR_MAX
    ensures Increment(s) == Increment(s[..n]) + seq(|s| - n, _ => '\0')
    decreases |s| - n
  {
    if n < |s| {
      var init := s[..|s| - 1];
      IncrementCarries(init, n);
      assert init[..n] == s[..n];
    } else {
      assert s[..n] == s;
    }
  }

  method IncrementQueryString(s: string) returns (r: string)
    ensures r == Increment(s)
  {
    var chars := new char[|s|](i requires 0 <= i < |s| => s[i]);
    assert chars[..] == s;
    IncrementCarries(s, |s|);
    for i := |s| downto 0
      invariant chars[..i] == s[..i]
      invariant forall j :: i <= j < |s| ==> s[j] == CHAR_MAX && chars[j] == '\0'
    {
      if chars[i] < CHAR_MAX {
        chars[i] := NextChar(chars[i]);
        IncrementCarries(s, i + 1);
        assert s[..i + 1][..i] == s[..i];
        return chars[..];
      }
      chars[i] := '\0';
    }
    IncrementCarries(s, 0);
    r := chars[..];
  }

  lemma {:induction false} BelowPrefix(p: string, a: string, b: string)
    ensures SortsBefore(p + a, p + b) == SortsBefore(a, b)
    decreases |p|
  {
    if p == [] {
      assert p + a == a && p + b == b;
    } else {
      assert (p + a)[1..] == p[1..] + a && (p + b)[1..] == p[1..] + b;
      BelowPrefix(p[1..], a, b);
    }
  }

  lemma {:induction false} BelowExtends(a: string, b: string, x: string)
    requires SortsBefore(a, b)
    ensures SortsBefore(a, b + x)
    decreases |a|
  {
    if a != [] && a[0] == b[0] {
      assert (b + x)[1..] == b[1..] + x;
      BelowExtends(a[1..], b[1..], x);
    }
  }

  lemma {:induction false} IncrementIsAbove(s: string, t: string, k: nat)
    requires s <= t && k < |s| && s[k] < CHAR_MAX
    ensures SortsBefore(t, Increment(s))
    decreases |s|
  {
    var init, c := s[..|s| - 1], s[|s| - 1];
    if c < CHAR_MAX {
      assert t == init + t[|init|..] && t[|init|..][0] == c;
      BelowPrefix(init, t[|init|..], [NextChar(c)]);
    } else {
      IncrementIsAbove(init, t, k);
      BelowExtends(t, Increment(init), ['\0']);
    }
  }

  lemma IncrementOfLargest(s: string)
    requires forall j :: 0 <= j < |s| ==> s[j] == CHAR_MAX
    ensures !SortsBefore(s, Increment(s))
  {
    IncrementCarries(s, 0);
    assert s[..0] == "" && Increment("") == "";
    assert s != [] ==> Increment(s)[0] == '\0';
  }

  /** The incremented string is above everything with the prefix `s`, unless all characters of `s` are the largest. */
  lemma IncrementBoundsPrefix(s: string)
    ensures (exists k :: 0 <= k < |s| && s[k] < CHAR_MAX) <==> (forall t :: s <= t ==> SortsBefore(t, Increment(s)))
  {
    if k :| 0 <= k < |s| && s[k] < CHAR_MAX {
      forall t | s <= t ensures SortsBefore(t, Increment(s)) {
        IncrementIsAbove(s, t, k);
      }
    } else {
      forall j | 0 <= j < |s| ensures s[j] == CHAR_MAX {
        assert !(s[j] < CHAR_MAX);
      }
      IncrementOfLargest(s);
      assert s <= s;
    }
  }

  predicate LiesBetween(c: char, e: char, d: char) {
    c < e < d
  }

  ghost predicate Adjacent(c: char, d: char) {
    c < d && forall e :: !LiesBetween(c, e, d)
  }

  /** The next character is greater, with none between; only just before the surrogate gap some are. */
  lemma NextCharIsNext(c: char)
    requires c < CHAR_MAX
    ensures c < NextChar(c)
    ensures Adjacent(c, NextChar(c)) <==> c != '\U{D7FF}'
  {
    if c == '\U{D7FF}' {
      assert LiesBetween(c, '\U{E000}', NextChar(c));
    }
  }

  lemma {:induction false} BelowIsAsymmetric(a: string, b: string)
    requires SortsBefore(a, b)
    ensures !SortsBefore(b, a)
    decreases |a|
  {
    if a != [] && a[0] == b[0] {
      BelowIsAsymmetric(a[1..], b[1..]);
    }
  }

  /** From a prefix up to the same with its last character replaced by the next one lie exactly the strings with the
      prefix. */
  lemma {:induction false} BetweenNext(q: string, c: char, d: char, t: string)
    requires Adjacent(c, d)
    ensures !SortsBefore(t, q + [c]) && SortsBefore(t, q + [d]) <==> q + [c] <= t
    decreases |q|
  {
    if q == [] {
      assert q + [c] == [c] && q + [d] == [d];
      if t != [] {
        assert [c][1..] == [] && [d][1..] == [];
        assert t[0] == c <==> [c] <= t;
        assert !LiesBetween(c, t[0], d);
      }
    } else {
      assert (q + [c])[1..] == q[1..] + [c] && (q + [d])[1..] == q[1..] + [d];
      if t != [] && t[0] == q[0] {
        BetweenNext(q[1..], c, d, t[1..]);
        assert q[1..] + [c] <= t[1..] <==> q + [c] <= t;
      }
    }
  }

  /** The strings from `s` up to the incremented one are those with the prefix `s` and no others. */
  ghost predicate Tight(s: string) {
    forall t :: !SortsBefore(t, s) && SortsBefore(t, Increment(s)) <==> s <= t
  }

  /** The incremented string bounds its prefix tightly exactly if the last character has a next one: nothing is carried,
      and it does not lie just before the surrogate gap. */
  lemma IncrementIsTight(s: string)
    ensures Tight(s) <==> s != [] && s[|s| - 1] < CHAR_MAX && s[|s| - 1] != '\U{D7FF}'
  {
    if s == [] {
      assert s <= s && !SortsBefore(s, Increment(s));
    } else {
      var init, c := s[..|s| - 1], s[|s| - 1];
      assert s == init + [c];
      if c == CHAR_MAX {
        CarriedIsLoose(s);
      } else if c == '\U{D7FF}' {
        var t := init + ['\U{E000}'];
        BelowPrefix(init, t[|init|..], [c]);
        BelowPrefix(init, t[|init|..], [NextChar(c)]);
        assert t[|init|] != s[|init|];
      } else {
        NextCharIsNext(c);
        forall t ensures !SortsBefore(t, s) && SortsBefore(t, Increment(s)) <==> s <= t {
          BetweenNext(init, c, NextChar(c), t);
        }
      }
    }
  }

  lemma CarriedIsLoose(s: string)
    requires s != [] && s[|s| - 1] == CHAR_MAX
    ensures !Tight(s)
  {
    var init := s[..|s| - 1];
    if k :| 0 <= k < |s| && s[k] < CHAR_MAX {
      var t := Increment(init);
      IncrementIsAbove(init, s, k);
      BelowIsAsymmetric(s, t);
      BelowPrefix(t, "", ['\0']);
      assert t + "" == t;
      if s <= t {
        IncrementIsAbove(init, t, k);
        BelowIsAsymmetric(t, t);
      }
    } else {
      forall j | 0 <= j < |s| ensures s[j] == CHAR_MAX {
        assert !(s[j] < CHAR_MAX);
      }
      IncrementOfLargest(s);
      assert s <= s;
    }
  }

  // ---------- the type conditions ----------

  /** The text of a tag as rows store it. */
  function TypeText(tag: StructTag): string {
    PrintStruct(tag, Style(Display, 1))
  }

  /** The condition on the stored text, for a filter by object type. */
  predicate ObjectTypeQuery(objectType: StructTag, stored: string) {
    var q := TypeText(objectType);
    if objectType.typeParams == [] then
      stored == q || (!SortsBefore(stored, q + "<") && SortsBefore(stored, q + "=") && SortsBefore(stored, Increment(q)))
    else stored == q
  }

  /** The condition of the filter that leaves a type out. */
  predicate NotObjectTypeQuery(objectType: StructTag, stored: string) {
    var q := TypeText(objectType);
    if objectType.typeParams == [] then
      stored != q && (SortsBefore(stored, q + "<") || !SortsBefore(stored, q + "=") || !SortsBefore(stored, Increment(q)))
    else stored != q
  }

  /** Between a prefix with one character and with the next one lie exactly the strings with the first prefix. */
  lemma BetweenNeighbours(q: string, stored: string)
    ensures !SortsBefore(stored, q + "<") && SortsBefore(stored, q + "=") <==> q + "<" <= stored
  {
    BetweenNext(q, '<', '=', stored);
  }

  lemma HeadHasNoBracket(tag: StructTag)
    requires WellFormedStruct(tag)
    ensures Without(PrintHead(tag, Display), '<')
  {
    AddressRoundTrip(tag.address, Display);
    IdentifierShape(tag.moduleName);
    IdentifierShape(tag.name);
  }

  lemma TextInjective(a: StructTag, b: StructTag)
    requires WellFormedStruct(a) && WellFormedStruct(b) && TypeText(a) == TypeText(b)
    ensures a == b
  {
    PrintInjective(Struct(a), Struct(b), Style(Display, 1));
  }

  function Bare(tag: StructTag): StructTag {
    tag.(typeParams := [])
  }

  /** The text of a tag with parameters starts with its bare text and a bracket, and with no other. */
  lemma BracketEndsHead(q: string, tag: StructTag)
    requires WellFormedStruct(tag) && Without(q, '<')
    ensures q + "<" <= TypeText(tag) <==> tag.typeParams != [] && q == PrintHead(tag, Display)
  {
    var head, text := PrintHead(tag, Display), TypeText(tag);
    HeadHasNoBracket(tag);
    if tag.typeParams == [] {
      assert text == head && (q + "<")[|q|] == '<';
    } else {
      var tail := PrintList(tag.typeParams, Style(Display, 1)) + ">";
      assert text == head + ['<'] + tail;
      FindAfter(head, '<', tail);
      if q + "<" <= text {
        assert text == q + ['<'] + text[|q| + 1..];
        FindAfter(q, '<', text[|q| + 1..]);
        assert q == text[..|q|] && head == text[..|head|];
      }
      if q == head {
        assert text[..|q| + 1] == q + "<";
      }
    }
  }

  /** Without parameters the range condition selects exactly the types the tag filter accepts. */
  lemma QueryRefinesMatching(objectType: StructTag, target: StructTag)
    requires WellFormedStruct(objectType) && WellFormedStruct(target) && objectType.typeParams == []
    ensures ObjectTypeQuery(objectType, TypeText(target)) <==> StructTagMatches(objectType, target)
  {
    var q, stored := TypeText(objectType), TypeText(target);
    assert q == PrintHead(objectType, Display) && q[0] < CHAR_MAX by {
      HeadShape(objectType, Display);
      assert PrintHead(objectType, Display)[0] == '0';
    }
    BetweenNeighbours(q, stored);
    if q + "<" <= stored {
      assert q <= q + "<" <= stored;
      IncrementIsAbove(q, stored, 0);
    }
    HeadHasNoBracket(objectType);
    BracketEndsHead(q, target);
    assert TypeText(Bare(target)) == PrintHead(target, Display);
    if stored == q {
      TextInjective(objectType, target);
    }
    if q == PrintHead(target, Display) {
      TextInjective(objectType, Bare(target));
    }
  }

  /** With parameters the condition selects the equal tag alone. */
  lemma QueryWithParamsIsEquality(objectType: StructTag, target: StructTag)
    requires WellFormedStruct(objectType) && WellFormedStruct(target) && objectType.typeParams != []
    ensures ObjectTypeQuery(objectType, TypeText(target)) <==> objectType == target
  {
    if TypeText(objectType) == TypeText(target) {
      TextInjective(objectType, target);
    }
  }

  /** A tag that the tag filter matches with nothing but itself: below it every struct names its parameters. */
  predicate Rigid(t: TypeTag) {
    t.Struct? ==> t.tag.typeParams != [] && forall i :: 0 <= i < |t.tag.typeParams| ==> Rigid(t.tag.typeParams[i])
  }

  lemma {:induction false} RigidMatchesItself(f: TypeTag, t: TypeTag)
    requires Rigid(f) && TypeTagMatches(f, t)
    ensures f == t
    decreases f
  {
    if f.Struct? && t.Struct? && |f.tag.typeParams| == |t.tag.typeParams| {
      forall i | 0 <= i < |f.tag.typeParams| ensures f.tag.typeParams[i] == t.tag.typeParams[i] {
        RigidMatchesItself(f.tag.typeParams[i], t.tag.typeParams[i]);
      }
      assert f.tag.typeParams == t.tag.typeParams;
    }
  }

  /** A tag that is not rigid matches another one: some struct in it can be given a parameter. */
  lemma {:induction false} LooseMatchesAnother(f: TypeTag) returns (t: TypeTag)
    requires WellFormed(f) && !Rigid(f)
    ensures WellFormed(t) && t.Struct? && t != f && TypeTagMatches(f, t)
    decreases f
  {
    var params := f.tag.typeParams;
    if params == [] {
      t := Struct(f.tag.(typeParams := [U8]));
    } else {
      var i :| 0 <= i < |params| && !Rigid(params[i]);
      var inner := LooseMatchesAnother(params[i]);
      t := Struct(f.tag.(typeParams := params[i := inner]));
      assert t.tag.typeParams[i] == inner;
      forall j | 0 <= j < |params| ensures TypeTagMatches(params[j], t.tag.typeParams[j]) {
        if j != i {
          MatchReflexive(params[j]);
        }
      }
    }
  }

  /** With parameters the query agrees with the tag filter, on all types, exactly if the filter is rigid. So a filter
      such as `Outer<Inner>` misses `Outer<Inner<P>>`. */
  lemma QueryWithParamsAgrees(filter: StructTag)
    requires WellFormedStruct(filter) && filter.typeParams != []
    ensures (forall target :: WellFormedStruct(target) ==>
               (ObjectTypeQuery(filter, TypeText(target)) <==> StructTagMatches(filter, target)))
            <==> Rigid(Struct(filter))
  {
    if Rigid(Struct(filter)) {
      forall target | WellFormedStruct(target)
        ensures ObjectTypeQuery(filter, TypeText(target)) <==> StructTagMatches(filter, target)
      {
        QueryWithParamsIsEquality(filter, target);
        if StructTagMatches(filter, target) {
          RigidMatchesItself(Struct(filter), Struct(target));
        }
      }
    } else {
      var other := LooseMatchesAnother(Struct(filter));
      QueryWithParamsIsEquality(filter, other.tag);
      assert WellFormedStruct(other.tag) && StructTagMatches(filter, other.tag);
    }
  }

  /** Leaving a type out selects exactly the rest, whatever text is stored. */
  lemma NotQueryIsComplement(objectType: StructTag, stored: string)
    ensures NotObjectTypeQuery(objectType, stored) <==> !ObjectTypeQuery(objectType, stored)
  {}
}

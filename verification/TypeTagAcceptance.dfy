/** What the type-tag parsers accept, and where the two text forms part. */
module TypeTagAcceptance {
  import opened Common
  import opened TypeTags
  import opened TypeTagText
  import opened TypeTagRoundTrip

  // ---------- accepted texts ----------

  lemma {:induction false} HexDecodeLength(s: string)
    requires HexDecode(s).Some?
    ensures |s| == 2 * |HexDecode(s).value|
    decreases |s|
  {
    if s != [] {
      HexDecodeLength(s[2..]);
    }
  }

  lemma ParsedAddress(s: string, form: AddressForm)
    requires ParseAddress(s, form).Some?
    ensures |ParseAddress(s, form).value| == ADDRESS_LENGTH
  {
    if form == Canonical {
      HexDecodeLength(s);
    } else if |s| - 2 < 2 * ADDRESS_LENGTH {
      HexDecodeLength(Zeros(2 * ADDRESS_LENGTH - (|s| - 2)) + s[2..]);
    } else {
      HexDecodeLength(s[2..]);
    }
  }

  lemma {:induction false} TraverseAll<T>(f: string --> Option<T>, pieces: seq<string>, xs: seq<T>)
    requires forall p :: p in pieces ==> f.requires(p)
    requires Traverse(f, pieces) == Some(xs)
    ensures |xs| == |pieces| && forall i :: 0 <= i < |xs| ==> f(pieces[i]) == Some(xs[i])
    decreases |pieces|
  {
    if pieces != [] {
      TraverseAll(f, pieces[1..], xs[1..]);
      forall i | 0 <= i < |xs| ensures f(pieces[i]) == Some(xs[i]) {
        if i > 0 {
          assert pieces[i] == pieces[1..][i - 1] && xs[i] == xs[1..][i - 1];
        }
      }
    }
  }

  lemma {:induction false} FirstNamedIn(tags: seq<TypeTag>, s: string)
    requires forall t :: t in tags ==> !t.Vector? && !t.Struct?
    requires FirstNamed(tags, s).Some?
    ensures FirstNamed(tags, s).value in tags && PrimitiveName(FirstNamed(tags, s).value) == s
    decreases |tags|
  {
    if PrimitiveName(tags[0]) != s {
      FirstNamedIn(tags[1..], s);
    }
  }

  /** Every accepted text, however it is spaced or cased, stands for a tag with 32-byte addresses and ordinary names. */
  lemma {:induction false} ParsedIsWellFormed(s: string, form: AddressForm)
    requires Parse(s, form).Some?
    ensures WellFormed(Parse(s, form).value)
    decreases |s|, 1
  {
    if Primitive(s).Some? {
      FirstNamedIn(PRIMITIVES, s);
    } else if "vector<" <= s && EndsWith(s, '>') {
      ParsedIsWellFormed(s[7..|s| - 1], form);
    } else {
      ParsedStructIsWellFormed(s, form);
    }
  }

  lemma {:induction false} ParsedStructIsWellFormed(s: string, form: AddressForm)
    requires ParseStruct(s, form).Some?
    ensures WellFormedStruct(ParseStruct(s, form).value)
    decreases |s|, 0
  {
    var text := CutStruct(s).value;
    CutStructShortens(s);
    ParsedAddress(text.address, form);
    if text.generics.Some? {
      ParsedListIsWellFormed(text.generics.value, form);
    }
  }

  lemma {:induction false} ParsedListIsWellFormed(s: string, form: AddressForm)
    requires ParseParams(s, form).Some?
    ensures forall i :: 0 <= i < |ParseParams(s, form).value| ==> WellFormed(ParseParams(s, form).value[i])
    decreases |s|, 3
  {
    var pieces, tags := Pieces(s, 0, 0, 0), ParseParams(s, form).value;
    PiecesShorter(s, 0, 0, 0);
    TraverseAll(PieceParser(|s|, form), pieces, tags);
    forall i | 0 <= i < |tags| ensures WellFormed(tags[i]) {
      assert pieces[i] in pieces;
      ParsedIsWellFormed(Trim(pieces[i]), form);
    }
  }

  /** Every accepted tag survives printing and parsing again, in either form and with any spacing. */
  lemma AcceptedSurvives(s: string, form: AddressForm, style: Style)
    requires Parse(s, form).Some?
    ensures Parse(Print(Parse(s, form).value, style), style.form) == Parse(s, form)
  {
    ParsedIsWellFormed(s, form);
    RoundTrip(Parse(s, form).value, style);
  }

  lemma PrintInjective(a: TypeTag, b: TypeTag, style: Style)
    requires WellFormed(a) && WellFormed(b) && Print(a, style) == Print(b, style)
    ensures a == b
  {
    RoundTrip(a, style);
    RoundTrip(b, style);
  }

  // ---------- both forms in one parser ----------

  /** A vector, of any depth, over a struct. */
  predicate VectorOfStruct(t: TypeTag) {
    t.Vector? && (t.elem.Struct? || VectorOfStruct(t.elem))
  }

  lemma TrimPrinted(t: TypeTag, style: Style)
    requires WellFormed(t)
    ensures Trim(Print(t, style)) == Print(t, style)
  {
    PrintShape(t, style);
    TrimPadded("", Print(t, style));
    assert "" + Print(t, style) == Print(t, style);
  }

  lemma DisplayAddressIsNotCanonical(a: AccountAddress)
    requires |a| == ADDRESS_LENGTH
    ensures ParseAddress(PrintAddress(a, Display), Canonical) == None
  {
    var s := PrintAddress(a, Display);
    assert s[1] == 'x' && HexValue(s[1]) == None;
  }

  lemma DisplayStructIsNotCanonical(tag: StructTag, gap: nat)
    requires WellFormedStruct(tag)
    ensures ParseStruct(PrintStruct(tag, Style(Display, gap)), Canonical) == None
  {
    var address := PrintAddress(tag.address, Display);
    var s := PrintStruct(tag, Style(Display, gap));
    AddressRoundTrip(tag.address, Display);
    DisplayAddressIsNotCanonical(tag.address);
    if tag.typeParams == [] {
      CutBareStruct(address, tag.moduleName, tag.name);
      assert s == HeadText(address, tag.moduleName, tag.name);
    } else {
      var list := PrintList(tag.typeParams, Style(Display, gap));
      PrintListShape(tag.typeParams, Style(Display, gap));
      CutGenericStruct(address, tag.moduleName, tag.name, list);
    }
  }

  lemma {:induction false} DisplayVectorIsNotCanonical(t: TypeTag, gap: nat)
    requires WellFormed(t) && (t.Struct? || VectorOfStruct(t))
    ensures Parse(Print(t, Style(Display, gap)), Canonical) == None
    decreases t
  {
    var style := Style(Display, gap);
    if t.Struct? {
      DisplayStructIsNotCanonical(t.tag, gap);
      PrintStructStart(t.tag, style);
      ParseOther(PrintStruct(t.tag, style), Canonical);
    } else {
      DisplayVectorIsNotCanonical(t.elem, gap);
      ParseVector(Print(t.elem, style), Canonical);
    }
  }

  /** Tags without addresses are printed alike in both forms. */
  lemma {:induction false} PrintedAlike(t: TypeTag, gap: nat)
    requires !t.Struct? && !VectorOfStruct(t)
    ensures Print(t, Style(Display, gap)) == Print(t, Style(Canonical, gap))
    ensures WellFormed(t) && !("0x" <= Print(t, Style(Canonical, gap)))
    decreases t
  {
    if t.Vector? {
      PrintedAlike(t.elem, gap);
      assert Print(t, Style(Canonical, gap))[0] == 'v';
    } else {
      PrimitiveShape(t);
    }
  }

  lemma CanonicalHasNoPrefix(t: TypeTag, gap: nat)
    requires WellFormed(t)
    ensures !("0x" <= Print(t, Style(Canonical, gap)))
  {
    var s := Print(t, Style(Canonical, gap));
    if t.Struct? {
      var hex := HexEncode(t.tag.address);
      HexRoundTrip(t.tag.address);
      assert hex <= PrintHead(t.tag, Canonical) <= s;
      assert s[1] == hex[1];
    } else if t.Vector? {
      assert s[0] == 'v';
    } else {
      PrimitiveShape(t);
    }
  }

  /** The parser that promises to accept both forms reads every canonical text back. Of the texts in the short form it
      reads back all but those of vectors of structs: without a leading `0x` they go to the canonical parser, which
      refuses the short addresses inside. */
  lemma ParseTypeTagReadsBack(t: TypeTag, gap: nat)
    requires WellFormed(t)
    ensures ParseTypeTag(Print(t, Style(Canonical, gap))) == Some(t)
    ensures ParseTypeTag(Print(t, Style(Display, gap))) == if VectorOfStruct(t) then None else Some(t)
  {
    RoundTrip(t, Style(Canonical, gap));
    RoundTrip(t, Style(Display, gap));
    TrimPrinted(t, Style(Canonical, gap));
    TrimPrinted(t, Style(Display, gap));
    CanonicalHasNoPrefix(t, gap);
    if VectorOfStruct(t) {
      DisplayVectorIsNotCanonical(t, gap);
      assert Print(t, Style(Display, gap))[0] == 'v';
    } else if t.Struct? {
      ShortFormPrefix(t.tag, gap);
    } else {
      PrintedAlike(t, gap);
    }
  }

  lemma ShortFormPrefix(tag: StructTag, gap: nat)
    ensures "0x" <= PrintStruct(tag, Style(Display, gap))
  {
    assert "0x" <= PrintAddress(tag.address, Display) <= PrintHead(tag, Display) <= PrintStruct(tag, Style(Display, gap));
  }
}

/** Which texts the parser takes for which tag: the shape of every accepted text. */
module TypeTagGrammar {
  import opened Common
  import opened Strings
  import opened TypeTags
  import opened TypeTagText
  import opened TypeTagRoundTrip
  import opened TypeTagAcceptance

  // ---------- vectors ----------

  /** A text is parsed to a vector exactly if it is `vector<`, a text of the element, and `>`. */
  lemma VectorsAreParsed(s: string, form: AddressForm, elem: TypeTag)
    ensures Parse(s, form) == Some(Vector(elem)) <==>
            exists inner :: s == "vector<" + inner + ">" && Parse(inner, form) == Some(elem)
  {
    if Parse(s, form) == Some(Vector(elem)) {
      PrimitiveIsNoVector(s);
      var inner := s[7..|s| - 1];
      EnclosedText(s);
      assert s == "vector<" + inner + ">" && Parse(inner, form) == Some(elem);
    } else if inner :| s == "vector<" + inner + ">" && Parse(inner, form) == Some(elem) {
      ParseVector(inner, form);
    }
  }

  lemma EnclosedText(s: string)
    requires "vector<" <= s && EndsWith(s, '>')
    ensures s == "vector<" + s[7..|s| - 1] + ">"
  {}

  lemma PrimitiveIsNoVector(s: string)
    ensures Primitive(s).Some? ==> !Primitive(s).value.Vector? && !Primitive(s).value.Struct?
  {
    if Primitive(s).Some? {
      FirstNamedIn(PRIMITIVES, s);
    }
  }

  // ---------- heads ----------

  lemma {:induction false} FindColonsCuts(s: string)
    requires FindColons(s).Some?
    ensures var i := FindColons(s).value;
            i + 2 <= |s| && s == s[..i] + "::" + s[i + 2..]
    decreases |s|
  {
    FindColonsBound(s);
    if s[..2] != "::" {
      FindColonsCuts(s[1..]);
      var i := FindColons(s[1..]).value;
      assert s[..i + 1] == [s[0]] + s[1..][..i] && s[1..][i + 2..] == s[i + 3..];
      assert s == [s[0]] + s[1..];
    }
  }

  /** The cut at the first two double colons, put together again. */
  lemma CutHeadJoins(s: string)
    requires CutHead(s).Some?
    ensures var (a, m, rest) := CutHead(s).value;
            s == a + "::" + m + "::" + rest
  {
    var (a, m, rest) := CutHead(s).value;
    FindColonsCuts(s);
    var tail := s[FindColons(s).value + 2..];
    FindColonsCuts(tail);
    assert s == a + "::" + tail && tail == m + "::" + rest;
    assert a + "::" + (m + "::" + rest) == a + "::" + m + "::" + rest;
  }

  lemma {:induction false} FindCharCuts(s: string, c: char)
    ensures FindChar(s, c).None? ==> Without(s, c)
    ensures FindChar(s, c).Some? ==>
              var i := FindChar(s, c).value;
              i < |s| && s == s[..i] + [c] + s[i + 1..] && Without(s[..i], c)
    decreases |s|
  {
    FindCharBound(s, c);
    if s != [] && s[0] != c {
      FindCharCuts(s[1..], c);
    }
  }

  lemma {:induction false} HexIsPlain(s: string)
    requires HexDecode(s).Some?
    ensures Without(s, ':') && Without(s, '<') && Without(s, 'v') && Without(s, 'x')
    decreases |s|
  {
    if s != [] {
      HexIsPlain(s[2..]);
      assert forall i :: 2 <= i < |s| ==> s[i] == s[2..][i - 2];
    }
  }

  /** The texts of addresses have no colon, no bracket and no `v`. */
  lemma AddressIsPlain(s: string, form: AddressForm)
    requires ParseAddress(s, form).Some?
    ensures s != [] && Without(s, ':') && Without(s, '<') && s[0] != 'v'
  {
    if form == Canonical {
      HexIsPlain(s);
    } else {
      var digits := s[2..];
      assert s == s[..2] + digits && s[..2] == "0x";
      if |s| - 2 < 2 * ADDRESS_LENGTH {
        var pad := Zeros(2 * ADDRESS_LENGTH - (|s| - 2));
        HexIsPlain(pad + digits);
        assert forall i :: 0 <= i < |digits| ==> digits[i] == (pad + digits)[|pad| + i];
      } else {
        HexIsPlain(digits);
      }
      assert forall i :: 2 <= i < |s| ==> s[i] == digits[i - 2];
    }
  }

  /** Text that starts as the head of a struct is no primitive and no vector. */
  lemma HeadIsOther(a: string, tail: string, form: AddressForm)
    requires ParseAddress(a, form).Some?
    ensures Parse(a + "::" + tail, form) ==
            match ParseStruct(a + "::" + tail, form) case None => None case Some(tag) => Some(Struct(tag))
  {
    AddressIsPlain(a, form);
    var s := a + "::" + tail;
    assert s[0] == a[0] && s[|a|] == ':';
    ParseOther(s, form);
  }

  // ---------- structs ----------

  lemma HeadAndTail(a: string, m: string, n: string, tail: string)
    ensures HeadText(a, m, n) + tail == a + "::" + m + "::" + (n + tail)
    ensures HeadText(a, m, n) + tail == a + "::" + (m + "::" + n + tail)
  {}

  /** Address, module and name of the tag, and what follows the name. */
  predicate HasHead(s: string, tag: StructTag, form: AddressForm, a: string, tail: string) {
    && s == HeadText(a, tag.moduleName, tag.name) + tail
    && ParseAddress(a, form) == Some(tag.address) && IsIdentifier(tag.moduleName) && IsIdentifier(tag.name)
  }

  lemma HeadIsCut(s: string, tag: StructTag, form: AddressForm, a: string, tail: string)
    requires HasHead(s, tag, form, a, tail)
    ensures CutHead(s) == Some((a, tag.moduleName, tag.name + tail))
  {
    AddressIsPlain(a, form);
    IdentifierShape(tag.moduleName);
    CutHeadOf(a, tag.moduleName, tag.name + tail);
    HeadAndTail(a, tag.moduleName, tag.name, tail);
  }

  /** What a parsed struct is made of. */
  lemma ParsedParts(s: string, form: AddressForm, tag: StructTag)
    requires ParseStruct(s, form) == Some(tag)
    ensures CutStruct(s).Some?
    ensures var text := CutStruct(s).value;
            && ParseAddress(text.address, form) == Some(tag.address)
            && text.moduleName == tag.moduleName && text.name == tag.name
            && IsIdentifier(tag.moduleName) && IsIdentifier(tag.name)
            && (if text.generics.None? then tag.typeParams == []
                else tag.typeParams != [] && ParseParams(text.generics.value, form) == Some(tag.typeParams))
  {}

  lemma CutParts(s: string)
    requires CutStruct(s).Some?
    ensures var text := CutStruct(s).value;
            var tail := if text.generics.None? then "" else "<" + text.generics.value + ">";
            s == HeadText(text.address, text.moduleName, text.name) + tail
  {
    var (a, m, rest) := CutHead(s).value;
    CutHeadJoins(s);
    NameParts(a, m, rest);
    var text := CutName(a, m, rest).value;
    HeadAndTail(a, m, text.name, if text.generics.None? then "" else "<" + text.generics.value + ">");
  }

  lemma NameParts(a: string, m: string, rest: string)
    requires CutName(a, m, rest).Some?
    ensures var text := CutName(a, m, rest).value;
            rest == text.name + (if text.generics.None? then "" else "<" + text.generics.value + ">")
  {
    FindCharCuts(rest, '<');
    var text := CutName(a, m, rest).value;
    if text.generics.None? {
      assert rest + "" == rest;
    } else {
      RestJoins(rest, text.name, text.generics.value);
    }
  }

  lemma ParsedHead(s: string, form: AddressForm, tag: StructTag)
    requires Parse(s, form) == Some(Struct(tag))
    ensures CutStruct(s).Some?
    ensures var text := CutStruct(s).value;
            if tag.typeParams == [] then HasHead(s, tag, form, text.address, "")
            else
              && text.generics.Some? && ParseParams(text.generics.value, form) == Some(tag.typeParams)
              && HasHead(s, tag, form, text.address, "<" + text.generics.value + ">")
  {
    PrimitiveIsNoVector(s);
    ParsedParts(s, form, tag);
    CutParts(s);
  }

  lemma BareHeadParses(s: string, form: AddressForm, tag: StructTag, a: string)
    requires HasHead(s, tag, form, a, "") && tag.typeParams == []
    ensures Parse(s, form) == Some(Struct(tag))
  {
    HeadIsCut(s, tag, form, a, "");
    IdentifierShape(tag.name);
    FindAfter(tag.name, '<', "");
    assert tag.name + "" == tag.name;
    ParseCutStruct(s, StructText(a, tag.moduleName, tag.name, None), tag, form);
    HeadAndTail(a, tag.moduleName, tag.name, "");
    HeadIsOther(a, tag.moduleName + "::" + tag.name + "", form);
  }

  /** Without parameters: exactly the head. */
  lemma BareStructsAreParsed(s: string, form: AddressForm, tag: StructTag)
    requires tag.typeParams == []
    ensures Parse(s, form) == Some(Struct(tag)) <==> exists a :: HasHead(s, tag, form, a, "")
  {
    if Parse(s, form) == Some(Struct(tag)) {
      ParsedHead(s, form, tag);
    } else if a :| HasHead(s, tag, form, a, "") {
      BareHeadParses(s, form, tag, a);
    }
  }

  /** The head is followed by a list of parameters in angle brackets. */
  predicate HasParams(s: string, tag: StructTag, form: AddressForm, a: string, list: string) {
    HasHead(s, tag, form, a, "<" + list + ">") && ParseParams(list, form) == Some(tag.typeParams)
  }

  lemma GenericHeadParses(s: string, form: AddressForm, tag: StructTag, a: string, list: string)
    requires HasParams(s, tag, form, a, list)
    ensures Parse(s, form) == Some(Struct(tag))
  {
    var tail := "<" + list + ">";
    HeadIsCut(s, tag, form, a, tail);
    IdentifierShape(tag.name);
    GenericsAreCut(a, tag.moduleName, tag.name, list);
    ParseCutStruct(s, StructText(a, tag.moduleName, tag.name, Some(list)), tag, form);
    HeadAndTail(a, tag.moduleName, tag.name, tail);
    HeadIsOther(a, tag.moduleName + "::" + tag.name + tail, form);
  }

  /** With parameters: the head, and the text of the parameters in angle brackets. */
  lemma StructsAreParsed(s: string, form: AddressForm, tag: StructTag)
    requires tag.typeParams != []
    ensures Parse(s, form) == Some(Struct(tag)) <==> exists a, list :: HasParams(s, tag, form, a, list)
  {
    if Parse(s, form) == Some(Struct(tag)) {
      ParsedHead(s, form, tag);
      assert HasParams(s, tag, form, CutStruct(s).value.address, CutStruct(s).value.generics.value);
    } else if a, list :| HasParams(s, tag, form, a, list) {
      GenericHeadParses(s, form, tag, a, list);
    }
  }

  lemma RestJoins(rest: string, name: string, list: string)
    requires FindChar(rest, '<') == Some(|name|) && |name| < |rest| && EndsWith(rest, '>') && |name| + 1 <= |rest| - 1
    requires name == rest[..|name|] && list == rest[|name| + 1..|rest| - 1] && rest[|name|] == '<'
    ensures rest == name + ("<" + list + ">")
  {}

  lemma {:induction false} TrimStartBefore(list: string)
    ensures TrimStart(list + ">") == TrimStart(list) + ">"
    decreases |list|
  {
    if list == [] {
      assert list + ">" == ">";
    } else {
      assert (list + ">")[1..] == list[1..] + ">";
      TrimStartBefore(list[1..]);
    }
  }

  lemma GenericsAreCut(a: string, m: string, name: string, list: string)
    requires Without(name, '<') && Trim(list) != ""
    ensures CutName(a, m, name + ("<" + list + ">")) == Some(StructText(a, m, name, Some(list)))
  {
    GenericParts(name, list);
    TrimStartBefore(list);
    assert TrimEnd(TrimStart(list) + ">") == TrimStart(list) + ">";
  }

  // ---------- parameters ----------

  function Join(pieces: seq<string>): string {
    if pieces == [] then "" else if |pieces| == 1 then pieces[0] else pieces[0] + "," + Join(pieces[1..])
  }

  /** The text is its pieces with commas between, and perhaps one more comma at its end. */
  predicate Joins(s: string, pieces: seq<string>) {
    s == Join(pieces) || (pieces != [] && s == Join(pieces) + ",")
  }

  lemma JoinFirst(piece: string, rest: string, pieces: seq<string>)
    requires Joins(rest, pieces) && (pieces == [] ==> rest == "")
    ensures Joins(piece + "," + rest, [piece] + pieces)
  {
    assert ([piece] + pieces)[1..] == pieces;
    if pieces != [] {
      assert Join([piece] + pieces) == piece + "," + Join(pieces);
      assert piece + "," + (Join(pieces) + ",") == piece + "," + Join(pieces) + ",";
    }
  }

  lemma {:induction false} PiecesJoin(s: string, i: nat, depth: int, start: nat)
    requires start <= i <= |s|
    ensures Joins(s[start..], Pieces(s, i, depth, start)) && (Pieces(s, i, depth, start) == [] <==> start == |s|)
    decreases |s| - i
  {
    if i < |s| {
      if s[i] == ',' && depth == 0 {
        PiecesJoin(s, i + 1, depth, i + 1);
        JoinFirst(s[start..i], s[i + 1..], Pieces(s, i + 1, depth, i + 1));
        assert s[start..] == s[start..i] + "," + s[i + 1..];
      } else {
        PiecesJoin(s, i + 1, if s[i] == '<' then depth + 1 else if s[i] == '>' then depth - 1 else depth, start);
      }
    }
  }

  /** A list is parsed to the tags of its pieces, trimmed: the pieces joined by commas are the list, but for a comma that
      may follow the last; and a list of nothing but white space is refused. */
  lemma ListsAreParsed(s: string, form: AddressForm, tags: seq<TypeTag>)
    ensures ParseParams(s, form) == Some(tags) <==>
            var pieces := Pieces(s, 0, 0, 0);
            && Trim(s) != "" && tags != [] && |pieces| == |tags|
            && forall i :: 0 <= i < |tags| ==> Parse(Trim(pieces[i]), form) == Some(tags[i])
    ensures Joins(s, Pieces(s, 0, 0, 0))
  {
    var pieces := Pieces(s, 0, 0, 0);
    PiecesShorter(s, 0, 0, 0);
    PiecesJoin(s, 0, 0, 0);
    var f := PieceParser(|s|, form);
    forall p | p in pieces ensures f.requires(p) && f(p) == Parse(Trim(p), form) {}
    if ParseParams(s, form) == Some(tags) {
      TraverseAll(f, pieces, tags);
      assert forall i :: 0 <= i < |pieces| ==> pieces[i] in pieces;
    }
    if |pieces| == |tags| && forall i :: 0 <= i < |tags| ==> Parse(Trim(pieces[i]), form) == Some(tags[i]) {
      assert forall i :: 0 <= i < |pieces| ==> pieces[i] in pieces;
      TraverseGives(f, pieces, tags);
    }
  }

  lemma {:induction false} TraverseGives<T>(f: string --> Option<T>, pieces: seq<string>, xs: seq<T>)
    requires forall p :: p in pieces ==> f.requires(p)
    requires |xs| == |pieces| && forall i :: 0 <= i < |xs| ==> f(pieces[i]) == Some(xs[i])
    ensures Traverse(f, pieces) == Some(xs)
    decreases |pieces|
  {
    if pieces != [] {
      TraverseGives(f, pieces[1..], xs[1..]);
      assert xs == [xs[0]] + xs[1..];
    }
  }

  // ---------- both forms ----------

  lemma {:induction false} TrimEndPadded(s: string, pad: string)
    requires AllSpace(pad)
    ensures TrimEnd(s + pad) == TrimEnd(s)
    decreases |pad|
  {
    if pad == [] {
      assert s + pad == s;
    } else {
      assert (s + pad)[..|s + pad| - 1] == s + pad[..|pad| - 1];
      TrimEndPadded(s, pad[..|pad| - 1]);
    }
  }

  lemma {:induction false} TrimStartPadded(pad: string, s: string)
    requires AllSpace(pad)
    ensures TrimStart(pad + s) == TrimStart(s)
    decreases |pad|
  {
    if pad == [] {
      assert pad + s == s;
    } else {
      assert (pad + s)[1..] == pad[1..] + s;
      TrimStartPadded(pad[1..], s);
    }
  }

  /** White space around a text does not matter to the parser that accepts both forms, and the start of what it
      encloses decides between them. */
  lemma BothFormsAreParsed(before: string, s: string, after: string)
    requires AllSpace(before) && AllSpace(after) && Solid(s)
    ensures ParseTypeTag(before + s + after) == Parse(s, if "0x" <= s then Display else Canonical)
  {
    assert before + s + after == before + (s + after);
    TrimStartPadded(before, s + after);
    assert TrimStart(s + after) == s + after;
    TrimEndPadded(s, after);
  }
}

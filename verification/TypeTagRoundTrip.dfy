/** Parsing the printed form of a type tag gives the tag back, and everything the parser accepts is such a tag. */
module TypeTagRoundTrip {
  import opened Common
  import opened Strings
  import opened TypeTags
  import opened TypeTagText

  ghost predicate WellFormed(t: TypeTag)
    decreases t, 1
  {
    match t
    case Vector(elem) => WellFormed(elem)
    case Struct(tag) => WellFormedStruct(tag)
    case _ => true
  }

  ghost predicate WellFormedStruct(tag: StructTag)
    decreases tag, 0
  {
    && |tag.address| == ADDRESS_LENGTH && IsIdentifier(tag.moduleName) && IsIdentifier(tag.name)
    && forall i :: 0 <= i < |tag.typeParams| ==> WellFormed(tag.typeParams[i])
  }

  // ---------- trimming and finding ----------

  predicate AllSpace(s: string) {
    forall i :: 0 <= i < |s| ==> IsWhitespace(s[i])
  }

  /** Starts and ends with something other than white space. */
  predicate Solid(s: string) {
    s != [] && !IsWhitespace(s[0]) && !IsWhitespace(s[|s| - 1])
  }

  lemma {:induction false} TrimPadded(pad: string, s: string)
    requires AllSpace(pad) && Solid(s)
    ensures Trim(pad + s) == s
    decreases |pad|
  {
    if pad == [] {
      assert pad + s == s;
    } else {
      assert (pad + s)[1..] == pad[1..] + s;
      TrimPadded(pad[1..], s);
    }
  }

  lemma {:induction false} FindColonsAfter(a: string, b: string)
    requires Without(a, ':')
    ensures FindColons(a + "::" + b) == Some(|a|)
    decreases |a|
  {
    var s := a + "::" + b;
    if a == [] {
      assert s[..2] == "::";
    } else {
      assert s[0] == a[0] && s[..2][0] == a[0];
      assert s[1..] == a[1..] + "::" + b;
      FindColonsAfter(a[1..], b);
    }
  }

  lemma CutHeadOf(a: string, m: string, rest: string)
    requires Without(a, ':') && Without(m, ':')
    ensures CutHead(a + "::" + m + "::" + rest) == Some((a, m, rest))
  {
    var s, tail := a + "::" + m + "::" + rest, m + "::" + rest;
    assert s == a + "::" + tail;
    FindColonsAfter(a, tail);
    assert s[|a| + 2..] == tail && s[..|a|] == a;
    FindColonsAfter(m, rest);
    assert tail[..|m|] == m && tail[|m| + 2..] == rest;
  }

  // ---------- addresses ----------

  predicate IsHexString(s: string) {
    forall i :: 0 <= i < |s| ==> '0' <= s[i] <= '9' || 'a' <= s[i] <= 'f'
  }

  lemma HexPair(b: Byte, t: string, rest: Bytes)
    requires IsHexString(t) && HexDecode(t) == Some(rest)
    ensures var s := [HexDigit(b as int / 16), HexDigit(b as int % 16)] + t;
            IsHexString(s) && HexDecode(s) == Some([b] + rest)
  {
    var s := [HexDigit(b as int / 16), HexDigit(b as int % 16)] + t;
    assert s[2..] == t;
    assert b as int / 16 * 16 + b as int % 16 == b as int;
  }

  lemma {:induction false} HexRoundTrip(bytes: Bytes)
    ensures |HexEncode(bytes)| == 2 * |bytes| && IsHexString(HexEncode(bytes))
    ensures HexDecode(HexEncode(bytes)) == Some(bytes)
    decreases |bytes|
  {
    if bytes != [] {
      HexRoundTrip(bytes[1..]);
      HexPair(bytes[0], HexEncode(bytes[1..]), bytes[1..]);
      assert [bytes[0]] + bytes[1..] == bytes;
    }
  }

  /** A padded text under one more zero digit. */
  lemma ZerosNext(n: nat, t: string, rest: string)
    requires Zeros(n) + t == rest
    ensures Zeros(n + 1) + t == ['0'] + rest
  {
    assert Zeros(n + 1) == ['0'] + Zeros(n);
    assert (['0'] + Zeros(n)) + t == ['0'] + (Zeros(n) + t);
  }

  lemma {:induction false} TrimZerosPads(s: string)
    requires IsHexString(s)
    ensures |TrimZeros(s)| <= |s| && IsHexString(TrimZeros(s))
    ensures Zeros(|s| - |TrimZeros(s)|) + TrimZeros(s) == s
    decreases |s|
  {
    if s != [] && s[0] == '0' {
      var t := s[1..];
      TrimZerosPads(t);
      assert s == ['0'] + t;
      ZerosNext(|t| - |TrimZeros(t)|, TrimZeros(t), t);
    }
  }

  predicate AddressText(s: string) {
    Solid(s) && Without(s, ':') && Without(s, '<') && Without(s, '>') && Without(s, ',') && s[0] != 'v'
  }

  lemma HexIsAddressText(s: string)
    requires IsHexString(s) && s != []
    ensures AddressText(s) && AddressText("0x" + s)
  {
    var t := "0x" + s;
    assert t[0] == '0' && t[1] == 'x' && t[2..] == s;
    assert forall i :: 2 <= i < |t| ==> t[i] == s[i - 2];
  }

  lemma ShortDigitsPad(s: string)
    requires IsHexString(s) && s != []
    ensures IsHexString(ShortDigits(s)) && 0 < |ShortDigits(s)| <= |s|
    ensures Zeros(|s| - |ShortDigits(s)|) + ShortDigits(s) == s
  {
    TrimZerosPads(s);
    if TrimZeros(s) == "" {
      assert Zeros(|s|) + "" == Zeros(|s|);
      assert Zeros(|s| - 1) + "0" == Zeros(|s|);
    }
  }

  lemma ParseShort(digits: string, full: string)
    requires 0 < |digits| <= 2 * ADDRESS_LENGTH && |full| == 2 * ADDRESS_LENGTH
    requires Zeros(2 * ADDRESS_LENGTH - |digits|) + digits == full
    ensures ParseAddress("0x" + digits, Display) == AddressFromHex(full)
  {
    var s := "0x" + digits;
    assert "0x" <= s && s[2..] == digits;
    assert |digits| == |full| ==> Zeros(0) + digits == digits;
  }

  lemma AddressRoundTrip(a: AccountAddress, form: AddressForm)
    requires |a| == ADDRESS_LENGTH
    ensures ParseAddress(PrintAddress(a, form), form) == Some(a)
    ensures AddressText(PrintAddress(a, form))
  {
    var s := HexEncode(a);
    HexRoundTrip(a);
    assert AddressFromHex(s) == Some(a);
    if form == Canonical {
      HexIsAddressText(s);
    } else {
      ShortDigitsPad(s);
      HexIsAddressText(ShortDigits(s));
      ParseShort(ShortDigits(s), s);
      assert PrintAddress(a, Display) == "0x" + ShortDigits(s);
    }
  }

  // ---------- brackets ----------

  function Step(c: char): int {
    if c == '<' then 1 else if c == '>' then -1 else 0
  }

  /** How many brackets are open after `i` characters. */
  function Level(s: string, i: nat): int
    requires i <= |s|
  {
    if i == 0 then 0 else Level(s, i - 1) + Step(s[i - 1])
  }

  /** Brackets are properly nested. */
  predicate Nested(s: string) {
    Level(s, |s|) == 0 && forall i :: 0 <= i <= |s| ==> Level(s, i) >= 0
  }

  /** Properly nested, with every comma inside brackets. */
  predicate Balanced(s: string) {
    Nested(s) && forall i {:trigger Level(s, i)} :: 0 <= i < |s| && s[i] == ',' ==> Level(s, i) >= 1
  }

  lemma {:induction false} LevelConcat(a: string, b: string, i: nat)
    requires i <= |a| + |b|
    ensures Level(a + b, i) == if i <= |a| then Level(a, i) else Level(a, |a|) + Level(b, i - |a|)
    decreases i
  {
    if i > 0 {
      LevelConcat(a, b, i - 1);
    }
  }

  lemma NestedConcat(a: string, b: string)
    requires Nested(a) && Nested(b)
    ensures Nested(a + b) && (Balanced(a) && Balanced(b) ==> Balanced(a + b))
  {
    forall i | 0 <= i <= |a + b|
      ensures Level(a + b, i) == if i <= |a| then Level(a, i) else Level(b, i - |a|)
    {
      LevelConcat(a, b, i);
    }
    if Balanced(a) && Balanced(b) {
      forall i | 0 <= i < |a + b| && (a + b)[i] == ',' ensures Level(a + b, i) >= 1 {
        if i < |a| {
          assert a[i] == ',';
        } else {
          assert b[i - |a|] == ',' && Level(b, i - |a|) >= 1;
        }
      }
    }
  }

  lemma BracketsBalance(s: string)
    requires Nested(s)
    ensures Balanced("<" + s + ">")
  {
    var t := "<" + s + ">";
    forall i | 0 <= i <= |t|
      ensures Level(t, i) == if i == 0 || i == |t| then 0 else 1 + Level(s, i - 1)
    {
      LevelConcat("<" + s, ">", i);
      assert Level("<", 1) == 1 + Level("<", 0);
      assert Level(">", 1) == Level(">", 0) - 1;
      if i <= |s| + 1 {
        LevelConcat("<", s, i);
      } else {
        LevelConcat("<", s, |s| + 1);
      }
    }
  }

  lemma {:induction false} PlainLevel(s: string, i: nat)
    requires i <= |s| && Without(s, '<') && Without(s, '>')
    ensures Level(s, i) == 0
    decreases i
  {
    if i > 0 {
      PlainLevel(s, i - 1);
    }
  }

  lemma PlainNests(s: string)
    requires Without(s, '<') && Without(s, '>')
    ensures Nested(s) && (Without(s, ',') ==> Balanced(s))
  {
    forall i | 0 <= i <= |s| ensures Level(s, i) == 0 {
      PlainLevel(s, i);
    }
  }

  lemma PiecesStep(s: string, i: nat, depth: int, start: nat)
    requires start <= i < |s| && !(s[i] == ',' && depth == 0)
    ensures Pieces(s, i, depth, start) == Pieces(s, i + 1, depth + Step(s[i]), start)
  {}

  lemma LevelStep(part: string, k: nat)
    requires 0 < k <= |part| && Balanced(part)
    ensures Level(part, k) == Level(part, k - 1) + Step(part[k - 1])
    ensures !(part[k - 1] == ',' && Level(part, k - 1) == 0)
  {}

  /** The text `part` stands in `s` at `i`. */
  predicate Occurs(s: string, i: nat, part: string) {
    i + |part| <= |s| && forall j :: 0 <= j < |part| ==> s[i + j] == part[j]
  }

  lemma SkipOne(s: string, i: nat, part: string, k: nat, start: nat)
    requires start <= i && Occurs(s, i, part) && Balanced(part) && 0 < k <= |part|
    ensures Pieces(s, i + (k - 1), Level(part, k - 1), start) == Pieces(s, i + k, Level(part, k), start)
  {
    var j := i + (k - 1);
    LevelStep(part, k);
    assert s[j] == part[k - 1];
    PiecesStep(s, j, Level(part, k - 1), start);
    assert j + 1 == i + k;
  }

  /** Scanning over a balanced stretch outside all brackets cuts nothing. */
  lemma {:induction false} SkipBalanced(s: string, i: nat, part: string, k: nat, start: nat)
    requires start <= i && Occurs(s, i, part) && Balanced(part) && k <= |part|
    ensures Pieces(s, i, 0, start) == Pieces(s, i + k, Level(part, k), start)
    decreases k
  {
    if k == 0 {
      assert Level(part, 0) == 0;
    } else {
      SkipBalanced(s, i, part, k - 1, start);
      SkipOne(s, i, part, k, start);
    }
  }

  // ---------- the shape of printed tags ----------

  lemma IdentifierShape(s: string)
    requires IsIdentifier(s)
    ensures Solid(s) && Without(s, ':') && Without(s, '<') && Without(s, '>') && Without(s, ',')
  {}

  lemma JoinedWithout(a: string, m: string, n: string, c: char)
    requires Without(a, c) && Without(m, c) && Without(n, c) && c != ':'
    ensures Without(a + "::" + m + "::" + n, c)
  {}

  lemma HeadShape(tag: StructTag, form: AddressForm)
    requires WellFormedStruct(tag)
    ensures Solid(PrintHead(tag, form)) && PrintHead(tag, form)[0] != 'v' && Balanced(PrintHead(tag, form))
    ensures ':' in PrintHead(tag, form)
  {
    var address, head := PrintAddress(tag.address, form), PrintHead(tag, form);
    AddressRoundTrip(tag.address, form);
    IdentifierShape(tag.moduleName);
    IdentifierShape(tag.name);
    JoinedWithout(address, tag.moduleName, tag.name, '<');
    JoinedWithout(address, tag.moduleName, tag.name, '>');
    JoinedWithout(address, tag.moduleName, tag.name, ',');
    PlainNests(head);
    assert head[0] == address[0] && head[|head| - 1] == tag.name[|tag.name| - 1] && head[|address|] == ':';
  }

  lemma PrimitiveShape(t: TypeTag)
    requires !t.Vector? && !t.Struct?
    ensures Solid(PrimitiveName(t)) && Balanced(PrimitiveName(t))
    ensures Without(PrimitiveName(t), ':') && Without(PrimitiveName(t), '<') && PrimitiveName(t)[0] != '0'
  {
    PlainNests(PrimitiveName(t));
  }

  lemma EnclosedShape(a: string, s: string)
    requires Solid(a) && Balanced(a) && Nested(s)
    ensures Solid(a + ("<" + s + ">")) && Balanced(a + ("<" + s + ">"))
  {
    var t := a + ("<" + s + ">");
    BracketsBalance(s);
    NestedConcat(a, "<" + s + ">");
    assert t[0] == a[0] && t[|t| - 1] == '>';
  }

  lemma VectorText(s: string)
    ensures "vector<" + s + ">" == "vector" + ("<" + s + ">")
  {
    assert "vector<" == "vector" + "<";
  }

  /** A printed tag is solid, and its brackets enclose its commas. */
  lemma {:induction false} PrintShape(t: TypeTag, style: Style)
    requires WellFormed(t)
    ensures Solid(Print(t, style)) && Balanced(Print(t, style))
    decreases t, 0
  {
    match t {
      case Vector(elem) =>
        PrintShape(elem, style);
        PlainNests("vector");
        EnclosedShape("vector", Print(elem, style));
        VectorText(Print(elem, style));
      case Struct(tag) => PrintStructShape(tag, style);
      case _ => PrimitiveShape(t);
    }
  }

  lemma {:induction false} PrintStructShape(tag: StructTag, style: Style)
    requires WellFormedStruct(tag)
    ensures Solid(PrintStruct(tag, style)) && Balanced(PrintStruct(tag, style))
    decreases tag, 2
  {
    var head := PrintHead(tag, style.form);
    HeadShape(tag, style.form);
    if tag.typeParams == [] {
      assert head + "" == head;
    } else {
      PrintListShape(tag.typeParams, style);
      var list := PrintList(tag.typeParams, style);
      EnclosedShape(head, list);
    }
  }

  lemma {:induction false} PrintListShape(tags: seq<TypeTag>, style: Style)
    requires tags != [] && forall i :: 0 <= i < |tags| ==> WellFormed(tags[i])
    ensures Solid(PrintList(tags, style)) && Nested(PrintList(tags, style))
    decreases tags, 1
  {
    var first := Print(tags[0], style);
    PrintShape(tags[0], style);
    if |tags| > 1 {
      var gap, tail := "," + Spaces(style.gap), PrintList(tags[1..], style);
      PrintListShape(tags[1..], style);
      PlainNests(gap);
      NestedConcat(first, gap);
      NestedConcat(first + gap, tail);
      assert PrintList(tags, style) == first + gap + tail;
    }
  }

  // ---------- splitting a printed list ----------

  /** The parser `f` reads the printed tag back, with any number of spaces before it. */
  ghost predicate ReadsBack(f: string --> Option<TypeTag>, n: nat, t: TypeTag, style: Style) {
    forall g: nat :: |Spaces(g) + Print(t, style)| <= n ==> ReadsSpaced(f, g, t, style)
  }

  ghost predicate ReadsSpaced(f: string --> Option<TypeTag>, g: nat, t: TypeTag, style: Style) {
    f.requires(Spaces(g) + Print(t, style)) && f(Spaces(g) + Print(t, style)) == Some(t)
  }

  lemma SpacedShape(t: TypeTag, g: nat, style: Style)
    requires WellFormed(t)
    ensures AllSpace(Spaces(g)) && Balanced(Spaces(g) + Print(t, style)) && |Print(t, style)| > 0
  {
    PrintShape(t, style);
    PlainNests(Spaces(g));
    NestedConcat(Spaces(g), Print(t, style));
  }

  /** Cut from `start` on, the text's pieces are parsed by `f` to `xs`. */
  ghost predicate SplitsInto<T>(s: string, start: nat, f: string --> Option<T>, xs: seq<T>)
    requires start <= |s|
  {
    && (forall p :: p in Pieces(s, start, 0, start) ==> f.requires(p))
    && Traverse(f, Pieces(s, start, 0, start)) == Some(xs)
  }

  lemma PartOccurs(s: string, start: nat, part: string, tail: string)
    requires start <= |s| && s[start..] == part + tail
    ensures Occurs(s, start, part) && s[start..start + |part|] == part
  {
    var rest := s[start..];
    assert forall j :: 0 <= j < |part| ==> s[start + j] == rest[j];
    assert s[start..start + |part|] == rest[..|part|];
  }

  lemma CommaNext(s: string, start: nat, part: string, tail: string)
    requires start <= |s| && s[start..] == part + "," + tail
    ensures start + |part| < |s| && s[start + |part|] == ',' && s[start + |part| + 1..] == tail
  {
    var rest := s[start..];
    assert s[start + |part|] == rest[|part|];
    assert s[start + |part| + 1..] == rest[|part| + 1..] == tail;
  }

  lemma SplitLast<T>(s: string, start: nat, part: string, xs: seq<T>, f: string --> Option<T>)
    requires start <= |s| && s[start..] == part && part != [] && Balanced(part)
    requires f.requires(part) && |xs| == 1 && f(part) == Some(xs[0])
    ensures SplitsInto(s, start, f, xs)
  {
    PartOccurs(s, start, part, "");
    assert part + "" == part;
    SkipBalanced(s, start, part, |part|, start);
    assert Pieces(s, start, 0, start) == [part] && [part][1..] == [];
    assert xs == [xs[0]] + [];
  }

  lemma PiecesNext(s: string, start: nat, part: string, tail: string)
    requires start <= |s| && s[start..] == part + "," + tail && Balanced(part)
    ensures start + |part| < |s| && s[start + |part| + 1..] == tail
    ensures Pieces(s, start, 0, start) == [part] + Pieces(s, start + |part| + 1, 0, start + |part| + 1)
  {
    PartOccurs(s, start, part, "," + tail);
    assert part + "," + tail == part + ("," + tail);
    CommaNext(s, start, part, tail);
    SkipBalanced(s, start, part, |part|, start);
    assert s[start..start + |part|] == part;
  }

  lemma SplitNext<T>(s: string, start: nat, part: string, next: nat, xs: seq<T>, f: string --> Option<T>)
    requires start <= |s| && next <= |s|
    requires Pieces(s, start, 0, start) == [part] + Pieces(s, next, 0, next)
    requires f.requires(part) && xs != [] && f(part) == Some(xs[0]) && SplitsInto(s, next, f, xs[1..])
    ensures SplitsInto(s, start, f, xs)
  {
    var rest := Pieces(s, next, 0, next);
    assert ([part] + rest)[0] == part && ([part] + rest)[1..] == rest;
    assert [xs[0]] + xs[1..] == xs;
  }

  /** The parser `f` reads a spaced element of the list. */
  lemma PartReadsBack(f: string --> Option<TypeTag>, n: nat, t: TypeTag, style: Style, g: nat, part: string)
    requires WellFormed(t) && ReadsBack(f, n, t, style) && part == Spaces(g) + Print(t, style) && |part| <= n
    ensures Balanced(part) && part != [] && f.requires(part) && f(part) == Some(t)
  {
    SpacedShape(t, g, style);
    assert ReadsSpaced(f, g, t, style);
  }

  function SpacedList(tags: seq<TypeTag>, style: Style, g: nat): string
    requires tags != []
  {
    Spaces(g) + PrintList(tags, style)
  }

  lemma SpacedListCut(tags: seq<TypeTag>, style: Style, g: nat, part: string)
    requires tags != [] && part == Spaces(g) + Print(tags[0], style)
    ensures |tags| == 1 ==> SpacedList(tags, style, g) == part
    ensures |tags| > 1 ==> SpacedList(tags, style, g) == part + "," + SpacedList(tags[1..], style, style.gap)
  {
    if |tags| > 1 {
      JoinedAnew(Spaces(g), Print(tags[0], style), Spaces(style.gap), PrintList(tags[1..], style));
    }
  }

  lemma JoinedAnew(a: string, b: string, c: string, d: string)
    ensures a + (b + "," + c + d) == a + b + "," + (c + d)
  {}

  ghost predicate AllReadBack(f: string --> Option<TypeTag>, n: nat, tags: seq<TypeTag>, style: Style) {
    forall i :: 0 <= i < |tags| ==> WellFormed(tags[i]) && ReadsBack(f, n, tags[i], style)
  }

  lemma FirstReadsBack(f: string --> Option<TypeTag>, n: nat, tags: seq<TypeTag>, style: Style)
    requires AllReadBack(f, n, tags, style) && tags != []
    ensures WellFormed(tags[0]) && ReadsBack(f, n, tags[0], style) && AllReadBack(f, n, tags[1..], style)
  {}

  lemma SplitOnly(s: string, start: nat, g: nat, tags: seq<TypeTag>, style: Style, f: string --> Option<TypeTag>)
    requires start <= |s| && |tags| == 1 && s[start..] == SpacedList(tags, style, g) && AllReadBack(f, |s|, tags, style)
    ensures SplitsInto(s, start, f, tags)
  {
    var part := Spaces(g) + Print(tags[0], style);
    SpacedListCut(tags, style, g, part);
    FirstReadsBack(f, |s|, tags, style);
    PartReadsBack(f, |s|, tags[0], style, g, part);
    SplitLast(s, start, part, tags, f);
  }

  /** Where the list goes on after its first element, whose piece is cut off there. */
  lemma SplitFirst(s: string, start: nat, g: nat, tags: seq<TypeTag>, style: Style, f: string --> Option<TypeTag>)
    returns (part: string, next: nat)
    requires start <= |s| && |tags| > 1 && s[start..] == SpacedList(tags, style, g) && AllReadBack(f, |s|, tags, style)
    ensures next <= |s| && s[next..] == SpacedList(tags[1..], style, style.gap)
    ensures f.requires(part) && f(part) == Some(tags[0])
    ensures Pieces(s, start, 0, start) == [part] + Pieces(s, next, 0, next)
  {
    part := Spaces(g) + Print(tags[0], style);
    SpacedListCut(tags, style, g, part);
    FirstReadsBack(f, |s|, tags, style);
    PartReadsBack(f, |s|, tags[0], style, g, part);
    next := start + |part| + 1;
    PiecesNext(s, start, part, SpacedList(tags[1..], style, style.gap));
  }

  /** The pieces of a printed list are its printed elements: the counter is zero exactly at the top-level commas. */
  lemma {:induction false} SplitList(s: string, start: nat, g: nat, tags: seq<TypeTag>, style: Style,
                                     f: string --> Option<TypeTag>)
    requires start <= |s| && tags != [] && s[start..] == SpacedList(tags, style, g)
    requires AllReadBack(f, |s|, tags, style)
    ensures SplitsInto(s, start, f, tags)
    decreases |tags|
  {
    if |tags| == 1 {
      SplitOnly(s, start, g, tags, style, f);
    } else {
      var part, next := SplitFirst(s, start, g, tags, style, f);
      FirstReadsBack(f, |s|, tags, style);
      SplitList(s, next, style.gap, tags[1..], style, f);
      SplitNext(s, start, part, next, tags, f);
    }
  }

  // ---------- the round trip ----------

  lemma {:induction false} NoneNamed(tags: seq<TypeTag>, s: string)
    requires forall t :: t in tags ==> !t.Vector? && !t.Struct?
    requires forall t :: t in tags ==> PrimitiveName(t) != s
    ensures FirstNamed(tags, s) == None
    decreases |tags|
  {
    if tags != [] {
      NoneNamed(tags[1..], s);
    }
  }

  lemma NotPrimitive(s: string)
    requires ':' in s || '<' in s
    ensures Primitive(s) == None
  {
    forall t | t in PRIMITIVES ensures PrimitiveName(t) != s {
      PrimitiveShape(t);
    }
    NoneNamed(PRIMITIVES, s);
  }

  lemma PrimitiveRoundTrip(t: TypeTag)
    requires !t.Vector? && !t.Struct?
    ensures Primitive(PrimitiveName(t)) == Some(t)
  {
    var i := FirstIndex(t);
    var before, after := PRIMITIVES[..i], PRIMITIVES[i + 1..];
    assert PRIMITIVES == before + [t] + after;
    FirstNamedAfter(before, t, after);
  }

  function FirstIndex(t: TypeTag): (i: nat)
    requires !t.Vector? && !t.Struct?
    ensures i < |PRIMITIVES| && PRIMITIVES[i] == t
    ensures forall j :: 0 <= j < i ==> PrimitiveName(PRIMITIVES[j]) != PrimitiveName(t)
  {
    match t
    case Bool => 0
    case U8 => 1
    case U16 => 2
    case U32 => 3
    case U64 => 4
    case U128 => 5
    case U256 => 6
    case Address => 7
    case Signer => 8
  }

  lemma {:induction false} FirstNamedAfter(before: seq<TypeTag>, t: TypeTag, after: seq<TypeTag>)
    requires forall u :: u in before + [t] + after ==> !u.Vector? && !u.Struct?
    requires forall u :: u in before ==> PrimitiveName(u) != PrimitiveName(t)
    ensures FirstNamed(before + [t] + after, PrimitiveName(t)) == Some(t)
    decreases |before|
  {
    if before == [] {
      assert (before + [t] + after)[0] == t;
    } else {
      assert (before + [t] + after)[1..] == before[1..] + [t] + after;
      FirstNamedAfter(before[1..], t, after);
    }
  }

  lemma ParseVector(inner: string, form: AddressForm)
    ensures Parse("vector<" + inner + ">", form) ==
            match Parse(inner, form) case None => None case Some(elem) => Some(Vector(elem))
  {
    var s := "vector<" + inner + ">";
    assert s[6] == '<';
    NotPrimitive(s);
    assert "vector<" <= s && EndsWith(s, '>') && s[7..|s| - 1] == inner;
  }

  /** A text with a colon and another first letter than that of `vector` is parsed as a struct tag. */
  lemma ParseOther(s: string, form: AddressForm)
    requires ':' in s && s[0] != 'v'
    ensures Parse(s, form) == match ParseStruct(s, form) case None => None case Some(tag) => Some(Struct(tag))
  {
    NotPrimitive(s);
  }

  function HeadText(address: string, moduleName: string, name: string): string {
    address + "::" + moduleName + "::" + name
  }

  lemma CutBareStruct(address: string, moduleName: string, name: string)
    requires Without(address, ':') && IsIdentifier(moduleName) && IsIdentifier(name)
    ensures CutStruct(HeadText(address, moduleName, name)) == Some(StructText(address, moduleName, name, None))
  {
    IdentifierShape(moduleName);
    IdentifierShape(name);
    CutHeadOf(address, moduleName, name);
    FindAfter(name, '<', "");
  }

  lemma SolidGenerics(list: string)
    requires Solid(list)
    ensures Trim(list + ">") != ">"
  {
    TrimPadded("", list + ">");
    assert "" + (list + ">") == list + ">";
  }

  lemma GenericParts(name: string, list: string)
    requires Without(name, '<')
    ensures var rest := name + ("<" + list + ">");
            && FindChar(rest, '<') == Some(|name|) && EndsWith(rest, '>') && |name| + 1 <= |rest| - 1
            && rest[..|name|] == name && rest[|name| + 1..] == list + ">" && rest[|name| + 1..|rest| - 1] == list
  {
    var rest := name + ("<" + list + ">");
    assert rest == name + ['<'] + (list + ">");
    FindAfter(name, '<', list + ">");
  }

  lemma CutGenericName(address: string, moduleName: string, name: string, list: string)
    requires Without(name, '<') && Solid(list)
    ensures CutName(address, moduleName, name + ("<" + list + ">")) ==
            Some(StructText(address, moduleName, name, Some(list)))
  {
    GenericParts(name, list);
    SolidGenerics(list);
  }

  lemma CutGenericStruct(address: string, moduleName: string, name: string, list: string)
    requires Without(address, ':') && IsIdentifier(moduleName) && IsIdentifier(name) && Solid(list)
    ensures CutStruct(HeadText(address, moduleName, name) + ("<" + list + ">")) ==
            Some(StructText(address, moduleName, name, Some(list)))
  {
    IdentifierShape(moduleName);
    IdentifierShape(name);
    var rest := name + ("<" + list + ">");
    CutHeadOf(address, moduleName, rest);
    assert HeadText(address, moduleName, name) + ("<" + list + ">") == address + "::" + moduleName + "::" + rest;
    CutGenericName(address, moduleName, name, list);
  }

  /** What is left to parse once the text is cut. */
  lemma ParseCutStruct(s: string, text: StructText, tag: StructTag, form: AddressForm)
    requires CutStruct(s) == Some(text) && ParseAddress(text.address, form) == Some(tag.address)
    requires text.moduleName == tag.moduleName && text.name == tag.name
    requires IsIdentifier(tag.moduleName) && IsIdentifier(tag.name)
    requires if text.generics.None? then tag.typeParams == []
             else ParseParams(text.generics.value, form) == Some(tag.typeParams)
    ensures ParseStruct(s, form) == Some(tag)
  {}

  /** Parsing the printed form of a tag gives the tag back, at every depth of nesting. */
  lemma {:induction false} RoundTrip(t: TypeTag, style: Style)
    requires WellFormed(t)
    ensures Parse(Print(t, style), style.form) == Some(t)
    decreases t, 0
  {
    match t {
      case Vector(elem) =>
        RoundTrip(elem, style);
        ParseVector(Print(elem, style), style.form);
      case Struct(tag) =>
        StructRoundTrip(tag, style);
        PrintStructStart(tag, style);
        ParseOther(PrintStruct(tag, style), style.form);
      case _ => PrimitiveRoundTrip(t);
    }
  }

  lemma PrintStructStart(tag: StructTag, style: Style)
    requires WellFormedStruct(tag)
    ensures ':' in PrintStruct(tag, style) && PrintStruct(tag, style)[0] != 'v'
  {
    HeadShape(tag, style.form);
    assert PrintHead(tag, style.form) <= PrintStruct(tag, style);
  }

  lemma {:induction false} StructRoundTrip(tag: StructTag, style: Style)
    requires WellFormedStruct(tag)
    ensures ParseStruct(PrintStruct(tag, style), style.form) == Some(tag)
    decreases tag, 2
  {
    var address, s := PrintAddress(tag.address, style.form), PrintStruct(tag, style);
    AddressRoundTrip(tag.address, style.form);
    if tag.typeParams == [] {
      CutBareStruct(address, tag.moduleName, tag.name);
      assert s == HeadText(address, tag.moduleName, tag.name);
      ParseCutStruct(s, StructText(address, tag.moduleName, tag.name, None), tag, style.form);
    } else {
      var list := PrintList(tag.typeParams, style);
      ListRoundTrip(tag.typeParams, style);
      PrintListShape(tag.typeParams, style);
      CutGenericStruct(address, tag.moduleName, tag.name, list);
      ParseCutStruct(s, StructText(address, tag.moduleName, tag.name, Some(list)), tag, style.form);
    }
  }

  lemma PieceIsTrimmed(n: nat, form: AddressForm, pad: string, text: string)
    requires AllSpace(pad) && Solid(text) && |pad + text| <= n
    ensures PieceParser(n, form).requires(pad + text) && PieceParser(n, form)(pad + text) == Parse(text, form)
  {
    TrimPadded(pad, text);
  }

  lemma PieceReadsBack(t: TypeTag, style: Style, n: nat)
    requires WellFormed(t) && Parse(Print(t, style), style.form) == Some(t)
    ensures ReadsBack(PieceParser(n, style.form), n, t, style)
  {
    PrintShape(t, style);
    forall g: nat | |Spaces(g) + Print(t, style)| <= n ensures ReadsSpaced(PieceParser(n, style.form), g, t, style) {
      PieceIsTrimmed(n, style.form, Spaces(g), Print(t, style));
    }
  }

  lemma {:induction false} ListRoundTrip(tags: seq<TypeTag>, style: Style)
    requires tags != [] && forall i :: 0 <= i < |tags| ==> WellFormed(tags[i])
    ensures ParseParams(PrintList(tags, style), style.form) == Some(tags)
    decreases tags, 1
  {
    var s := PrintList(tags, style);
    var f := PieceParser(|s|, style.form);
    forall i | 0 <= i < |tags| ensures ReadsBack(f, |s|, tags[i], style) {
      RoundTrip(tags[i], style);
      PieceReadsBack(tags[i], style, |s|);
    }
    assert s[0..] == SpacedList(tags, style, 0);
    SplitList(s, 0, 0, tags, style, f);
    PrintListShape(tags, style);
    TrimPadded("", s);
    assert "" + s == s;
  }
}

/** The fixed parts of the text of type tags, letter by letter. */
module TypeTagTables {
  import opened Common
  import opened Strings
  import opened StateStore
  import opened TypeTags
  import opened TypeTagText
  import opened TypeTagRoundTrip
  import opened TypeTagAcceptance
  import opened QueryStrings

  // ---------- names ----------

  predicate IsNameOf(s: string, t: TypeTag) {
    match t
    case Bool => s == "bool"
    case U8 => s == "u8"
    case U16 => s == "u16"
    case U32 => s == "u32"
    case U64 => s == "u64"
    case U128 => s == "u128"
    case U256 => s == "u256"
    case Address => s == "address"
    case Signer => s == "signer"
    case _ => false
  }

  /** A text is parsed to a tag without parts exactly if it is the tag's name, in either form; and the tag is printed as
      its name. */
  lemma NamesAreParsed(s: string, t: TypeTag, form: AddressForm, style: Style)
    requires !t.Vector? && !t.Struct?
    ensures Parse(s, form) == Some(t) <==> IsNameOf(s, t)
    ensures IsNameOf(Print(t, style), t)
  {
    PrimitiveRoundTrip(t);
    if Parse(s, form) == Some(t) {
      assert Primitive(s) == Some(t);
      FirstNamedIn(PRIMITIVES, s);
    }
  }

  // ---------- characters ----------

  const SMALL_LETTERS: string := "abcdefghijklmnopqrstuvwxyz"
  const CAPITAL_LETTERS: string := "ABCDEFGHIJKLMNOPQRSTUVWXYZ"
  const DIGITS: string := "0123456789"

  predicate MayNameContain(c: char) {
    c in SMALL_LETTERS || c in CAPITAL_LETTERS || c in DIGITS || c == '_'
  }

  /** A name is made of letters, digits and underscores; it does not start with a digit and is not the underscore. */
  lemma IdentifiersAre(s: string)
    ensures IsIdentifier(s) <==>
              s != "" && s != "_" && s[0] !in DIGITS && forall i :: 0 <= i < |s| ==> MayNameContain(s[i])
  {
    forall i | 0 <= i < |s| ensures IsIdentifierChar(s[i]) <==> MayNameContain(s[i]) {
      LettersAre(s[i]);
      DigitsAre(s[i]);
    }
    if s != "" {
      DigitsAre(s[0]);
    }
  }

  lemma DigitsAre(c: char)
    ensures IsDigit(c) <==> c in DIGITS
  {
    if IsDigit(c) {
      assert DIGITS[c as int - '0' as int] == c;
    }
  }

  lemma LettersAre(c: char)
    ensures IsLetter(c) <==> c in SMALL_LETTERS || c in CAPITAL_LETTERS
  {
    SmallLettersAre(c);
    CapitalLettersAre(c);
  }

  lemma SmallLettersAre(c: char)
    ensures 'a' <= c <= 'z' <==> c in SMALL_LETTERS
  {
    if 'a' <= c <= 'z' {
      assert SMALL_LETTERS[c as int - 'a' as int] == c;
    }
  }

  lemma CapitalLettersAre(c: char)
    ensures 'A' <= c <= 'Z' <==> c in CAPITAL_LETTERS
  {
    if 'A' <= c <= 'Z' {
      assert CAPITAL_LETTERS[c as int - 'A' as int] == c;
    }
  }

  const WHITE: string :=
    "\U{9}\U{A}\U{B}\U{C}\U{D}\U{20}\U{85}\U{A0}\U{1680}\U{2000}\U{2001}\U{2002}\U{2003}\U{2004}\U{2005}\U{2006}\U{2007}\U{2008}\U{2009}\U{200A}\U{2028}\U{2029}\U{202F}\U{205F}\U{3000}"

  /** The 25 characters that are trimmed. */
  lemma WhiteSpaceIs(c: char)
    ensures IsWhitespace(c) <==> c in WHITE
  {
    if '\t' <= c <= '\r' {
      assert WHITE[c as int - 9] == c;
    } else if c == ' ' {
      assert WHITE[5] == c;
    } else if '\U{2000}' <= c <= '\U{200A}' {
      assert WHITE[9 + c as int - 0x2000] == c;
    } else if c == '\U{85}' || c == '\U{A0}' || c == '\U{1680}' {
      assert WHITE[6] == '\U{85}' && WHITE[7] == '\U{A0}' && WHITE[8] == '\U{1680}';
    } else if IsWhitespace(c) {
      assert WHITE[20] == '\U{2028}' && WHITE[21] == '\U{2029}' && WHITE[22] == '\U{202F}' && WHITE[23] == '\U{205F}';
      assert WHITE[24] == '\U{3000}';
    }
  }

  // ---------- digits ----------

  const LOWER: string := "0123456789abcdef"
  const UPPER: string := "0123456789ABCDEF"

  /** The sixteen digits, which are printed in lower case and read in either. */
  lemma DigitsAreHex(n: nat, c: char)
    requires n < 16
    ensures HexDigit(n) == LOWER[n]
    ensures HexValue(c) == Some(n) <==> c == LOWER[n] || c == UPPER[n]
  {}

  lemma FirstByteHex(bytes: Bytes)
    requires bytes != []
    ensures HexEncode(bytes) == [LOWER[bytes[0] as int / 16], LOWER[bytes[0] as int % 16]] + HexEncode(bytes[1..])
  {
    DigitsAreHex(bytes[0] as int / 16, '0');
    DigitsAreHex(bytes[0] as int % 16, '0');
  }

  lemma AfterTwo(s: string, head: string, t: string, j: nat)
    requires |head| == 2 && s == head + t && j < |t|
    ensures |s| == |t| + 2 && s[j + 2] == t[j]
  {}

  predicate HasByteAt(s: string, b: Byte, i: nat) {
    2 * i + 1 < |s| && s[2 * i] == LOWER[b as int / 16] && s[2 * i + 1] == LOWER[b as int % 16]
  }

  /** Byte after byte, high digit first. */
  lemma {:induction false} HexEncodedAt(bytes: Bytes, i: nat)
    requires i < |bytes|
    ensures HasByteAt(HexEncode(bytes), bytes[i], i)
    decreases |bytes|
  {
    FirstByteHex(bytes);
    if i > 0 {
      HexEncodedAt(bytes[1..], i - 1);
      var s, t := HexEncode(bytes), HexEncode(bytes[1..]);
      AfterTwo(s, s[..2], t, 2 * (i - 1));
      AfterTwo(s, s[..2], t, 2 * (i - 1) + 1);
    }
  }

  // ---------- whole texts ----------

  /** An address all of whose bytes but the last are zero, and whose last is a single digit. */
  predicate EndsInDigit(a: AccountAddress, digit: nat) {
    && |a| == ADDRESS_LENGTH && 0 < digit < 16 && a[31] as int == digit
    && forall i :: 0 <= i < 31 ==> a[i] == 0
  }

  lemma {:induction false} TrimmedZeros(n: nat, s: string)
    requires s != [] && s[0] != '0'
    ensures TrimZeros(Zeros(n) + s) == s
    decreases n
  {
    if n == 0 {
      assert Zeros(0) + s == s;
    } else {
      ZerosNext(n - 1, s, Zeros(n - 1) + s);
      assert (['0'] + (Zeros(n - 1) + s))[1..] == Zeros(n - 1) + s;
      TrimmedZeros(n - 1, s);
    }
  }

  lemma DigitAddressHex(a: AccountAddress, digit: nat)
    requires EndsInDigit(a, digit)
    ensures HexEncode(a) == Zeros(63) + [LOWER[digit]]
  {
    var text := HexEncode(a);
    HexRoundTrip(a);
    forall i | 0 <= i < 32
      ensures text[2 * i] == '0' && text[2 * i + 1] == if i < 31 then '0' else LOWER[digit]
    {
      HexEncodedAt(a, i);
    }
    forall j | 0 <= j < 63 ensures text[j] == '0' {
      assert j == 2 * (j / 2) || j == 2 * (j / 2) + 1;
    }
    assert text[2 * 31 + 1] == LOWER[digit];
  }

  /** Such an address is written as 63 zeros and its digit, or as `0x` and its digit. */
  lemma DigitAddressText(a: AccountAddress, digit: nat)
    requires EndsInDigit(a, digit)
    ensures PrintAddress(a, Canonical) == Zeros(63) + [LOWER[digit]]
    ensures PrintAddress(a, Display) == "0x" + [LOWER[digit]]
  {
    DigitAddressHex(a, digit);
    TrimmedZeros(63, [LOWER[digit]]);
  }

  /** A struct without parameters. */
  function Plain(a: AccountAddress, m: Identifier, n: Identifier): StructTag {
    StructTag(a, m, n, [])
  }

  lemma PlainText(a: AccountAddress, m: Identifier, n: Identifier, style: Style)
    ensures PrintStruct(Plain(a, m, n), style) == PrintAddress(a, style.form) + "::" + m + "::" + n
  {}

  lemma ParamsText(tag: StructTag, style: Style, head: string, params: string)
    requires tag.typeParams != [] && PrintStruct(Bare(tag), style) == head && PrintList(tag.typeParams, style) == params
    ensures PrintStruct(tag, style) == head + "<" + params + ">"
  {
    assert PrintStruct(Bare(tag), style) == PrintHead(tag, style.form);
    assert head + ("<" + params + ">") == head + "<" + params + ">";
  }

  /** The marks between the parts, as in the texts that the documentation of the parser gives: a struct is written as
      address, module and name, with two colons between them; its parameters stand in angle brackets, with a comma
      between them; and all this is parsed back. */
  lemma MarksAreParsed(a: AccountAddress, m: Identifier, n: Identifier, style: Style)
    requires |a| == ADDRESS_LENGTH && IsIdentifier(m) && IsIdentifier(n) && style.gap == 0
    ensures var text := PrintAddress(a, style.form) + "::" + m + "::" + n;
            && Parse(text, style.form) == Some(Struct(Plain(a, m, n)))
            && Parse(text + "<" + "vector<u8>,bool" + ">", style.form)
               == Some(Struct(Plain(a, m, n).(typeParams := [Vector(U8), Bool])))
            && Parse(text + "<" + (text + "<" + "u64" + ">") + ">", style.form)
               == Some(Struct(Plain(a, m, n).(typeParams := [Struct(Plain(a, m, n).(typeParams := [U64]))])))
  {
    var text, plain := PrintAddress(a, style.form) + "::" + m + "::" + n, Plain(a, m, n);
    PlainText(a, m, n, style);
    RoundTrip(Struct(plain), style);
    PairText(style);
    ReadBack(plain, [Vector(U8), Bool], style, text, "vector<u8>,bool");
    ReadBack(plain, [U64], style, text, "u64");
    var inner := plain.(typeParams := [U64]);
    ReadBack(plain, [Struct(inner)], style, text, text + "<" + "u64" + ">");
  }

  lemma ReadBack(plain: StructTag, params: seq<TypeTag>, style: Style, head: string, text: string)
    requires WellFormedStruct(plain) && plain.typeParams == [] && PrintStruct(plain, style) == head
    requires params != [] && (forall i :: 0 <= i < |params| ==> WellFormed(params[i])) && PrintList(params, style) == text
    ensures Parse(head + "<" + text + ">", style.form) == Some(Struct(plain.(typeParams := params)))
    ensures Print(Struct(plain.(typeParams := params)), style) == head + "<" + text + ">"
  {
    var tag := plain.(typeParams := params);
    assert Bare(tag) == plain;
    ParamsText(tag, style, head, text);
    RoundTrip(Struct(tag), style);
  }

  lemma PairText(style: Style)
    requires style.gap == 0
    ensures PrintList([Vector(U8), Bool], style) == "vector<u8>,bool"
  {
    assert [Vector(U8), Bool][1..] == [Bool] && Spaces(0) == "";
    assert Print(Vector(U8), style) == "vector<u8>" && PrintList([Bool], style) == "bool";
  }

  lemma ShortText(a: AccountAddress, digit: nat, m: Identifier, n: Identifier)
    requires EndsInDigit(a, digit)
    ensures TypeText(Plain(a, m, n)) == "0x" + [LOWER[digit]] + "::" + m + "::" + n
  {
    DigitAddressText(a, digit);
    PlainText(a, m, n, Style(Display, 1));
  }

  lemma StdText(tag: StructTag)
    requires EndsInDigit(tag.address, 2) && tag == Plain(tag.address, "object", "Root")
    ensures TypeText(tag) == "0x2::object::Root"
  {
    ShortText(tag.address, 2, "object", "Root");
    assert LOWER[2] == '2';
    assert "0x" + ['2'] + "::" == "0x2::";
    assert "0x2::" + "object" + "::" + "Root" == "0x2::object::Root";
  }

  /** The type of the root object is written `0x2::object::Root`. */
  lemma RootTypeText(tag: StructTag)
    requires Struct(tag) == ROOT_TYPE
    ensures TypeText(tag) == "0x2::object::Root"
  {
    RootParts(tag);
    StdText(tag);
  }

  lemma RootParts(tag: StructTag)
    requires Struct(tag) == ROOT_TYPE
    ensures tag == Plain(tag.address, "object", "Root") && EndsInDigit(tag.address, 2)
  {}

  /** As the indexer stores it, a type has a space after the comma between its parameters. */
  lemma StoredPairText(tag: StructTag)
    requires EndsInDigit(tag.address, 2) && tag == Plain(tag.address, tag.moduleName, tag.name).(typeParams := [U8, Bool])
    ensures TypeText(tag) == "0x" + ['2'] + "::" + tag.moduleName + "::" + tag.name + "<" + "u8, bool" + ">"
  {
    var style := Style(Display, 1);
    ShortText(tag.address, 2, tag.moduleName, tag.name);
    assert [U8, Bool][1..] == [Bool] && Spaces(1) == " ";
    assert Print(U8, style) == "u8" && PrintList([Bool], style) == "bool";
    assert PrintList([U8, Bool], style) == "u8, bool";
    assert Bare(tag) == Plain(tag.address, tag.moduleName, tag.name);
    ParamsText(tag, style, "0x" + ['2'] + "::" + tag.moduleName + "::" + tag.name, "u8, bool");
  }
}

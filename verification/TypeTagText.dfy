/** The text form of type tags: a printer, and the parser of the canonical form. */
module TypeTagText {
  import opened Common
  import opened Strings
  import opened TypeTags

  /** How addresses are written: 64 hexadecimal digits, or `0x` and the digits without leading zeros. */
  datatype AddressForm = Canonical | Display

  /** The address form, and the number of spaces after the comma between type parameters. */
  datatype Style = Style(form: AddressForm, gap: nat)

  // ---------- characters ----------

  predicate IsWhitespace(c: char) {
    || '\t' <= c <= '\r' || c == ' ' || c == '\U{85}' || c == '\U{A0}' || c == '\U{1680}'
    || '\U{2000}' <= c <= '\U{200A}' || c == '\U{2028}' || c == '\U{2029}' || c == '\U{202F}' || c == '\U{205F}'
    || c == '\U{3000}'
  }

  predicate IsLetter(c: char) {
    'a' <= c <= 'z' || 'A' <= c <= 'Z'
  }

  predicate IsIdentifierChar(c: char) {
    IsLetter(c) || IsDigit(c) || c == '_'
  }

  /** An ordinary Move identifier. */
  predicate IsIdentifier(s: string) {
    && s != [] && (IsLetter(s[0]) || (s[0] == '_' && |s| > 1))
    && forall i :: 0 <= i < |s| ==> IsIdentifierChar(s[i])
  }

  function TrimStart(s: string): string {
    if s != [] && IsWhitespace(s[0]) then TrimStart(s[1..]) else s
  }

  function TrimEnd(s: string): string {
    if s != [] && IsWhitespace(s[|s| - 1]) then TrimEnd(s[..|s| - 1]) else s
  }

  function Trim(s: string): (t: string)
    ensures |t| <= |s|
  {
    TrimShortens(s);
    TrimEnd(TrimStart(s))
  }

  lemma TrimShortens(s: string)
    ensures |TrimStart(s)| <= |s| && |TrimEnd(TrimStart(s))| <= |s|
  {
    TrimStartShortens(s);
    TrimEndShortens(TrimStart(s));
  }

  lemma {:induction false} TrimStartShortens(s: string)
    ensures |TrimStart(s)| <= |s|
  {
    if s != [] {
      TrimStartShortens(s[1..]);
    }
  }

  lemma {:induction false} TrimEndShortens(s: string)
    ensures |TrimEnd(s)| <= |s|
    decreases |s|
  {
    if s != [] {
      TrimEndShortens(s[..|s| - 1]);
    }
  }

  // ---------- addresses ----------

  function HexDigit(n: nat): char
    requires n < 16
  {
    if n < 10 then '0' + n as char else 'a' + (n - 10) as char
  }

  function HexValue(c: char): Option<nat> {
    if '0' <= c <= '9' then Some(c as int - '0' as int)
    else if 'a' <= c <= 'f' then Some(c as int - 'a' as int + 10)
    else if 'A' <= c <= 'F' then Some(c as int - 'A' as int + 10)
    else None
  }

  function HexEncode(bytes: Bytes): string {
    if bytes == [] then ""
    else [HexDigit(bytes[0] as int / 16), HexDigit(bytes[0] as int % 16)] + HexEncode(bytes[1..])
  }

  function HexDecode(s: string): Option<Bytes> {
    if s == [] then Some([])
    else if |s| == 1 then None
    else
      match (HexValue(s[0]), HexValue(s[1]), HexDecode(s[2..]))
      case (Some(high), Some(low), Some(rest)) =>
        if high * 16 + low < 256 then Some([(high * 16 + low) as Byte] + rest) else None
      case _ => None
  }

  function AddressFromHex(s: string): Option<AccountAddress> {
    if |s| == 2 * ADDRESS_LENGTH then HexDecode(s) else None
  }

  function TrimZeros(s: string): string {
    if s != [] && s[0] == '0' then TrimZeros(s[1..]) else s
  }

  /** The digits of the short form: at least one. */
  function ShortDigits(s: string): string {
    if TrimZeros(s) == "" then "0" else TrimZeros(s)
  }

  function Zeros(n: nat): string {
    seq(n, _ => '0')
  }

  function PrintAddress(a: AccountAddress, form: AddressForm): string {
    match form
    case Canonical => HexEncode(a)
    case Display => "0x" + ShortDigits(HexEncode(a))
  }

  function ParseAddress(s: string, form: AddressForm): Option<AccountAddress> {
    match form
    case Canonical => AddressFromHex(s)
    case Display =>
      if !("0x" <= s) then None
      else if |s| - 2 < 2 * ADDRESS_LENGTH then AddressFromHex(Zeros(2 * ADDRESS_LENGTH - (|s| - 2)) + s[2..])
      else AddressFromHex(s[2..])
  }

  // ---------- printing ----------

  function Spaces(n: nat): string {
    seq(n, _ => ' ')
  }

  /** The tags without parts, in the order the parser tries their names. */
  const PRIMITIVES: seq<TypeTag> := [Bool, U8, U16, U32, U64, U128, U256, Address, Signer]

  function PrimitiveName(t: TypeTag): string
    requires !t.Vector? && !t.Struct?
  {
    match t
    case Bool => "bool"
    case U8 => "u8"
    case U16 => "u16"
    case U32 => "u32"
    case U64 => "u64"
    case U128 => "u128"
    case U256 => "u256"
    case Address => "address"
    case Signer => "signer"
  }

  function Print(t: TypeTag, style: Style): string
    decreases t, 0
  {
    match t
    case Vector(elem) => "vector<" + Print(elem, style) + ">"
    case Struct(tag) => PrintStruct(tag, style)
    case _ => PrimitiveName(t)
  }

  /** Address, module and name. */
  function PrintHead(tag: StructTag, form: AddressForm): string {
    PrintAddress(tag.address, form) + "::" + tag.moduleName + "::" + tag.name
  }

  function PrintStruct(tag: StructTag, style: Style): string
    decreases tag, 2
  {
    PrintHead(tag, style.form) + (if tag.typeParams == [] then "" else "<" + PrintList(tag.typeParams, style) + ">")
  }

  function PrintList(tags: seq<TypeTag>, style: Style): string
    requires tags != []
    decreases tags, 1
  {
    if |tags| == 1 then Print(tags[0], style)
    else Print(tags[0], style) + "," + Spaces(style.gap) + PrintList(tags[1..], style)
  }

  // ---------- parsing ----------

  function FindColons(s: string): Option<nat> {
    if |s| < 2 then None
    else if s[..2] == "::" then Some(0)
    else match FindColons(s[1..]) case None => None case Some(i) => Some(i + 1)
  }

  lemma {:induction false} FindColonsBound(s: string)
    ensures FindColons(s).Some? ==> FindColons(s).value + 2 <= |s|
  {
    if s != [] {
      FindColonsBound(s[1..]);
    }
  }

  /** The first of the tags that has the name `s`. */
  function FirstNamed(tags: seq<TypeTag>, s: string): Option<TypeTag>
    requires forall t :: t in tags ==> !t.Vector? && !t.Struct?
  {
    if tags == [] then None
    else if PrimitiveName(tags[0]) == s then Some(tags[0])
    else FirstNamed(tags[1..], s)
  }

  function Primitive(s: string): Option<TypeTag> {
    FirstNamed(PRIMITIVES, s)
  }

  predicate EndsWith(s: string, c: char) {
    s != [] && s[|s| - 1] == c
  }

  /** A type tag from its text. */
  function Parse(s: string, form: AddressForm): Option<TypeTag>
    decreases |s|, 1
  {
    if Primitive(s).Some? then Primitive(s)
    else if "vector<" <= s && EndsWith(s, '>') then
      match Parse(s[7..|s| - 1], form)
      case None => None
      case Some(elem) => Some(Vector(elem))
    else
      match ParseStruct(s, form)
      case None => None
      case Some(tag) => Some(Struct(tag))
  }

  /** `address::module::rest`, cut at its first two double colons. */
  function CutHead(s: string): Option<(string, string, string)> {
    FindColonsBound(s);
    match FindColons(s)
    case None => None
    case Some(i) =>
      FindColonsBound(s[i + 2..]);
      match FindColons(s[i + 2..])
      case None => None
      case Some(j) => Some((s[..i], s[i + 2..][..j], s[i + 2..][j + 2..]))
  }

  lemma CutHeadShortens(s: string)
    ensures CutHead(s).Some? ==> |CutHead(s).value.2| < |s|
  {
    FindColonsBound(s);
    if FindColons(s).Some? {
      FindColonsBound(s[FindColons(s).value + 2..]);
    }
  }

  /** The parts of the text of a struct tag; `generics` is the text between the outermost angle brackets. */
  datatype StructText =
    StructText(address: string, moduleName: string, name: string, generics: Option<string>)

  function CutName(address: string, moduleName: string, rest: string): Option<StructText> {
    FindCharBound(rest, '<');
    match FindChar(rest, '<')
    case None => Some(StructText(address, moduleName, rest, None))
    case Some(nameEnd) =>
      if !EndsWith(rest, '>') || Trim(rest[nameEnd + 1..]) == ">" then None
      else Some(StructText(address, moduleName, rest[..nameEnd], Some(rest[nameEnd + 1..|rest| - 1])))
  }

  function CutStruct(s: string): Option<StructText> {
    match CutHead(s)
    case None => None
    case Some((address, moduleName, rest)) => CutName(address, moduleName, rest)
  }

  lemma CutStructShortens(s: string)
    ensures CutStruct(s).Some? && CutStruct(s).value.generics.Some? ==> |CutStruct(s).value.generics.value| < |s|
  {
    CutHeadShortens(s);
    if CutHead(s).Some? {
      FindCharBound(CutHead(s).value.2, '<');
    }
  }

  function ParseStruct(s: string, form: AddressForm): Option<StructTag>
    decreases |s|, 0
  {
    match CutStruct(s)
    case None => None
    case Some(text) =>
      CutStructShortens(s);
      match ParseAddress(text.address, form)
      case None => None
      case Some(address) =>
        if !IsIdentifier(text.moduleName) || !IsIdentifier(text.name) then None
        else if text.generics.None? then Some(StructTag(address, text.moduleName, text.name, []))
        else
          match ParseParams(text.generics.value, form)
          case None => None
          case Some(params) => Some(StructTag(address, text.moduleName, text.name, params))
  }

  /** The pieces of `s` from `start` on, cut at the commas outside all brackets; scanning is at `i`, `depth` brackets
      deep. Nothing follows a final comma. */
  function Pieces(s: string, i: nat, depth: int, start: nat): seq<string>
    requires start <= i <= |s|
    decreases |s| - i
  {
    if i == |s| then (if start < |s| then [s[start..]] else [])
    else if s[i] == '<' then Pieces(s, i + 1, depth + 1, start)
    else if s[i] == '>' then Pieces(s, i + 1, depth - 1, start)
    else if s[i] == ',' && depth == 0 then [s[start..i]] + Pieces(s, i + 1, depth, i + 1)
    else Pieces(s, i + 1, depth, start)
  }

  lemma {:induction false} PiecesShorter(s: string, i: nat, depth: int, start: nat)
    requires start <= i <= |s|
    ensures forall p :: p in Pieces(s, i, depth, start) ==> |p| <= |s|
    decreases |s| - i
  {
    if i < |s| {
      PiecesShorter(s, i + 1, depth + 1, start);
      PiecesShorter(s, i + 1, depth - 1, start);
      PiecesShorter(s, i + 1, depth, start);
      PiecesShorter(s, i + 1, depth, i + 1);
    }
  }

  /** Apply `f` to every piece, in order, until one fails. */
  function Traverse<T>(f: string --> Option<T>, pieces: seq<string>): Option<seq<T>>
    requires forall p :: p in pieces ==> f.requires(p)
  {
    if pieces == [] then Some([])
    else
      match f(pieces[0])
      case None => None
      case Some(x) =>
        match Traverse(f, pieces[1..])
        case None => None
        case Some(xs) => Some([x] + xs)
  }

  /** The parser of one piece, trimmed first, of a text of length `n`. */
  function PieceParser(n: nat, form: AddressForm): string --> Option<TypeTag>
    decreases n, 2
  {
    (p: string) requires |p| <= n => Parse(Trim(p), form)
  }

  function ParseParams(s: string, form: AddressForm): Option<seq<TypeTag>>
    decreases |s|, 3
  {
    PiecesShorter(s, 0, 0, 0);
    if Trim(s) == "" then None
    else
      match Traverse(PieceParser(|s|, form), Pieces(s, 0, 0, 0))
      case None => None
      case Some(tags) => if tags == [] then None else Some(tags)
  }

  function FromCanonicalString(s: string): Option<TypeTag> {
    Parse(s, Canonical)
  }

  /** The parser that accepts both forms. */
  function ParseTypeTag(s: string): Option<TypeTag> {
    var t := Trim(s);
    if "0x" <= t then Parse(t, Display) else FromCanonicalString(t)
  }

  lemma {:induction false} TraverseConcat<T>(f: string --> Option<T>, a: seq<string>, b: seq<string>)
    requires forall p :: p in a + b ==> f.requires(p)
    ensures (forall p :: p in a ==> f.requires(p)) && (forall p :: p in b ==> f.requires(p))
    ensures Traverse(f, a).None? || Traverse(f, b).None? ==> Traverse(f, a + b) == None
    ensures Traverse(f, a).Some? && Traverse(f, b).Some? ==>
              Traverse(f, a + b) == Some(Traverse(f, a).value + Traverse(f, b).value)
    decreases |a|
  {
    assert forall p :: p in a || p in b ==> p in a + b;
    if a == [] {
      assert a + b == b;
      assert Traverse(f, b).Some? ==> [] + Traverse(f, b).value == Traverse(f, b).value;
    } else {
      assert (a + b)[0] == a[0] && (a + b)[1..] == a[1..] + b;
      TraverseConcat(f, a[1..], b);
      if Traverse(f, a).Some? && Traverse(f, b).Some? {
        var x, xs := f(a[0]).value, Traverse(f, a[1..]).value;
        assert [x] + (xs + Traverse(f, b).value) == [x] + xs + Traverse(f, b).value;
      }
    }
  }

  /** One more piece after pieces that all succeed. */
  lemma TraverseNext<T>(f: string --> Option<T>, done: seq<string>, piece: string, tail: seq<string>)
    requires forall p :: p in done + [piece] + tail ==> f.requires(p)
    ensures (forall p :: p in done ==> f.requires(p)) && f.requires(piece)
    ensures forall p :: p in done + [piece] ==> f.requires(p)
    ensures Traverse(f, done).Some? ==>
              if f(piece).None? then Traverse(f, done + [piece] + tail) == None
              else Traverse(f, done + [piece]) == Some(Traverse(f, done).value + [f(piece).value])
  {
    TraverseConcat(f, done + [piece], tail);
    TraverseConcat(f, done, [piece]);
    assert piece in done + [piece];
    assert [piece][1..] == [];
    assert f(piece).Some? ==>
        Traverse(f, [piece]) == Some([f(piece).value] + []) && [f(piece).value] + [] == [f(piece).value];
  }

  /** The pieces `all` are those done, which gave `params`, and the rest. */
  ghost predicate Progress<T>(f: string --> Option<T>, all: seq<string>, done: seq<string>, rest: seq<string>,
                              params: seq<T>)
  {
    && all == done + rest && (forall p :: p in all ==> f.requires(p)) && (forall p :: p in done ==> f.requires(p))
    && Traverse(f, done) == Some(params)
  }

  lemma ProgressNext<T>(f: string --> Option<T>, all: seq<string>, done: seq<string>, piece: string, tail: seq<string>,
                        params: seq<T>)
    requires Progress(f, all, done, [piece] + tail, params)
    ensures (forall p :: p in all ==> f.requires(p)) && f.requires(piece)
    ensures if f(piece).None? then Traverse(f, all) == None
            else Progress(f, all, done + [piece], tail, params + [f(piece).value])
  {
    assert all == done + [piece] + tail;
    TraverseNext(f, done, piece, tail);
  }

  lemma ProgressEnds<T>(f: string --> Option<T>, all: seq<string>, done: seq<string>, params: seq<T>)
    requires Progress(f, all, done, [], params)
    ensures (forall p :: p in all ==> f.requires(p)) && Traverse(f, all) == Some(params)
  {
    assert all == done;
  }

  /** The splitting loop: one pass over the characters with a bracket counter, parsing each piece where it ends. */
  method SplitAndParse<T>(s: string, parse: string --> Option<T>) returns (r: Option<seq<T>>)
    requires forall p :: |p| <= |s| ==> parse.requires(p)
    ensures forall p :: p in Pieces(s, 0, 0, 0) ==> parse.requires(p)
    ensures r == Traverse(parse, Pieces(s, 0, 0, 0))
  {
    PiecesShorter(s, 0, 0, 0);
    var params: seq<T> := [];
    var depth, start := 0, 0;
    ghost var all, done := Pieces(s, 0, 0, 0), [];
    for i := 0 to |s|
      invariant start <= i && Progress(parse, all, done, Pieces(s, i, depth, start), params)
    {
      var c := s[i];
      if c == '<' {
        depth := depth + 1;
      } else if c == '>' {
        depth := depth - 1;
      } else if c == ',' && depth == 0 {
        ProgressNext(parse, all, done, s[start..i], Pieces(s, i + 1, depth, i + 1), params);
        var param := parse(s[start..i]);
        if param.None? {
          return None;
        }
        params, done, start := params + [param.value], done + [s[start..i]], i + 1;
      }
    }
    if start < |s| {
      assert [s[start..]] + [] == [s[start..]];
      ProgressNext(parse, all, done, s[start..], [], params);
      var param := parse(s[start..]);
      if param.None? {
        return None;
      }
      params, done := params + [param.value], done + [s[start..]];
    }
    ProgressEnds(parse, all, done, params);
    r := Some(params);
  }

  method ParseTypeParams(s: string, form: AddressForm) returns (r: Option<seq<TypeTag>>)
    ensures r == ParseParams(s, form)
  {
    if Trim(s) == "" {
      return None;
    }
    r := SplitAndParse(s, PieceParser(|s|, form));
    if r == Some([]) {
      r := None;
    }
  }
}

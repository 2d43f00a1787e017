/** The data-availability segment: its byte layout, its checksums, and the text of its identifier. */
module Segment {
  import opened Common
  import opened Strings

  const U128_LIMIT: nat := 0x1_0000_0000_0000_0000_0000_0000_0000_0000

  type U64 = x: int | 0 <= x < U64_LIMIT
  type U128 = x: int | 0 <= x < U128_LIMIT

  /** A checksum of bytes; which one does not matter here. */
  type Checksum = Bytes -> U64

  const DATA_OFFSET: nat := 42
  const CHECKSUM_OFFSET: nat := 34

  datatype SegmentID = SegmentID(chunkId: U128, segmentNumber: U64)

  datatype SegmentV0 = SegmentV0(id: SegmentID, isLast: bool, dataChecksum: U64, checksum: U64, data: Bytes)

  datatype SegmentError = TooShort | ChecksumMismatch | DataChecksumMismatch | UnsupportedVersion

  // ---------- little-endian numbers ----------

  function Le(n: nat, width: nat): Bytes {
    if width == 0 then [] else [(n % 256) as Byte] + Le(n / 256, width - 1)
  }

  function FromLe(bytes: Bytes): nat {
    if bytes == [] then 0 else bytes[0] as nat + 256 * FromLe(bytes[1..])
  }

  /** The number of values of so many bytes. */
  function Values(width: nat): nat {
    if width == 0 then 1 else 256 * Values(width - 1)
  }

  lemma {:induction false} LeLength(n: nat, width: nat)
    ensures |Le(n, width)| == width
    decreases width
  {
    if width > 0 {
      LeLength(n / 256, width - 1);
    }
  }

  lemma {:induction false} LeRoundTrip(n: nat, width: nat)
    requires n < Values(width)
    ensures |Le(n, width)| == width && FromLe(Le(n, width)) == n
    decreases width
  {
    if width > 0 {
      LeRoundTrip(n / 256, width - 1);
      assert Le(n, width)[1..] == Le(n / 256, width - 1);
    }
  }

  /** Little-endian: each further byte counts 256 times as much as the one before. */
  lemma {:induction false} FromLeAppended(bytes: Bytes, b: Byte)
    ensures FromLe(bytes + [b]) == FromLe(bytes) + b as nat * Values(|bytes|)
    decreases |bytes|
  {
    if bytes == [] {
      assert bytes + [b] == [b] && FromLe([b]) == b as nat + 256 * FromLe([]);
    } else {
      assert (bytes + [b])[0] == bytes[0] && (bytes + [b])[1..] == bytes[1..] + [b];
      FromLeAppended(bytes[1..], b);
      Regroup(bytes[0] as nat, FromLe(bytes[1..]), b as nat, Values(|bytes| - 1));
    }
  }

  lemma Regroup(low: nat, rest: nat, b: nat, v: nat)
    ensures low + 256 * (rest + b * v) == low + 256 * rest + b * (256 * v)
  {
    assert 256 * (rest + b * v) == 256 * rest + 256 * (b * v);
    assert 256 * (b * v) == b * (256 * v);
  }

  lemma {:induction false} FromLeRoundTrip(bytes: Bytes)
    ensures FromLe(bytes) < Values(|bytes|) && Le(FromLe(bytes), |bytes|) == bytes
    decreases |bytes|
  {
    if bytes != [] {
      FromLeRoundTrip(bytes[1..]);
      assert bytes == [bytes[0]] + bytes[1..];
    }
  }

  lemma WordValues()
    ensures Values(8) == U64_LIMIT && Values(16) == U128_LIMIT
  {
    assert Values(2) == 0x1_0000;
    assert Values(4) == 0x1_0000_0000;
    assert Values(6) == 0x1_0000_0000_0000;
    assert Values(8) == 0x1_0000_0000_0000_0000;
    assert Values(10) == 0x1_0000_0000_0000_0000_0000;
    assert Values(12) == 0x1_0000_0000_0000_0000_0000_0000;
    assert Values(14) == 0x1_0000_0000_0000_0000_0000_0000_0000;
  }

  function U64FromLe(bytes: Bytes): (n: U64)
    requires |bytes| == 8
    ensures Le(n, 8) == bytes
  {
    FromLeRoundTrip(bytes);
    WordValues();
    FromLe(bytes)
  }

  function U128FromLe(bytes: Bytes): (n: U128)
    requires |bytes| == 16
    ensures Le(n, 16) == bytes
  {
    FromLeRoundTrip(bytes);
    WordValues();
    FromLe(bytes)
  }

  lemma U64RoundTrip(n: U64)
    ensures |Le(n, 8)| == 8 && U64FromLe(Le(n, 8)) == n
  {
    WordValues();
    LeRoundTrip(n, 8);
  }

  lemma U128RoundTrip(n: U128)
    ensures |Le(n, 16)| == 16 && U128FromLe(Le(n, 16)) == n
  {
    WordValues();
    LeRoundTrip(n, 16);
  }

  // ---------- the layout ----------

  function Flag(b: bool): Byte {
    if b then 1 else 0
  }

  /** Everything before the checksum of the header. */
  function Header(segment: SegmentV0, h: Checksum): Bytes {
    [0] + Le(segment.id.chunkId, 16) + Le(segment.id.segmentNumber, 8) + [Flag(segment.isLast)]
    + Le(h(segment.data), 8)
  }

  function Encode(segment: SegmentV0, h: Checksum): Bytes {
    Header(segment, h) + Le(h(Header(segment, h)), 8) + segment.data
  }

  method ToBytes(segment: SegmentV0, h: Checksum) returns (bytes: Bytes)
    ensures bytes == Encode(segment, h)
  {
    bytes := [0];
    bytes := bytes + Le(segment.id.chunkId, 16);
    bytes := bytes + Le(segment.id.segmentNumber, 8);
    bytes := bytes + [Flag(segment.isLast)];
    var dataChecksum := h(segment.data);
    bytes := bytes + Le(dataChecksum, 8);
    HeaderFields(segment, h);
    assert bytes == Header(segment, h) && bytes[0..CHECKSUM_OFFSET] == bytes;
    var checksum := h(bytes[0..CHECKSUM_OFFSET]);
    bytes := bytes + Le(checksum, 8);
    bytes := bytes + segment.data;
  }

  function FromBytes(bytes: Bytes, h: Checksum): Result<SegmentV0, SegmentError> {
    if |bytes| < DATA_OFFSET then Err(TooShort)
    else
      var chunkId := U128FromLe(bytes[1..17]);
      var segmentNumber := U64FromLe(bytes[17..25]);
      var isLast := bytes[25] != 0;
      var dataChecksum := U64FromLe(bytes[26..34]);
      var checksum := U64FromLe(bytes[34..DATA_OFFSET]);
      var data := bytes[DATA_OFFSET..];
      if h(bytes[0..CHECKSUM_OFFSET]) != checksum then Err(ChecksumMismatch)
      else if h(data) != dataChecksum then Err(DataChecksumMismatch)
      else Ok(SegmentV0(SegmentID(chunkId, segmentNumber), isLast, dataChecksum, checksum, data))
  }

  /** Decoding by version; the first byte has to exist. */
  function SegmentFromBytes(bytes: Bytes, h: Checksum): Result<SegmentV0, SegmentError>
    requires bytes != []
  {
    if bytes[0] == 0 then FromBytes(bytes, h) else Err(UnsupportedVersion)
  }

  lemma JoinedFields(version: Byte, chunkId: Bytes, segmentNumber: Bytes, flag: Byte, dataChecksum: Bytes)
    requires |chunkId| == 16 && |segmentNumber| == 8 && |dataChecksum| == 8
    ensures var header := [version] + chunkId + segmentNumber + [flag] + dataChecksum;
            && |header| == CHECKSUM_OFFSET && header[0] == version && header[1..17] == chunkId
            && header[17..25] == segmentNumber && header[25] == flag && header[26..34] == dataChecksum
  {}

  lemma HeaderFields(segment: SegmentV0, h: Checksum)
    ensures var header := Header(segment, h);
            && |header| == CHECKSUM_OFFSET && header[0] == 0 && header[1..17] == Le(segment.id.chunkId, 16)
            && header[17..25] == Le(segment.id.segmentNumber, 8) && header[25] == Flag(segment.isLast)
            && header[26..34] == Le(h(segment.data), 8)
  {
    LeLength(segment.id.chunkId, 16);
    LeLength(segment.id.segmentNumber, 8);
    LeLength(h(segment.data), 8);
    JoinedFields(0, Le(segment.id.chunkId, 16), Le(segment.id.segmentNumber, 8), Flag(segment.isLast),
                 Le(h(segment.data), 8));
  }

  lemma JoinedBytes(header: Bytes, checksum: Bytes, data: Bytes)
    requires |header| == CHECKSUM_OFFSET && |checksum| == 8
    ensures var bytes := header + checksum + data;
            && bytes[0..CHECKSUM_OFFSET] == header && bytes[34..DATA_OFFSET] == checksum
            && bytes[DATA_OFFSET..] == data && bytes[0] == header[0] && bytes[1..17] == header[1..17]
            && bytes[17..25] == header[17..25] && bytes[25] == header[25] && bytes[26..34] == header[26..34]
  {}

  lemma EncodedFields(segment: SegmentV0, h: Checksum)
    ensures var bytes, header := Encode(segment, h), Header(segment, h);
            && |bytes| == DATA_OFFSET + |segment.data| && bytes[0..CHECKSUM_OFFSET] == header
            && bytes[34..DATA_OFFSET] == Le(h(header), 8) && bytes[DATA_OFFSET..] == segment.data
            && bytes[0] == header[0] && bytes[1..17] == header[1..17] && bytes[17..25] == header[17..25]
            && bytes[25] == header[25] && bytes[26..34] == header[26..34]
  {
    HeaderFields(segment, h);
    LeLength(h(Header(segment, h)), 8);
    JoinedBytes(Header(segment, h), Le(h(Header(segment, h)), 8), segment.data);
  }

  /** Decoding an encoded segment gives it back, with both checksums computed afresh. */
  lemma EncodeDecode(segment: SegmentV0, h: Checksum)
    ensures FromBytes(Encode(segment, h), h) ==
            Ok(segment.(dataChecksum := h(segment.data), checksum := h(Header(segment, h))))
    ensures Encode(segment, h) != [] && SegmentFromBytes(Encode(segment, h), h) == FromBytes(Encode(segment, h), h)
  {
    HeaderFields(segment, h);
    EncodedFields(segment, h);
    U128RoundTrip(segment.id.chunkId);
    U64RoundTrip(segment.id.segmentNumber);
    U64RoundTrip(h(segment.data));
    U64RoundTrip(h(Header(segment, h)));
  }

  /** Cut at the field boundaries, the bytes are their fields. */
  lemma CutBytes(bytes: Bytes)
    requires |bytes| >= DATA_OFFSET
    ensures bytes[0..CHECKSUM_OFFSET] == [bytes[0]] + bytes[1..17] + bytes[17..25] + [bytes[25]] + bytes[26..34]
    ensures bytes == bytes[0..CHECKSUM_OFFSET] + bytes[34..DATA_OFFSET] + bytes[DATA_OFFSET..]
  {}

  lemma DecodedFields(bytes: Bytes, h: Checksum)
    requires FromBytes(bytes, h).Ok?
    ensures var segment := FromBytes(bytes, h).value;
            && Le(segment.id.chunkId, 16) == bytes[1..17] && Le(segment.id.segmentNumber, 8) == bytes[17..25]
            && Le(h(segment.data), 8) == bytes[26..34] && Le(h(bytes[0..CHECKSUM_OFFSET]), 8) == bytes[34..DATA_OFFSET]
            && segment.data == bytes[DATA_OFFSET..] && segment.isLast == (bytes[25] != 0)
  {}

  lemma ReEncoded(bytes: Bytes, h: Checksum)
    requires FromBytes(bytes, h).Ok? && bytes[0] == 0 && bytes[25] <= 1
    ensures Encode(FromBytes(bytes, h).value, h) == bytes
  {
    var segment := FromBytes(bytes, h).value;
    DecodedFields(bytes, h);
    CutBytes(bytes);
    assert Flag(segment.isLast) == bytes[25];
    assert Header(segment, h) == bytes[0..CHECKSUM_OFFSET];
  }

  /** When decoding fails, and why: the bytes are too few, or the first checksum of the two that does not hold. */
  lemma DecodingFails(bytes: Bytes, h: Checksum)
    ensures FromBytes(bytes, h) == Err(TooShort) <==> |bytes| < 42
    ensures |bytes| >= 42 ==>
              && (FromBytes(bytes, h) == Err(ChecksumMismatch) <==> bytes[34..42] != Le(h(bytes[..34]), 8))
              && (FromBytes(bytes, h) == Err(DataChecksumMismatch) <==>
                    bytes[34..42] == Le(h(bytes[..34]), 8) && bytes[26..34] != Le(h(bytes[42..]), 8))
              && (FromBytes(bytes, h).Ok? <==>
                    bytes[34..42] == Le(h(bytes[..34]), 8) && bytes[26..34] == Le(h(bytes[42..]), 8))
              && (bytes[0] != 0 ==> SegmentFromBytes(bytes, h) == Err(UnsupportedVersion))
  {
    if |bytes| >= DATA_OFFSET {
      assert bytes[0..CHECKSUM_OFFSET] == bytes[..34];
      U64RoundTrip(h(bytes[..34]));
      U64RoundTrip(h(bytes[42..]));
    }
  }

  /** Accepted bytes are encoded to themselves again exactly if the version byte is zero, which the decoder of this
      version does not check, and the flag byte is zero or one, where it takes any other byte for one. */
  lemma DecodeEncode(bytes: Bytes, h: Checksum)
    requires FromBytes(bytes, h).Ok?
    ensures Encode(FromBytes(bytes, h).value, h) == bytes <==> bytes[0] == 0 && bytes[25] <= 1
  {
    if bytes[0] == 0 && bytes[25] <= 1 {
      ReEncoded(bytes, h);
    } else {
      HeaderFields(FromBytes(bytes, h).value, h);
      EncodedFields(FromBytes(bytes, h).value, h);
    }
  }

  /** For every version byte, flag byte, id and data there are accepted bytes, whatever the checksum function. */
  lemma AcceptedSpelling(version: Byte, flag: Byte, id: SegmentID, data: Bytes, h: Checksum) returns (bytes: Bytes)
    ensures FromBytes(bytes, h).Ok? && bytes[0] == version && bytes[25] == flag
    ensures FromBytes(bytes, h).value.id == id && FromBytes(bytes, h).value.data == data
  {
    var chunkId, segmentNumber, dataChecksum := Le(id.chunkId, 16), Le(id.segmentNumber, 8), Le(h(data), 8);
    var header := [version] + chunkId + segmentNumber + [flag] + dataChecksum;
    U128RoundTrip(id.chunkId);
    U64RoundTrip(id.segmentNumber);
    U64RoundTrip(h(data));
    U64RoundTrip(h(header));
    JoinedFields(version, chunkId, segmentNumber, flag, dataChecksum);
    JoinedBytes(header, Le(h(header), 8), data);
    bytes := header + Le(h(header), 8) + data;
  }

  /** So some accepted bytes are not encoded to themselves: any with another version byte, and any with a flag byte
      other than zero and one, which the decoder by version accepts as well. */
  lemma SomeAreRespelled(version: Byte, flag: Byte, id: SegmentID, data: Bytes, h: Checksum)
    requires version != 0 || flag > 1
    ensures exists bytes :: && FromBytes(bytes, h).Ok? && bytes[0] == version && bytes[25] == flag
                            && Encode(FromBytes(bytes, h).value, h) != bytes
                            && (version == 0 ==> SegmentFromBytes(bytes, h).Ok?)
  {
    var bytes := AcceptedSpelling(version, flag, id, data, h);
    DecodeEncode(bytes, h);
  }

  /** The decoder by version leaves only the flag byte open. */
  lemma DecodeByVersion(bytes: Bytes, h: Checksum)
    requires bytes != [] && SegmentFromBytes(bytes, h).Ok?
    ensures Encode(SegmentFromBytes(bytes, h).value, h) == bytes <==> bytes[25] <= 1
  {
    DecodeEncode(bytes, h);
  }

  // ---------- the identifier's text ----------

  function Digit(n: nat): char
    requires n < 10
  {
    '0' + n as char
  }

  function Decimal(n: nat): string {
    if n < 10 then [Digit(n)] else Decimal(n / 10) + [Digit(n % 10)]
  }

  function DigitsValue(s: string): Option<nat> {
    if s == [] then Some(0)
    else
      var rest := DigitsValue(s[..|s| - 1]);
      if rest.None? || !IsDigit(s[|s| - 1]) then None
      else Some(10 * rest.value + (s[|s| - 1] as nat - '0' as nat))
  }

  /** An unsigned number below `limit`: digits, with an optional plus sign before them. */
  function ParseUnsigned(s: string, limit: nat): Option<nat> {
    if s == "" || s == "+" then None
    else
      var value := DigitsValue(if s[0] == '+' then s[1..] else s);
      if value.Some? && value.value < limit then value else None
  }

  function Split(s: string, c: char): seq<string> {
    match FindChar(s, c)
    case None => [s]
    case Some(i) =>
      FindCharBound(s, c);
      [s[..i]] + Split(s[i + 1..], c)
  }

  function PrintID(id: SegmentID): string {
    Decimal(id.chunkId) + "_" + Decimal(id.segmentNumber)
  }

  function ParseID(s: string): Option<SegmentID> {
    var parts := Split(s, '_');
    if |parts| != 2 then None
    else
      var chunkId := ParseUnsigned(parts[0], U128_LIMIT);
      var segmentNumber := ParseUnsigned(parts[1], U64_LIMIT);
      if chunkId.None? || segmentNumber.None? then None else Some(SegmentID(chunkId.value, segmentNumber.value))
  }

  /** Digits without leading zeros or a sign. */
  predicate PlainDecimal(s: string) {
    && s != [] && (forall i :: 0 <= i < |s| ==> IsDigit(s[i]))
    && (|s| > 1 ==> s[0] != '0')
  }

  lemma {:induction false} DecimalRoundTrip(n: nat)
    ensures PlainDecimal(Decimal(n)) && (n > 0 ==> Decimal(n)[0] != '0')
    ensures DigitsValue(Decimal(n)) == Some(n)
    decreases n
  {
    if n < 10 {
      assert DigitsValue([]) == Some(0);
      assert Decimal(n)[..0] == [];
    } else {
      DecimalRoundTrip(n / 10);
      assert Decimal(n)[..|Decimal(n)| - 1] == Decimal(n / 10);
    }
  }

  lemma {:induction false} DigitsRoundTrip(s: string)
    requires s != [] && DigitsValue(s).Some?
    ensures (forall i :: 0 <= i < |s| ==> IsDigit(s[i])) && (s[0] != '0' ==> DigitsValue(s).value > 0)
    ensures |s| == 1 || s[0] != '0' ==> Decimal(DigitsValue(s).value) == s
    decreases |s|
  {
    var init, last := s[..|s| - 1], s[|s| - 1];
    assert s == init + [last];
    if init == [] {
      assert DigitsValue(init) == Some(0);
      assert Digit(last as nat - '0' as nat) == last;
    } else {
      DigitsRoundTrip(init);
      var value, digit := DigitsValue(init).value, last as nat - '0' as nat;
      assert init[0] == s[0];
      if s[0] != '0' {
        assert (10 * value + digit) / 10 == value && (10 * value + digit) % 10 == digit;
      }
    }
  }

  lemma ParsePlain(n: nat, limit: nat)
    requires n < limit
    ensures ParseUnsigned(Decimal(n), limit) == Some(n) && Without(Decimal(n), '_')
  {
    DecimalRoundTrip(n);
  }

  /** An accepted number is printed as it was written exactly if it has no sign and no leading zeros. */
  lemma ParsedPrints(s: string, limit: nat)
    requires ParseUnsigned(s, limit).Some?
    ensures Decimal(ParseUnsigned(s, limit).value) == s <==> PlainDecimal(s)
  {
    var n := ParseUnsigned(s, limit).value;
    DecimalRoundTrip(n);
    if s[0] != '+' {
      DigitsRoundTrip(s);
    }
  }

  lemma SplitPair(a: string, b: string)
    requires Without(a, '_') && Without(b, '_')
    ensures Split(a + "_" + b, '_') == [a, b]
  {
    var s := a + "_" + b;
    FindAfter(a, '_', b);
    FindAfter(b, '_', "");
    assert s == a + ['_'] + b && s[..|a|] == a && s[|a| + 1..] == b;
    assert Split(b, '_') == [b];
  }

  lemma SplitJoins(s: string)
    requires |Split(s, '_')| == 2
    ensures s == Split(s, '_')[0] + "_" + Split(s, '_')[1]
  {
    FindCharBound(s, '_');
    var i := FindChar(s, '_').value;
    var rest := s[i + 1..];
    FindCharBound(rest, '_');
    assert Split(rest, '_') == [rest];
  }

  predicate AllZeros(s: string) {
    forall i :: 0 <= i < |s| ==> s[i] == '0'
  }

  /** Zeros before a number do not matter. */
  lemma {:induction false} ZerosDoNotCount(zeros: string, digits: string)
    requires AllZeros(zeros)
    ensures DigitsValue(zeros + digits) == DigitsValue(digits)
    decreases |zeros| + |digits|
  {
    var s := zeros + digits;
    if digits == "" {
      assert s == zeros && DigitsValue("") == Some(0);
      if zeros != "" {
        ZerosDoNotCount(zeros[..|zeros| - 1], "");
        assert zeros[..|zeros| - 1] + "" == zeros[..|zeros| - 1];
      }
    } else {
      ZerosDoNotCount(zeros, digits[..|digits| - 1]);
      assert s[..|s| - 1] == zeros + digits[..|digits| - 1] && s[|s| - 1] == digits[|digits| - 1];
    }
  }

  /** Digits are zeros before the plain form of their number. */
  lemma {:induction false} StripZeros(s: string) returns (zeros: string)
    requires s != "" && DigitsValue(s).Some?
    ensures AllZeros(zeros) && s == zeros + Decimal(DigitsValue(s).value)
    decreases |s|
  {
    if |s| > 1 && s[0] == '0' {
      assert s == ['0'] + s[1..];
      ZerosDoNotCount(['0'], s[1..]);
      var rest := StripZeros(s[1..]);
      zeros := ['0'] + rest;
    } else {
      zeros := "";
      DigitsRoundTrip(s);
      assert s == "" + s;
    }
  }

  /** The text is the number in decimal, perhaps with zeros before it, and a plus sign before those. */
  predicate Spells(s: string, n: nat, sign: string, zeros: string) {
    (sign == "" || sign == "+") && AllZeros(zeros) && s == sign + zeros + Decimal(n)
  }

  lemma SpelledDigits(n: nat, zeros: string)
    requires AllZeros(zeros)
    ensures var digits := zeros + Decimal(n);
            digits != "" && digits[0] != '+' && DigitsValue(digits) == Some(n)
  {
    DecimalRoundTrip(n);
    ZerosDoNotCount(zeros, Decimal(n));
    assert zeros != "" ==> (zeros + Decimal(n))[0] == '0';
    assert zeros == "" ==> zeros + Decimal(n) == Decimal(n);
  }

  lemma SignedIsParsed(digits: string, n: nat, limit: nat, sign: string)
    requires (sign == "" || sign == "+") && digits != "" && digits[0] != '+' && DigitsValue(digits) == Some(n) && n < limit
    ensures ParseUnsigned(sign + digits, limit) == Some(n)
  {
    assert sign == "" ==> sign + digits == digits;
    assert sign == "+" ==> (sign + digits)[1..] == digits && |sign + digits| > 1;
  }

  lemma SpelledIsParsed(s: string, n: nat, limit: nat, sign: string, zeros: string)
    requires n < limit && Spells(s, n, sign, zeros)
    ensures ParseUnsigned(s, limit) == Some(n)
  {
    SpelledDigits(n, zeros);
    SignedIsParsed(zeros + Decimal(n), n, limit, sign);
    assert s == sign + (zeros + Decimal(n));
  }

  lemma ParsedIsSpelled(s: string, limit: nat, n: nat) returns (sign: string, zeros: string)
    requires ParseUnsigned(s, limit) == Some(n)
    ensures n < limit && Spells(s, n, sign, zeros)
  {
    sign := if s[0] == '+' then "+" else "";
    var digits := if s[0] == '+' then s[1..] else s;
    zeros := StripZeros(digits);
    assert s == sign + digits;
    assert sign + (zeros + Decimal(n)) == sign + zeros + Decimal(n);
  }

  /** Which texts are read as which number. */
  lemma NumbersAreParsed(s: string, limit: nat, n: nat)
    ensures ParseUnsigned(s, limit) == Some(n) <==> n < limit && exists sign, zeros :: Spells(s, n, sign, zeros)
  {
    if ParseUnsigned(s, limit) == Some(n) {
      var sign, zeros := ParsedIsSpelled(s, limit, n);
    } else if n < limit {
      if sign, zeros :| Spells(s, n, sign, zeros) {
        SpelledIsParsed(s, n, limit, sign, zeros);
      }
    }
  }

  /** Which texts are read as which identifier: two numbers within 128 and 64 bits, with an underscore between. */
  lemma IDsAreParsed(s: string, id: SegmentID)
    ensures ParseID(s) == Some(id) <==>
            exists a, b :: && s == a + "_" + b && ParseUnsigned(a, U128_LIMIT) == Some(id.chunkId)
                           && ParseUnsigned(b, U64_LIMIT) == Some(id.segmentNumber)
  {
    if ParseID(s) == Some(id) {
      SplitJoins(s);
      var parts := Split(s, '_');
      assert s == parts[0] + "_" + parts[1];
    }
    if a, b :| && s == a + "_" + b && ParseUnsigned(a, U128_LIMIT) == Some(id.chunkId)
               && ParseUnsigned(b, U64_LIMIT) == Some(id.segmentNumber)
    {
      NumberHasNoMark(a, U128_LIMIT);
      NumberHasNoMark(b, U64_LIMIT);
      SplitPair(a, b);
    }
  }

  lemma NumberHasNoMark(s: string, limit: nat)
    requires ParseUnsigned(s, limit).Some?
    ensures Without(s, '_')
  {
    var digits := if s[0] == '+' then s[1..] else s;
    DigitsRoundTrip(digits);
    assert forall i :: 0 < i < |s| && s[0] == '+' ==> s[i] == digits[i - 1];
  }

  lemma IDRoundTrip(id: SegmentID)
    ensures ParseID(PrintID(id)) == Some(id)
  {
    ParsePlain(id.chunkId, U128_LIMIT);
    ParsePlain(id.segmentNumber, U64_LIMIT);
    SplitPair(Decimal(id.chunkId), Decimal(id.segmentNumber));
  }

  /** An accepted text is the printed identifier exactly if both of its numbers are plain. */
  lemma ParsedIDPrints(s: string)
    requires ParseID(s).Some?
    ensures PrintID(ParseID(s).value) == s <==> PlainDecimal(Split(s, '_')[0]) && PlainDecimal(Split(s, '_')[1])
  {
    var parts, id := Split(s, '_'), ParseID(s).value;
    SplitJoins(s);
    ParsedPrints(parts[0], U128_LIMIT);
    ParsedPrints(parts[1], U64_LIMIT);
    if PrintID(id) == s {
      ParsePlain(id.chunkId, U128_LIMIT);
      ParsePlain(id.segmentNumber, U64_LIMIT);
      SplitPair(Decimal(id.chunkId), Decimal(id.segmentNumber));
    }
  }

  lemma DecimalDigits(n: nat)
    ensures Decimal(n) == (if n < 10 then "" else Decimal(n / 10)) + ["0123456789"[n % 10]]
  {
    assert Digit(n % 10) == "0123456789"[n % 10];
  }

  /** The text is the two numbers in decimal, cut by one underscore. */
  lemma PrintedParts(id: SegmentID)
    ensures Split(PrintID(id), '_') == [Decimal(id.chunkId), Decimal(id.segmentNumber)]
  {
    ParsePlain(id.chunkId, U128_LIMIT);
    ParsePlain(id.segmentNumber, U64_LIMIT);
    SplitPair(Decimal(id.chunkId), Decimal(id.segmentNumber));
  }
}

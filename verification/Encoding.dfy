/** Hexadecimal text (section 8 of RFC 4648) and unpadded base64url text
    (section 5 of RFC 4648), as Go's `encoding/hex` and `base64.RawURLEncoding`
    write and read them: digits first, then the characters for the digits. */
module Encoding {
  import opened Text

  type Byte = b: int | 0 <= b < 256

  type Nibble = n: int | 0 <= n < 16

  type Sextet = n: int | 0 <= n < 64

  type Bytes = seq<Byte>

  // ------------------------------------------------------------- hexadecimal

  function HexDigit(n: Nibble): char {
    if n < 10 then (48 + n) as char else (87 + n) as char
  }

  predicate IsCapital(c: char) {
    'A' <= c <= 'F'
  }

  /** Upper-case digits are read too. */
  function HexValue(c: char): Option<Nibble> {
    if '0' <= c <= '9' then Some(c as int - 48)
    else if 'a' <= c <= 'f' then Some(c as int - 87)
    else if IsCapital(c) then Some(c as int - 55)
    else None
  }

  lemma HexDigits(n: Nibble, c: char)
    ensures HexValue(HexDigit(n)) == Some(n) && !IsCapital(HexDigit(n))
    ensures HexValue(c).Some? ==> (HexDigit(HexValue(c).value) == c <==> !IsCapital(c))
  {}

  const HEX := "0123456789abcdef"

  function EncodeHex(bytes: Bytes): (r: string)
    ensures |r| == 2 * |bytes|
  {
    if bytes == [] then ""
    else [HexDigit(bytes[0] / 16), HexDigit(bytes[0] % 16)] + EncodeHex(bytes[1..])
  }

  function DecodeHex(s: string): (r: Option<Bytes>)
    ensures r.Some? ==> 2 * |r.value| == |s|
  {
    if s == "" then Some([])
    else if |s| == 1 || HexValue(s[0]).None? || HexValue(s[1]).None? || DecodeHex(s[2..]).None? then None
    else Some([HexValue(s[0]).value * 16 + HexValue(s[1]).value] + DecodeHex(s[2..]).value)
  }

  predicate NoCapitals(s: string) {
    forall c :: c in s ==> !IsCapital(c)
  }

  lemma NoCapitalsSplit(a: char, b: char, s: string)
    ensures NoCapitals([a, b] + s) <==> !IsCapital(a) && !IsCapital(b) && NoCapitals(s)
  {}

  /** Each byte is written as two digits of the alphabet, the high half first. */
  lemma {:induction false} HexSpelling(bytes: Bytes, i: nat)
    requires i < |bytes|
    ensures EncodeHex(bytes)[2 * i] == HEX[bytes[i] / 16] && EncodeHex(bytes)[2 * i + 1] == HEX[bytes[i] % 16]
  {
    if i > 0 {
      HexSpelling(bytes[1..], i - 1);
    }
  }

  lemma {:induction false} HexRoundTrip(bytes: Bytes)
    ensures DecodeHex(EncodeHex(bytes)) == Some(bytes)
  {
    if bytes != [] {
      hide HexDigit, HexValue;
      var x := bytes[0];
      HexDigits(x / 16, ' ');
      HexDigits(x % 16, ' ');
      assert EncodeHex(bytes)[2..] == EncodeHex(bytes[1..]);
      HexRoundTrip(bytes[1..]);
      assert [x / 16 * 16 + x % 16] + bytes[1..] == bytes;
    }
  }

  /** A text that can be read is the one that would be written exactly when it
      has no capitals. */
  lemma {:induction false} HexCanonicalIff(s: string)
    requires DecodeHex(s).Some?
    ensures EncodeHex(DecodeHex(s).value) == s <==> NoCapitals(s)
  {
    if s != "" {
      hide HexDigit, HexValue, NoCapitals;
      HexCanonicalIff(s[2..]);
      var bytes, high, low := DecodeHex(s).value, HexValue(s[0]).value, HexValue(s[1]).value;
      assert bytes[1..] == DecodeHex(s[2..]).value;
      assert bytes[0] / 16 == high && bytes[0] % 16 == low;
      HexDigits(high, s[0]);
      HexDigits(low, s[1]);
      assert s == [s[0], s[1]] + s[2..];
      NoCapitalsSplit(s[0], s[1], s[2..]);
      var again := EncodeHex(bytes);
      assert again == [HexDigit(high), HexDigit(low)] + EncodeHex(bytes[1..]);
      assert again[2..] == EncodeHex(bytes[1..]);
    }
  }

  /** Exactly the texts of an even number of digits, of either case, are read. */
  lemma {:induction false} HexReadsIff(s: string)
    ensures DecodeHex(s).Some? <==> |s| % 2 == 0 && forall c :: c in s ==> HexValue(c).Some?
  {
    hide HexValue;
    if |s| >= 2 {
      HexReadsIff(s[2..]);
      assert s == [s[0], s[1]] + s[2..];
    }
  }

  lemma {:induction false} HexHasNo(s: string, c: char)
    requires DecodeHex(s).Some? && HexValue(c).None?
    ensures c !in s
  {
    if s != "" {
      hide HexValue;
      HexHasNo(s[2..], c);
      assert s == [s[0], s[1]] + s[2..];
    }
  }

  // --------------------------------------------------------------- base64url

  function EncodeSextets(bytes: Bytes): seq<Sextet> {
    if bytes == [] then []
    else if |bytes| == 1 then [Sextet0(bytes[0]), Sextet1(bytes[0], 0)]
    else if |bytes| == 2 then [Sextet0(bytes[0]), Sextet1(bytes[0], bytes[1]), Sextet2(bytes[1], 0)]
    else [Sextet0(bytes[0]), Sextet1(bytes[0], bytes[1]), Sextet2(bytes[1], bytes[2]), Sextet3(bytes[2])]
         + EncodeSextets(bytes[3..])
  }

  function Sextet0(x: Byte): Sextet {
    x / 4
  }

  function Sextet1(x: Byte, y: Byte): Sextet {
    x % 4 * 16 + y / 16
  }

  function Sextet2(y: Byte, z: Byte): Sextet {
    y % 16 * 4 + z / 64
  }

  function Sextet3(z: Byte): Sextet {
    z % 64
  }

  /** Left-over bits of the last sextet are ignored. */
  function DecodeSextets(s: seq<Sextet>): Option<Bytes> {
    if s == [] then Some([])
    else if |s| == 1 then None
    else if |s| == 2 then Some([Byte0(s[0], s[1])])
    else if |s| == 3 then Some([Byte0(s[0], s[1]), Byte1(s[1], s[2])])
    else if DecodeSextets(s[4..]).None? then None
    else Some([Byte0(s[0], s[1]), Byte1(s[1], s[2]), Byte2(s[2], s[3])] + DecodeSextets(s[4..]).value)
  }

  function Byte0(a: int, b: int): Byte
    requires 0 <= a < 64 && 0 <= b < 64
  {
    a * 4 + b / 16
  }

  function Byte1(b: int, c: int): Byte
    requires 0 <= b < 64 && 0 <= c < 64
  {
    b % 16 * 16 + c / 4
  }

  function Byte2(c: int, d: int): Byte
    requires 0 <= c < 64 && 0 <= d < 64
  {
    c % 4 * 64 + d
  }

  lemma GroupForth(x: Byte, y: Byte, z: Byte)
    ensures Byte0(Sextet0(x), Sextet1(x, y)) == x
    ensures Byte1(Sextet1(x, y), Sextet2(y, z)) == y
    ensures Byte2(Sextet2(y, z), Sextet3(z)) == z
  {}

  lemma {:induction false} SextetRoundTrip(bytes: Bytes)
    ensures DecodeSextets(EncodeSextets(bytes)) == Some(bytes)
  {
    hide Byte0, Byte1, Byte2, Sextet0, Sextet1, Sextet2, Sextet3;
    if |bytes| >= 3 {
      GroupForth(bytes[0], bytes[1], bytes[2]);
      assert EncodeSextets(bytes)[4..] == EncodeSextets(bytes[3..]);
      SextetRoundTrip(bytes[3..]);
      assert bytes == [bytes[0], bytes[1], bytes[2]] + bytes[3..];
    } else if |bytes| == 2 {
      GroupForth(bytes[0], bytes[1], 0);
      assert bytes == [bytes[0], bytes[1]];
    } else if |bytes| == 1 {
      GroupForth(bytes[0], 0, 0);
      assert bytes == [bytes[0]];
    }
  }

  /** Every number of sextets is read but one more than a multiple of four. */
  lemma {:induction false} SextetsReadIff(s: seq<Sextet>)
    ensures DecodeSextets(s).Some? <==> |s| % 4 != 1
    ensures DecodeSextets(s).Some? ==> |DecodeSextets(s).value| == |s| * 3 / 4
  {
    hide Byte0, Byte1, Byte2;
    if |s| >= 4 { SextetsReadIff(s[4..]); }
  }

  /** Nothing is left over in the last sextet. */
  predicate NoSpareBits(s: seq<Sextet>) {
    && (|s| % 4 == 2 ==> s[|s| - 1] % 16 == 0)
    && (|s| % 4 == 3 ==> s[|s| - 1] % 4 == 0)
  }

  /** The first four sextets of a longer list come back as they are. */
  lemma FullGroup(s: seq<Sextet>)
    requires |s| >= 4 && DecodeSextets(s).Some?
    ensures var bytes := DecodeSextets(s).value;
            && |bytes| >= 3 && DecodeSextets(s[4..]) == Some(bytes[3..])
            && EncodeSextets(bytes) == s[..4] + EncodeSextets(bytes[3..])
  {
    GroupBack(s[0], s[1], s[2], s[3]);
    hide Byte0, Byte1, Byte2, Sextet0, Sextet1, Sextet2, Sextet3;
    assert s[..4] == [s[0], s[1], s[2], s[3]];
  }

  lemma PairBack(a: Sextet, b: Sextet)
    ensures Sextet0(Byte0(a, b)) == a && Sextet1(Byte0(a, b), 0) == b / 16 * 16
  {}

  lemma TripleBack(a: Sextet, b: Sextet, c: Sextet)
    ensures Sextet0(Byte0(a, b)) == a && Sextet1(Byte0(a, b), Byte1(b, c)) == b
    ensures Sextet2(Byte1(b, c), 0) == c / 4 * 4
  {}

  lemma LastTwo(s: seq<Sextet>)
    requires |s| == 2 && DecodeSextets(s).Some?
    ensures EncodeSextets(DecodeSextets(s).value) == [s[0], s[1] / 16 * 16]
  {
    PairBack(s[0], s[1]);
    hide Byte0, Sextet0, Sextet1;
  }

  lemma LastThree(s: seq<Sextet>)
    requires |s| == 3 && DecodeSextets(s).Some?
    ensures EncodeSextets(DecodeSextets(s).value) == [s[0], s[1], s[2] / 4 * 4]
  {
    TripleBack(s[0], s[1], s[2]);
    hide Byte0, Byte1, Sextet0, Sextet1, Sextet2;
  }

  lemma {:induction false} SextetCanonicalIff(s: seq<Sextet>)
    requires DecodeSextets(s).Some?
    ensures EncodeSextets(DecodeSextets(s).value) == s <==> NoSpareBits(s)
  {
    if |s| >= 4 {
      FullGroup(s);
      SpareBitsTail(s);
      SextetCanonicalIff(s[4..]);
      hide EncodeSextets, DecodeSextets, NoSpareBits;
      assert s == s[..4] + s[4..];
      var bytes := DecodeSextets(s).value;
      assert EncodeSextets(bytes)[4..] == EncodeSextets(bytes[3..]);
    } else if |s| == 3 {
      LastThree(s);
      hide EncodeSextets, DecodeSextets;
      assert s == [s[0], s[1], s[2]];
    } else if |s| == 2 {
      LastTwo(s);
      hide EncodeSextets, DecodeSextets;
      assert s == [s[0], s[1]];
    }
  }

  lemma GroupBack(a: Sextet, b: Sextet, c: Sextet, d: Sextet)
    ensures var x, y, z := Byte0(a, b), Byte1(b, c), Byte2(c, d);
            Sextet0(x) == a && Sextet1(x, y) == b && Sextet2(y, z) == c && Sextet3(z) == d
  {}

  lemma SpareBitsTail(s: seq<Sextet>)
    requires |s| >= 4
    ensures NoSpareBits(s) <==> NoSpareBits(s[4..])
  {}

  function Char64(n: Sextet): char {
    if n < 26 then (65 + n) as char
    else if n < 52 then (71 + n) as char
    else if n < 62 then (n - 4) as char
    else if n == 62 then '-' else '_'
  }

  function Value64(c: char): Option<Sextet> {
    if 'A' <= c <= 'Z' then Some(c as int - 65)
    else if 'a' <= c <= 'z' then Some(c as int - 71)
    else if '0' <= c <= '9' then Some(c as int + 4)
    else if c == '-' then Some(62)
    else if c == '_' then Some(63)
    else None
  }

  /** The alphabet of section 5 of RFC 4648. */
  const UPPER := "ABCDEFGHIJKLMNOPQRSTUVWXYZ"
  const LOWER := "abcdefghijklmnopqrstuvwxyz"
  const BASE64URL := UPPER + LOWER + "0123456789" + "-_"

  lemma Letters(n: nat)
    requires n < 26
    ensures |UPPER| == |LOWER| == 26 && UPPER[n] == (65 + n) as char && LOWER[n] == (97 + n) as char
  {}

  lemma AlphabetIsBase64Url(n: Sextet)
    ensures |BASE64URL| == 64 && Char64(n) == BASE64URL[n]
  {
    Letters(if n < 26 then n else if n < 52 then n - 26 else 0);
    hide UPPER, LOWER;
  }

  /** The number that four digits of six bits spell, the first one first. */
  function Spelled(a: int, b: int, c: int, d: int): int {
    a * 262144 + b * 4096 + c * 64 + d
  }

  function SpelledBytes(x: int, y: int, z: int): int {
    x * 65536 + y * 256 + z
  }

  /** The number that a group of bytes spells is the one its sextets spell, the
      first digits first; a short group is filled up with zero bits. */
  lemma GroupSpelling(bytes: Bytes)
    ensures |bytes| >= 3 ==>
              var s := EncodeSextets(bytes);
              && |s| >= 4 && s[4..] == EncodeSextets(bytes[3..])
              && Spelled(s[0], s[1], s[2], s[3]) == SpelledBytes(bytes[0], bytes[1], bytes[2])
    ensures |bytes| == 2 ==>
              var s := EncodeSextets(bytes);
              |s| == 3 && Spelled(s[0], s[1], s[2], 0) == SpelledBytes(bytes[0], bytes[1], 0)
    ensures |bytes| == 1 ==>
              var s := EncodeSextets(bytes);
              |s| == 2 && Spelled(s[0], s[1], 0, 0) == SpelledBytes(bytes[0], 0, 0)
  {
    SpelledAlike(if |bytes| >= 1 then bytes[0] else 0, if |bytes| >= 2 then bytes[1] else 0,
                 if |bytes| >= 3 then bytes[2] else 0);
    hide Sextet0, Sextet1, Sextet2, Sextet3, Spelled, SpelledBytes;
  }

  lemma SpelledAlike(x: Byte, y: Byte, z: Byte)
    ensures Spelled(Sextet0(x), Sextet1(x, y), Sextet2(y, z), Sextet3(z)) == SpelledBytes(x, y, z)
    ensures Spelled(Sextet0(x), Sextet1(x, y), Sextet2(y, 0), 0) == SpelledBytes(x, y, 0)
    ensures Spelled(Sextet0(x), Sextet1(x, 0), 0, 0) == SpelledBytes(x, 0, 0)
  {}

  function ToText(s: seq<Sextet>): string {
    seq(|s|, i requires 0 <= i < |s| => Char64(s[i]))
  }

  predicate InAlphabet(s: string) {
    forall i :: 0 <= i < |s| ==> Value64(s[i]).Some?
  }

  function FromText(s: string): seq<Sextet>
    requires InAlphabet(s)
  {
    seq(|s|, i requires 0 <= i < |s| => Value64(s[i]).value)
  }

  lemma TextRoundTrip(s: seq<Sextet>)
    ensures InAlphabet(ToText(s)) && FromText(ToText(s)) == s
  {}

  lemma TextBack(s: string)
    requires InAlphabet(s)
    ensures ToText(FromText(s)) == s
  {}

  /** Line breaks are skipped wherever they stand. */
  function SkipBreaks(s: string): string {
    if s == "" then ""
    else if s[0] == '\r' || s[0] == '\n' then SkipBreaks(s[1..])
    else [s[0]] + SkipBreaks(s[1..])
  }

  function Encode64(bytes: Bytes): string {
    ToText(EncodeSextets(bytes))
  }

  function Decode64(s: string): Option<Bytes> {
    if InAlphabet(SkipBreaks(s)) then DecodeSextets(FromText(SkipBreaks(s))) else None
  }

  lemma {:induction false} AlphabetHasNoBreaks(s: string)
    requires InAlphabet(s)
    ensures '\r' !in s && '\n' !in s && SkipBreaks(s) == s
  {
    if s != "" {
      AlphabetHasNoBreaks(s[1..]);
    }
  }

  lemma Base64RoundTrip(bytes: Bytes)
    ensures Decode64(Encode64(bytes)) == Some(bytes)
    ensures InAlphabet(Encode64(bytes))
  {
    hide InAlphabet, EncodeSextets, DecodeSextets, FromText, ToText;
    TextRoundTrip(EncodeSextets(bytes));
    AlphabetHasNoBreaks(Encode64(bytes));
    SextetRoundTrip(bytes);
  }

  /** A text that can be read is the one that would be written exactly when it
      has no line break and no spare bit. */
  lemma Base64CanonicalIff(s: string)
    requires Decode64(s).Some?
    ensures Encode64(Decode64(s).value) == s
       <==> InAlphabet(s) && NoSpareBits(FromText(s))
  {
    hide EncodeSextets, DecodeSextets, FromText, ToText, NoSpareBits, InAlphabet;
    var t := SkipBreaks(s);
    var digits := FromText(t);
    SextetCanonicalIff(digits);
    TextBack(t);
    Base64RoundTrip(Decode64(s).value);
    TextRoundTrip(EncodeSextets(Decode64(s).value));
    if InAlphabet(s) { AlphabetHasNoBreaks(s); }
  }
}

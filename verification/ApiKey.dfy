/** API keys: printing, parsing and validating them.  `digest` stands for
    SHA-256. */
module ApiKey {
  import opened Text
  import opened Encoding

  const PREFIX_SIZE := 8
  const SECRET_SIZE := 32

  type Digest = string -> Bytes

  datatype GeneratedKey = GeneratedKey(value: string, prefix: string, hash: string)

  datatype ParsedKey = ParsedKey(prefix: string, hash: string)

  datatype KeyError = RandomFailed | InvalidKey | StoreFailed

  function Hash(digest: Digest, text: string): string {
    EncodeHex(digest(text))
  }

  function Value(prefix: string, secret: string): string {
    "eg" + "_" + ("live" + "_" + (prefix + "_" + secret))
  }

  function KeyFor(digest: Digest, prefix: Bytes, secret: Bytes): GeneratedKey {
    var value := Value(EncodeHex(prefix), Encode64(secret));
    GeneratedKey(value, EncodeHex(prefix), Hash(digest, value))
  }

  /** `strings.SplitN(s, "_", n)`. */
  function SplitN(s: string, n: nat): (parts: seq<string>)
    requires n >= 1
    ensures 1 <= |parts| <= n
    decreases n
  {
    if n == 1 || '_' !in s then [s]
    else [Head(s)] + SplitN(s[|Head(s)| + 1..], n - 1)
  }

  /** The text before the first underscore. */
  function Head(s: string): (h: string)
    requires '_' in s
    ensures |h| < |s| && s == h + "_" + s[|h| + 1..] && '_' !in h
  {
    if s[0] == '_' then "" else [s[0]] + Head(s[1..])
  }

  lemma {:induction false} HeadOf(a: string, rest: string)
    requires '_' !in a
    ensures '_' in a + "_" + rest && Head(a + "_" + rest) == a
  {
    var s := a + "_" + rest;
    assert s[|a|] == '_';
    if a != "" {
      assert s[0] == a[0] && s[1..] == a[1..] + "_" + rest;
      HeadOf(a[1..], rest);
    }
  }

  lemma SplitHead(a: string, rest: string, n: nat)
    requires '_' !in a && n >= 2
    ensures SplitN(a + "_" + rest, n) == [a] + SplitN(rest, n - 1)
  {
    HeadOf(a, rest);
    assert (a + "_" + rest)[|a| + 1..] == rest;
  }

  /** Four parts, of which only the last may hold an underscore. */
  lemma SplitValue(prefix: string, secret: string)
    requires '_' !in prefix
    ensures SplitN(Value(prefix, secret), 4) == ["eg", "live", prefix, secret]
  {
    hide SplitN;
    SplitHead("eg", "live" + "_" + (prefix + "_" + secret), 4);
    SplitHead("live", prefix + "_" + secret, 3);
    SplitHead(prefix, secret, 2);
    assert SplitN(secret, 1) == [secret] by { LastPart(secret); }
  }

  lemma LastPart(s: string)
    ensures SplitN(s, 1) == [s]
  {}

  /** The parts put together again give the text. */
  lemma SplitBack(s: string, n: nat)
    requires n >= 2 && |SplitN(s, n)| >= 2
    ensures s == SplitN(s, n)[0] + "_" + s[|SplitN(s, n)[0]| + 1..]
    ensures SplitN(s, n)[1..] == SplitN(s[|SplitN(s, n)[0]| + 1..], n - 1)
    ensures '_' !in SplitN(s, n)[0]
  {}

  lemma SplitFour(s: string)
    requires |SplitN(s, 4)| == 4 && SplitN(s, 4)[0] == "eg" && SplitN(s, 4)[1] == "live"
    ensures s == Value(SplitN(s, 4)[2], SplitN(s, 4)[3])
  {
    hide SplitN;
    var parts := SplitN(s, 4);
    SplitBack(s, 4);
    var s1 := s[3..];
    assert SplitN(s1, 3) == parts[1..];
    SplitBack(s1, 3);
    var s2 := s1[5..];
    assert SplitN(s2, 2) == parts[1..][1..] == parts[2..];
    SplitBack(s2, 2);
    var s3 := s2[|parts[2]| + 1..];
    assert SplitN(s3, 1) == parts[2..][1..] == parts[3..];
    LastPart(s3);
  }

  /** `GenerateAPIKey`, from what the random reader delivers before it ends. */
  method GenerateAPIKey(digest: Digest, random: Bytes) returns (r: Result<GeneratedKey, KeyError>)
    ensures r == if |random| < PREFIX_SIZE + SECRET_SIZE then Err(RandomFailed)
                 else Ok(KeyFor(digest, random[..PREFIX_SIZE], random[PREFIX_SIZE..PREFIX_SIZE + SECRET_SIZE]))
  {
    if |random| < PREFIX_SIZE {
      return Err(RandomFailed);
    }
    var prefix := EncodeHex(random[..PREFIX_SIZE]);
    var rest := random[PREFIX_SIZE..];
    if |rest| < SECRET_SIZE {
      return Err(RandomFailed);
    }
    assert rest[..SECRET_SIZE] == random[PREFIX_SIZE..PREFIX_SIZE + SECRET_SIZE];
    var value := Value(prefix, Encode64(rest[..SECRET_SIZE]));
    r := Ok(GeneratedKey(value, prefix, Hash(digest, value)));
  }

  predicate GoodPrefix(prefix: string) {
    DecodeHex(prefix).Some? && |DecodeHex(prefix).value| == PREFIX_SIZE
  }

  predicate GoodSecret(secret: string) {
    Decode64(secret).Some? && |Decode64(secret).value| == SECRET_SIZE
  }

  /** `ParseAPIKey`. */
  function Parse(digest: Digest, raw: string): Result<ParsedKey, KeyError> {
    var text := TrimSpace(raw);
    var parts := SplitN(text, 4);
    if |parts| != 4 || parts[0] != "eg" || parts[1] != "live" then Err(InvalidKey)
    else if !GoodPrefix(parts[2]) then Err(InvalidKey)
    else if !GoodSecret(parts[3]) then Err(InvalidKey)
    else Ok(ParsedKey(parts[2], Hash(digest, text)))
  }

  /** `MatchAPIKeyHash`. */
  predicate Match(actual: string, expected: string) {
    && DecodeHex(actual).Some? && DecodeHex(expected).Some?
    && DecodeHex(actual).value == DecodeHex(expected).value
  }

  lemma PrefixHasNoUnderscore(prefix: string)
    requires GoodPrefix(prefix)
    ensures '_' !in prefix
  {
    HexHasNo(prefix, '_');
  }

  /** Exactly the texts of this form are accepted; the digest is over the trimmed text. */
  lemma ParseOfValue(digest: Digest, raw: string, prefix: string, secret: string)
    requires TrimSpace(raw) == Value(prefix, secret) && GoodPrefix(prefix) && GoodSecret(secret)
    ensures Parse(digest, raw) == Ok(ParsedKey(prefix, Hash(digest, Value(prefix, secret))))
  {
    hide GoodPrefix, GoodSecret, TrimSpace, Value, Hash;
    PrefixHasNoUnderscore(prefix);
    SplitValue(prefix, secret);
  }

  lemma ParseAcceptsIff(digest: Digest, raw: string)
    ensures Parse(digest, raw).Ok? <==>
              exists prefix, secret :: GoodPrefix(prefix) && GoodSecret(secret) && TrimSpace(raw) == Value(prefix, secret)
  {
    hide GoodPrefix, GoodSecret, TrimSpace, Value, Hash, SplitN;
    if Parse(digest, raw).Ok? {
      SplitFour(TrimSpace(raw));
    }
    forall prefix, secret | GoodPrefix(prefix) && GoodSecret(secret) && TrimSpace(raw) == Value(prefix, secret)
      ensures Parse(digest, raw).Ok?
    {
      ParseOfValue(digest, raw, prefix, secret);
    }
  }

  /** The parts are accepted exactly by their lengths and characters: sixteen
      hexadecimal digits of either case, and 43 characters of the alphabet besides
      line breaks, whatever the spare bits of the last one. */
  lemma GoodPartsIff(prefix: string, secret: string)
    ensures GoodPrefix(prefix) <==>
              |prefix| == 16 && forall c :: c in prefix ==> '0' <= c <= '9' || 'a' <= c <= 'f' || 'A' <= c <= 'F'
    ensures GoodSecret(secret) <==>
              InAlphabet(SkipBreaks(secret)) && |SkipBreaks(secret)| == 43
  {
    HexReadsIff(prefix);
    if InAlphabet(SkipBreaks(secret)) { SextetsReadIff(FromText(SkipBreaks(secret))); }
    hide DecodeHex, DecodeSextets, SkipBreaks, InAlphabet;
  }

  lemma {:induction false} Encode64Length(bytes: Bytes)
    ensures |EncodeSextets(bytes)| == (4 * |bytes| + 2) / 3
  {
    if |bytes| >= 3 { Encode64Length(bytes[3..]); }
  }

  lemma PrintedIsTrimmed(prefix: string, secret: string)
    requires secret != "" && InAlphabet(secret)
    ensures TrimSpace(Value(prefix, secret)) == Value(prefix, secret)
  {
    hide TrimSpace;
    var value := Value(prefix, secret);
    assert Value64(secret[|secret| - 1]).Some?;
    assert value[|value| - 1] == secret[|secret| - 1];
    TrimFixedIff(value);
  }

  lemma GeneratedParts(prefix: Bytes, secret: Bytes)
    requires |prefix| == PREFIX_SIZE && |secret| == SECRET_SIZE
    ensures GoodPrefix(EncodeHex(prefix)) && |EncodeHex(prefix)| == 16
    ensures GoodSecret(Encode64(secret)) && |Encode64(secret)| == 43
    ensures TrimSpace(Value(EncodeHex(prefix), Encode64(secret))) == Value(EncodeHex(prefix), Encode64(secret))
  {
    hide TrimSpace, Value, DecodeHex, Decode64, InAlphabet;
    HexRoundTrip(prefix);
    Base64RoundTrip(secret);
    Encode64Length(secret);
    PrintedIsTrimmed(EncodeHex(prefix), Encode64(secret));
  }

  /** Every key that can be printed is read back, with its prefix and hash,
      although its secret may hold underscores. */
  lemma ParseGenerated(digest: Digest, prefix: Bytes, secret: Bytes)
    requires |prefix| == PREFIX_SIZE && |secret| == SECRET_SIZE
    ensures var key := KeyFor(digest, prefix, secret);
            && Parse(digest, key.value) == Ok(ParsedKey(key.prefix, key.hash))
            && key.value == "eg_live_" + EncodeHex(prefix) + "_" + Encode64(secret) && |key.value| == 68
            && key.prefix == EncodeHex(prefix) && key.hash == EncodeHex(digest(key.value))
  {
    PrintedForm(EncodeHex(prefix), Encode64(secret));
    hide GoodPrefix, GoodSecret, TrimSpace, Value, Parse, EncodeHex, Encode64;
    GeneratedParts(prefix, secret);
    var key := KeyFor(digest, prefix, secret);
    ParseOfValue(digest, key.value, EncodeHex(prefix), Encode64(secret));
  }

  lemma PrintedForm(prefix: string, secret: string)
    ensures Value(prefix, secret) == "eg_live_" + prefix + "_" + secret
  {
    assert "eg" + "_" + ("live" + "_") == "eg_live_";
  }

  lemma ValueInjective(p: string, s: string, p': string, s': string)
    requires '_' !in p && '_' !in p' && Value(p, s) == Value(p', s')
    ensures p == p' && s == s'
  {
    hide SplitN, Value;
    SplitValue(p, s);
    SplitValue(p', s');
  }

  /** Different random bytes print different keys. */
  lemma GeneratedDiffer(digest: Digest, p: Bytes, s: Bytes, p': Bytes, s': Bytes)
    requires |p| == |p'| == PREFIX_SIZE && |s| == |s'| == SECRET_SIZE
    requires KeyFor(digest, p, s).value == KeyFor(digest, p', s').value
    ensures p == p' && s == s'
  {
    hide GoodPrefix, GoodSecret, TrimSpace, Value, Hash, EncodeHex, Encode64, DecodeHex, Decode64;
    GeneratedParts(p, s);
    GeneratedParts(p', s');
    PrefixHasNoUnderscore(EncodeHex(p));
    PrefixHasNoUnderscore(EncodeHex(p'));
    ValueInjective(EncodeHex(p), Encode64(s), EncodeHex(p'), Encode64(s'));
    HexRoundTrip(p);
    HexRoundTrip(p');
    Base64RoundTrip(s);
    Base64RoundTrip(s');
  }

  ghost predicate Printed(text: string, prefix: Bytes, secret: Bytes) {
    |prefix| == PREFIX_SIZE && |secret| == SECRET_SIZE && text == Value(EncodeHex(prefix), Encode64(secret))
  }

  /** Lower-case digits, no line break, no spare bit. */
  predicate Strict(prefix: string, secret: string) {
    NoCapitals(prefix) && InAlphabet(secret) && NoSpareBits(FromText(secret))
  }

  lemma StrictPartsArePrinted(prefix: string, secret: string)
    requires GoodPrefix(prefix) && GoodSecret(secret)
    ensures (exists p, s :: Printed(Value(prefix, secret), p, s)) <==> Strict(prefix, secret)
  {
    hide TrimSpace, Value, EncodeHex, Encode64, NoCapitals, InAlphabet, NoSpareBits, FromText, DecodeHex, Decode64;
    HexCanonicalIff(prefix);
    Base64CanonicalIff(secret);
    var p0, s0 := DecodeHex(prefix).value, Decode64(secret).value;
    if EncodeHex(p0) == prefix && Encode64(s0) == secret {
      assert Printed(Value(prefix, secret), p0, s0);
    }
    forall p, s | Printed(Value(prefix, secret), p, s)
      ensures EncodeHex(p0) == prefix && Encode64(s0) == secret
    {
      PrintedParts(prefix, secret, p, s);
    }
  }

  /** The parser accepts more than is printed: an accepted text can be printed
      exactly when it has no white space around it, no capital digit in its
      prefix, and no line break and no spare bit in its secret. */
  lemma AcceptedIsPrintedIff(digest: Digest, raw: string)
    requires Parse(digest, raw).Ok?
    ensures |SplitN(TrimSpace(raw), 4)| == 4
    ensures (exists p, s :: Printed(raw, p, s))
       <==> TrimSpace(raw) == raw && Strict(SplitN(TrimSpace(raw), 4)[2], SplitN(TrimSpace(raw), 4)[3])
  {
    hide GoodPrefix, GoodSecret, TrimSpace, Value, Hash, SplitN, Strict, EncodeHex, Encode64;
    var text := TrimSpace(raw);
    var parts := SplitN(text, 4);
    SplitFour(text);
    StrictPartsArePrinted(parts[2], parts[3]);
    forall p, s | Printed(raw, p, s) ensures TrimSpace(raw) == raw {
      GeneratedParts(p, s);
    }
  }

  /** White space before any printed key is accepted, and never printed. */
  lemma PaddedKeyIsAccepted(digest: Digest, value: string, prefix: Bytes, secret: Bytes)
    requires Printed(value, prefix, secret)
    ensures Parse(digest, " " + value) == Parse(digest, value) && Parse(digest, " " + value).Ok?
    ensures !exists p, s :: Printed(" " + value, p, s)
  {
    GeneratedParts(prefix, secret);
    ParseGenerated(digest, prefix, secret);
    SpaceInFront(value);
    hide Value, EncodeHex, Encode64, SplitN;
    AcceptedIsPrintedIff(digest, " " + value);
  }

  lemma SpaceInFront(s: string)
    ensures TrimSpace(" " + s) == TrimSpace(s)
    ensures TrimSpace(" " + s) != " " + s
  {
    assert (" " + s)[1..] == s;
    TrimFixedIff(" " + s);
  }

  lemma PrintedParts(prefix: string, secret: string, p: Bytes, s: Bytes)
    requires GoodPrefix(prefix) && GoodSecret(secret) && Printed(Value(prefix, secret), p, s)
    ensures DecodeHex(prefix) == Some(p) && EncodeHex(p) == prefix
    ensures Decode64(secret) == Some(s) && Encode64(s) == secret
  {
    hide TrimSpace, Value, EncodeHex, Encode64, DecodeHex, Decode64;
    GeneratedParts(p, s);
    PrefixHasNoUnderscore(prefix);
    PrefixHasNoUnderscore(EncodeHex(p));
    ValueInjective(prefix, secret, EncodeHex(p), Encode64(s));
    HexRoundTrip(p);
    Base64RoundTrip(s);
  }

  lemma {:induction false} BreakVanishes(a: string, b: string)
    ensures SkipBreaks(a + "\n" + b) == SkipBreaks(a + b)
  {
    if a == "" {
      assert ("\n" + b)[1..] == b;
      assert a + "\n" + b == "\n" + b && a + b == b;
    } else {
      assert (a + "\n" + b)[1..] == a[1..] + "\n" + b && (a + b)[1..] == a[1..] + b;
      BreakVanishes(a[1..], b);
    }
  }

  function Break(text: string, k: nat): (r: string)
    requires k <= |text|
    ensures '\n' in r
  {
    assert (text[..k] + "\n" + text[k..])[k] == '\n';
    text[..k] + "\n" + text[k..]
  }

  lemma BreakSkipped(text: string, k: nat)
    requires k <= |text|
    ensures SkipBreaks(Break(text, k)) == SkipBreaks(text)
  {
    BreakVanishes(text[..k], text[k..]);
    assert text[..k] + text[k..] == text;
  }

  lemma BreakIsGood(text: string, k: nat)
    requires k <= |text| && GoodSecret(text)
    ensures GoodSecret(Break(text, k))
  {
    hide DecodeSextets, InAlphabet, FromText, Break;
    BreakSkipped(text, k);
  }

  lemma BreakTrim(prefix: string, text: string, k: nat)
    requires k < |text| && !IsSpace(text[|text| - 1])
    ensures TrimSpace(Value(prefix, Break(text, k))) == Value(prefix, Break(text, k))
  {}

  /** Breaking the secret of any printed key across two lines gives another
      accepted text, which is never printed. */
  lemma BrokenKeyIsAccepted(digest: Digest, prefix: string, secret: string, k: nat)
    requires GoodPrefix(prefix) && GoodSecret(secret) && k < |secret| && !IsSpace(secret[|secret| - 1])
    ensures Parse(digest, Value(prefix, Break(secret, k))).Ok?
    ensures !exists p, s :: Printed(Value(prefix, Break(secret, k)), p, s)
  {
    hide GoodPrefix, GoodSecret, TrimSpace, Value, Parse, Printed, NoCapitals, NoSpareBits, FromText, Break, InAlphabet;
    var broken := Break(secret, k);
    BreakIsGood(secret, k);
    BreakTrim(prefix, secret, k);
    ParseOfValue(digest, Value(prefix, broken), prefix, broken);
    StrictPartsArePrinted(prefix, broken);
    if InAlphabet(broken) { AlphabetHasNoBreaks(broken); }
  }

  // -------------------------------------------------------------- validation

  datatype KeyRow = KeyRow(id: string, project: string, hash: string, enabled: bool, expires: Option<int>) {
    predicate Active(now: int) {
      enabled && (expires.None? || now < expires.value)
    }
  }

  /** The stored keys, by their unique prefix. */
  type KeyTable = map<string, KeyRow>

  datatype Principal = Principal(id: string, project: string)

  /** `ValidateAPIKey`: the row is read, and later the use is recorded for the
      row if it is then still among the `enabled` ones. */
  function Validate(digest: Digest, keys: KeyTable, enabled: set<string>, raw: string, now: int)
      : Result<Principal, KeyError> {
    match Parse(digest, raw)
    case Err(_) => Err(InvalidKey)
    case Ok(parsed) =>
      if parsed.prefix !in keys then Err(InvalidKey)
      else
        var row := keys[parsed.prefix];
        if !Match(parsed.hash, row.hash) || !row.Active(now) then Err(InvalidKey)
        else if row.id !in enabled then Err(InvalidKey)
        else Ok(Principal(row.id, row.project))
  }

  /** The random bytes each stored key was made from. */
  type Origins = map<string, (Bytes, Bytes)>

  ghost predicate Issued(digest: Digest, keys: KeyTable, origins: Origins) {
    forall prefix :: prefix in keys ==>
      && prefix in origins
      && |origins[prefix].0| == PREFIX_SIZE && |origins[prefix].1| == SECRET_SIZE
      && KeyFor(digest, origins[prefix].0, origins[prefix].1).prefix == prefix
      && KeyFor(digest, origins[prefix].0, origins[prefix].1).hash == keys[prefix].hash
  }

  function ValueOf(digest: Digest, origins: Origins, prefix: string): string
    requires prefix in origins
  {
    KeyFor(digest, origins[prefix].0, origins[prefix].1).value
  }

  /** The digest does not confuse this text with the value of a stored key. */
  ghost predicate NoCollision(digest: Digest, keys: KeyTable, origins: Origins, text: string) {
    forall prefix :: prefix in keys && prefix in origins && digest(text) == digest(ValueOf(digest, origins, prefix)) ==>
      text == ValueOf(digest, origins, prefix)
  }

  lemma MatchIsDigestEquality(digest: Digest, a: string, b: string)
    ensures Match(Hash(digest, a), Hash(digest, b)) <==> digest(a) == digest(b)
  {
    HexRoundTrip(digest(a));
    HexRoundTrip(digest(b));
  }

  /** The value of a stored key, with or without white space around it,
      authenticates as that key as long as it is active and enabled. */
  lemma StoredKeyAuthenticates(digest: Digest, keys: KeyTable, enabled: set<string>, origins: Origins,
                               prefix: string, raw: string, now: int)
    requires Issued(digest, keys, origins) && prefix in keys && TrimSpace(raw) == ValueOf(digest, origins, prefix)
    ensures Validate(digest, keys, enabled, raw, now)
         == if keys[prefix].Active(now) && keys[prefix].id in enabled
            then Ok(Principal(keys[prefix].id, keys[prefix].project)) else Err(InvalidKey)
  {
    hide GoodPrefix, GoodSecret, TrimSpace, Value, Hash, Parse, EncodeHex, Encode64, Match;
    var (p, s) := origins[prefix];
    GeneratedParts(p, s);
    ParseOfValue(digest, raw, EncodeHex(p), Encode64(s));
    MatchIsDigestEquality(digest, TrimSpace(raw), TrimSpace(raw));
  }

  lemma ValuesAreNotBlank(digest: Digest, keys: KeyTable, origins: Origins, prefix: string)
    requires Issued(digest, keys, origins) && prefix in keys
    ensures ValueOf(digest, origins, prefix) != ""
  {
    ParseGenerated(digest, origins[prefix].0, origins[prefix].1);
  }

  /** Nothing else authenticates, barring a collision of the digest. */
  lemma OnlyStoredKeysAuthenticate(digest: Digest, keys: KeyTable, enabled: set<string>, origins: Origins,
                                   raw: string, now: int)
    requires Issued(digest, keys, origins) && NoCollision(digest, keys, origins, TrimSpace(raw))
    requires forall prefix :: prefix in keys ==> TrimSpace(raw) != ValueOf(digest, origins, prefix)
    ensures Validate(digest, keys, enabled, raw, now) == Err(InvalidKey)
  {
    hide TrimSpace, Value, Hash, EncodeHex, Encode64, Match, SplitN;
    if Parse(digest, raw).Ok? {
      var prefix := Parse(digest, raw).value.prefix;
      if prefix in keys {
        MatchIsDigestEquality(digest, TrimSpace(raw), ValueOf(digest, origins, prefix));
      }
    }
  }
}

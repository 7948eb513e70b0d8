/** The string operations EdgeGuard takes from Go's `strings` package, on
    sequences of code points, and the small wrapper types of the project. */
module Text {
  datatype Option<+T> = None | Some(value: T)

  datatype Result<+T, +E> = Ok(value: T) | Err(error: E)

  const MAX_INT64 := 0x7fff_ffff_ffff_ffff

  /** The zero value of Go's `time.Time`, in nanoseconds since the Unix epoch. */
  const ZERO_TIME := -62_135_596_800_000_000_000

  /** A run without its last step, and that step. */
  function Init<T>(s: seq<T>): seq<T>
    requires s != []
  {
    s[..|s| - 1]
  }

  function Last<T>(s: seq<T>): T
    requires s != []
  {
    s[|s| - 1]
  }

  /** Unicode white space, as `unicode.IsSpace` decides it. */
  predicate IsSpace(c: char) {
    || c in "\t\n\r "
    || c as int in {0x0B, 0x0C, 0x85, 0xA0, 0x1680, 0x2028, 0x2029, 0x202F, 0x205F, 0x3000}
    || 0x2000 <= c as int <= 0x200A
  }

  function TrimLeftSpace(s: string): string {
    if s != "" && IsSpace(s[0]) then TrimLeftSpace(s[1..]) else s
  }

  function TrimRightSpace(s: string): string {
    if s != "" && IsSpace(s[|s| - 1]) then TrimRightSpace(s[..|s| - 1]) else s
  }

  function TrimSpace(s: string): string {
    TrimRightSpace(TrimLeftSpace(s))
  }

  lemma {:induction false} TrimLeftStart(s: string)
    ensures |TrimLeftSpace(s)| <= |s| && (TrimLeftSpace(s) == "" || !IsSpace(TrimLeftSpace(s)[0]))
  {
    hide IsSpace;
    if s != "" && IsSpace(s[0]) { TrimLeftStart(s[1..]); }
  }

  lemma {:induction false} TrimRightEnd(s: string)
    ensures var t := TrimRightSpace(s); t <= s && (t == "" || !IsSpace(t[|t| - 1]))
    ensures s != "" && !IsSpace(s[0]) ==> TrimRightSpace(s) != "" && TrimRightSpace(s)[0] == s[0]
  {
    hide IsSpace;
    if s != "" && IsSpace(s[|s| - 1]) { TrimRightEnd(s[..|s| - 1]); }
  }

  lemma {:induction false} TrimLeftKeeps(s: string, i: nat)
    requires i < |s| && !IsSpace(s[i])
    ensures TrimLeftSpace(s) != ""
  {
    hide IsSpace;
    if IsSpace(s[0]) { TrimLeftKeeps(s[1..], i - 1); }
  }

  lemma NotBlank(s: string, i: nat)
    requires i < |s| && !IsSpace(s[i])
    ensures TrimSpace(s) != ""
  {
    hide IsSpace;
    TrimLeftKeeps(s, i);
    TrimLeftStart(s);
    TrimRightEnd(TrimLeftSpace(s));
  }

  /** A trimmed text neither starts nor ends with white space. */
  lemma TrimmedEnds(s: string)
    ensures var t := TrimSpace(s); |t| <= |s| && (t == "" || (!IsSpace(t[0]) && !IsSpace(t[|t| - 1])))
  {
    hide IsSpace;
    TrimLeftStart(s);
    TrimRightEnd(TrimLeftSpace(s));
  }

  /** Trimming leaves exactly such texts as they are. */
  lemma TrimFixedIff(s: string)
    ensures TrimSpace(s) == s <==> s == "" || (!IsSpace(s[0]) && !IsSpace(s[|s| - 1]))
  {
    TrimmedEnds(s);
  }

  lemma TrimTwice(s: string)
    ensures TrimSpace(TrimSpace(s)) == TrimSpace(s)
  {
    TrimmedEnds(s);
    TrimFixedIff(TrimSpace(s));
  }

  /** `strings.TrimRight(s, "/")`: every trailing slash goes. */
  function TrimSlashes(s: string): string {
    if s != "" && s[|s| - 1] == '/' then TrimSlashes(s[..|s| - 1]) else s
  }

  predicate HasPrefix(s: string, prefix: string) {
    prefix <= s
  }

  function ToUpper(s: string): (r: string)
    ensures |r| == |s|
  {
    seq(|s|, i requires 0 <= i < |s| =>
      if 'a' <= s[i] <= 'z' then (s[i] as int - 32) as char else s[i])
  }

  function ToLower(s: string): (r: string)
    ensures |r| == |s|
  {
    seq(|s|, i requires 0 <= i < |s| =>
      if 'A' <= s[i] <= 'Z' then (s[i] as int + 32) as char else s[i])
  }

  /** Upper and lower case differ in the ASCII letters only: folding leaves none of
      the other case, keeps every other character, and undoes a change of case. */
  lemma CaseFolds(s: string, i: nat)
    requires i < |s|
    ensures !('a' <= ToUpper(s)[i] <= 'z') && !('A' <= ToLower(s)[i] <= 'Z')
    ensures !('a' <= s[i] <= 'z') ==> ToUpper(s)[i] == s[i]
    ensures !('A' <= s[i] <= 'Z') ==> ToLower(s)[i] == s[i]
    ensures 'a' <= s[i] <= 'z' ==> ToLower(ToUpper(s))[i] == s[i]
    ensures 'A' <= s[i] <= 'Z' ==> ToUpper(ToLower(s))[i] == s[i]
  {}

  function Min(a: int, b: int): int {
    if a <= b then a else b
  }

  function Max(a: int, b: int): int {
    if a >= b then a else b
  }

  /** Quotient and remainder are unique. */
  lemma DivModUnique(a: int, d: int, q: int, r: int)
    requires d > 0 && a == q * d + r && 0 <= r < d
    ensures a / d == q && a % d == r
  {
    var k := a / d - q;
    assert k * d == r - a % d;
    assert k >= 1 ==> k * d >= d;
    assert k <= -1 ==> k * d <= -d;
  }
}

/** String operations shared by the JavaScript and Python parts of the system,
    each written out with the semantics of the language that uses it. */
module Text {
  import opened Wrappers

  // ---------------------------------------------------------------- characters

  predicate IsAsciiUpper(c: char) { 'A' <= c <= 'Z' }
  predicate IsAsciiLower(c: char) { 'a' <= c <= 'z' }
  predicate IsDigit(c: char) { '0' <= c <= '9' }
  predicate IsAsciiAlnum(c: char) { IsAsciiUpper(c) || IsAsciiLower(c) || IsDigit(c) }

  /** Space separators (Unicode category Zs), common to both languages. */
  predicate IsSpaceSeparator(c: char) {
    c == ' ' || c == '\U{00A0}' || c == '\U{1680}' || ('\U{2000}' <= c <= '\U{200A}')
    || c == '\U{202F}' || c == '\U{205F}' || c == '\U{3000}'
  }

  /** The characters JavaScript's `String.prototype.trim` removes. */
  predicate IsJsSpace(c: char) {
    IsSpaceSeparator(c) || ('\t' <= c <= '\r') || c == '\U{2028}' || c == '\U{2029}'
    || c == '\U{FEFF}'
  }

  /** The characters Python's `str.strip()` (no argument) removes. */
  predicate IsPySpace(c: char) {
    IsSpaceSeparator(c) || ('\t' <= c <= '\r') || ('\U{001C}' <= c <= '\U{001F}')
    || c == '\U{0085}' || c == '\U{2028}' || c == '\U{2029}'
  }

  function LowerChar(c: char): char {
    if IsAsciiUpper(c) then (c as int + 32) as char else c
  }

  /** Lower-casing, restricted to the ASCII letters. */
  function Lower(s: string): (r: string)
    ensures |r| == |s|
  {
    seq(|s|, i requires 0 <= i < |s| => LowerChar(s[i]))
  }

  lemma LowerTwice(s: string)
    ensures Lower(Lower(s)) == Lower(s)
  {
  }

  lemma LowerConcat(a: string, b: string)
    ensures Lower(a + b) == Lower(a) + Lower(b)
  {
  }

  // ---------------------------------------------------------------- searching

  predicate StartsWith(s: string, prefix: string) { prefix <= s }

  predicate EndsWith(s: string, suffix: string) {
    |suffix| <= |s| && s[|s| - |suffix|..] == suffix
  }

  /** First index of `c` in `s`. */
  function IndexOf(s: string, c: char): (r: Option<nat>)
    ensures r.Some? ==> r.value < |s| && s[r.value] == c && c !in s[..r.value]
    ensures r.None? <==> c !in s
  {
    if s == [] then None
    else if s[0] == c then Some(0)
    else match IndexOf(s[1..], c)
      case None => None
      case Some(k) =>
        assert s[..k + 1] == [s[0]] + s[1..][..k];
        Some(k + 1)
  }

  /** The first occurrence of `c` determines `IndexOf`. */
  lemma IndexOfFirst(s: string, c: char, i: nat)
    requires i < |s| && s[i] == c && c !in s[..i]
    ensures IndexOf(s, c) == Some(i)
  {
    assert c in s;
  }

  /** Last index of `c` in `s`. */
  function LastIndexOf(s: string, c: char): (r: Option<nat>)
    ensures r.Some? ==> r.value < |s| && s[r.value] == c && c !in s[r.value + 1..]
    ensures r.None? <==> c !in s
  {
    if s == [] then None
    else if s[|s| - 1] == c then Some(|s| - 1)
    else
      var r := LastIndexOf(s[..|s| - 1], c);
      if r.Some? then
        assert s[r.value + 1..] == s[..|s| - 1][r.value + 1..] + [s[|s| - 1]];
        r
      else
        assert s == s[..|s| - 1] + [s[|s| - 1]];
        r
  }

  /** First position at which `sub` occurs in `s` (JavaScript `indexOf`, Python `find`). */
  function FindSub(s: string, sub: string): (r: Option<nat>)
    ensures r.Some? ==> r.value + |sub| <= |s| && sub <= s[r.value..]
    ensures r.Some? ==> forall j :: 0 <= j < r.value ==> !(sub <= s[j..])
    ensures r.None? ==> forall j :: 0 <= j <= |s| ==> !(sub <= s[j..])
    decreases |s|
  {
    if sub <= s then Some(0)
    else if s == [] then None
    else match FindSub(s[1..], sub)
      case None =>
        assert forall j :: 1 <= j <= |s| ==> s[j..] == s[1..][j - 1..];
        None
      case Some(k) =>
        assert forall j :: 1 <= j <= |s| ==> s[j..] == s[1..][j - 1..];
        Some(k + 1)
  }

  /** Substring test: JavaScript `s.includes(sub)`, Python `sub in s`. */
  predicate Contains(s: string, sub: string) {
    FindSub(s, sub).Some?
  }

  lemma ContainsAt(s: string, sub: string, j: nat)
    requires j <= |s| && sub <= s[j..]
    ensures Contains(s, sub)
  {
  }

  lemma ContainsInPrefix(s: string, t: string, sub: string)
    requires Contains(s, sub)
    ensures Contains(s + t, sub)
  {
    var k := FindSub(s, sub).value;
    assert (s + t)[k..] == s[k..] + t;
    ContainsAt(s + t, sub, k);
  }

  lemma ContainsInSuffix(s: string, t: string, sub: string)
    requires Contains(t, sub)
    ensures Contains(s + t, sub)
  {
    var k := FindSub(t, sub).value;
    assert (s + t)[|s| + k..] == t[k..];
    ContainsAt(s + t, sub, |s| + k);
  }

  /** Python `s.replace(old, new, 1)`: replaces only the first occurrence. */
  function ReplaceFirst(s: string, pattern: string, replacement: string): (r: string)
  {
    match FindSub(s, pattern)
    case None => s
    case Some(i) => s[..i] + replacement + s[i + |pattern|..]
  }

  // ---------------------------------------------------------------- split and join

  /** `s.split(c)` with a one-character separator; JavaScript and Python agree:
      there is always at least one piece, and no piece contains `c`. */
  function Split(s: string, c: char): (parts: seq<string>)
    ensures |parts| >= 1
    ensures forall k :: 0 <= k < |parts| ==> c !in parts[k]
    decreases |s|
  {
    match IndexOf(s, c)
    case None => [s]
    case Some(i) => [s[..i]] + Split(s[i + 1..], c)
  }

  /** `parts.join(c)`. */
  function Join(parts: seq<string>, c: char): string
  {
    if |parts| == 0 then ""
    else if |parts| == 1 then parts[0]
    else parts[0] + [c] + Join(parts[1..], c)
  }

  lemma {:induction false} JoinSplit(s: string, c: char)
    ensures Join(Split(s, c), c) == s
    decreases |s|
  {
    match IndexOf(s, c)
    case None =>
    case Some(i) =>
      JoinSplit(s[i + 1..], c);
      assert Split(s, c) == [s[..i]] + Split(s[i + 1..], c);
      assert s == s[..i] + [c] + s[i + 1..];
  }

  /** Splitting at a known first occurrence of the separator. */
  lemma SplitAt(s: string, c: char, i: nat)
    requires i < |s| && s[i] == c && c !in s[..i]
    ensures Split(s, c) == [s[..i]] + Split(s[i + 1..], c)
  {
    IndexOfFirst(s, c, i);
  }

  lemma SplitSingle(s: string, c: char)
    ensures |Split(s, c)| == 1 <==> c !in s
    ensures c !in s ==> Split(s, c) == [s]
  {
  }

  /** The first piece of `Split(s, c)` is the text before the first `c`. */
  lemma SplitFirst(s: string, c: char)
    ensures Split(s, c)[0] == if c in s then s[..IndexOf(s, c).value] else s
  {
  }

  /** Joining a list with one more piece appends the separator and that piece. */
  lemma {:induction false} JoinSnoc(parts: seq<string>, x: string, c: char)
    requires |parts| >= 1
    ensures Join(parts + [x], c) == Join(parts, c) + [c] + x
  {
    if |parts| > 1 {
      assert (parts + [x])[1..] == parts[1..] + [x];
      JoinSnoc(parts[1..], x, c);
    }
  }

  // ---------------------------------------------------------------- trimming

  function DropWhile(s: string, ws: char -> bool): (r: string)
    ensures |r| <= |s|
    ensures r == [] || !ws(r[0])
  {
    if s != [] && ws(s[0]) then DropWhile(s[1..], ws) else s
  }

  function DropWhileEnd(s: string, ws: char -> bool): (r: string)
    ensures |r| <= |s|
    ensures r == [] || !ws(r[|r| - 1])
  {
    if s != [] && ws(s[|s| - 1]) then DropWhileEnd(s[..|s| - 1], ws) else s
  }

  function StripWith(s: string, ws: char -> bool): string {
    DropWhileEnd(DropWhile(s, ws), ws)
  }

  /** JavaScript `s.trim()`. */
  function JsTrim(s: string): string { StripWith(s, IsJsSpace) }

  /** Python `s.strip()`. */
  function PyStrip(s: string): string { StripWith(s, IsPySpace) }

  /** Trimming keeps a contiguous part of the text. */
  lemma {:induction false} DropWhileIsSuffix(s: string, ws: char -> bool)
    ensures DropWhile(s, ws) == s[|s| - |DropWhile(s, ws)|..]
    decreases |s|
  {
    if s != [] && ws(s[0]) {
      DropWhileIsSuffix(s[1..], ws);
    }
  }

  lemma {:induction false} DropWhileEndIsPrefix(s: string, ws: char -> bool)
    ensures DropWhileEnd(s, ws) == s[..|DropWhileEnd(s, ws)|]
    decreases |s|
  {
    if s != [] && ws(s[|s| - 1]) {
      DropWhileEndIsPrefix(s[..|s| - 1], ws);
    }
  }

  /** Only whitespace is removed, from the front and from the back. */
  lemma {:induction false} DropWhileOnlySpace(s: string, ws: char -> bool)
    ensures forall i :: 0 <= i < |s| - |DropWhile(s, ws)| ==> ws(s[i])
    decreases |s|
  {
    if s != [] && ws(s[0]) {
      DropWhileOnlySpace(s[1..], ws);
    }
  }

  lemma {:induction false} DropWhileEndOnlySpace(s: string, ws: char -> bool)
    ensures forall i :: |DropWhileEnd(s, ws)| <= i < |s| ==> ws(s[i])
    decreases |s|
  {
    if s != [] && ws(s[|s| - 1]) {
      DropWhileEndOnlySpace(s[..|s| - 1], ws);
    }
  }

  lemma StripUnchanged(s: string, ws: char -> bool)
    requires s == [] || (!ws(s[0]) && !ws(s[|s| - 1]))
    ensures StripWith(s, ws) == s
  {
  }

  // ---------------------------------------------------------------- decimal numbers

  predicate AllDigits(s: string) { forall i :: 0 <= i < |s| ==> IsDigit(s[i]) }

  function DigitChar(d: nat): char
    requires d < 10
  {
    ('0' as int + d) as char
  }

  /** The decimal text of a natural number, without leading zeros. */
  function NatToString(n: nat): (s: string)
    ensures |s| >= 1 && AllDigits(s)
  {
    if n < 10 then [DigitChar(n)] else NatToString(n / 10) + [DigitChar(n % 10)]
  }

  /** The decimal text of an integer: JavaScript `String(n)` and Python `str(n)` agree. */
  function IntToString(i: int): (s: string)
    ensures |s| >= 1
  {
    if i < 0 then "-" + NatToString(-i) else NatToString(i)
  }

  function DigitsValue(s: string): nat
    requires AllDigits(s)
  {
    if s == [] then 0 else DigitsValue(s[..|s| - 1]) * 10 + (s[|s| - 1] as int - '0' as int)
  }

  lemma {:induction false} NatToStringValue(n: nat)
    ensures DigitsValue(NatToString(n)) == n
  {
    if n >= 10 {
      NatToStringValue(n / 10);
      var s := NatToString(n);
      assert s[..|s| - 1] == NatToString(n / 10);
    }
  }

  lemma NatToStringInjective(a: nat, b: nat)
    requires NatToString(a) == NatToString(b)
    ensures a == b
  {
    NatToStringValue(a);
    NatToStringValue(b);
  }

  function ParseDigits(s: string): (r: Option<nat>)
  {
    if s != [] && AllDigits(s) then Some(DigitsValue(s)) else None
  }

  /** An optional `+` or `-` sign followed by one or more ASCII digits. */
  function ParseSigned(t: string): (r: Option<int>)
  {
    if t != [] && t[0] == '-' then
      match ParseDigits(t[1..])
      case Some(v) => Some(-(v as int))
      case None => None
    else if t != [] && t[0] == '+' then
      match ParseDigits(t[1..])
      case Some(v) => Some(v as int)
      case None => None
    else
      match ParseDigits(t)
      case Some(v) => Some(v as int)
      case None => None
  }

  /** Python `int(s)` on text: surrounding whitespace, an optional sign and decimal digits.
      `None` stands for the `ValueError` it raises on anything else. */
  function PyInt(s: string): (r: Option<int>)
  {
    ParseSigned(PyStrip(s))
  }

  lemma ParseSignedIntToString(i: int)
    ensures ParseSigned(IntToString(i)) == Some(i)
  {
    if i < 0 {
      NatToStringValue(-i);
      assert IntToString(i)[1..] == NatToString(-i);
    } else {
      NatToStringValue(i);
    }
  }

  lemma IntToStringEnds(i: int)
    ensures var s := IntToString(i);
            (IsDigit(s[0]) || s[0] == '-') && IsDigit(s[|s| - 1])
  {
    if i < 0 {
      var t := NatToString(-i);
      assert IntToString(i)[|IntToString(i)| - 1] == t[|t| - 1];
    }
  }

  /** Python's `int()` reads back what `str()` printed. */
  lemma {:induction false} PyIntIntToString(i: int)
    ensures PyInt(IntToString(i)) == Some(i)
  {
    IntToStringEnds(i);
    StripUnchanged(IntToString(i), IsPySpace);
    ParseSignedIntToString(i);
  }
}

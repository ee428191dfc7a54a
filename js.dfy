/**
 * The JavaScript built-ins the rule modules rely on, stated on Dafny strings:
 * truthiness, `trim`, `indexOf`/`includes`, `replace` with a string pattern,
 * `split`, `parseInt(s, 10)` and `Number(s)`. A JavaScript NaN is `None`.
 */
module Js {
  import opened Wrappers

  /** ECMAScript WhiteSpace and LineTerminator code points: what `trim` removes and `parseInt` skips. */
  predicate IsWhitespace(c: char) {
    || c == '\t' || c == '\U{000B}' || c == '\U{000C}' || c == ' ' || c == '\U{00A0}' || c == '\U{FEFF}'
    || c == '\n' || c == '\r' || c == '\U{2028}' || c == '\U{2029}'
    || c == '\U{1680}' || ('\U{2000}' <= c <= '\U{200A}') || c == '\U{202F}' || c == '\U{205F}' || c == '\U{3000}'
  }

  predicate IsDigit(c: char) {
    '0' <= c <= '9'
  }

  predicate AllDigits(s: string) {
    forall i :: 0 <= i < |s| ==> IsDigit(s[i])
  }

  /** JavaScript truthiness of an optional string: present and not the empty string. */
  predicate Truthy(o: Option<string>) {
    o.Some? && o.value != []
  }

  /** `s.trimStart()` */
  function TrimStart(s: string): (r: string)
    ensures |r| <= |s| && r == s[|s| - |r|..]
    ensures forall i :: 0 <= i < |s| - |r| ==> IsWhitespace(s[i])
  {
    if s != [] && IsWhitespace(s[0]) then TrimStart(s[1..]) else s
  }

  /** `trimStart` stops at the first character that is not whitespace. */
  lemma {:induction false} TrimStartStops(s: string)
    ensures TrimStart(s) != [] ==> !IsWhitespace(TrimStart(s)[0])
  {
    if s != [] && IsWhitespace(s[0]) {
      TrimStartStops(s[1..]);
    }
  }

  /** `s.trimEnd()` */
  function TrimEnd(s: string): (r: string)
    ensures |r| <= |s| && r == s[..|r|]
    ensures forall i :: |r| <= i < |s| ==> IsWhitespace(s[i])
  {
    if s != [] && IsWhitespace(s[|s| - 1]) then TrimEnd(s[..|s| - 1]) else s
  }

  /** `trimEnd` stops at the last character that is not whitespace. */
  lemma {:induction false} TrimEndStops(s: string)
    ensures TrimEnd(s) != [] ==> !IsWhitespace(TrimEnd(s)[|TrimEnd(s)| - 1])
  {
    if s != [] && IsWhitespace(s[|s| - 1]) {
      TrimEndStops(s[..|s| - 1]);
    }
  }

  /** `s.trim()` */
  function Trim(s: string): string {
    TrimEnd(TrimStart(s))
  }

  /** `s.trim() === ''` */
  predicate IsBlank(s: string) {
    Trim(s) == []
  }

  /** A string is blank after `trim` exactly when every character of it is whitespace. */
  lemma BlankIffAllWhitespace(s: string)
    ensures IsBlank(s) <==> forall i :: 0 <= i < |s| ==> IsWhitespace(s[i])
  {
    var t := TrimStart(s);
    TrimStartStops(s);
    assert t != [] ==> t[0] == s[|s| - |t|];
  }

  /** Leading whitespace and a string that neither starts nor ends with whitespace: `trim` keeps exactly the latter. */
  lemma TrimAround(w: string, d: string)
    requires forall i :: 0 <= i < |w| ==> IsWhitespace(w[i])
    requires d != [] && !IsWhitespace(d[0]) && !IsWhitespace(d[|d| - 1])
    ensures Trim(w + d) == d
  {
    TrimStartSkips(w, d);
  }

  lemma {:induction false} TrimStartSkips(w: string, d: string)
    requires forall i :: 0 <= i < |w| ==> IsWhitespace(w[i])
    requires d != [] && !IsWhitespace(d[0])
    ensures TrimStart(w + d) == d
  {
    if w != [] {
      assert (w + d)[1..] == w[1..] + d;
      TrimStartSkips(w[1..], d);
    } else {
      assert w + d == d;
    }
  }

  /** `pat` occurs in `s` starting at index `j`. */
  predicate OccursAt(s: string, pat: string, j: int) {
    0 <= j && j + |pat| <= |s| && s[j..j + |pat|] == pat
  }

  /** First index `>= i` at which `pat` occurs in `s`, or -1. */
  function IndexFrom(s: string, pat: string, i: nat): (r: int)
    requires i <= |s|
    ensures r == -1 || (i <= r && OccursAt(s, pat, r))
    ensures forall j :: i <= j && (r == -1 || j < r) ==> !OccursAt(s, pat, j)
    decreases |s| - i
  {
    if i + |pat| > |s| then -1
    else if s[i..i + |pat|] == pat then i
    else IndexFrom(s, pat, i + 1)
  }

  /** `s.indexOf(pat)` */
  function IndexOf(s: string, pat: string): int {
    IndexFrom(s, pat, 0)
  }

  /** `s.includes(pat)` */
  predicate Includes(s: string, pat: string) {
    IndexOf(s, pat) >= 0
  }

  /** `indexOf` finds an occurrence exactly when one exists. */
  lemma IncludesIffOccurs(s: string, pat: string)
    ensures Includes(s, pat) <==> exists j :: OccursAt(s, pat, j)
  {
    var r := IndexOf(s, pat);
    assert r >= 0 ==> OccursAt(s, pat, r);
  }

  /** When the first character of `pat` does not occur in `a`, the first occurrence of `pat` in `a + pat + b` is right after `a`. */
  lemma IndexOfAfter(a: string, pat: string, b: string)
    requires pat != []
    requires forall i :: 0 <= i < |a| ==> a[i] != pat[0]
    ensures IndexOf(a + pat + b, pat) == |a|
  {
    var s := a + pat + b;
    assert s[|a|..|a| + |pat|] == pat;
    assert OccursAt(s, pat, |a|);
    var r := IndexOf(s, pat);
    assert r != -1 && OccursAt(s, pat, r) && r <= |a|;
    assert s[r..r + |pat|][0] == s[r];
  }

  /** When the first character of `pat` does not occur in `s`, `indexOf` finds nothing. */
  lemma IndexOfAbsent(s: string, pat: string)
    requires pat != []
    requires forall i :: 0 <= i < |s| ==> s[i] != pat[0]
    ensures IndexOf(s, pat) == -1
  {
    var r := IndexOf(s, pat);
    if r != -1 {
      OccursAtHead(s, pat, r);
    }
  }

  /** An occurrence starts with the pattern's first character. */
  lemma OccursAtHead(s: string, pat: string, j: int)
    requires pat != [] && OccursAt(s, pat, j)
    ensures s[j] == pat[0]
  {
    assert s[j..j + |pat|][0] == s[j];
  }

  /** `c` does not occur in `s`. */
  predicate Lacks(s: string, c: char) {
    forall i :: 0 <= i < |s| ==> s[i] != c
  }

  lemma LacksConcat(a: string, b: string, c: char)
    ensures Lacks(a + b, c) <==> Lacks(a, c) && Lacks(b, c)
  {
    assert forall i :: 0 <= i < |a| ==> (a + b)[i] == a[i];
    assert forall i :: 0 <= i < |b| ==> (a + b)[|a| + i] == b[i];
  }

  /** `s.replace(pat, '')` with a string pattern: drops the first occurrence of `pat`, if any. */
  function RemoveFirst(s: string, pat: string): string {
    var i := IndexOf(s, pat);
    if i < 0 then s else s[..i] + s[i + |pat|..]
  }

  /** `s.split(sep)` for a non-empty separator. */
  function Split(s: string, sep: string): (parts: seq<string>)
    requires sep != []
    ensures |parts| >= 1
    decreases |s|
  {
    var i := IndexOf(s, sep);
    if i < 0 then [s] else [s[..i]] + Split(s[i + |sep|..], sep)
  }

  /** `parts.join(sep)` */
  function Join(parts: seq<string>, sep: string): string
    requires parts != []
  {
    if |parts| == 1 then parts[0] else parts[0] + sep + Join(parts[1..], sep)
  }

  /** Splitting on a one-character separator undoes joining parts that do not contain it. */
  lemma {:induction false} SplitJoin(parts: seq<string>, c: char)
    requires parts != []
    requires forall k, i :: 0 <= k < |parts| && 0 <= i < |parts[k]| ==> parts[k][i] != c
    ensures Split(Join(parts, [c]), [c]) == parts
  {
    if |parts| == 1 {
      IndexOfAbsent(parts[0], [c]);
    } else {
      var rest := Join(parts[1..], [c]);
      IndexOfAfter(parts[0], [c], rest);
      var s := parts[0] + [c] + rest;
      assert s[..|parts[0]|] == parts[0];
      assert s[|parts[0]| + 1..] == rest;
      SplitJoin(parts[1..], c);
      assert parts == [parts[0]] + parts[1..];
    }
  }

  /** The first field of `s.split(sep)` is what precedes the first separator. */
  lemma SplitFirst(a: string, sep: string, b: string)
    requires sep != []
    requires forall i :: 0 <= i < |a| ==> a[i] != sep[0]
    ensures Split(a + sep + b, sep)[0] == a
  {
    IndexOfAfter(a, sep, b);
    assert (a + sep + b)[..|a|] == a;
  }

  /** The longest prefix of decimal digits. */
  function DigitPrefix(s: string): (d: string)
    ensures |d| <= |s| && d == s[..|d|] && AllDigits(d)
    ensures |d| < |s| ==> !IsDigit(s[|d|])
  {
    if s != [] && IsDigit(s[0]) then [s[0]] + DigitPrefix(s[1..]) else []
  }

  /** The value of a string of decimal digits. */
  function DigitsValue(d: string): nat
    requires AllDigits(d)
  {
    if d == [] then 0 else DigitsValue(d[..|d| - 1]) * 10 + (d[|d| - 1] as int - '0' as int)
  }

  function Pow10(n: nat): (r: nat)
    ensures r >= 1
  {
    if n == 0 then 1 else 10 * Pow10(n - 1)
  }

  /** `parseInt(s, 10)`: optional leading whitespace, an optional sign, then the longest digit prefix; `None` is NaN. */
  function ParseInt(s: string): Option<int> {
    var t := TrimStart(s);
    var signed := t != [] && (t[0] == '-' || t[0] == '+');
    var u := if signed then t[1..] else t;
    var d := DigitPrefix(u);
    if d == [] then None
    else if signed && t[0] == '-' then Some(0 - DigitsValue(d))
    else Some(DigitsValue(d))
  }

  lemma {:induction false} DigitPrefixOfDigits(d: string)
    requires AllDigits(d)
    ensures DigitPrefix(d) == d
  {
    if d != [] {
      DigitPrefixOfDigits(d[1..]);
      assert d == [d[0]] + d[1..];
    }
  }

  /** On a non-empty digit string `parseInt` gives its decimal value; on the empty string it gives NaN. */
  lemma ParseIntOfDigits(d: string)
    requires AllDigits(d)
    ensures ParseInt(d) == if d == [] then None else Some(DigitsValue(d))
  {
    assert d != [] ==> !IsWhitespace(d[0]) && d[0] != '-' && d[0] != '+';
    assert TrimStart(d) == d;
    DigitPrefixOfDigits(d);
  }

  /** The unsigned decimal literals of `Number(s)`: digits, optionally a point and more digits, at least one digit in all. */
  function UnsignedDecimal(t: string): Option<real> {
    var whole := DigitPrefix(t);
    var rest := t[|whole|..];
    if rest == [] then
      (if whole == [] then None else Some(DigitsValue(whole) as real))
    else if rest[0] == '.' then
      var frac := DigitPrefix(rest[1..]);
      if |frac| < |rest| - 1 || (whole == [] && frac == []) then None
      else Some(DigitsValue(whole) as real + DigitsValue(frac) as real / Pow10(|frac|) as real)
    else None
  }

  /** `Number(s)` for a string: whitespace is trimmed, the empty string is 0, otherwise a signed decimal; anything else is NaN. */
  function ToNumber(s: string): Option<real> {
    var t := Trim(s);
    if t == [] then Some(0.0)
    else if t[0] == '-' then
      (match UnsignedDecimal(t[1..])
       case Some(x) => Some(-x)
       case None => None)
    else if t[0] == '+' then UnsignedDecimal(t[1..])
    else UnsignedDecimal(t)
  }

  /** `Number(w + d)` for whitespace `w` and a non-empty digit string `d` is the value of `d`. */
  lemma ToNumberOfDigits(w: string, d: string)
    requires forall i :: 0 <= i < |w| ==> IsWhitespace(w[i])
    requires d != [] && AllDigits(d)
    ensures ToNumber(w + d) == Some(DigitsValue(d) as real)
  {
    TrimAround(w, d);
    assert d[0] != '-' && d[0] != '+';
    UnsignedDecimalOfDigits(d);
  }

  /** A non-empty digit string is an unsigned decimal literal with its own value. */
  lemma UnsignedDecimalOfDigits(d: string)
    requires d != [] && AllDigits(d)
    ensures UnsignedDecimal(d) == Some(DigitsValue(d) as real)
  {
    DigitPrefixOfDigits(d);
    assert d[|d|..] == [];
  }

  /** JavaScript `x < c` where `x` may be NaN (`None`): NaN compares false. */
  predicate Below(x: Option<real>, c: real) {
    x.Some? && x.value < c
  }

  /** JavaScript `x >= c` where `x` may be NaN (`None`): NaN compares false. */
  predicate AtLeast(x: Option<real>, c: real) {
    x.Some? && x.value >= c
  }

  /** ASCII lower-casing, as `toLowerCase` acts on the ASCII letters of a tag name. */
  function LowerAscii(c: char): char {
    if 'A' <= c <= 'Z' then (c as int + 32) as char else c
  }

  predicate LowerEquals(s: string, lower: string) {
    |s| == |lower| && forall i :: 0 <= i < |s| ==> LowerAscii(s[i]) == lower[i]
  }
}

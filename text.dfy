/** The Python string primitives the core relies on: `isspace`, `strip`,
    `lstrip(chars)`, `startswith`, `find`, `split`, `join`, `replace`, `lower`. */
module Text {
  import opened Base

  /** Python's `str.isspace` for one character. */
  predicate IsSpace(c: char) {
    || ('\U{09}' <= c <= '\U{0D}')
    || ('\U{1C}' <= c <= ' ')
    || c == '\U{85}' || c == '\U{A0}' || c == '\U{1680}'
    || ('\U{2000}' <= c <= '\U{200A}')
    || c == '\U{2028}' || c == '\U{2029}' || c == '\U{202F}' || c == '\U{205F}' || c == '\U{3000}'
  }

  predicate AllSpace(s: string) {
    forall i :: 0 <= i < |s| ==> IsSpace(s[i])
  }

  /** No whitespace at either end: what `strip()` returns. */
  predicate IsStripped(s: string) {
    s == [] || (!IsSpace(s[0]) && !IsSpace(s[|s| - 1]))
  }

  /** The first index at or after `i` that does not hold whitespace. */
  function SkipSpace(s: string, i: nat): (r: nat)
    requires i <= |s|
    ensures i <= r <= |s|
    ensures forall k :: i <= k < r ==> IsSpace(s[k])
    ensures r == |s| || !IsSpace(s[r])
    decreases |s| - i
  {
    if i < |s| && IsSpace(s[i]) then SkipSpace(s, i + 1) else i
  }

  /** The least index `r <= j` such that `s[r..j]` is all whitespace. */
  function BackSpace(s: string, j: nat): (r: nat)
    requires j <= |s|
    ensures r <= j
    ensures forall k :: r <= k < j ==> IsSpace(s[k])
    ensures r == 0 || !IsSpace(s[r - 1])
  {
    if j > 0 && IsSpace(s[j - 1]) then BackSpace(s, j - 1) else j
  }

  /** Where `s.strip()` begins in `s`. */
  function StripStart(s: string): nat
    ensures StripStart(s) <= |s|
  {
    SkipSpace(s, 0)
  }

  /** Where `s.strip()` ends in `s`. */
  function StripEnd(s: string): (r: nat)
    ensures StripStart(s) <= r <= |s|
  {
    var b := BackSpace(s, |s|);
    if b < StripStart(s) then StripStart(s) else b
  }

  /** `s.strip()`: the middle of `s` between two all-whitespace ends. */
  function Strip(s: string): (r: string)
    ensures IsStripped(r)
    ensures |r| <= |s|
  {
    s[StripStart(s)..StripEnd(s)]
  }

  /** `s.lstrip()` */
  function TrimLeft(s: string): (r: string)
    ensures r == [] || !IsSpace(r[0])
  {
    s[SkipSpace(s, 0)..]
  }

  /** `s.rstrip()` */
  function TrimRight(s: string): (r: string)
    ensures r == [] || !IsSpace(r[|r| - 1])
  {
    s[..BackSpace(s, |s|)]
  }

  /** `strip()` removes exactly a whitespace prefix and a whitespace suffix. */
  lemma StripSlice(s: string)
    ensures var a, b := StripStart(s), StripEnd(s);
            Strip(s) == s[a..b] && AllSpace(s[..a]) && AllSpace(s[b..])
  {
    var a, b := StripStart(s), StripEnd(s);
    assert forall k :: 0 <= k < a ==> s[..a][k] == s[k];
    assert forall k :: 0 <= k < |s| - b ==> s[b..][k] == s[b + k];
  }

  /** A string is blank after stripping exactly when it is all whitespace. */
  lemma StripEmpty(s: string)
    ensures Strip(s) == [] <==> AllSpace(s)
  {
  }

  /** `strip()` is `rstrip()` after `lstrip()`. */
  lemma StripIsTrimmed(s: string)
    ensures Strip(s) == TrimRight(TrimLeft(s))
  {
    var a := SkipSpace(s, 0);
    var t := s[a..];
    var c := BackSpace(t, |t|);
    var b := BackSpace(s, |s|);
    if a == |s| {
    } else {
      assert !IsSpace(s[a]);
      assert b > a;
      BackSpaceShift(s, a, |s|);
    }
  }

  lemma {:induction false} BackSpaceShift(s: string, a: nat, j: nat)
    requires a <= j <= |s|
    requires BackSpace(s, j) >= a
    ensures BackSpace(s[a..], j - a) == BackSpace(s, j) - a
    decreases j
  {
    if j > a && IsSpace(s[j - 1]) {
      assert s[a..][j - a - 1] == s[j - 1];
      BackSpaceShift(s, a, j - 1);
    } else if j > a {
      assert s[a..][j - a - 1] == s[j - 1];
    }
  }

  /** A string that starts with a non-space character strips to a
      non-empty string that starts with it. */
  lemma StripNonSpaceHead(s: string)
    requires |s| > 0 && !IsSpace(s[0])
    ensures Strip(s) != [] && Strip(s)[0] == s[0]
  {
    assert BackSpace(s, |s|) >= 1;
  }

  /** Stripping a string that is already stripped changes nothing. */
  lemma StripStripped(s: string)
    requires IsStripped(s)
    ensures Strip(s) == s
  {
    if s != [] {
      assert SkipSpace(s, 0) == 0;
      assert BackSpace(s, |s|) == |s|;
    }
  }

  /** The first index at or after `i` whose character is not in `chars`. */
  function SkipChars(s: string, i: nat, chars: set<char>): (r: nat)
    requires i <= |s|
    ensures i <= r <= |s|
    ensures forall k :: i <= k < r ==> s[k] in chars
    ensures r == |s| || s[r] !in chars
    decreases |s| - i
  {
    if i < |s| && s[i] in chars then SkipChars(s, i + 1, chars) else i
  }

  /** `s.lstrip(chars)` for an explicit character set. */
  function LStripChars(s: string, chars: set<char>): (r: string)
    ensures r == [] || r[0] !in chars
  {
    s[SkipChars(s, 0, chars)..]
  }

  predicate StartsWith(s: string, prefix: string) {
    |prefix| <= |s| && s[..|prefix|] == prefix
  }

  predicate OccursAt(s: string, sub: string, k: int) {
    0 <= k && k + |sub| <= |s| && s[k..k + |sub|] == sub
  }

  /** Python's `sub in s`. */
  predicate Contains(s: string, sub: string) {
    exists k :: 0 <= k <= |s| && OccursAt(s, sub, k)
  }

  /** `s.find(sub)`, with `None` for Python's `-1`. */
  function Find(s: string, sub: string): (r: Option<nat>)
    ensures r.Some? ==> OccursAt(s, sub, r.value)
    ensures r.Some? ==> forall k :: 0 <= k < r.value ==> !OccursAt(s, sub, k)
    ensures r.None? ==> !Contains(s, sub)
  {
    FindFrom(s, sub, 0)
  }

  function FindFrom(s: string, sub: string, i: nat): (r: Option<nat>)
    requires forall k :: 0 <= k < i ==> !OccursAt(s, sub, k)
    ensures r.Some? ==> i <= r.value && OccursAt(s, sub, r.value)
    ensures r.Some? ==> forall k :: 0 <= k < r.value ==> !OccursAt(s, sub, k)
    ensures r.None? ==> !Contains(s, sub)
    decreases |s| - i
  {
    if i + |sub| > |s| then None
    else if s[i..i + |sub|] == sub then Some(i)
    else FindFrom(s, sub, i + 1)
  }

  /** The index of the first occurrence of `c` in `s`. */
  function CharIndex(s: string, c: char): (r: nat)
    requires c in s
    ensures r < |s| && s[r] == c && c !in s[..r]
  {
    if s[0] == c then 0 else CharIndex(s[1..], c) + 1
  }

  /** A text whose first character is not `c` does not start with `[c]`. */
  lemma NotStartsWithChar(s: string, c: char)
    requires s != [] && s[0] != c
    ensures !StartsWith(s, [c])
  {
    assert s[..1][0] == s[0];
  }

  /** The first `c` in `s` is at `n` when `s[n]` is one and none comes
      before it. */
  lemma CharIndexIs(s: string, c: char, n: nat)
    requires n < |s| && s[n] == c && c !in s[..n]
    ensures CharIndex(s, c) == n
  {
    var r := CharIndex(s, c);
    assert forall k :: 0 <= k < n ==> s[..n][k] == s[k];
    assert forall k :: 0 <= k < r ==> s[..r][k] == s[k];
  }

  /** `s.rfind(c)`, with `None` for Python's `-1`. */
  function LastIndex(s: string, c: char): (r: Option<nat>)
    ensures r.Some? ==> r.value < |s| && s[r.value] == c && c !in s[r.value + 1..]
    ensures r.None? ==> c !in s
  {
    if |s| == 0 then None
    else if s[|s| - 1] == c then Some(|s| - 1)
    else
      var r := LastIndex(s[..|s| - 1], c);
      assert s == s[..|s| - 1] + [s[|s| - 1]];
      r
  }

  /** `sep.join(parts)` */
  function Join(sep: string, parts: seq<string>): string {
    if |parts| == 0 then ""
    else if |parts| == 1 then parts[0]
    else parts[0] + sep + Join(sep, parts[1..])
  }

  /** `s.split(sep)` for a one-character separator: never empty, no part
      contains the separator, and joining the parts gives `s` back. */
  function Split(s: string, sep: char): (r: seq<string>)
    ensures |r| >= 1
    ensures forall k :: 0 <= k < |r| ==> sep !in r[k]
    ensures Join([sep], r) == s
    decreases |s|
  {
    if sep in s then
      var i := CharIndex(s, sep);
      var rest := Split(s[i + 1..], sep);
      assert s == s[..i] + [sep] + s[i + 1..];
      [s[..i]] + rest
    else [s]
  }

  /** The other direction of the round trip: splitting a join of
      separator-free parts gives the parts back. */
  lemma {:induction false} SplitJoin(parts: seq<string>, sep: char)
    requires |parts| >= 1
    requires forall k :: 0 <= k < |parts| ==> sep !in parts[k]
    ensures Split(Join([sep], parts), sep) == parts
  {
    if |parts| == 1 {
    } else {
      var s := Join([sep], parts);
      var p := parts[0];
      assert s == p + [sep] + Join([sep], parts[1..]);
      assert s[|p|] == sep;
      assert s[..|p|] == p;
      assert sep !in s[..|p|];
      assert CharIndex(s, sep) == |p|;
      assert s[|p| + 1..] == Join([sep], parts[1..]);
      SplitJoin(parts[1..], sep);
    }
  }

  /** Splitting at the first separator: the text before it is the first
      part and the text after it splits into the rest. */
  lemma SplitHead(line: string, sep: char, rest: string)
    requires sep !in line
    ensures Split(line + [sep] + rest, sep) == [line] + Split(rest, sep)
  {
    var s := line + [sep] + rest;
    assert s[|line|] == sep;
    assert s[..|line|] == line;
    assert CharIndex(s, sep) == |line|;
    assert s[|line| + 1..] == rest;
  }

  /** A character absent from the text is absent from every part. */
  lemma {:induction false} SplitAbsent(s: string, sep: char, c: char)
    requires c !in s
    ensures forall k :: 0 <= k < |Split(s, sep)| ==> c !in Split(s, sep)[k]
    decreases |s|
  {
    if sep in s {
      var i := CharIndex(s, sep);
      assert forall j :: 0 <= j < i ==> s[..i][j] == s[j];
      var t := s[i + 1..];
      assert forall j :: 0 <= j < |t| ==> t[j] == s[i + 1 + j];
      SplitAbsent(s[i + 1..], sep, c);
    }
  }

  /** `s.replace(c, rep)` for a one-character pattern. */
  function ReplaceChar(s: string, c: char, rep: string): (r: string)
    ensures c !in rep ==> c !in r
    ensures c !in s ==> r == s
  {
    if s == [] then ""
    else (if s[0] == c then rep else [s[0]]) + ReplaceChar(s[1..], c, rep)
  }

  /** `s.replace(c, "")` */
  function RemoveChar(s: string, c: char): (r: string)
    ensures |r| <= |s|
    ensures c !in s ==> r == s
  {
    if s == [] then ""
    else (if s[0] == c then "" else [s[0]]) + RemoveChar(s[1..], c)
  }

  /** No occurrence of `c` survives the removal. */
  lemma {:induction false} RemoveCharRemoves(s: string, c: char)
    ensures c !in RemoveChar(s, c)
    decreases |s|
  {
    if s != [] {
      RemoveCharRemoves(s[1..], c);
    }
  }

  lemma {:induction false} RemoveCharConcat(a: string, b: string, c: char)
    ensures RemoveChar(a + b, c) == RemoveChar(a, c) + RemoveChar(b, c)
    decreases |a|
  {
    if a != [] {
      var x := if a[0] == c then "" else [a[0]];
      assert (a + b)[0] == a[0];
      assert (a + b)[1..] == a[1..] + b;
      assert RemoveChar(a + b, c) == x + RemoveChar(a[1..] + b, c);
      RemoveCharConcat(a[1..], b, c);
      assert RemoveChar(a, c) == x + RemoveChar(a[1..], c);
      Regroup(x, RemoveChar(a[1..], c), RemoveChar(b, c));
    } else {
      assert a + b == b;
    }
  }

  function LowerChar(c: char): char {
    if 'A' <= c <= 'Z' then (c as int + 32) as char else c
  }

  /** `s.lower()` restricted to ASCII letters. */
  function Lower(s: string): (r: string)
    ensures |r| == |s|
    ensures forall i :: 0 <= i < |s| ==> r[i] == LowerChar(s[i])
  {
    seq(|s|, i requires 0 <= i < |s| => LowerChar(s[i]))
  }

  predicate IsDigit(c: char) {
    '0' <= c <= '9'
  }

  predicate IsLowerHex(c: char) {
    IsDigit(c) || ('a' <= c <= 'f')
  }

  predicate IsHex(c: char) {
    IsLowerHex(c) || ('A' <= c <= 'F')
  }

  predicate IsAsciiLetter(c: char) {
    ('a' <= c <= 'z') || ('A' <= c <= 'Z')
  }
}

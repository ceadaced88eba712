/** The inline regular expressions shared by the Notion tokenizer and the
    Slack converter, each tried at one position of a string with Python's
    `re` semantics: `.` never matches a newline, a lazy `(.+?)` stops at the
    first closing delimiter, and a greedy `[^\]]+` runs to the first `]`. */
module InlinePatterns {
  import opened Base
  import opened Text

  datatype Kind = Bold | Code | Link | StarItalic | UnderscoreItalic

  /** One successful match: which alternative, its first group, its second
      group (the link target; empty for the others), and where it ends. */
  datatype Hit = Hit(kind: Kind, content: string, url: string, end: nat)

  /** The closing position of a lazy `(.+?)` followed by `close`, when the
      group has already consumed `s[.. k]`: the first `j >= k` where `close`
      occurs, provided no newline lies in between. */
  function LazyClose(s: string, k: nat, close: string): (r: Option<nat>)
    requires k <= |s|
    ensures r.Some? ==> k <= r.value && OccursAt(s, close, r.value) && '\n' !in s[k..r.value]
    ensures r.Some? ==> forall j :: k <= j < r.value ==> !OccursAt(s, close, j)
    ensures r.None? ==> forall j :: k <= j <= |s| && '\n' !in s[k..j] ==> !OccursAt(s, close, j)
    decreases |s| - k
  {
    if OccursAt(s, close, k) then Some(k)
    else if k < |s| && s[k] != '\n' then
      var r := LazyClose(s, k + 1, close);
      assert forall j :: k + 1 <= j <= |s| ==> s[k..j] == [s[k]] + s[k + 1..j];
      r
    else
      assert forall j :: k < j <= |s| ==> s[k..j][0] == s[k];
      None
  }

  /** `delim(.+?)delim` at position `s`, as in `\*\*(.+?)\*\*`, `` `(.+?)` ``,
      `\*(.+?)\*`, `_(.+?)_` and `__(.+?)__`. */
  function DelimitedAt(t: string, s: nat, delim: string, kind: Kind): (r: Option<Hit>)
    requires |delim| > 0
    ensures r.Some? ==> var h := r.value;
      && h.kind == kind && h.url == ""
      && s + 2 * |delim| < h.end <= |t|
      && h.content == t[s + |delim|..h.end - |delim|]
  {
    var c := s + |delim|;
    if OccursAt(t, delim, s) && c < |t| && t[c] != '\n' then
      match LazyClose(t, c + 1, delim)
      case Some(k) =>
        assert t[c..k] == [t[c]] + t[c + 1..k];
        Some(Hit(kind, t[c..k], "", k + |delim|))
      case None => None
    else None
  }

  /** The first `j >= i` with `t[j] == c`. */
  function FirstFrom(t: string, i: nat, c: char): (r: Option<nat>)
    ensures r.Some? ==> i <= r.value < |t| && t[r.value] == c
    ensures r.Some? ==> forall j :: i <= j < r.value ==> t[j] != c
    ensures r.None? ==> forall j :: i <= j < |t| ==> t[j] != c
    decreases |t| - i
  {
    if i >= |t| then None
    else if t[i] == c then Some(i)
    else FirstFrom(t, i + 1, c)
  }

  /** `\[([^\]]+)\]\(([^)]+)\)` at position `s`. */
  function LinkAt(t: string, s: nat): (r: Option<Hit>)
    ensures r.Some? ==> var h := r.value;
      && h.kind == Link
      && s + 5 < h.end <= |t|
      && |h.content| > 0 && |h.url| > 0
  {
    if s < |t| && t[s] == '[' then
      match FirstFrom(t, s + 1, ']')
      case None => None
      case Some(e) =>
        if e > s + 1 && e + 1 < |t| && t[e + 1] == '(' then
          match FirstFrom(t, e + 2, ')')
          case None => None
          case Some(f) =>
            if f > e + 2 then
              Some(Hit(Link, t[s + 1..e], t[e + 2..f], f + 1))
            else None
        else None
    else None
  }
}

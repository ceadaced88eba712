/** Slack publishing: the line-by-line conversion of markdown to Slack's
    mrkdwn, the text of a posted message, and the lookup of a channel id
    by name across the pages of a channel listing. */
module SlackPost {
  import opened Base
  import opened Text
  import IP = InlinePatterns

  // ---------------------------------------------------------------------
  // Inline substitutions
  // ---------------------------------------------------------------------

  /** `re.sub(r"\[([^\]]+)\]\(([^)]+)\)", r"<\2|\1>", t[pos..])` */
  function SubLinks(t: string, pos: nat): string
    decreases |t| - pos
  {
    if pos >= |t| then ""
    else match IP.LinkAt(t, pos)
      case Some(h) => "<" + h.url + "|" + h.content + ">" + SubLinks(t, h.end)
      case None => [t[pos]] + SubLinks(t, pos + 1)
  }

  /** `re.sub(delim + r"(.+?)" + delim, r"*\1*", t[pos..])` for the
      delimiters `\*\*` and `__`. */
  function SubBold(t: string, delim: string, pos: nat): string
    requires |delim| > 0
    decreases |t| - pos
  {
    if pos >= |t| then ""
    else match IP.DelimitedAt(t, pos, delim, IP.Bold)
      case Some(h) => "*" + h.content + "*" + SubBold(t, delim, h.end)
      case None => [t[pos]] + SubBold(t, delim, pos + 1)
  }

  /** Without a `[` there is no link to rewrite. */
  lemma {:induction false} SubLinksNoBracket(t: string, pos: nat)
    requires '[' !in t
    ensures SubLinks(t, pos) == if pos < |t| then t[pos..] else ""
    decreases |t| - pos
  {
    if pos < |t| {
      assert IP.LinkAt(t, pos).None?;
      SubLinksNoBracket(t, pos + 1);
      assert t[pos..] == [t[pos]] + t[pos + 1..];
    }
  }

  /** Without an occurrence of the delimiter there is nothing to rewrite. */
  lemma {:induction false} SubBoldAbsent(t: string, delim: string, pos: nat)
    requires |delim| > 0
    requires forall p :: 0 <= p <= |t| ==> !OccursAt(t, delim, p)
    ensures SubBold(t, delim, pos) == if pos < |t| then t[pos..] else ""
    decreases |t| - pos
  {
    if pos < |t| {
      assert IP.DelimitedAt(t, pos, delim, IP.Bold).None?;
      SubBoldAbsent(t, delim, pos + 1);
      assert t[pos..] == [t[pos]] + t[pos + 1..];
    }
  }

  /** The substitutions add no newline. */
  lemma {:induction false} SubLinksNoNewline(t: string, pos: nat)
    requires '\n' !in t
    ensures '\n' !in SubLinks(t, pos)
    decreases |t| - pos
  {
    if pos < |t| {
      match IP.LinkAt(t, pos)
      case Some(h) =>
        SliceAbsent(t, pos + 1, pos + 1 + |h.content|, '\n');
        SubLinksNoNewline(t, h.end);
        LinkParts(t, pos);
      case None =>
        SubLinksNoNewline(t, pos + 1);
    }
  }

  lemma SliceAbsent(t: string, i: nat, j: nat, c: char)
    requires i <= j <= |t| && c !in t
    ensures c !in t[i..j]
  {
    assert forall k :: 0 <= k < j - i ==> t[i..j][k] == t[i + k];
  }

  /** The two groups of a link match are slices of the text. */
  lemma LinkParts(t: string, s: nat)
    requires IP.LinkAt(t, s).Some?
    ensures var h := IP.LinkAt(t, s).value;
      (forall c :: c in h.content ==> c in t) && (forall c :: c in h.url ==> c in t)
  {
    var h := IP.LinkAt(t, s).value;
    var e := IP.FirstFrom(t, s + 1, ']').value;
    var f := IP.FirstFrom(t, e + 2, ')').value;
    assert h.content == t[s + 1..e] && h.url == t[e + 2..f];
    assert forall k :: 0 <= k < |h.content| ==> h.content[k] == t[s + 1 + k];
    assert forall k :: 0 <= k < |h.url| ==> h.url[k] == t[e + 2 + k];
  }

  lemma {:induction false} SubBoldNoNewline(t: string, delim: string, pos: nat)
    requires |delim| > 0 && '\n' !in t
    ensures '\n' !in SubBold(t, delim, pos)
    decreases |t| - pos
  {
    if pos < |t| {
      match IP.DelimitedAt(t, pos, delim, IP.Bold)
      case Some(h) =>
        SliceAbsent(t, pos + |delim|, h.end - |delim|, '\n');
        SubBoldNoNewline(t, delim, h.end);
      case None =>
        SubBoldNoNewline(t, delim, pos + 1);
    }
  }

  // ---------------------------------------------------------------------
  // One line
  // ---------------------------------------------------------------------

  /** Group 2 of `re.match(r"^(#{1,6})\s+(.*)", line)`: one to six `#`,
      then whitespace, then the rest of the line. More than six `#` never
      match, since the group cannot give any back to `\s+`. */
  function HeadingText(line: string): (r: Option<string>)
    ensures r.Some? ==> |r.value| < |line| && (r.value == [] || !IsSpace(r.value[0]))
  {
    var k := SkipChars(line, 0, {'#'});
    if 1 <= k <= 6 && k < |line| && IsSpace(line[k]) then Some(line[SkipSpace(line, k)..]) else None
  }

  /** A line outside code: a heading becomes bold text, anything else has
      its links, then its `**` bold, then its `__` bold rewritten. */
  function RewriteLine(line: string): string {
    match HeadingText(line)
    case Some(h) => "*" + h + "*"
    case None => SubBold(SubBold(SubLinks(line, 0), "**", 0), "__", 0)
  }

  /** The end of the leading whitespace from `i` on. */
  function IndentEnd(line: string, i: nat): (r: nat)
    requires i <= |line|
    ensures i <= r <= |line|
    decreases |line| - i
  {
    if i < |line| && IsSpace(line[i]) then IndentEnd(line, i + 1) else i
  }

  /** `line.strip().startswith("```")`, tested on the line without its
      leading whitespace (see `FenceLineIsStripped`). */
  predicate IsFenceLine(line: string) {
    var j := IndentEnd(line, 0);
    j + 3 <= |line| && line[j] == '`' && line[j + 1] == '`' && line[j + 2] == '`'
  }

  lemma {:induction false} IndentEndIsSkipSpace(line: string, i: nat)
    requires i <= |line|
    ensures IndentEnd(line, i) == SkipSpace(line, i)
    decreases |line| - i
  {
    if i < |line| && IsSpace(line[i]) {
      IndentEndIsSkipSpace(line, i + 1);
    }
  }

  /** The fence test is Python's `line.strip().startswith("```")`. */
  lemma FenceLineIsStripped(line: string)
    ensures IsFenceLine(line) <==> StartsWith(Strip(line), "```")
  {
    IndentEndIsSkipSpace(line, 0);
    if IsFenceLine(line) {
      FenceStripped(line);
    }
    if StartsWith(Strip(line), "```") {
      StrippedFence(line);
    }
  }

  lemma FenceStripped(line: string)
    requires var a := StripStart(line); a + 3 <= |line| && line[a] == '`' && line[a + 1] == '`' && line[a + 2] == '`'
    ensures StartsWith(Strip(line), "```")
  {
    var a := StripStart(line);
    var t := Strip(line);
    assert !IsSpace(line[a + 2]);
    assert BackSpace(line, |line|) >= a + 3;
    assert t[..3] == line[a..a + 3];
    assert line[a..a + 3] == "```";
  }

  lemma StrippedFence(line: string)
    requires StartsWith(Strip(line), "```")
    ensures var a := StripStart(line); a + 3 <= |line| && line[a] == '`' && line[a + 1] == '`' && line[a + 2] == '`'
  {
    var a, b := StripStart(line), StripEnd(line);
    var t := Strip(line);
    var f := "```";
    assert t[..3] == f;
    assert t[0] == f[0] && t[1] == f[1] && t[2] == f[2];
    assert b - a == |t|;
    assert t[0] == line[a] && t[1] == line[a + 1] && t[2] == line[a + 2];
  }

  /** What becomes of one line given whether a code block is open. */
  function OutLine(line: string, inCode: bool): string {
    if IsFenceLine(line) || inCode then line else RewriteLine(line)
  }

  /** Whether a code block is open after `line`. */
  function NextMode(line: string, inCode: bool): bool {
    if IsFenceLine(line) then !inCode else inCode
  }

  lemma RewriteNoNewline(line: string)
    requires '\n' !in line
    ensures '\n' !in RewriteLine(line)
  {
    match HeadingText(line)
    case Some(h) =>
      var k := SkipSpace(line, SkipChars(line, 0, {'#'}));
      SliceAbsent(line, k, |line|, '\n');
    case None =>
      SubLinksNoNewline(line, 0);
      SubBoldNoNewline(SubLinks(line, 0), "**", 0);
      SubBoldNoNewline(SubBold(SubLinks(line, 0), "**", 0), "__", 0);
  }

  /** A delimiter whose first character is absent occurs nowhere. */
  lemma NoOccurrence(t: string, d: string)
    requires |d| > 0 && d[0] !in t
    ensures forall p :: 0 <= p <= |t| ==> !OccursAt(t, d, p)
  {
    forall p | 0 <= p <= |t|  ensures !OccursAt(t, d, p) {
      if p + |d| <= |t| {
        assert t[p..p + |d|][0] == t[p];
      }
    }
  }

  /** A line that is no heading and holds no `[`, `**` or `__` is left as
      it is; `_x_` and `---` are such lines. */
  lemma PlainLineUnchanged(line: string)
    requires HeadingText(line).None? && '[' !in line
    requires forall p :: 0 <= p <= |line| ==> !OccursAt(line, "**", p) && !OccursAt(line, "__", p)
    ensures RewriteLine(line) == line
  {
    SubLinksNoBracket(line, 0);
    SubBoldAbsent(line, "**", 0);
    SubBoldAbsent(line, "__", 0);
  }

  /** `_x_` stays as it is (Slack reads it as italic already). */
  lemma ItalicUnchanged(x: string)
    requires |x| > 0 && '_' !in x && '*' !in x && '[' !in x
    ensures RewriteLine("_" + x + "_") == "_" + x + "_"
  {
    var line := "_" + x + "_";
    assert line[0] == '_';
    assert SkipChars(line, 0, {'#'}) == 0;
    forall p | 0 <= p <= |line| ensures !OccursAt(line, "**", p) && !OccursAt(line, "__", p) {
      if p + 2 <= |line| {
        assert line[p..p + 2][0] == line[p] && line[p..p + 2][1] == line[p + 1];
        if 0 < p { assert line[p] == x[p - 1]; }
        if p + 1 < |line| - 1 { assert line[p + 1] == x[p]; }
      }
    }
    PlainLineUnchanged(line);
  }

  /** `---` stays as it is. */
  lemma RuleUnchanged()
    ensures RewriteLine("---") == "---"
  {
    var line := "---";
    assert SkipChars(line, 0, {'#'}) == 0;
    NoOccurrence(line, "**");
    NoOccurrence(line, "__");
    PlainLineUnchanged(line);
  }

  /** `**x**` becomes `*x*` when `x` holds no further markup. */
  lemma BoldRewrite(x: string)
    requires |x| > 0 && '*' !in x && '_' !in x && '[' !in x && '\n' !in x
    ensures RewriteLine("**" + x + "**") == "*" + x + "*"
  {
    var line := "**" + x + "**";
    assert line[0] == '*';
    assert SkipChars(line, 0, {'#'}) == 0;
    SubLinksNoBracket(line, 0);
    BoldSubstituted(x);
    var bolded := "*" + x + "*";
    NoOccurrence(bolded, "__");
    SubBoldAbsent(bolded, "__", 0);
  }

  /** The lazy close is at `n` when a delimiter occurs there, none occurs
      before it from `k` on, and no newline lies in between. */
  lemma LazyCloseAt(line: string, k: nat, delim: string, n: nat)
    requires k <= n && n + |delim| <= |line| && OccursAt(line, delim, n)
    requires '\n' !in line[k..n]
    requires forall j :: k <= j < n ==> !OccursAt(line, delim, j)
    ensures IP.LazyClose(line, k, delim) == Some(n)
  {
  }

  /** The bold pattern matches `**x**` as a whole. */
  lemma BoldLineHit(x: string)
    requires |x| > 0 && '*' !in x && '\n' !in x
    ensures IP.DelimitedAt("**" + x + "**", 0, "**", IP.Bold) == Some(IP.Hit(IP.Bold, x, "", |x| + 4))
  {
    var line := "**" + x + "**";
    var n := |x| + 2;
    assert OccursAt(line, "**", 0) by { assert line[..2] == "**"; }
    assert OccursAt(line, "**", n) by { assert line[n..n + 2] == "**"; }
    assert line[2] == x[0] && line[2] != '\n';
    assert IP.LazyClose(line, 3, "**") == Some(n) by {
      forall j | 3 <= j < n ensures !OccursAt(line, "**", j) {
        assert line[j] == x[j - 2];
        assert line[j..j + 2][0] == line[j];
      }
      assert line[3..n] == x[1..];
      LazyCloseAt(line, 3, "**", n);
    }
    assert line[2..n] == x;
  }

  /** A bold hit at `pos` is rewritten and the scan resumes after it. */
  lemma SubBoldAtHit(line: string, delim: string, pos: nat, h: IP.Hit)
    requires |delim| > 0 && pos < |line| && IP.DelimitedAt(line, pos, delim, IP.Bold) == Some(h)
    ensures SubBold(line, delim, pos) == "*" + h.content + "*" + SubBold(line, delim, h.end)
  {
  }

  /** The bold pass alone turns `**x**` into `*x*`. */
  lemma BoldSubstituted(x: string)
    requires |x| > 0 && '*' !in x && '\n' !in x
    ensures SubBold("**" + x + "**", "**", 0) == "*" + x + "*"
  {
    var line := "**" + x + "**";
    var h := IP.Hit(IP.Bold, x, "", |x| + 4);
    assert |line| == h.end;
    BoldLineHit(x);
    SubBoldAtHit(line, "**", 0, h);
    assert SubBold(line, "**", h.end) == "";
    var bolded := "*" + x + "*";
    assert SubBold(line, "**", 0) == bolded + "";
  }

  /** `[t](u)` becomes `<u|t>` when its parts hold no further markup. */
  lemma LinkRewrite(t: string, u: string)
    requires |t| > 0 && |u| > 0 && ']' !in t && ')' !in u
    requires '*' !in t + u && '_' !in t + u
    ensures RewriteLine("[" + t + "](" + u + ")") == "<" + u + "|" + t + ">"
  {
    var line := "[" + t + "](" + u + ")";
    assert line[0] == '[';
    assert SkipChars(line, 0, {'#'}) == 0;
    LinkSubstituted(t, u);
    var out := "<" + u + "|" + t + ">";
    assert '*' !in out && '_' !in out;
    NoOccurrence(out, "**");
    NoOccurrence(out, "__");
    SubBoldAbsent(out, "**", 0);
    SubBoldAbsent(out, "__", 0);
  }

  /** The first `c` from `i` on is at `e` when `e` holds one and nothing
      before it does. */
  lemma FirstAt(line: string, i: nat, c: char, e: nat)
    requires i <= e < |line| && line[e] == c
    requires forall j :: i <= j < e ==> line[j] != c
    ensures IP.FirstFrom(line, i, c) == Some(e)
  {
  }

  /** The link pattern matches at `s` with its brackets at `e` and `f`. */
  lemma LinkFound(line: string, s: nat, e: nat, f: nat)
    requires s < |line| && line[s] == '['
    requires IP.FirstFrom(line, s + 1, ']') == Some(e) && e > s + 1 && e + 1 < |line| && line[e + 1] == '('
    requires IP.FirstFrom(line, e + 2, ')') == Some(f) && f > e + 2
    ensures IP.LinkAt(line, s) == Some(IP.Hit(IP.Link, line[s + 1..e], line[e + 2..f], f + 1))
  {
  }

  /** The pieces of `[t](u)`: its brackets, parentheses and the two texts
      between them. */
  lemma LinkLineParts(t: string, u: string)
    ensures var line := "[" + t + "](" + u + ")"; var e := |t| + 1; var f := |t| + 3 + |u|;
      && |line| == f + 1 && line[0] == '[' && line[e] == ']' && line[e + 1] == '(' && line[f] == ')'
      && line[1..e] == t && line[e + 2..f] == u
  {
  }

  /** No `c` in the slice `line[i..e]` means none at the positions it covers. */
  lemma NoneInSlice(line: string, i: nat, e: nat, c: char)
    requires i <= e <= |line| && c !in line[i..e]
    ensures forall j :: i <= j < e ==> line[j] != c
  {
    forall j | i <= j < e ensures line[j] != c {
      assert line[j] == line[i..e][j - i];
    }
  }

  /** The link pattern matches `[t](u)` as a whole. */
  lemma LinkLineHit(t: string, u: string)
    requires |t| > 0 && |u| > 0 && ']' !in t && ')' !in u
    ensures IP.LinkAt("[" + t + "](" + u + ")", 0) == Some(IP.Hit(IP.Link, t, u, |t| + |u| + 4))
  {
    var line := "[" + t + "](" + u + ")";
    var e := |t| + 1;
    var f := |t| + 3 + |u|;
    LinkLineParts(t, u);
    assert IP.FirstFrom(line, 1, ']') == Some(e) by {
      NoneInSlice(line, 1, e, ']');
      FirstAt(line, 1, ']', e);
    }
    assert IP.FirstFrom(line, e + 2, ')') == Some(f) by {
      NoneInSlice(line, e + 2, f, ')');
      FirstAt(line, e + 2, ')', f);
    }
    LinkFound(line, 0, e, f);
  }

  /** A link hit at `pos` is rewritten and the scan resumes after it. */
  lemma SubLinksAtHit(line: string, pos: nat, h: IP.Hit)
    requires pos < |line| && IP.LinkAt(line, pos) == Some(h)
    ensures SubLinks(line, pos) == "<" + h.url + "|" + h.content + ">" + SubLinks(line, h.end)
  {
  }

  /** The link pass alone turns `[t](u)` into `<u|t>`. */
  lemma LinkSubstituted(t: string, u: string)
    requires |t| > 0 && |u| > 0 && ']' !in t && ')' !in u
    ensures SubLinks("[" + t + "](" + u + ")", 0) == "<" + u + "|" + t + ">"
  {
    var line := "[" + t + "](" + u + ")";
    var h := IP.Hit(IP.Link, t, u, |t| + |u| + 4);
    assert |line| == h.end;
    LinkLineHit(t, u);
    SubLinksAtHit(line, 0, h);
    assert SubLinks(line, h.end) == "";
    var out := "<" + u + "|" + t + ">";
    assert SubLinks(line, 0) == out + "";
  }

  /** `#` to `######`, a space, then text: the text in bold, with no link or
      bold rewriting inside it. */
  lemma HeadingBold(hashes: string, rest: string)
    requires 1 <= |hashes| <= 6 && forall i :: 0 <= i < |hashes| ==> hashes[i] == '#'
    requires rest == [] || !IsSpace(rest[0])
    ensures RewriteLine(hashes + " " + rest) == "*" + rest + "*"
  {
    var line := hashes + " " + rest;
    var k := |hashes|;
    assert forall i :: 0 <= i < k ==> line[i] == '#';
    assert line[k] == ' ';
    assert SkipChars(line, 0, {'#'}) == k;
    assert IsSpace(line[k]);
    assert k + 1 == |line| || line[k + 1] == rest[0];
    assert SkipSpace(line, k) == k + 1;
    assert line[k + 1..] == rest;
  }

  // ---------------------------------------------------------------------
  // The whole text
  // ---------------------------------------------------------------------

  /** `markdown_to_mrkdwn` */
  function Mrkdwn(text: string): string {
    Join("\n", Converted(Split(text, '\n')))
  }

  /** Every line converted in the mode the lines before it leave open. */
  function Converted(lines: seq<string>): (r: seq<string>)
    ensures |r| == |lines|
  {
    seq(|lines|, k requires 0 <= k < |lines| => OutLine(lines[k], ModeAt(lines, k)))
  }

  /** Whether a code block is open before line `k`. */
  function ModeAt(lines: seq<string>, k: nat): bool
    requires k <= |lines|
  {
    if k == 0 then false else NextMode(lines[k - 1], ModeAt(lines, k - 1))
  }

  /** The number of fence lines among the first `k`. */
  function FenceCount(lines: seq<string>, k: nat): nat
    requires k <= |lines|
  {
    if k == 0 then 0 else FenceCount(lines, k - 1) + (if IsFenceLine(lines[k - 1]) then 1 else 0)
  }

  /** A code block is open exactly after an odd number of fence lines. */
  lemma {:induction false} ModeIsParity(lines: seq<string>, k: nat)
    requires k <= |lines|
    ensures ModeAt(lines, k) <==> FenceCount(lines, k) % 2 == 1
  {
    if k > 0 {
      ModeIsParity(lines, k - 1);
    }
  }

  /** `markdown_to_mrkdwn`, line by line: fence lines and lines inside a
      code block (after an odd number of fence lines) are copied; every
      other line is rewritten on its own. */
  lemma MrkdwnLines(lines: seq<string>, k: nat)
    requires k < |lines|
    ensures Converted(lines)[k]
      == if IsFenceLine(lines[k]) || FenceCount(lines, k) % 2 == 1 then lines[k] else RewriteLine(lines[k])
  {
    ModeIsParity(lines, k);
  }

  /** No converted line holds a newline. */
  lemma ConvertNoNewline(lines: seq<string>)
    requires forall k :: 0 <= k < |lines| ==> '\n' !in lines[k]
    ensures forall k :: 0 <= k < |lines| ==> '\n' !in Converted(lines)[k]
  {
    forall k | 0 <= k < |lines| ensures '\n' !in Converted(lines)[k] {
      RewriteNoNewline(lines[k]);
    }
  }

  /** The output has as many lines as the input: splitting it gives back
      exactly the converted lines. */
  lemma MrkdwnLineCount(text: string)
    ensures Split(Mrkdwn(text), '\n') == Converted(Split(text, '\n'))
    ensures |Split(Mrkdwn(text), '\n')| == |Split(text, '\n')|
  {
    var lines := Split(text, '\n');
    ConvertNoNewline(lines);
    SplitJoin(Converted(lines), '\n');
  }

  /** The first `i` lines converted, in order. */
  function ConvertedPrefix(lines: seq<string>, i: nat): seq<string>
    requires i <= |lines|
  {
    if i == 0 then [] else ConvertedPrefix(lines, i - 1) + [OutLine(lines[i - 1], ModeAt(lines, i - 1))]
  }

  /** The prefix converted line by line agrees with the whole conversion on
      the lines it covers. */
  lemma {:induction false} ConvertedPrefixAgrees(lines: seq<string>, i: nat)
    requires i <= |lines|
    ensures ConvertedPrefix(lines, i) == Converted(lines)[..i]
  {
    if i > 0 {
      ConvertedPrefixAgrees(lines, i - 1);
      assert Converted(lines)[..i] == Converted(lines)[..i - 1] + [Converted(lines)[i - 1]];
    }
  }

  /** Joining every converted line gives the mrkdwn text. */
  lemma MrkdwnFromPrefix(text: string)
    ensures var lines := Split(text, '\n'); Join("\n", ConvertedPrefix(lines, |lines|)) == Mrkdwn(text)
  {
    var lines := Split(text, '\n');
    ConvertedPrefixAgrees(lines, |lines|);
    assert Converted(lines)[..|lines|] == Converted(lines);
  }

  /** The body of the loop in `markdown_to_mrkdwn`: a fence line flips the
      code flag and is copied, a line inside a code block is copied, any
      other line is rewritten. */
  method ConvertLine(line: string, inCode: bool) returns (out: string, next: bool)
    ensures out == OutLine(line, inCode) && next == NextMode(line, inCode)
    ensures IsFenceLine(line) ==> out == line && next == !inCode
    ensures !IsFenceLine(line) ==> next == inCode && out == (if inCode then line else RewriteLine(line))
  {
    next := inCode;
    if IsFenceLine(line) {
      next := !inCode;
      out := line;
    } else if inCode {
      out := line;
    } else {
      out := RewriteLine(line);
    }
  }

  /** `markdown_to_mrkdwn`: the loop over the lines with the code flag. */
  method MarkdownToMrkdwn(text: string) returns (r: string)
    ensures r == Mrkdwn(text)
  {
    var lines := Split(text, '\n');
    var result: seq<string> := [];
    var inCode := false;
    var i := 0;
    while i < |lines|
      invariant i <= |lines|
      invariant inCode == ModeAt(lines, i)
      invariant result == ConvertedPrefix(lines, i)
    {
      var out;
      out, inCode := ConvertLine(lines[i], inCode);
      result := result + [out];
      i := i + 1;
    }
    r := Join("\n", result);
    MrkdwnFromPrefix(text);
  }

  // ---------------------------------------------------------------------
  // The posted message
  // ---------------------------------------------------------------------

  /** Python truthiness of an optional string: present and non-empty. */
  predicate Given(u: Option<string>) {
    u.Some? && u.value != ""
  }

  /** The line a link to the page adds to the preamble, if any. */
  function LinkLine(service: string, u: Option<string>): string {
    if Given(u) then service + ": <" + u.value + ">\n" else ""
  }

  /** The preamble `post_message` builds: the subject in bold, a line per
      given link, then a blank line. */
  function Preamble(subject: string, notionUrl: Option<string>, buttondownUrl: Option<string>): string {
    "*" + subject + "*\n" + LinkLine("Notion", notionUrl) + LinkLine("Buttondown", buttondownUrl) + "\n"
  }

  /** The text `post_message` sends: the preamble, then the body in mrkdwn. */
  function MessageText(subject: string, body: string, notionUrl: Option<string>, buttondownUrl: Option<string>): string {
    Preamble(subject, notionUrl, buttondownUrl) + Mrkdwn(body)
  }

  /** The lines of a link line: one line when a link is given, none
      otherwise. */
  function LinkLines(service: string, u: Option<string>): seq<string> {
    if Given(u) then [service + ": <" + u.value + ">"] else []
  }

  lemma LinkLineSplit(service: string, u: Option<string>, rest: string)
    requires '\n' !in service && (u.Some? ==> '\n' !in u.value)
    ensures Split(LinkLine(service, u) + rest, '\n') == LinkLines(service, u) + Split(rest, '\n')
  {
    if Given(u) {
      var line := service + ": <" + u.value + ">";
      assert LinkLine(service, u) + rest == line + ['\n'] + rest;
      SplitHead(line, '\n', rest);
    } else {
      assert LinkLine(service, u) + rest == rest;
    }
  }

  /** The preamble in front of any text `m`: the bold subject, the link
      lines for the links given, an empty line, then the lines of `m`. */
  lemma PreambleLines(subject: string, notionUrl: Option<string>, buttondownUrl: Option<string>, m: string)
    requires '\n' !in subject
    requires notionUrl.Some? ==> '\n' !in notionUrl.value
    requires buttondownUrl.Some? ==> '\n' !in buttondownUrl.value
    ensures Split(Preamble(subject, notionUrl, buttondownUrl) + m, '\n')
      == ["*" + subject + "*"] + LinkLines("Notion", notionUrl) + LinkLines("Buttondown", buttondownUrl)
         + [""] + Split(m, '\n')
  {
    var head := "*" + subject + "*";
    var l1, l2 := LinkLine("Notion", notionUrl), LinkLine("Buttondown", buttondownUrl);
    var tail2 := [] + ['\n'] + m;
    var tail1 := l2 + tail2;
    var tail0 := l1 + tail1;
    var a, b, c := LinkLines("Notion", notionUrl), LinkLines("Buttondown", buttondownUrl), Split(m, '\n');
    var whole := Preamble(subject, notionUrl, buttondownUrl) + m;
    assert Split(whole, '\n') == [head] + Split(tail0, '\n') by {
      PreambleShape(subject, notionUrl, buttondownUrl, m);
      SplitHead(head, '\n', tail0);
    }
    ServiceNames();
    assert Split(tail0, '\n') == a + Split(tail1, '\n') by {
      LinkLineSplit("Notion", notionUrl, tail1);
    }
    assert Split(tail1, '\n') == b + Split(tail2, '\n') by {
      LinkLineSplit("Buttondown", buttondownUrl, tail2);
    }
    assert Split(tail2, '\n') == [""] + c by {
      SplitHead([], '\n', m);
    }
    Regroup5(head, a, b, "", c);
  }

  lemma PreambleShape(subject: string, notionUrl: Option<string>, buttondownUrl: Option<string>, m: string)
    ensures Preamble(subject, notionUrl, buttondownUrl) + m
      == ("*" + subject + "*") + ['\n']
         + (LinkLine("Notion", notionUrl) + (LinkLine("Buttondown", buttondownUrl) + ([] + ['\n'] + m)))
  {
    var head := "*" + subject + "*";
    var l1, l2 := LinkLine("Notion", notionUrl), LinkLine("Buttondown", buttondownUrl);
    assert "*" + subject + "*\n" == head + ['\n'];
    assert Preamble(subject, notionUrl, buttondownUrl) == head + ['\n'] + l1 + l2 + ['\n'];
  }

  lemma ServiceNames()
    ensures '\n' !in "Notion" && '\n' !in "Buttondown"
  {
    var n, b := "Notion", "Buttondown";
    assert forall i :: 0 <= i < |n| ==> n[i] != '\n';
    assert forall i :: 0 <= i < |b| ==> b[i] != '\n';
  }

  lemma Regroup5<T>(h: T, a: seq<T>, b: seq<T>, e: T, c: seq<T>)
    ensures [h] + (a + (b + ([e] + c))) == [h] + a + b + [e] + c
  {
  }

  /** The message, line by line: the bold subject, the link lines for the
      links given, an empty line, then exactly the converted body lines. */
  lemma MessageLines(subject: string, body: string, notionUrl: Option<string>, buttondownUrl: Option<string>)
    requires '\n' !in subject
    requires notionUrl.Some? ==> '\n' !in notionUrl.value
    requires buttondownUrl.Some? ==> '\n' !in buttondownUrl.value
    ensures Split(MessageText(subject, body, notionUrl, buttondownUrl), '\n')
      == ["*" + subject + "*"] + LinkLines("Notion", notionUrl) + LinkLines("Buttondown", buttondownUrl)
         + [""] + Converted(Split(body, '\n'))
  {
    PreambleLines(subject, notionUrl, buttondownUrl, Mrkdwn(body));
    MrkdwnLineCount(body);
  }

  /** Without links the preamble is the subject and a blank line. */
  lemma MessageWithoutLinks(subject: string, body: string)
    ensures MessageText(subject, body, None, Some("")) == "*" + subject + "*\n\n" + Mrkdwn(body)
    ensures MessageText(subject, body, None, None) == "*" + subject + "*\n\n" + Mrkdwn(body)
  {
  }

  // ---------------------------------------------------------------------
  // The publisher
  // ---------------------------------------------------------------------

  /** One channel of a `conversations.list` page. */
  datatype Channel = Channel(name: string, id: string)

  /** One `conversations.list` response: its channels and the
      `response_metadata.next_cursor` it names, if any. */
  datatype Page = Page(channels: seq<Channel>, nextCursor: Option<string>)

  /** A call made through the Slack client. `cursor` is `None` when the
      request carries no cursor. */
  datatype SlackCall =
    | ChatPostMessage(channel: string, text: string)
    | CanvasesCreate(title: string, markdown: string)
    | ConversationsList(limit: nat, cursor: Option<string>)
    | ConversationsCanvasesCreate(channelId: string, title: string, markdown: string)

  const PageLimit := 200

  /** The channel a publisher posts to when none is given. */
  const DefaultChannel := "#monologue-danny"

  /** A first channel called `name` in `cs[1..]` is the first in `cs` when
      `cs[0]` has another name. */
  lemma FirstNamedShift(cs: seq<Channel>, name: string, r: Option<string>)
    requires |cs| > 0 && cs[0].name != name
    requires r.Some? ==>
      exists i :: 0 <= i < |cs[1..]| && cs[1..][i] == Channel(name, r.value) && forall j :: 0 <= j < i ==> cs[1..][j].name != name
    ensures r.Some? ==>
      exists i :: 0 <= i < |cs| && cs[i] == Channel(name, r.value) && forall j :: 0 <= j < i ==> cs[j].name != name
  {
    if r.Some? {
      var i :| 0 <= i < |cs[1..]| && cs[1..][i] == Channel(name, r.value) && forall j :: 0 <= j < i ==> cs[1..][j].name != name;
      assert cs[i + 1] == Channel(name, r.value);
      forall j | 0 <= j < i + 1 ensures cs[j].name != name {
        if j > 0 { assert cs[j] == cs[1..][j - 1]; }
      }
    }
  }

  /** The id of the first channel in `cs` called `name`. */
  function FirstNamed(cs: seq<Channel>, name: string): (r: Option<string>)
    ensures r.Some? <==> exists c :: c in cs && c.name == name
    ensures r.Some? ==> Channel(name, r.value) in cs
    ensures r.Some? ==>
      exists i :: 0 <= i < |cs| && cs[i] == Channel(name, r.value) && forall j :: 0 <= j < i ==> cs[j].name != name
  {
    if |cs| == 0 then None
    else if cs[0].name == name then Some(cs[0].id)
    else
      var r := FirstNamed(cs[1..], name);
      assert forall c :: c in cs <==> c == cs[0] || c in cs[1..];
      FirstNamedShift(cs, name, r);
      r
  }

  /** The listing stops at page `i`: a later request would need a cursor
      the page does not give. */
  predicate LastPage(p: Page) {
    !Given(p.nextCursor)
  }

  /** The listing served from page `i` on ends within the pages at hand. */
  predicate EndsFrom(pages: seq<Page>, i: nat) {
    exists j :: i <= j < |pages| && LastPage(pages[j])
  }

  /** The number of pages `_resolve_channel_id` requests from page `i` on
      before it finds `name` or runs out of cursors. */
  function PagesRead(pages: seq<Page>, name: string, i: nat): (n: nat)
    requires i <= |pages| && EndsFrom(pages, i)
    ensures i + n <= |pages| && n >= 1
    decreases |pages| - i
  {
    if FirstNamed(pages[i].channels, name).Some? || LastPage(pages[i]) then 1
    else 1 + PagesRead(pages, name, i + 1)
  }

  /** `_resolve_channel_id` from page `i` on: the id of the first channel
      called `name`, or `ValueError` once no further cursor is given. */
  function Resolve(pages: seq<Page>, name: string, channel: string, i: nat): (r: Result<string>)
    requires i <= |pages| && EndsFrom(pages, i)
    decreases |pages| - i
  {
    match FirstNamed(pages[i].channels, name)
    case Some(id) => Ok(id)
    case None =>
      if LastPage(pages[i]) then Err(ValueError("Channel not found: " + channel))
      else Resolve(pages, name, channel, i + 1)
  }

  /** The requests the lookup makes from page `i` on: the first carries the
      cursor `cursor`, each later one the cursor of the page before. */
  function ListCalls(pages: seq<Page>, name: string, i: nat, cursor: Option<string>): (r: seq<SlackCall>)
    requires i <= |pages| && EndsFrom(pages, i)
    ensures |r| == PagesRead(pages, name, i)
    decreases |pages| - i
  {
    [ConversationsList(PageLimit, cursor)]
    + if FirstNamed(pages[i].channels, name).Some? || LastPage(pages[i]) then []
      else ListCalls(pages, name, i + 1, pages[i].nextCursor)
  }

  /** A found id belongs to a channel of that name on a page that was read;
      the error means no page that was read lists the name. */
  lemma {:induction false} ResolveSound(pages: seq<Page>, name: string, channel: string, i: nat)
    requires i <= |pages| && EndsFrom(pages, i)
    ensures var r := Resolve(pages, name, channel, i); var n := PagesRead(pages, name, i);
      && (r.Ok? ==> exists j :: i <= j < i + n && Channel(name, r.value) in pages[j].channels)
      && (r.Err? ==> r.error == ValueError("Channel not found: " + channel)
                     && forall j, c :: i <= j < i + n && c in pages[j].channels ==> c.name != name)
      && (r.Err? ==> LastPage(pages[i + n - 1]))
    decreases |pages| - i
  {
    if FirstNamed(pages[i].channels, name).None? && !LastPage(pages[i]) {
      assert EndsFrom(pages, i + 1);
      ResolveSound(pages, name, channel, i + 1);
    }
  }

  /** The earliest page listing the name decides the id: every page before
      it was read and went on to the next. */
  lemma {:induction false} ResolveFirst(pages: seq<Page>, name: string, channel: string, i: nat, j: nat)
    requires i <= j < |pages| && EndsFrom(pages, i)
    requires forall k :: i <= k < j ==> FirstNamed(pages[k].channels, name).None? && !LastPage(pages[k])
    requires FirstNamed(pages[j].channels, name).Some?
    ensures Resolve(pages, name, channel, i) == Ok(FirstNamed(pages[j].channels, name).value)
    ensures PagesRead(pages, name, i) == j - i + 1
    decreases j - i
  {
    if i < j {
      assert EndsFrom(pages, i + 1) by {
        var e :| i <= e < |pages| && LastPage(pages[e]);
        assert e != i;
      }
      ResolveFirst(pages, name, channel, i + 1, j);
    }
  }

  /** A leading `#` does not change the name looked up: `#general` and
      `general` find the same channel. */
  lemma HashIgnored(channel: string)
    ensures LStripChars("#" + channel, {'#'}) == LStripChars(channel, {'#'})
  {
    SkipShift('#', channel, 0, {'#'});
    assert ("#" + channel)[1 + SkipChars(channel, 0, {'#'})..] == channel[SkipChars(channel, 0, {'#'})..];
  }

  lemma {:induction false} SkipShift(c: char, s: string, i: nat, chars: set<char>)
    requires i <= |s| && c in chars
    ensures SkipChars([c] + s, i + 1, chars) == 1 + SkipChars(s, i, chars)
    ensures SkipChars([c] + s, 0, chars) == SkipChars([c] + s, 1, chars)
    decreases |s| - i
  {
    var t := [c] + s;
    assert t[0] == c;
    if i < |s| {
      assert t[i + 1] == s[i];
      if s[i] in chars {
        SkipShift(c, s, i + 1, chars);
      }
    }
  }

  /** The Slack client of `SlackPublisher`, reduced to the log of the calls
      made through it and the channel it posts to. */
  class SlackPublisher {
    const token: string
    const channel: string
    var calls: seq<SlackCall>

    /** `SlackPublisher(token, channel)` */
    constructor(token: string, channel: string)
      ensures this.token == token && this.channel == channel && calls == []
    {
      this.token := token;
      this.channel := channel;
      calls := [];
    }

    /** `SlackPublisher(token)`: the channel defaults to `#monologue-danny`. */
    constructor WithDefaultChannel(token: string)
      ensures this.token == token && this.channel == DefaultChannel && calls == []
    {
      this.token := token;
      this.channel := DefaultChannel;
      calls := [];
    }

    /** `post_message`: one `chat.postMessage` to the channel with the
        message text. */
    method PostMessage(subject: string, body: string, notionUrl: Option<string>, buttondownUrl: Option<string>)
      modifies this
      ensures calls == old(calls) + [ChatPostMessage(channel, MessageText(subject, body, notionUrl, buttondownUrl))]
    {
      var head := "*" + subject + "*\n";
      var preamble := head;
      if Given(notionUrl) {
        preamble := preamble + "Notion: <" + notionUrl.value + ">\n";
      }
      assert preamble == head + LinkLine("Notion", notionUrl);
      ghost var first := preamble;
      if Given(buttondownUrl) {
        preamble := preamble + "Buttondown: <" + buttondownUrl.value + ">\n";
      }
      assert preamble == first + LinkLine("Buttondown", buttondownUrl);
      preamble := preamble + "\n";
      var converted := MarkdownToMrkdwn(body);
      calls := calls + [ChatPostMessage(channel, preamble + converted)];
    }

    /** `create_canvas`: a canvas holding the body as markdown. */
    method CreateCanvas(title: string, body: string)
      modifies this
      ensures calls == old(calls) + [CanvasesCreate(title, body)]
    {
      calls := calls + [CanvasesCreate(title, body)];
    }

    /** `_resolve_channel_id`: `pages[k]` is the response to the `k`-th
        `conversations.list` request. */
    method ResolveChannelId(pages: seq<Page>) returns (r: Result<string>)
      requires EndsFrom(pages, 0)
      modifies this
      ensures r == Resolve(pages, LStripChars(channel, {'#'}), channel, 0)
      ensures calls == old(calls) + ListCalls(pages, LStripChars(channel, {'#'}), 0, None)
    {
      var name := LStripChars(channel, {'#'});
      var cursor: Option<string> := None;
      var i := 0;
      while true
        invariant i < |pages| && EndsFrom(pages, i)
        invariant cursor.None? || Given(cursor)
        invariant Resolve(pages, name, channel, 0) == Resolve(pages, name, channel, i)
        invariant old(calls) + ListCalls(pages, name, 0, None) == calls + ListCalls(pages, name, i, cursor)
        decreases |pages| - i
      {
        var request := if Given(cursor) then cursor else None;
        ghost var rest := if FirstNamed(pages[i].channels, name).Some? || LastPage(pages[i]) then []
          else ListCalls(pages, name, i + 1, pages[i].nextCursor);
        assert ListCalls(pages, name, i, cursor) == [ConversationsList(PageLimit, request)] + rest;
        Regroup(calls, [ConversationsList(PageLimit, request)], rest);
        calls := calls + [ConversationsList(PageLimit, request)];
        var found := FindChannel(pages[i].channels, name);
        if found.Some? {
          return Ok(found.value);
        }
        cursor := pages[i].nextCursor;
        if !Given(cursor) {
          assert rest == [] && calls == old(calls) + ListCalls(pages, name, 0, None);
          assert Resolve(pages, name, channel, i) == Err(ValueError("Channel not found: " + channel));
          return Err(ValueError("Channel not found: " + channel));
        }
        assert EndsFrom(pages, i + 1) by {
          var e :| i <= e < |pages| && LastPage(pages[e]);
          assert e != i;
        }
        i := i + 1;
      }
    }

    /** `post_canvas`: resolve the channel, then create a canvas in it. */
    method PostCanvas(pages: seq<Page>, title: string, body: string) returns (r: Result<string>)
      requires EndsFrom(pages, 0)
      modifies this
      ensures r == Resolve(pages, LStripChars(channel, {'#'}), channel, 0)
      ensures calls == old(calls) + ListCalls(pages, LStripChars(channel, {'#'}), 0, None)
        + if r.Ok? then [ConversationsCanvasesCreate(r.value, title, body)] else []
    {
      r := ResolveChannelId(pages);
      if r.Ok? {
        calls := calls + [ConversationsCanvasesCreate(r.value, title, body)];
      }
    }
  }

  /** The `for ch in resp["channels"]` loop. */
  method FindChannel(cs: seq<Channel>, name: string) returns (r: Option<string>)
    ensures r == FirstNamed(cs, name)
  {
    var j := 0;
    while j < |cs|
      invariant j <= |cs|
      invariant FirstNamed(cs, name) == FirstNamed(cs[j..], name)
    {
      if cs[j].name == name {
        return Some(cs[j].id);
      }
      assert cs[j..][1..] == cs[j + 1..];
      j := j + 1;
    }
    return None;
  }
}

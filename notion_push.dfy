/** Markdown to Notion blocks (src/monologue_tools/notion_push.py): the
    inline tokenizer, the line-consuming block converter, the batching of
    page creation and appends, and page-id extraction from a page URL. */
module NotionPush {
  import opened Base
  import opened Text
  import IP = InlinePatterns

  /** The Notion API accepts at most this many children per call. */
  const BatchSize: nat := 100

  // ---------------------------------------------------------------------
  // Inline tokenizer: parse_rich_text
  // ---------------------------------------------------------------------

  datatype Style = Plain | Bold | Code | Italic | Link(url: string)

  /** One element of a Notion `rich_text` array: its text content and the
      single annotation (or link) it carries. */
  datatype Span = Span(content: string, style: Style)

  /** The alternation `\*\*(.+?)\*\*|`(.+?)`|\[([^\]]+)\]\(([^)]+)\)|\*(.+?)\*|_(.+?)_`
      at one position: the alternatives are tried in this order and the
      first that matches wins. */
  function MatchAt(t: string, s: nat): (r: Option<IP.Hit>)
    ensures r.Some? ==> s + 1 < r.value.end <= |t| && |r.value.content| > 0
  {
    var bold := IP.DelimitedAt(t, s, "**", IP.Bold);
    if bold.Some? then bold
    else
      var code := IP.DelimitedAt(t, s, "`", IP.Code);
      if code.Some? then code
      else
        var link := IP.LinkAt(t, s);
        if link.Some? then link
        else
          var star := IP.DelimitedAt(t, s, "*", IP.StarItalic);
          if star.Some? then star
          else IP.DelimitedAt(t, s, "_", IP.UnderscoreItalic)
  }

  /** The span a match emits: bold, code, link, or italic for either marker. */
  function SpanOf(h: IP.Hit): (r: Span)
    ensures r.content == h.content
    ensures !r.style.Plain?
  {
    match h.kind
    case Bold => Span(h.content, Bold)
    case Code => Span(h.content, Code)
    case Link => Span(h.content, Link(h.url))
    case StarItalic => Span(h.content, Italic)
    case UnderscoreItalic => Span(h.content, Italic)
  }

  /** The next match of `finditer` from `pos`: the leftmost position at or
      after `pos` where the alternation matches. */
  function NextMatch(t: string, pos: nat): (r: Option<(nat, IP.Hit)>)
    ensures r.Some? ==> pos <= r.value.0 && MatchAt(t, r.value.0) == Some(r.value.1)
    ensures r.Some? ==> forall k :: pos <= k < r.value.0 ==> MatchAt(t, k).None?
    ensures r.None? ==> forall k :: pos <= k ==> MatchAt(t, k).None?
    decreases |t| - pos
  {
    if pos >= |t| then None
    else
      match MatchAt(t, pos)
      case Some(h) => Some((pos, h))
      case None => NextMatch(t, pos + 1)
  }

  /** The spans produced from `t[pos..]`: the gap before the next match as
      a plain span (when not empty), the match's span, and so on; the text
      after the last match as a final plain span. */
  function TokensFrom(t: string, pos: nat): seq<Span>
    requires pos <= |t|
    decreases |t| - pos
  {
    match NextMatch(t, pos)
    case None => if pos < |t| then [Span(t[pos..], Plain)] else []
    case Some((s, h)) =>
      (if s > pos then [Span(t[pos..s], Plain)] else []) + [SpanOf(h)] + TokensFrom(t, h.end)
  }

  /** What `parse_rich_text(t)` returns. */
  function Tokenize(t: string): seq<Span> {
    TokensFrom(t, 0)
  }

  /** `parse_rich_text`: scans `text` left to right, appending the plain gap
      before each match, then the match's span. */
  method ParseRichText(text: string) returns (result: seq<Span>)
    ensures result == Tokenize(text)
    ensures text == "" ==> result == []
  {
    if |text| == 0 {
      return [];
    }
    result := [];
    var pos := 0;
    var m := NextMatch(text, pos);
    while m.Some?
      invariant pos <= |text|
      invariant m == NextMatch(text, pos)
      invariant result + TokensFrom(text, pos) == Tokenize(text)
      decreases |text| - pos
    {
      var (start, hit) := m.value;
      TokensFromMatch(text, pos);
      ghost var prev := result;
      ghost var gap: seq<Span> := if start > pos then [Span(text[pos..start], Plain)] else [];
      if start > pos {
        result := result + [Span(text[pos..start], Plain)];
      }
      assert result == prev + gap;
      result := result + [SpanOf(hit)];
      Append3(prev, gap, SpanOf(hit), TokensFrom(text, hit.end));
      pos := hit.end;
      m := NextMatch(text, pos);
    }
    TokensFromNoMatch(text, pos);
    if pos < |text| {
      result := result + [Span(text[pos..], Plain)];
    }
  }

  lemma Append3<T>(p: seq<T>, g: seq<T>, x: T, t: seq<T>)
    ensures p + g + [x] + t == p + (g + [x] + t)
  {
  }

  /** One step of `TokensFrom` when a match follows. */
  lemma TokensFromMatch(t: string, pos: nat)
    requires pos <= |t| && NextMatch(t, pos).Some?
    ensures var (s, h) := NextMatch(t, pos).value;
      TokensFrom(t, pos) == (if s > pos then [Span(t[pos..s], Plain)] else []) + [SpanOf(h)] + TokensFrom(t, h.end)
  {
  }

  /** The last step of `TokensFrom`, when no match follows. */
  lemma TokensFromNoMatch(t: string, pos: nat)
    requires pos <= |t| && NextMatch(t, pos).None?
    ensures TokensFrom(t, pos) == if pos < |t| then [Span(t[pos..], Plain)] else []
  {
  }

  /** Every span has text, and no two plain spans are adjacent. */
  predicate WellFormedSpans(r: seq<Span>) {
    && (forall i :: 0 <= i < |r| ==> |r[i].content| > 0)
    && (forall i :: 0 <= i < |r| - 1 ==> !(r[i].style.Plain? && r[i + 1].style.Plain?))
  }

  lemma {:induction false} TokensWellFormed(t: string, pos: nat)
    requires pos <= |t|
    ensures WellFormedSpans(TokensFrom(t, pos))
    decreases |t| - pos
  {
    var m := NextMatch(t, pos);
    if m.None? {
      TokensFromNoMatch(t, pos);
    } else {
      var (s, h) := m.value;
      TokensFromMatch(t, pos);
      TokensWellFormed(t, h.end);
      var gap: seq<Span> := if s > pos then [Span(t[pos..s], Plain)] else [];
      WellFormedGlue(gap, SpanOf(h), TokensFrom(t, h.end));
    }
  }

  /** A plain gap, a styled span and a well-formed tail are well formed together. */
  lemma WellFormedGlue(gap: seq<Span>, x: Span, rest: seq<Span>)
    requires |gap| <= 1 && (forall i :: 0 <= i < |gap| ==> |gap[i].content| > 0)
    requires |x.content| > 0 && !x.style.Plain?
    requires WellFormedSpans(rest)
    ensures WellFormedSpans(gap + [x] + rest)
  {
    var r := gap + [x] + rest;
    forall i | 0 <= i < |r| - 1
      ensures !(r[i].style.Plain? && r[i + 1].style.Plain?)
    {
      if i >= |gap| + 1 {
        assert r[i] == rest[i - |gap| - 1] && r[i + 1] == rest[i - |gap|];
      } else if i == |gap| {
        assert r[i] == x;
      } else {
        assert r[i + 1] == x;
      }
    }
    forall i | 0 <= i < |r|
      ensures |r[i].content| > 0
    {
      if i > |gap| {
        assert r[i] == rest[i - |gap| - 1];
      }
    }
  }

  /** The tokenizer's output is well formed for every input. */
  lemma TokenizeWellFormed(t: string)
    ensures WellFormedSpans(Tokenize(t))
  {
    TokensWellFormed(t, 0);
  }

  /** Text with none of the marker characters is one plain span. */
  lemma {:induction false} NoMarkersIsPlain(t: string, pos: nat)
    requires pos < |t|
    requires forall i :: 0 <= i < |t| ==> t[i] !in "*`[_"
    ensures TokensFrom(t, pos) == [Span(t[pos..], Plain)]
  {
    assert NextMatch(t, pos).None? by { NoMatchWithoutMarkers(t, pos); }
  }

  lemma {:induction false} NoMatchWithoutMarkers(t: string, pos: nat)
    requires forall i :: 0 <= i < |t| ==> t[i] !in "*`[_"
    ensures NextMatch(t, pos).None?
    decreases |t| - pos
  {
    if pos < |t| {
      NoMatchAt(t, pos);
      NoMatchWithoutMarkers(t, pos + 1);
    }
  }

  /** No alternative matches at a character that opens none of them. */
  lemma NoMatchAt(t: string, pos: nat)
    requires pos < |t| && t[pos] !in "*`[_"
    ensures MatchAt(t, pos).None?
  {
    assert forall d: string :: |d| > 0 && pos + |d| <= |t| ==> t[pos..pos + |d|][0] == t[pos];
    assert !OccursAt(t, "**", pos) && !OccursAt(t, "`", pos) && !OccursAt(t, "*", pos) && !OccursAt(t, "_", pos);
  }

  /** Bold is tried before italic: `**x**` is one bold span, never an
      italic span around `*x*`. */
  lemma BoldBeforeItalic(x: string)
    requires |x| > 0 && '*' !in x && '\n' !in x
    ensures Tokenize("**" + x + "**") == [Span(x, Bold)]
  {
    var t := "**" + x + "**";
    var k := |x| + 2;
    assert t[..2] == "**";
    assert OccursAt(t, "**", 0);
    assert t[2] == x[0];
    assert forall j :: 3 <= j < k ==> t[j] == x[j - 2];
    assert t[k..k + 2] == "**";
    assert OccursAt(t, "**", k);
    LazyCloseSkips(t, 3, k, "**");
    assert t[2..k] == x;
    var h := IP.Hit(IP.Bold, x, "", k + 2);
    assert IP.DelimitedAt(t, 0, "**", IP.Bold) == Some(h);
    assert MatchAt(t, 0) == Some(h);
    assert NextMatch(t, 0) == Some((0, h));
    TokensFromMatch(t, 0);
    assert NextMatch(t, k + 2).None?;
    TokensFromNoMatch(t, k + 2);
  }

  /** A lazy group over a run without newlines and without the close
      delimiter's first character stops exactly at the delimiter. */
  lemma {:induction false} LazyCloseSkips(t: string, k: nat, e: nat, close: string)
    requires k <= e <= |t| && |close| > 0
    requires OccursAt(t, close, e)
    requires forall j :: k <= j < e ==> t[j] != '\n' && t[j] != close[0]
    ensures IP.LazyClose(t, k, close) == Some(e)
    decreases e - k
  {
    if k < e {
      assert t[k..k + |close|][0] == t[k];
      LazyCloseSkips(t, k + 1, e, close);
    }
  }

  // ---------------------------------------------------------------------
  // Block converter: markdown_to_notion_blocks
  // ---------------------------------------------------------------------

  /** The Notion block types that carry a `rich_text` array. */
  datatype BlockType = Heading2 | Heading3 | Quote | BulletedListItem | NumberedListItem | Paragraph

  datatype Block =
    | TextBlock(blockType: BlockType, richText: seq<Span>)
    /** A code block's single span holds its text verbatim, untokenized. */
    | CodeBlock(language: string, code: string)
    | Divider

  /** What one line opens, according to the converter's chain of tests. */
  datatype LineKind =
    | Skip
    | TextLine(blockType: BlockType, text: string)
    | DividerLine
    | FenceOpen(language: string)
    | ParagraphStart

  /** `not line.strip()`: the line is all whitespace (see `Text.StripEmpty`). */
  predicate IsBlank(line: string) {
    AllSpace(line)
  }

  predicate IsTitleLine(line: string) {
    StartsWith(line, "# ") && !StartsWith(line, "## ")
  }

  /** `re.match(r"^[-*] ", line)` */
  predicate IsBulletLine(line: string) {
    |line| >= 2 && (line[0] == '-' || line[0] == '*') && line[1] == ' '
  }

  /** The end of the run of digits starting at `i`. */
  function DigitsFrom(s: string, i: nat): (r: nat)
    requires i <= |s|
    ensures i <= r <= |s|
    ensures forall k :: i <= k < r ==> IsDigit(s[k])
    ensures r == |s| || !IsDigit(s[r])
    decreases |s| - i
  {
    if i < |s| && IsDigit(s[i]) then DigitsFrom(s, i + 1) else i
  }

  /** The length of the run of digits `s` starts with. */
  function LeadingDigits(s: string): (r: nat)
    ensures r <= |s|
  {
    DigitsFrom(s, 0)
  }

  /** `\d+\. ` at the start of `line`. */
  predicate HasNumberPrefix(line: string) {
    var n := LeadingDigits(line);
    n >= 1 && n + 2 <= |line| && line[n] == '.' && line[n + 1] == ' '
  }

  /** Group 1 of `re.match(r"^\d+\. (.+)", line)`: the text after the
      number prefix up to the first newline, when there is some. */
  function NumberedItemText(line: string): (r: Option<string>)
    ensures r.Some? ==> HasNumberPrefix(line) && |r.value| > 0 && '\n' !in r.value
    ensures r.Some? ==> var k := LeadingDigits(line) + 2;
      k + |r.value| <= |line| && r.value == line[k..k + |r.value|]
  {
    if HasNumberPrefix(line) then
      var k := LeadingDigits(line) + 2;
      var e := match IP.FirstFrom(line, k, '\n') case Some(e) => e case None => |line|;
      if e > k then
        assert forall j :: 0 <= j < e - k ==> line[k..e][j] == line[k + j];
        Some(line[k..e])
      else None
    else None
  }

  /** `line[3:].strip() or "plain text"` */
  function CodeLanguage(line: string): (r: string)
    requires |line| >= 3
    ensures r != []
  {
    var lang := Strip(line[3..]);
    if lang == "" then "plain text" else lang
  }

  /** The converter's tests on a line, in the order it makes them. */
  function Classify(line: string): LineKind {
    if IsBlank(line) then Skip
    else if IsTitleLine(line) then Skip
    else if StartsWith(line, "## ") then TextLine(Heading2, Strip(line[3..]))
    else if StartsWith(line, "### ") then TextLine(Heading3, Strip(line[4..]))
    else if IsFence(line) then FenceOpen(CodeLanguage(line))
    else if Strip(line) in {"---", "***", "___"} then DividerLine
    else if StartsWith(line, "> ") then TextLine(Quote, Strip(line[2..]))
    else if IsBulletLine(line) then TextLine(BulletedListItem, Strip(line[2..]))
    else
      match NumberedItemText(line)
      case Some(t) => TextLine(NumberedListItem, Strip(t))
      case None => ParagraphStart
  }

  /** `---$`, `___$` or `\*\*\*$`: the rule alone, or followed by one final newline. */
  predicate IsRuleLine(line: string, rule: string) {
    line == rule || line == rule + "\n"
  }

  /** `re.match(r"^(#{1,3} |[-*] |\d+\. |```|> |---$|___$|\*\*\*$)", line)`:
      a line that ends the paragraph before it. */
  predicate BreaksParagraph(line: string) {
    || StartsWith(line, "# ") || StartsWith(line, "## ") || StartsWith(line, "### ")
    || IsBulletLine(line)
    || HasNumberPrefix(line)
    || IsFence(line)
    || StartsWith(line, "> ")
    || IsRuleLine(line, "---") || IsRuleLine(line, "___") || IsRuleLine(line, "***")
  }

  predicate EndsParagraph(line: string) {
    IsBlank(line) || BreaksParagraph(line)
  }

  /** A line that opens or closes a fenced block. */
  predicate IsFence(line: string) {
    StartsWith(line, "```")
  }

  /** The index of the closing fence: the first line at or after `i` that
      starts with three backticks, or the end of the input. */
  function FenceEnd(lines: seq<string>, i: nat): (r: nat)
    requires i <= |lines|
    ensures i <= r <= |lines|
    decreases |lines| - i
  {
    if i == |lines| || IsFence(lines[i]) then i else FenceEnd(lines, i + 1)
  }

  /** The index of the line that ends a paragraph continued from `i`. */
  function ParagraphEnd(lines: seq<string>, i: nat): (r: nat)
    requires i <= |lines|
    ensures i <= r <= |lines|
    decreases |lines| - i
  {
    if i == |lines| || EndsParagraph(lines[i]) then i else ParagraphEnd(lines, i + 1)
  }

  /** The blocks produced from `lines[i..]`. */
  function BlocksFrom(lines: seq<string>, i: nat): seq<Block>
    decreases |lines| + 1 - i
  {
    if i >= |lines| then []
    else
      var (emitted, next) := Step(lines, i);
      emitted + BlocksFrom(lines, next)
  }

  /** What `markdown_to_notion_blocks(markdown)` returns. */
  function Blocks(markdown: string): seq<Block> {
    BlocksFrom(Split(markdown, '\n'), 0)
  }

  /** `markdown_to_notion_blocks`: walks the lines with an index, a nested
      loop collecting a fenced block's lines and another collecting a
      paragraph's continuation lines. */
  method MarkdownToNotionBlocks(markdown: string) returns (blocks: seq<Block>)
    ensures blocks == Blocks(markdown)
  {
    var lines := Split(markdown, '\n');
    blocks := [];
    var i := 0;
    while i < |lines|
      invariant i <= |lines| + 1
      invariant blocks + BlocksFrom(lines, i) == BlocksFrom(lines, 0)
      decreases |lines| + 1 - i
    {
      var emitted, next := ConvertAt(lines, i);
      blocks := blocks + emitted;
      i := next;
    }
  }

  /** One pass of the outer loop: the tests on `lines[i]` and the blocks
      they append. */
  method ConvertAt(lines: seq<string>, i: nat) returns (emitted: seq<Block>, next: nat)
    requires i < |lines|
    ensures (emitted, next) == Step(lines, i)
  {
    match Classify(lines[i])
    case Skip =>
      emitted, next := [], i + 1;
    case TextLine(ty, text) =>
      var rich := ParseRichText(text);
      emitted, next := [TextBlock(ty, rich)], i + 1;
    case DividerLine =>
      emitted, next := [Divider], i + 1;
    case FenceOpen(lang) =>
      emitted, next := ConvertFence(lines, i, lang);
    case ParagraphStart =>
      emitted, next := ConvertParagraph(lines, i);
  }

  method ConvertFence(lines: seq<string>, i: nat, lang: string) returns (emitted: seq<Block>, next: nat)
    requires i < |lines|
    ensures (emitted, next) == FenceStep(lines, i, lang)
  {
    var codeLines, close := CollectFence(lines, i + 1);
    emitted, next := [CodeBlock(lang, Join("\n", codeLines))], close + 1;
  }

  method ConvertParagraph(lines: seq<string>, i: nat) returns (emitted: seq<Block>, next: nat)
    requires i < |lines|
    ensures (emitted, next) == ParagraphStep(lines, i)
  {
    var paraLines, end := CollectParagraph(lines, i);
    var rich := ParseRichText(Join(" ", paraLines));
    emitted, next := [TextBlock(Paragraph, rich)], end;
  }

  /** What the line at `i` emits, and where the walk resumes after it. */
  function Step(lines: seq<string>, i: nat): (r: (seq<Block>, nat))
    requires i < |lines|
    ensures i < r.1 <= |lines| + 1
  {
    match Classify(lines[i])
    case Skip => ([], i + 1)
    case TextLine(ty, text) => ([TextBlock(ty, Tokenize(text))], i + 1)
    case DividerLine => ([Divider], i + 1)
    case FenceOpen(lang) => FenceStep(lines, i, lang)
    case ParagraphStart => ParagraphStep(lines, i)
  }

  /** A fenced block: the lines after the opening fence up to the closing
      one (or the end), joined with newlines; the walk resumes after the
      closing fence. */
  function FenceStep(lines: seq<string>, i: nat, lang: string): (r: (seq<Block>, nat))
    requires i < |lines|
    ensures i < r.1 <= |lines| + 1
  {
    var j := FenceEnd(lines, i + 1);
    ([CodeBlock(lang, Join("\n", lines[i + 1..j]))], j + 1)
  }

  /** A paragraph: the opening line and its continuation lines joined with
      spaces; the walk resumes at the line that ended it. */
  function ParagraphStep(lines: seq<string>, i: nat): (r: (seq<Block>, nat))
    requires i < |lines|
    ensures i < r.1 <= |lines|
  {
    var j := ParagraphEnd(lines, i + 1);
    ([TextBlock(Paragraph, Tokenize(Join(" ", lines[i..j])))], j)
  }

  /** The inner loop of a fenced block: the lines up to the closing fence. */
  method CollectFence(lines: seq<string>, from: nat) returns (codeLines: seq<string>, i: nat)
    requires from <= |lines|
    ensures i == FenceEnd(lines, from)
    ensures codeLines == lines[from..i]
  {
    codeLines := [];
    i := from;
    while i < |lines| && !IsFence(lines[i])
      invariant from <= i <= |lines|
      invariant codeLines == lines[from..i]
      invariant FenceEnd(lines, i) == FenceEnd(lines, from)
    {
      codeLines := codeLines + [lines[i]];
      i := i + 1;
    }
  }

  /** The inner loop of a paragraph: the opening line and the lines after
      it up to the first blank or paragraph-breaking one. */
  method CollectParagraph(lines: seq<string>, start: nat) returns (paraLines: seq<string>, i: nat)
    requires start < |lines|
    ensures i == ParagraphEnd(lines, start + 1)
    ensures paraLines == lines[start..i]
  {
    paraLines, i := CollectParagraphLoop(lines, start);
    ParagraphEndIs(lines, start + 1, i);
  }

  method CollectParagraphLoop(lines: seq<string>, start: nat) returns (paraLines: seq<string>, i: nat)
    requires start < |lines|
    ensures start + 1 <= i <= |lines|
    ensures i < |lines| ==> EndsParagraph(lines[i])
    ensures forall k :: start + 1 <= k < i ==> !EndsParagraph(lines[k])
    ensures paraLines == lines[start..i]
  {
    paraLines := [lines[start]];
    i := start + 1;
    while i < |lines| && !EndsParagraph(lines[i])
      invariant start + 1 <= i <= |lines|
      invariant paraLines == lines[start..i]
      invariant forall k :: start + 1 <= k < i ==> !EndsParagraph(lines[k])
    {
      paraLines := paraLines + [lines[i]];
      i := i + 1;
    }
  }

  /** Any index with the defining properties of `ParagraphEnd` is it. */
  lemma {:induction false} ParagraphEndIs(lines: seq<string>, from: nat, j: nat)
    requires from <= j <= |lines|
    requires j < |lines| ==> EndsParagraph(lines[j])
    requires forall k :: from <= k < j ==> !EndsParagraph(lines[k])
    ensures ParagraphEnd(lines, from) == j
    decreases j - from
  {
    if from < j {
      assert !EndsParagraph(lines[from]);
      ParagraphEndIs(lines, from + 1, j);
    }
  }

  // Properties of the block converter

  /** Blank lines and `# ` title lines produce no block. */
  lemma {:induction false} SkippedLinesNoBlocks(lines: seq<string>, i: nat)
    requires forall k :: i <= k < |lines| ==> IsBlank(lines[k]) || IsTitleLine(lines[k])
    ensures BlocksFrom(lines, i) == []
    decreases |lines| - i
  {
    if i < |lines| {
      assert Classify(lines[i]) == Skip;
      SkippedLinesNoBlocks(lines, i + 1);
    }
  }

  /** Every block consumes at least one line. */
  lemma {:induction false} BlockCountBound(lines: seq<string>, i: nat)
    requires i <= |lines|
    ensures |BlocksFrom(lines, i)| <= |lines| - i
    decreases |lines| - i
  {
    if i < |lines| {
      var (emitted, next) := Step(lines, i);
      assert |emitted| <= 1;
      if next <= |lines| {
        BlockCountBound(lines, next);
      }
    }
  }

  /** Any line that starts with three backticks opens a code block. */
  lemma FenceLineOpensCode(line: string)
    requires IsFence(line)
    ensures Classify(line) == FenceOpen(CodeLanguage(line))
  {
    assert line[..3] == "```";
    assert line[0] == '`';
    StripNonSpaceHead(line);
    assert !IsBlank(line);
    assert line[..2][0] == '`' && line[..3][0] == '`' && (|line| < 4 || line[..4][0] == '`');
    assert !IsTitleLine(line) && !StartsWith(line, "## ") && !StartsWith(line, "### ");
  }

  /** A closed fence: the code is the lines strictly between the two
      fences, joined with newlines, exactly as written; conversion goes on
      after the closing fence. */
  lemma {:induction false} FenceClosed(lines: seq<string>, i: nat, j: nat)
    requires i < j < |lines|
    requires IsFence(lines[i]) && IsFence(lines[j])
    requires forall k :: i < k < j ==> !IsFence(lines[k])
    ensures Step(lines, i) == ([CodeBlock(CodeLanguage(lines[i]), Join("\n", lines[i + 1..j]))], j + 1)
  {
    FenceLineOpensCode(lines[i]);
    FenceEndIs(lines, i + 1, j);
  }

  /** An unclosed fence consumes every remaining line. */
  lemma {:induction false} FenceUnclosed(lines: seq<string>, i: nat)
    requires i < |lines| && IsFence(lines[i])
    requires forall k :: i < k < |lines| ==> !IsFence(lines[k])
    ensures BlocksFrom(lines, i) == [CodeBlock(CodeLanguage(lines[i]), Join("\n", lines[i + 1..]))]
  {
    FenceLineOpensCode(lines[i]);
    FenceEndIs(lines, i + 1, |lines|);
    assert lines[i + 1..|lines|] == lines[i + 1..];
    assert Step(lines, i) == ([CodeBlock(CodeLanguage(lines[i]), Join("\n", lines[i + 1..]))], |lines| + 1);
  }

  /** Any index with the defining properties of `FenceEnd` is it. */
  lemma {:induction false} FenceEndIs(lines: seq<string>, from: nat, j: nat)
    requires from <= j <= |lines|
    requires j < |lines| ==> IsFence(lines[j])
    requires forall k :: from <= k < j ==> !IsFence(lines[k])
    ensures FenceEnd(lines, from) == j
    decreases j - from
  {
    if from < j {
      assert !IsFence(lines[from]);
      FenceEndIs(lines, from + 1, j);
    }
  }

  /** The language of a code block is the trimmed text after the backticks
      or, when there is none, `plain text`. */
  lemma CodeLanguageIs(line: string)
    requires IsFence(line)
    ensures CodeLanguage(line) == Strip(line[3..]) || (Strip(line[3..]) == "" && CodeLanguage(line) == "plain text")
    ensures Strip(line[3..]) != "" ==> CodeLanguage(line) == Strip(line[3..])
  {
  }

  /** A paragraph is its opening line and the following lines up to the
      first blank or paragraph-breaking one, joined with single spaces. */
  lemma ParagraphSpan(lines: seq<string>, i: nat, j: nat)
    requires i < j <= |lines|
    requires Classify(lines[i]) == ParagraphStart
    requires forall k :: i < k < j ==> !EndsParagraph(lines[k])
    requires j < |lines| ==> EndsParagraph(lines[j])
    ensures Step(lines, i) == ([TextBlock(Paragraph, Tokenize(Join(" ", lines[i..j])))], j)
  {
    ParagraphEndIs(lines, i + 1, j);
  }

  /** Headings, quotes, list items and fences always end a paragraph in
      progress: none is folded into the paragraph above it. */
  lemma BlockLinesBreakParagraphs(line: string)
    requires Classify(line).TextLine? || Classify(line).FenceOpen?
    ensures BreaksParagraph(line)
  {
  }

  /** A divider written with surrounding spaces is a divider on its own,
      but does not end a paragraph: `---$` is tested on the raw line. */
  lemma IndentedRuleJoinsParagraph()
    ensures Classify(" ---") == DividerLine
    ensures !EndsParagraph(" ---")
  {
    var line := " ---";
    assert !IsSpace('-');
    assert SkipSpace(line, 0) == 1;
    assert BackSpace(line, 4) == 4;
    assert Strip(line) == "---";
    assert line[..2] == " -" && line[..3] == " --" && line[..4] == line;
    assert !IsTitleLine(line) && !StartsWith(line, "## ") && !StartsWith(line, "### ") && !IsFence(line);
    assert Strip(line) in {"---", "***", "___"};
    assert !IsBulletLine(line) && !HasNumberPrefix(line);
    assert !IsRuleLine(line, "---") && !IsRuleLine(line, "___") && !IsRuleLine(line, "***");
  }

  /** Every text block's spans are well formed. */
  lemma {:induction false} BlocksWellFormed(lines: seq<string>, i: nat)
    ensures forall k :: 0 <= k < |BlocksFrom(lines, i)| && BlocksFrom(lines, i)[k].TextBlock?
              ==> WellFormedSpans(BlocksFrom(lines, i)[k].richText)
    decreases |lines| + 1 - i
  {
    if i < |lines| {
      var (emitted, next) := Step(lines, i);
      BlocksWellFormed(lines, next);
      match Classify(lines[i])
      case TextLine(ty, text) => TokenizeWellFormed(text);
      case ParagraphStart => TokenizeWellFormed(Join(" ", lines[i..ParagraphEnd(lines, i + 1)]));
      case _ =>
      var r := BlocksFrom(lines, i);
      assert r == emitted + BlocksFrom(lines, next);
      forall k | 0 <= k < |r| && r[k].TextBlock?
        ensures WellFormedSpans(r[k].richText)
      {
        if k >= |emitted| {
          assert r[k] == BlocksFrom(lines, next)[k - |emitted|];
        }
      }
    }
  }

  // ---------------------------------------------------------------------
  // Batching of page creation and appends
  // ---------------------------------------------------------------------

  function Min(a: nat, b: nat): nat {
    if a <= b then a else b
  }

  /** The batches `while remaining: batch = remaining[:n]; remaining = remaining[n:]`
      cuts `s` into. */
  function Chunks<T>(s: seq<T>, n: nat): seq<seq<T>>
    requires n > 0
    decreases |s|
  {
    if |s| == 0 then [] else [s[..Min(n, |s|)]] + Chunks(s[Min(n, |s|)..], n)
  }

  function Flatten<T>(ss: seq<seq<T>>): seq<T> {
    if |ss| == 0 then [] else ss[0] + Flatten(ss[1..])
  }

  /** The batches hold every element once, in order. */
  lemma {:induction false} ChunksFlatten<T>(s: seq<T>, n: nat)
    requires n > 0
    ensures Flatten(Chunks(s, n)) == s
    decreases |s|
  {
    if |s| > 0 {
      var m := Min(n, |s|);
      ChunksFlatten(s[m..], n);
      assert Chunks(s, n)[1..] == Chunks(s[m..], n);
      assert s == s[..m] + s[m..];
    }
  }

  /** No batch is empty or larger than `n`, and only the last may be short. */
  lemma {:induction false} ChunkSizes<T>(s: seq<T>, n: nat)
    requires n > 0
    ensures forall k :: 0 <= k < |Chunks(s, n)| ==> 0 < |Chunks(s, n)[k]| <= n
    ensures forall k :: 0 <= k < |Chunks(s, n)| - 1 ==> |Chunks(s, n)[k]| == n
    decreases |s|
  {
    if |s| > 0 {
      var m := Min(n, |s|);
      ChunkSizes(s[m..], n);
      var c := Chunks(s, n);
      assert c == [s[..m]] + Chunks(s[m..], n);
      forall k | 1 <= k < |c|
        ensures c[k] == Chunks(s[m..], n)[k - 1]
      {
      }
    }
  }

  /** The number of batches is the number of blocks divided by the batch
      size, rounded up. */
  lemma {:induction false} ChunkCount<T>(s: seq<T>)
    ensures |Chunks(s, BatchSize)| == (|s| + BatchSize - 1) / BatchSize
    decreases |s|
  {
    if |s| > 0 {
      ChunkCount(s[Min(BatchSize, |s|)..]);
    }
  }

  /** One call made to the Notion API. */
  datatype NotionCall =
    | CreatePage(parentPageId: string, title: string, children: seq<Block>)
    | AppendChildren(blockId: string, children: seq<Block>)
    | UpdatePageTitle(pageId: string, title: string)
    | ListChildren(blockId: string)
    | DeleteBlock(blockId: string)

  /** The answer of `pages.create`: the new page's id and URL. */
  datatype CreatedPage = CreatedPage(id: string, url: string)

  /** One `blocks.children.append` call per batch, all to `pageId`. */
  function Appends(pageId: string, batches: seq<seq<Block>>): (r: seq<NotionCall>)
    ensures |r| == |batches|
  {
    if |batches| == 0 then [] else [AppendChildren(pageId, batches[0])] + Appends(pageId, batches[1..])
  }

  function Deletes(ids: seq<string>): (r: seq<NotionCall>)
    ensures |r| == |ids|
  {
    if |ids| == 0 then [] else [DeleteBlock(ids[0])] + Deletes(ids[1..])
  }

  /** The `k`-th append carries the `k`-th batch. */
  lemma {:induction false} AppendsAt(pageId: string, batches: seq<seq<Block>>, k: nat)
    requires k < |batches|
    ensures Appends(pageId, batches)[k] == AppendChildren(pageId, batches[k])
    decreases k
  {
    if k > 0 {
      AppendsAt(pageId, batches[1..], k - 1);
    }
  }

  /** The `k`-th deletion removes the `k`-th id. */
  lemma {:induction false} DeletesAt(ids: seq<string>, k: nat)
    requires k < |ids|
    ensures Deletes(ids)[k] == DeleteBlock(ids[k])
    decreases k
  {
    if k > 0 {
      DeletesAt(ids[1..], k - 1);
    }
  }

  /** The calls `publish` makes: the page creation with the first batch,
      then one append per further batch. */
  function PublishCalls(parentPageId: string, title: string, blocks: seq<Block>, pageId: string): seq<NotionCall> {
    var m := Min(BatchSize, |blocks|);
    [CreatePage(parentPageId, title, blocks[..m])] + Appends(pageId, Chunks(blocks[m..], BatchSize))
  }

  /** The calls `update` makes: the title, one listing of the children,
      one deletion per listed child, then the appends. */
  function UpdateCalls(pageId: string, title: string, existing: seq<string>, blocks: seq<Block>): seq<NotionCall> {
    [UpdatePageTitle(pageId, title), ListChildren(pageId)] + Deletes(existing) + Appends(pageId, Chunks(blocks, BatchSize))
  }

  /** The blocks sent by a sequence of calls, in order. */
  function SentBlocks(calls: seq<NotionCall>): seq<Block> {
    if |calls| == 0 then []
    else
      (if calls[0].CreatePage? || calls[0].AppendChildren? then calls[0].children else [])
      + SentBlocks(calls[1..])
  }

  /** The blocks deleted by a sequence of calls, in order. */
  function DeletedIds(calls: seq<NotionCall>): seq<string> {
    if |calls| == 0 then []
    else (if calls[0].DeleteBlock? then [calls[0].blockId] else []) + DeletedIds(calls[1..])
  }

  /** Within the API limit: no call carries more than `BatchSize` blocks. */
  predicate WithinBatchLimit(calls: seq<NotionCall>) {
    forall k :: 0 <= k < |calls| && (calls[k].CreatePage? || calls[k].AppendChildren?)
      ==> |calls[k].children| <= BatchSize
  }

  lemma {:induction false} SentBlocksConcat(a: seq<NotionCall>, b: seq<NotionCall>)
    ensures SentBlocks(a + b) == SentBlocks(a) + SentBlocks(b)
    decreases |a|
  {
    if |a| > 0 {
      var x := if a[0].CreatePage? || a[0].AppendChildren? then a[0].children else [];
      assert (a + b)[0] == a[0];
      assert (a + b)[1..] == a[1..] + b;
      assert SentBlocks(a + b) == x + SentBlocks(a[1..] + b);
      SentBlocksConcat(a[1..], b);
      assert SentBlocks(a) == x + SentBlocks(a[1..]);
      assert x + (SentBlocks(a[1..]) + SentBlocks(b)) == (x + SentBlocks(a[1..])) + SentBlocks(b);
    } else {
      assert a + b == b;
    }
  }

  lemma {:induction false} DeletedIdsConcat(a: seq<NotionCall>, b: seq<NotionCall>)
    ensures DeletedIds(a + b) == DeletedIds(a) + DeletedIds(b)
    decreases |a|
  {
    if |a| > 0 {
      var x := if a[0].DeleteBlock? then [a[0].blockId] else [];
      assert (a + b)[0] == a[0];
      assert (a + b)[1..] == a[1..] + b;
      assert DeletedIds(a + b) == x + DeletedIds(a[1..] + b);
      DeletedIdsConcat(a[1..], b);
      assert DeletedIds(a) == x + DeletedIds(a[1..]);
      assert x + (DeletedIds(a[1..]) + DeletedIds(b)) == (x + DeletedIds(a[1..])) + DeletedIds(b);
    } else {
      assert a + b == b;
    }
  }

  lemma {:induction false} AppendsSend(pageId: string, batches: seq<seq<Block>>)
    ensures SentBlocks(Appends(pageId, batches)) == Flatten(batches)
    ensures DeletedIds(Appends(pageId, batches)) == []
    decreases |batches|
  {
    if |batches| > 0 {
      var r := Appends(pageId, batches);
      assert r[1..] == Appends(pageId, batches[1..]);
      AppendsSend(pageId, batches[1..]);
    }
  }

  lemma {:induction false} DeletesDelete(ids: seq<string>)
    ensures SentBlocks(Deletes(ids)) == []
    ensures DeletedIds(Deletes(ids)) == ids
    decreases |ids|
  {
    if |ids| > 0 {
      var r := Deletes(ids);
      assert r[1..] == Deletes(ids[1..]);
      DeletesDelete(ids[1..]);
    }
  }

  lemma AppendsWithinLimit(pageId: string, s: seq<Block>)
    ensures WithinBatchLimit(Appends(pageId, Chunks(s, BatchSize)))
  {
    var c := Chunks(s, BatchSize);
    ChunkSizes(s, BatchSize);
    forall k | 0 <= k < |c| ensures Appends(pageId, c)[k] == AppendChildren(pageId, c[k]) {
      AppendsAt(pageId, c, k);
    }
  }

  /** `publish` sends every block exactly once, in order, the first
      `BatchSize` with the page creation, and never more than `BatchSize`
      per call. */
  lemma PublishSendsAllBlocks(parentPageId: string, title: string, blocks: seq<Block>, pageId: string)
    ensures SentBlocks(PublishCalls(parentPageId, title, blocks, pageId)) == blocks
    ensures WithinBatchLimit(PublishCalls(parentPageId, title, blocks, pageId))
    ensures PublishCalls(parentPageId, title, blocks, pageId)[0].children == blocks[..Min(BatchSize, |blocks|)]
  {
    var m := Min(BatchSize, |blocks|);
    var create := [CreatePage(parentPageId, title, blocks[..m])];
    var rest := Appends(pageId, Chunks(blocks[m..], BatchSize));
    SentBlocksConcat(create, rest);
    AppendsSend(pageId, Chunks(blocks[m..], BatchSize));
    ChunksFlatten(blocks[m..], BatchSize);
    assert SentBlocks(create) == blocks[..m];
    assert blocks[..m] + blocks[m..] == blocks;
    AppendsWithinLimit(pageId, blocks[m..]);
    WithinConcat(create, rest);
  }

  /** `update` deletes exactly the listed children, in order, and sends
      every block exactly once in batches of at most `BatchSize`. */
  lemma UpdateSendsAllBlocks(pageId: string, title: string, existing: seq<string>, blocks: seq<Block>)
    ensures SentBlocks(UpdateCalls(pageId, title, existing, blocks)) == blocks
    ensures DeletedIds(UpdateCalls(pageId, title, existing, blocks)) == existing
    ensures WithinBatchLimit(UpdateCalls(pageId, title, existing, blocks))
  {
    var head := [UpdatePageTitle(pageId, title), ListChildren(pageId)];
    var dels := Deletes(existing);
    var apps := Appends(pageId, Chunks(blocks, BatchSize));
    assert UpdateCalls(pageId, title, existing, blocks) == head + dels + apps;
    UpdateHead(pageId, title);
    DeletesDelete(existing);
    AppendsSend(pageId, Chunks(blocks, BatchSize));
    ChunksFlatten(blocks, BatchSize);
    ThreeParts(head, dels, apps);
    AppendsWithinLimit(pageId, blocks);
    assert WithinBatchLimit(dels) by {
      forall k | 0 <= k < |dels| ensures dels[k] == DeleteBlock(existing[k]) {
        DeletesAt(existing, k);
      }
    }
    WithinConcat(head, dels);
    WithinConcat(head + dels, apps);
  }

  /** The title update and the listing send and delete nothing. */
  lemma UpdateHead(pageId: string, title: string)
    ensures var head := [UpdatePageTitle(pageId, title), ListChildren(pageId)];
      SentBlocks(head) == [] && DeletedIds(head) == [] && WithinBatchLimit(head)
  {
    var head := [UpdatePageTitle(pageId, title), ListChildren(pageId)];
    var tail := [ListChildren(pageId)];
    assert head[1..] == tail;
    assert tail[1..] == [];
    assert SentBlocks(tail) == [] + SentBlocks(tail[1..]);
    assert SentBlocks(head) == [] + SentBlocks(tail);
    assert DeletedIds(tail) == [] + DeletedIds(tail[1..]);
    assert DeletedIds(head) == [] + DeletedIds(tail);
  }

  lemma ThreeParts(a: seq<NotionCall>, b: seq<NotionCall>, c: seq<NotionCall>)
    ensures SentBlocks(a + b + c) == SentBlocks(a) + SentBlocks(b) + SentBlocks(c)
    ensures DeletedIds(a + b + c) == DeletedIds(a) + DeletedIds(b) + DeletedIds(c)
  {
    SentBlocksConcat(a + b, c);
    SentBlocksConcat(a, b);
    DeletedIdsConcat(a + b, c);
    DeletedIdsConcat(a, b);
  }

  lemma WithinConcat(a: seq<NotionCall>, b: seq<NotionCall>)
    requires WithinBatchLimit(a) && WithinBatchLimit(b)
    ensures WithinBatchLimit(a + b)
  {
    forall k | 0 <= k < |a + b| && ((a + b)[k].CreatePage? || (a + b)[k].AppendChildren?)
      ensures |(a + b)[k].children| <= BatchSize
    {
      if k >= |a| {
        assert (a + b)[k] == b[k - |a|];
      }
    }
  }

  /** The two cases the source's tests pin: 150 blocks give one full
      creation batch and one append of 50; 250 give 100, then 100 and 50. */
  lemma BatchExamples(b150: seq<Block>, b250: seq<Block>)
    requires |b150| == 150 && |b250| == 250
    ensures var c := Chunks(b150[100..], BatchSize); |c| == 1 && |c[0]| == 50
    ensures var c := Chunks(b250[100..], BatchSize); |c| == 2 && |c[0]| == 100 && |c[1]| == 50
  {
    ChunkSizes(b150[100..], BatchSize);
    ChunkCount(b150[100..]);
    var c := Chunks(b250[100..], BatchSize);
    ChunkSizes(b250[100..], BatchSize);
    ChunkCount(b250[100..]);
    ChunksFlatten(b250[100..], BatchSize);
    assert Flatten(c) == c[0] + Flatten(c[1..]);
    assert Flatten(c[1..]) == c[1] + Flatten(c[2..]);
  }

  /** A client of the Notion API that records the calls it makes. */
  class NotionPublisher {
    const token: string
    const parentPageId: string
    var calls: seq<NotionCall>

    constructor(token: string, parentPageId: string)
      ensures this.token == token && this.parentPageId == parentPageId
      ensures calls == []
    {
      this.token := token;
      this.parentPageId := parentPageId;
      calls := [];
    }

    /** `publish`: creates the page with the first batch, appends the
        others, and returns the URL `pages.create` answered with. */
    method Publish(title: string, markdownBody: string, created: CreatedPage) returns (url: string)
      modifies this
      ensures url == created.url
      ensures calls == old(calls) + PublishCalls(parentPageId, title, Blocks(markdownBody), created.id)
    {
      var blocks := MarkdownToNotionBlocks(markdownBody);
      CreateAndAppend(title, blocks, created.id);
      url := created.url;
    }

    /** The page creation with the first batch, then the appends. */
    method CreateAndAppend(title: string, blocks: seq<Block>, pageId: string)
      modifies this
      ensures calls == old(calls) + PublishCalls(parentPageId, title, blocks, pageId)
    {
      var m := Min(BatchSize, |blocks|);
      ghost var before := calls;
      var create := CreatePage(parentPageId, title, blocks[..m]);
      calls := calls + [create];
      AppendInBatches(pageId, blocks[m..]);
      ghost var appends := Appends(pageId, Chunks(blocks[m..], BatchSize));
      assert calls == before + ([create] + appends) by {
        assert calls == before + [create] + appends;
      }
    }

    /** The loop `while remaining: batch = remaining[:100]; ...append(batch)`. */
    method AppendInBatches(pageId: string, blocks: seq<Block>)
      modifies this
      ensures calls == old(calls) + Appends(pageId, Chunks(blocks, BatchSize))
    {
      var remaining := blocks;
      while |remaining| > 0
        invariant calls + Appends(pageId, Chunks(remaining, BatchSize))
               == old(calls) + Appends(pageId, Chunks(blocks, BatchSize))
        decreases |remaining|
      {
        var k := Min(BatchSize, |remaining|);
        var batch := remaining[..k];
        AppendsStep(pageId, remaining);
        ghost var tail := Appends(pageId, Chunks(remaining[k..], BatchSize));
        assert calls + ([AppendChildren(pageId, batch)] + tail) == (calls + [AppendChildren(pageId, batch)]) + tail;
        remaining := remaining[k..];
        calls := calls + [AppendChildren(pageId, batch)];
      }
    }

    /** `update`: sets the title, deletes the children one listing
        returned, and appends the new blocks in batches. The page id comes
        from the URL; when it cannot be extracted nothing is sent. */
    method Update(pageUrl: string, title: string, markdownBody: string, existing: seq<string>)
      returns (r: Result<string>)
      modifies this
      ensures PageUrlToId(pageUrl).Err? ==> r == Err(PageUrlToId(pageUrl).error) && calls == old(calls)
      ensures PageUrlToId(pageUrl).Ok? ==> r == Ok(pageUrl)
      ensures PageUrlToId(pageUrl).Ok? ==>
        calls == old(calls) + UpdateCalls(PageUrlToId(pageUrl).value, title, existing, Blocks(markdownBody))
    {
      var id := PageUrlToId(pageUrl);
      if id.Err? {
        return Err(id.error);
      }
      var pageId := id.value;
      calls := calls + [UpdatePageTitle(pageId, title), ListChildren(pageId)];
      DeleteEach(existing);
      var blocks := MarkdownToNotionBlocks(markdownBody);
      AppendInBatches(pageId, blocks);
      r := Ok(pageUrl);
    }

    /** `for block in existing["results"]: blocks.delete(block["id"])` */
    method DeleteEach(existing: seq<string>)
      modifies this
      ensures calls == old(calls) + Deletes(existing)
    {
      var i := 0;
      while i < |existing|
        invariant i <= |existing|
        invariant calls == old(calls) + Deletes(existing[..i])
      {
        assert existing[..i + 1] == existing[..i] + [existing[i]];
        DeletesConcat(existing[..i], [existing[i]]);
        calls := calls + [DeleteBlock(existing[i])];
        i := i + 1;
      }
      assert existing[..i] == existing;
    }
  }

  /** One turn of the batching loop: the first batch, then the rest. */
  lemma AppendsStep(pageId: string, remaining: seq<Block>)
    requires |remaining| > 0
    ensures var k := Min(BatchSize, |remaining|);
      Appends(pageId, Chunks(remaining, BatchSize))
      == [AppendChildren(pageId, remaining[..k])] + Appends(pageId, Chunks(remaining[k..], BatchSize))
  {
    var k := Min(BatchSize, |remaining|);
    var c := Chunks(remaining, BatchSize);
    assert c == [remaining[..k]] + Chunks(remaining[k..], BatchSize);
    assert c[1..] == Chunks(remaining[k..], BatchSize);
  }

  lemma DeletesConcat(a: seq<string>, b: seq<string>)
    ensures Deletes(a + b) == Deletes(a) + Deletes(b)
  {
    var l, r := Deletes(a + b), Deletes(a) + Deletes(b);
    forall k | 0 <= k < |l| ensures l[k] == r[k] {
      DeletesAt(a + b, k);
      if k < |a| {
        DeletesAt(a, k);
      } else {
        DeletesAt(b, k - |a|);
      }
    }
  }

  // ---------------------------------------------------------------------
  // page_url_to_id
  // ---------------------------------------------------------------------

  predicate AllLowerHex(s: string) {
    forall i :: 0 <= i < |s| ==> IsLowerHex(s[i])
  }

  /** Group 1 of `re.search(r"([a-f0-9]{32})$", s)`: the 32 lowercase hex
      characters that end `s`, or end it just before a final newline. */
  function HexTail(s: string): (r: Option<string>)
    ensures r.Some? ==> |r.value| == 32 && AllLowerHex(r.value)
  {
    if |s| >= 32 && AllLowerHex(s[|s| - 32..]) then Some(s[|s| - 32..])
    else if |s| >= 33 && s[|s| - 1] == '\n' && AllLowerHex(s[|s| - 33..|s| - 1]) then Some(s[|s| - 33..|s| - 1])
    else None
  }

  /** A 32-digit hex id laid out as 8-4-4-4-12 (the string form of section 3 of RFC 4122). */
  function FormatUuid(h: string): (r: string)
    requires |h| == 32
    ensures |r| == 36
  {
    h[..8] + "-" + h[8..12] + "-" + h[12..16] + "-" + h[16..20] + "-" + h[20..]
  }

  /** The characters of the 8-4-4-4-12 form: dashes at 8, 13, 18 and 23,
      lowercase hex everywhere else. */
  predicate IsUuidShape(r: string) {
    && |r| == 36
    && (forall i :: 0 <= i < 36 ==> (i in {8, 13, 18, 23} <==> r[i] == '-'))
    && (forall i :: 0 <= i < 36 && i !in {8, 13, 18, 23} ==> IsLowerHex(r[i]))
  }

  /** The part of a URL before any `?` and then before any `#`. */
  function UrlPath(url: string): (r: string)
    ensures '?' !in r && '#' !in r
  {
    Split(Split(url, '?')[0], '#')[0]
  }

  /** `page_url_to_id` */
  function PageUrlToId(url: string): (r: Result<string>)
    ensures r.Err? ==> r.error == ValueError("Cannot extract page ID from URL: " + url)
    ensures r.Ok? <==> HexTail(RemoveChar(UrlPath(url), '-')).Some?
  {
    match HexTail(RemoveChar(UrlPath(url), '-'))
    case Some(h) => Ok(FormatUuid(h))
    case None => Err(ValueError("Cannot extract page ID from URL: " + url))
  }

  /** Every extracted id has the 8-4-4-4-12 shape. */
  lemma PageIdShape(url: string)
    requires PageUrlToId(url).Ok?
    ensures IsUuidShape(PageUrlToId(url).value)
  {
    var h := HexTail(RemoveChar(UrlPath(url), '-')).value;
    FormatUuidShape(h);
  }

  lemma FormatUuidShape(h: string)
    requires |h| == 32 && AllLowerHex(h)
    ensures IsUuidShape(FormatUuid(h))
  {
    var r := FormatUuid(h);
    assert forall i :: 0 <= i < 8 ==> r[i] == h[i];
    assert forall i :: 9 <= i < 13 ==> r[i] == h[i - 1];
    assert forall i :: 14 <= i < 18 ==> r[i] == h[i - 2];
    assert forall i :: 19 <= i < 23 ==> r[i] == h[i - 3];
    assert forall i :: 24 <= i < 36 ==> r[i] == h[i - 4];
  }

  /** Removing the dashes from the 8-4-4-4-12 form gives the hex id back. */
  lemma UuidDashesRemoved(h: string)
    requires |h| == 32 && AllLowerHex(h)
    ensures RemoveChar(FormatUuid(h), '-') == h
  {
    var p1, p2, p3, p4, p5 := h[..8], h[8..12], h[12..16], h[16..20], h[20..];
    assert RemoveChar(p1, '-') == p1 && RemoveChar(p2, '-') == p2 && RemoveChar(p3, '-') == p3
      && RemoveChar(p4, '-') == p4 && RemoveChar(p5, '-') == p5 by {
      NoDashIn(h, 0, 8);
      NoDashIn(h, 8, 12);
      NoDashIn(h, 12, 16);
      NoDashIn(h, 16, 20);
      NoDashIn(h, 20, 32);
      assert h[..8] == h[0..8] && h[20..32] == p5;
    }
    RemoveDashesFive(p1, p2, p3, p4, p5);
    FiveSlices(h);
  }

  /** The five fields of the 8-4-4-4-12 form make up the id. */
  lemma FiveSlices(h: string)
    requires |h| == 32
    ensures h == h[..8] + h[8..12] + h[12..16] + h[16..20] + h[20..]
  {
    assert h[..12] == h[..8] + h[8..12];
    assert h[..16] == h[..12] + h[12..16];
    assert h[..20] == h[..16] + h[16..20];
    assert h == h[..20] + h[20..];
  }

  lemma RemoveDashesFive(p1: string, p2: string, p3: string, p4: string, p5: string)
    requires RemoveChar(p1, '-') == p1 && RemoveChar(p2, '-') == p2 && RemoveChar(p3, '-') == p3
    requires RemoveChar(p4, '-') == p4 && RemoveChar(p5, '-') == p5
    ensures RemoveChar(p1 + "-" + p2 + "-" + p3 + "-" + p4 + "-" + p5, '-') == p1 + p2 + p3 + p4 + p5
  {
    var q2 := p1 + "-" + p2;
    var q3 := q2 + "-" + p3;
    var q4 := q3 + "-" + p4;
    RemoveDashJoin(p1, p2);
    RemoveDashJoin(q2, p3);
    RemoveDashJoin(q3, p4);
    RemoveDashJoin(q4, p5);
  }

  lemma RemoveDashJoin(x: string, y: string)
    ensures RemoveChar(x + "-" + y, '-') == RemoveChar(x, '-') + RemoveChar(y, '-')
  {
    var dash := "-";
    assert dash[1..] == "";
    assert RemoveChar(dash, '-') == "";
    RemoveCharConcat(x, dash, '-');
    RemoveCharConcat(x + dash, y, '-');
  }

  lemma NoDashIn(h: string, i: nat, j: nat)
    requires i <= j <= |h| && AllLowerHex(h)
    ensures RemoveChar(h[i..j], '-') == h[i..j]
  {
    assert forall k :: 0 <= k < j - i ==> h[i..j][k] == h[i + k];
    assert '-' !in h[i..j];
  }

  /** An extracted id is itself a URL `page_url_to_id` accepts, and it maps
      to itself. */
  lemma PageUrlToIdIdempotent(url: string)
    requires PageUrlToId(url).Ok?
    ensures PageUrlToId(PageUrlToId(url).value) == PageUrlToId(url)
  {
    var h := HexTail(RemoveChar(UrlPath(url), '-')).value;
    var id := FormatUuid(h);
    FormatUuidShape(h);
    assert '?' !in id && '#' !in id by {
      assert forall i :: 0 <= i < |id| ==> id[i] == '-' || IsLowerHex(id[i]);
    }
    assert Split(id, '?') == [id];
    assert Split(id, '#') == [id];
    assert UrlPath(id) == id;
    UuidDashesRemoved(h);
    assert RemoveChar(UrlPath(id), '-') == h;
    assert h[|h| - 32..] == h;
  }
}

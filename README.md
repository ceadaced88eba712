# monologue-tools, modelled in Dafny

monologue-tools is a personal publishing pipeline for a daily diary
("monologue"). An entry is written in markdown, parsed into a subject,
date and body, and then pushed to Notion as blocks, posted to Slack as
mrkdwn and saved as a Buttondown draft. Exported Notion pages are
archived by date. Along the way, links to internal Notion pages are
rewritten to their public redirects, and a pre-commit hook refuses files
that still hold internal Notion URLs.

This project models the string and sequence logic of that pipeline and
proves what it does. There is one module per source file:

| file | module | models |
|---|---|---|
| notion_push.dfy | NotionPush | the inline tokenizer, the markdown-to-blocks loop, batching of the Notion calls, and page-ID extraction |
| markdown_utils.dfy | MarkdownUtils | `MonologueEntry`, `parse_markdown` and `_parse_date_title` |
| slack_post.dfy | SlackPost | the mrkdwn converter, the message text, and channel resolution over pages of channels |
| buttondown.dfy | Buttondown | the draft index and the create-or-update decision |
| transform_notion.dfy | TransformNotion | the redirect lookup, the page preview, the link-rewriting renderer and paragraph text extraction |
| transform_notion_legacy.dfy | TransformNotionLegacy | the older rewriter: magic key only, and a different marker layout |
| notion2monologue.dfy | Notion2Monologue | the notion-ID and subject extraction, URL cleaning, the draft index, the inbox-to-archive decision, and the prompt's truncation and snippet arithmetic |
| prevent_internal_urls.dfy | PreventInternalUrls | the internal-URL pattern, the allow-list, `check_file` and the exit status |

The helper modules are shared:

- base.dfy: `Option`, `Result` and the Python exceptions raised.
- text.dfy: Python's `strip`, `split`, `join`, `find`, `replace` and `lower`.
- isodate.dfy: the `\d{4}-\d{2}-\d{2}` search, `date.fromisoformat` and `date.isoformat`.
- inline_patterns.dfy: the alternatives of the inline regular expression.
- markdown_links.dfy: the title quoting, reference-definition search and link forms that both rewriters share.

State is kept where the source keeps it:

- Loops are methods with invariants, and each is proved equal to a function that specifies it.
- The three API clients (Notion, Slack, Buttondown) are classes whose field `calls` records the requests made. Their responses are parameters.
- The renderer is a class with the source's `missing_links`, `current_paragraph` and `current_list_item` fields.
- "Today", the file modification time and the contents of the files read are parameters.
- The Notion page store is a parameter: the page the client answers for a link.

Regular expressions are modelled by hand with Python's semantics:

- `.` does not match a line break.
- A lazy `.+?` closes at the first closing marker.
- `[^\]]+` runs to the first `]`.
- `re.search` finds the leftmost match, and `finditer`/`findall` resume after the end of each match.

## Model

| member | source | states |
|---|---|---|
| NotionPush.MatchAt | src/monologue_tools/notion_push.py:19-25 | a match of the inline pattern at a position is the first alternative, in the pattern's order, that matches there; every match ends inside the text after at least one character of content |
| NotionPush.SpanOf | src/monologue_tools/notion_push.py:39-85 | a match becomes one rich-text run holding the match's content, with a bold, code, link or italic style (never plain) |
| NotionPush.NextMatch | src/monologue_tools/notion_push.py:29 | the next match is the leftmost position at or after the cursor where the pattern matches, and no position before it matches; when there is none, no later position matches |
| NotionPush.ParseRichText | src/monologue_tools/notion_push.py:10-93 | the loop over the matches gives the tokenisation (plain text between matches, one styled run per match, the remaining plain tail), and empty text gives no runs |
| NotionPush.TokensFrom | src/monologue_tools/notion_push.py:27-93 | defines the runs from a position on: the plain gap before the next match when it is not empty, the match's styled run, then the runs after the match; the rest as one plain run when no match follows. ParseRichText is proved equal to it, and TokensWellFormed, NoMarkersIsPlain and BoldBeforeItalic are about it |
| NotionPush.Tokenize | src/monologue_tools/notion_push.py:10-93 | defines the runs of a whole text as those from position 0; TokenizeWellFormed is about it |
| NotionPush.TokensWellFormed | src/monologue_tools/notion_push.py:27-93 | no run is empty and no two plain runs are adjacent |
| NotionPush.TokenizeWellFormed | src/monologue_tools/notion_push.py:10-93 | the same for the runs of a whole text |
| NotionPush.NoMarkersIsPlain | src/monologue_tools/notion_push.py:89-91 | text holding none of `*`, `` ` ``, `[`, `_` comes back as one plain run |
| NotionPush.NoMatchWithoutMarkers | src/monologue_tools/notion_push.py:19-25 | without a marker character the pattern never matches |
| NotionPush.NoMatchAt | src/monologue_tools/notion_push.py:19-25 | no match starts at a character that opens no alternative |
| NotionPush.BoldBeforeItalic | src/monologue_tools/notion_push.py:19-47 | `**x**` is one bold run holding x, not an italic run holding `*x*`: the bold alternative comes first |
| NotionPush.LazyCloseSkips | src/monologue_tools/notion_push.py:20 | the lazy `.+?` closes at the first occurrence of the closing marker, provided no line break comes before it |
| NotionPush.DigitsFrom | src/monologue_tools/notion_push.py:192 | the run of ASCII digits starting at a position ends at the first non-digit or at the end |
| NotionPush.NumberedItemText | src/monologue_tools/notion_push.py:192-198 | a numbered item matches `\d+\. (.+)`: the text is the non-empty, line-break-free slice after the digits, the dot and the space |
| NotionPush.CodeLanguage | src/monologue_tools/notion_push.py:139 | a fence line's language is never empty |
| NotionPush.CodeLanguageIs | src/monologue_tools/notion_push.py:139 | the language is the stripped text after the backticks, or "plain text" exactly when that is empty |
| NotionPush.Classify | src/monologue_tools/notion_push.py:102-216 | defines what a line is, by the converter's tests in their order: skipped (blank or `# ` title), level-2 or level-3 heading, fence, divider, quote, bulleted or numbered item, or paragraph text; FenceLineOpensCode, IndentedRuleJoinsParagraph and SkippedLinesNoBlocks are about it |
| NotionPush.BlocksFrom | src/monologue_tools/notion_push.py:96-227 | defines the blocks of the lines from a position on, one Step at a time; MarkdownToNotionBlocks is proved equal to it, and BlockCountBound, BlocksWellFormed, FenceClosed, FenceUnclosed and ParagraphSpan are about it |
| NotionPush.MarkdownToNotionBlocks | src/monologue_tools/notion_push.py:96-227 | the conversion loop gives the blocks of the split lines, block by block as Step defines them |
| NotionPush.ConvertAt | src/monologue_tools/notion_push.py:102-225 | one pass of the loop body emits the blocks and moves to the line that Step gives |
| NotionPush.ConvertFence | src/monologue_tools/notion_push.py:138-160 | a fenced code block emits one code block and moves past the closing fence |
| NotionPush.ConvertParagraph | src/monologue_tools/notion_push.py:205-225 | a paragraph emits one paragraph block and moves to the first line that ends it |
| NotionPush.Step | src/monologue_tools/notion_push.py:102-225 | every pass of the loop moves forward, at most one line past the end |
| NotionPush.FenceStep | src/monologue_tools/notion_push.py:138-160 | a fence moves forward, at most one line past the end |
| NotionPush.ParagraphStep | src/monologue_tools/notion_push.py:205-225 | a paragraph moves forward and stays within the lines |
| NotionPush.CollectFence | src/monologue_tools/notion_push.py:140-145 | the code lines are exactly those between the opening fence and the next fence line, or the end |
| NotionPush.CollectParagraph | src/monologue_tools/notion_push.py:206-218 | the paragraph lines are the start line and the lines that follow it up to the first one that ends a paragraph |
| NotionPush.CollectParagraphLoop | src/monologue_tools/notion_push.py:206-218 | the loop stops at the first blank or block-starting line after the start, or at the end, and keeps every line before it |
| NotionPush.ParagraphEndIs | src/monologue_tools/notion_push.py:208-218 | the paragraph ends at any line that ends it and is preceded only by lines that do not |
| NotionPush.FenceEndIs | src/monologue_tools/notion_push.py:142-144 | the code ends at any fence line preceded only by non-fence lines, or at the end |
| NotionPush.SkippedLinesNoBlocks | src/monologue_tools/notion_push.py:105-113 | blank lines and `# ` title lines give no blocks |
| NotionPush.BlockCountBound | src/monologue_tools/notion_push.py:96-227 | there are never more blocks than lines |
| NotionPush.FenceLineOpensCode | src/monologue_tools/notion_push.py:137-139 | every line opening with three backticks that no earlier rule claims starts a code block in its language |
| NotionPush.FenceClosed | src/monologue_tools/notion_push.py:138-160 | a closed fence gives one code block holding the lines between the fences joined by line breaks, and the loop resumes after the closing fence |
| NotionPush.FenceUnclosed | src/monologue_tools/notion_push.py:141-145 | an unclosed fence takes every remaining line into one code block and ends the conversion |
| NotionPush.ParagraphSpan | src/monologue_tools/notion_push.py:205-225 | a paragraph's lines are joined by spaces and tokenised into one paragraph block |
| NotionPush.BlockLinesBreakParagraphs | src/monologue_tools/notion_push.py:212-216 | every heading, quote, list item and fence line also ends a running paragraph |
| NotionPush.IndentedRuleJoinsParagraph | src/monologue_tools/notion_push.py:162-216 | ` ---` is a divider at the start of a block but does not end a paragraph: the two rules disagree on leading space |
| NotionPush.BlocksWellFormed | src/monologue_tools/notion_push.py:96-227 | every text block's runs are well formed |
| NotionPush.Chunks | src/monologue_tools/notion_push.py:257-260 | defines the batches the `while remaining` loop cuts off; ChunksFlatten, ChunkSizes and ChunkCount are about it |
| NotionPush.ChunksFlatten | src/monologue_tools/notion_push.py:257-284 | the batches, put back together, are the blocks in order |
| NotionPush.ChunkSizes | src/monologue_tools/notion_push.py:258 | every batch holds between 1 and the batch size blocks, and every batch but the last is full |
| NotionPush.ChunkCount | src/monologue_tools/notion_push.py:257-260 | there are ⌈n/100⌉ batches |
| NotionPush.AppendsAt | src/monologue_tools/notion_push.py:260 | the k-th append call sends the k-th batch |
| NotionPush.DeletesAt | src/monologue_tools/notion_push.py:276-277 | the k-th delete call deletes the k-th existing block |
| NotionPush.AppendsSend | src/monologue_tools/notion_push.py:257-260 | the append calls send the batches, in order, and delete nothing |
| NotionPush.DeletesDelete | src/monologue_tools/notion_push.py:276-277 | the delete calls delete exactly the existing blocks, in order, and send nothing |
| NotionPush.AppendsWithinLimit | src/monologue_tools/notion_push.py:257-260 | no append call sends more than 100 blocks |
| NotionPush.PublishCalls | src/monologue_tools/notion_push.py:237-262 | defines the calls `publish` makes: the page creation with the first 100 blocks, then one append per later batch; PublishSendsAllBlocks is about it and NotionPublisher.Publish is proved to make them |
| NotionPush.UpdateCalls | src/monologue_tools/notion_push.py:264-287 | defines the calls `update` makes: the title update, the listing, one delete per existing block, then one append per batch; UpdateSendsAllBlocks and UpdateHead are about it and NotionPublisher.Update is proved to make them |
| NotionPush.PublishSendsAllBlocks | src/monologue_tools/notion_push.py:242-260 | publishing sends every block exactly once and in order, the page creation carries the first 100, and no call exceeds the limit |
| NotionPush.UpdateSendsAllBlocks | src/monologue_tools/notion_push.py:266-284 | updating deletes every existing block in order, then sends every new block exactly once in order, within the limit |
| NotionPush.UpdateHead | src/monologue_tools/notion_push.py:269-275 | the title update and the listing send and delete nothing |
| NotionPush.BatchExamples | src/monologue_tools/notion_push.py:245-260 | 150 blocks leave one batch of 50 after the first; 250 leave batches of 100 and 50 |
| NotionPush.NotionPublisher.constructor | src/monologue_tools/notion_push.py:233-235 | keeps the token and parent page and makes no call |
| NotionPush.NotionPublisher.Publish | src/monologue_tools/notion_push.py:237-262 | returns the created page's URL; the calls made are the page creation with the first batch, then one append per remaining batch |
| NotionPush.NotionPublisher.CreateAndAppend | src/monologue_tools/notion_push.py:244-260 | the calls made are the creation with the first batch and the appends of the rest |
| NotionPush.NotionPublisher.AppendInBatches | src/monologue_tools/notion_push.py:257-260 | the `while remaining` loop makes one append per batch, in order |
| NotionPush.NotionPublisher.Update | src/monologue_tools/notion_push.py:264-286 | a URL without a page ID raises before any call; otherwise returns the URL after the title update, the listing, one delete per existing block and one append per batch |
| NotionPush.NotionPublisher.DeleteEach | src/monologue_tools/notion_push.py:275-277 | one delete per listed block, in order |
| NotionPush.HexTail | src/monologue_tools/notion_push.py:299 | a found ID is 32 lower-case hex digits (the last 32 characters, when they all are) |
| NotionPush.FormatUuid | src/monologue_tools/notion_push.py:303-305 | the formatted ID is 36 characters long |
| NotionPush.UrlPath | src/monologue_tools/notion_push.py:297 | the path holds no `?` and no `#` |
| NotionPush.PageUrlToId | src/monologue_tools/notion_push.py:289-306 | succeeds exactly when the path, with the dashes removed, ends in 32 lower-case hex digits; otherwise raises ValueError naming the URL |
| NotionPush.PageIdShape | src/monologue_tools/notion_push.py:299-305 | every ID returned has the 8-4-4-4-12 shape |
| NotionPush.FormatUuidShape | src/monologue_tools/notion_push.py:303-305 | 32 hex digits format to the 8-4-4-4-12 shape |
| NotionPush.UuidDashesRemoved | src/monologue_tools/notion_push.py:299-305 | removing the dashes from the formatted ID gives back the 32 digits |
| NotionPush.PageUrlToIdIdempotent | src/monologue_tools/notion_push.py:289-306 | an ID returned is itself accepted and gives the same ID |
| MarkdownUtils.DateStr | src/monologue_tools/markdown_utils.py:21-23 | `date_str` is a 10-character ISO date that reads back as the entry's date |
| MarkdownUtils.Role | src/monologue_tools/markdown_utils.py:44-61 | a header line is blank exactly when it is all white space; a metadata line names one of the four known keys, lower-cased, with a stripped value |
| MarkdownUtils.RoleMetadata | src/monologue_tools/markdown_utils.py:44-57 | a line is a metadata line exactly when it is not blank, holds a `:`, does not start with `#`, and the stripped text before its first `:` lower-cases to a known key; the key is that lower-cased text and the value is the stripped text after the colon |
| MarkdownUtils.HeaderLineAnyCase | src/monologue_tools/markdown_utils.py:48-55 | a known key in any case and with any surrounding space, holding no colon and not starting with `#`, then a colon and a value, are read as the lower-cased key with the stripped value |
| MarkdownUtils.ScanHeader | src/monologue_tools/markdown_utils.py:42-61 | the header loop gives the metadata and body start that Header defines |
| MarkdownUtils.ScanKeys | src/monologue_tools/markdown_utils.py:49-57 | only the four known keys are ever stored, each with a stripped value |
| MarkdownUtils.ScanBodyStart | src/monologue_tools/markdown_utils.py:43-61 | the body starts after the blank line that ends the header, and at line 0 when a non-metadata line ends it first |
| MarkdownUtils.ScanKeySet | src/monologue_tools/markdown_utils.py:48-57 | a key is in the metadata exactly when some header line before the first non-metadata line names it |
| MarkdownUtils.ScanValues | src/monologue_tools/markdown_utils.py:48-57 | the value stored under a key is that of the last header line naming the key; a value held before the scan stays only when no header line from there on names the key |
| MarkdownUtils.ParseDateTitle | src/monologue_tools/markdown_utils.py:108-116 | with no date in the text: today and the stripped text; with a date: raises ValueError exactly when the date is no calendar date, else that date and a stripped title |
| MarkdownUtils.DateTitleRoundTrip | src/monologue_tools/markdown_utils.py:110-115 | a date, any run of `:` and spaces, and a stripped title read back as that date and title |
| MarkdownUtils.SubjectParses | src/monologue_tools/markdown_utils.py:110-115 | a `YYYY-MM-DD: title` subject reads back as its date and title |
| MarkdownUtils.SkipSeparators | src/monologue_tools/markdown_utils.py:114 | `lstrip(": ")` removes exactly the separators before the title |
| MarkdownUtils.FirstHeading | src/monologue_tools/markdown_utils.py:78-79 | the heading found is the first line starting with `# `; none means no line does |
| MarkdownUtils.FindHeading | src/monologue_tools/markdown_utils.py:78-79 | the heading loop finds that line |
| MarkdownUtils.Stem | src/monologue_tools/markdown_utils.py:95 | a path's stem holds no `/` |
| MarkdownUtils.FallbackDate | src/monologue_tools/markdown_utils.py:93-97 | without a path the date is today; a date taken from the stem is a calendar date |
| MarkdownUtils.Parse | src/monologue_tools/markdown_utils.py:37-105 | every parsed entry has a calendar date, a stripped body and the given source path |
| MarkdownUtils.ParseMarkdown | src/monologue_tools/markdown_utils.py:37-105 | the two loops and three branches of `parse_markdown` give the entry Parse defines, or its error |
| MarkdownUtils.HeadingBranch | src/monologue_tools/markdown_utils.py:77-90 | without a subject header, the first `# ` line gives the date and title; the subject is rebuilt as `date: title` only when the title is not empty; the body is the rest, stripped |
| MarkdownUtils.SubjectBranch | src/monologue_tools/markdown_utils.py:63-75 | with a subject header, the entry takes its date and title from it, the body from the lines after the header, and the Notion ID from the metadata when present |
| MarkdownUtils.PlainRoundTrip | src/monologue_tools/markdown_utils.py:77-90 | `# date: title` followed by a body parses back to that date, title, subject and stripped body |
| MarkdownUtils.HeadingFirst | src/monologue_tools/markdown_utils.py:44-79 | a file opening with `# ` has no metadata and its heading is line 0 |
| MarkdownUtils.StrippedSubject | src/monologue_tools/markdown_utils.py:82 | a rebuilt subject is already stripped |
| MarkdownUtils.ArchiveRoundTrip | src/monologue_tools/markdown_utils.py:44-75 | `Subject: date: title`, a blank line and a body parse back to that date, title, subject and stripped body, with the subject as the only metadata |
| MarkdownUtils.ArchiveHeader | src/monologue_tools/markdown_utils.py:44-61 | that header gives the subject alone, and the body starts on line 2 |
| MarkdownUtils.SubjectHeader | src/monologue_tools/markdown_utils.py:44-61 | a subject line followed by a blank line is the whole header |
| MarkdownUtils.SubjectHeaderLine | src/monologue_tools/markdown_utils.py:48-57 | `Subject: s` is read as the subject key with the value s |
| MarkdownUtils.SubjectKey | src/monologue_tools/markdown_utils.py:48-51 | `partition(":")` splits `Subject:` at its colon and the key lower-cases to `subject` |
| MarkdownUtils.FallbackUntitled | src/monologue_tools/markdown_utils.py:92-105 | text with no colon and no `#` becomes an untitled entry for today with the whole text as body |
| MarkdownUtils.FallbackBranch | src/monologue_tools/markdown_utils.py:92-105 | with no subject header and no heading, the entry is untitled, dated from the file name or today, with the whole stripped text as body |
| MarkdownUtils.NoColonNoHeader | src/monologue_tools/markdown_utils.py:48-61 | a first line with no colon ends the header with no metadata |
| MarkdownUtils.NoHashNoHeading | src/monologue_tools/markdown_utils.py:78-79 | text with no `#` has no heading |
| MarkdownUtils.FallbackDateOfStem | src/monologue_tools/markdown_utils.py:94-97 | the first date in the file name's stem is the entry date |
| IsoDate.FindDate | src/monologue_tools/markdown_utils.py:110 | `re.search(r"(\d{4}-\d{2}-\d{2})")`: the leftmost position holding four digits, a dash, two digits, a dash and two digits; none means no position does |
| IsoDate.FirstDateText | src/monologue_tools/markdown_utils.py:110 | the matched text is present exactly when a date is found, and it is the 10 characters of that date |
| IsoDate.FromIsoFormat | src/monologue_tools/markdown_utils.py:112 | `date.fromisoformat` succeeds exactly when the fields form a calendar date (leap years included), and gives those fields |
| IsoDate.IsoFormat | src/monologue_tools/markdown_utils.py:21-23 | `isoformat` writes a calendar date as 10 characters of the date shape |
| IsoDate.IsoFormatFromIsoFormat | src/monologue_tools/markdown_utils.py:21-23 | writing a date that was read gives back the text it was read from |
| IsoDate.FromIsoFormatIsoFormat | src/monologue_tools/markdown_utils.py:21-23 | reading a written date gives back the date |
| Text.Strip | src/monologue_tools/markdown_utils.py:45 | `str.strip()` gives a text that neither begins nor ends with white space and is no longer than the input |
| Text.StripSlice | src/monologue_tools/markdown_utils.py:45 | the stripped text is a slice of the input with only white space cut on either side |
| Text.StripEmpty | src/monologue_tools/markdown_utils.py:45 | `line.strip() == ""` exactly when the line is all white space |
| Text.StripIsTrimmed | src/monologue_tools/markdown_utils.py:45 | stripping is left-trimming then right-trimming |
| Text.StripStripped | src/monologue_tools/markdown_utils.py:45 | stripping a stripped text changes nothing |
| Text.Split | src/monologue_tools/markdown_utils.py:39 | `str.split` on one character gives at least one part, no part holds the separator, and joining the parts gives the text back |
| Text.SplitJoin | src/monologue_tools/markdown_utils.py:39 | splitting the join of separator-free parts gives the parts back |
| Text.Find | src/monologue_tools/notion2monologue.py:302 | the first position where a text occurs, none meaning it does not occur |
| Text.CharIndex | src/monologue_tools/markdown_utils.py:49 | the first occurrence of the character |
| Text.LastIndex | src/monologue_tools/markdown_utils.py:95 | the last occurrence of the character, none meaning there is none |
| Text.LStripChars | src/monologue_tools/markdown_utils.py:114 | `lstrip(chars)` leaves a text that does not start with one of them |
| Text.RemoveChar | src/monologue_tools/notion_push.py:299 | `replace(c, "")` leaves text that is no longer than before and unchanged when c is absent |
| Text.RemoveCharRemoves | src/monologue_tools/notion_push.py:299 | no c is left |
| Text.RemoveCharConcat | src/monologue_tools/notion_push.py:299 | removing from a concatenation removes from each part |
| Text.Lower | src/monologue_tools/markdown_utils.py:51 | `lower()` maps every character on its own and keeps the length |
| InlinePatterns.LazyClose | src/monologue_tools/notion_push.py:20 | a lazy `.+?` run ends at the first occurrence of the closing marker with no line break before it; none means no such occurrence |
| InlinePatterns.DelimitedAt | src/monologue_tools/notion_push.py:20-24 | a delimited match holds the text between the opening and closing delimiters, at least one character of it |
| InlinePatterns.FirstFrom | src/monologue_tools/notion_push.py:22 | the first position of the character from a given position on |
| InlinePatterns.LinkAt | src/monologue_tools/notion_push.py:22 | `\[([^\]]+)\]\(([^)]+)\)` matches with a non-empty text and a non-empty URL |
| SlackPost.SubLinks | src/monologue_tools/slack_post.py:83 | defines the link substitution: at each position, a match of `\[([^\]]+)\]\(([^)]+)\)` becomes `<url\|text>` and the scan resumes after it, any other character is kept; SubLinksNoBracket, LinkSubstituted and LinkRewrite are about it |
| SlackPost.SubBold | src/monologue_tools/slack_post.py:87-88 | defines the bold substitution: the delimiter, the shortest line-break-free text, and the delimiter become that text in single `*`; SubBoldAbsent, BoldSubstituted, ItalicUnchanged and RuleUnchanged are about it |
| SlackPost.RewriteLine | src/monologue_tools/slack_post.py:76-90 | defines the rewrite of a line outside code: a heading becomes its text in bold, and any other line has its links, then `**`, then `__` substituted; HeadingBold, PlainLineUnchanged, BoldRewrite and LinkRewrite are about it |
| SlackPost.Mrkdwn | src/monologue_tools/slack_post.py:60-92 | defines `markdown_to_mrkdwn`: the converted lines joined by line breaks; MarkdownToMrkdwn is proved equal to it, and MrkdwnLines and MrkdwnLineCount are about it |
| SlackPost.SubLinksNoBracket | src/monologue_tools/slack_post.py:83 | a line with no `[` is unchanged by the link substitution |
| SlackPost.SubBoldAbsent | src/monologue_tools/slack_post.py:87-88 | a line where the delimiter never occurs is unchanged by the bold substitution |
| SlackPost.HeadingText | src/monologue_tools/slack_post.py:77-79 | the text of a heading line is shorter than the line and does not start with white space |
| SlackPost.FenceLineIsStripped | src/monologue_tools/slack_post.py:67 | the scan for a fence is `line.strip().startswith("```")` |
| SlackPost.ModeIsParity | src/monologue_tools/slack_post.py:64-68 | the loop is inside a code block exactly after an odd number of fence lines |
| SlackPost.MrkdwnLines | src/monologue_tools/slack_post.py:66-90 | each output line is the input line when it is a fence or inside a code block, and its rewrite otherwise |
| SlackPost.MrkdwnLineCount | src/monologue_tools/slack_post.py:62-92 | the output has as many lines as the input, each the converted line |
| SlackPost.MarkdownToMrkdwn | src/monologue_tools/slack_post.py:60-92 | the loop gives the converted text |
| SlackPost.ConvertLine | src/monologue_tools/slack_post.py:66-90 | a fence line flips the code flag and is copied, a line inside a code block is copied, any other line is rewritten and leaves the flag alone |
| SlackPost.PlainLineUnchanged | src/monologue_tools/slack_post.py:77-90 | a line that is no heading and holds no link and no `**`/`__` comes out unchanged |
| SlackPost.ItalicUnchanged | src/monologue_tools/slack_post.py:87-88 | `_x_` is left alone: single underscores are not bold |
| SlackPost.RuleUnchanged | src/monologue_tools/slack_post.py:87-88 | a `---` rule is left alone |
| SlackPost.BoldRewrite | src/monologue_tools/slack_post.py:83-88 | a line `**x**` becomes `*x*` |
| SlackPost.BoldSubstituted | src/monologue_tools/slack_post.py:87 | the `**` substitution turns `**x**` into `*x*` |
| SlackPost.LinkRewrite | src/monologue_tools/slack_post.py:83-88 | a line `[t](u)` becomes `<u\|t>` |
| SlackPost.LinkSubstituted | src/monologue_tools/slack_post.py:83 | the link substitution turns `[t](u)` into `<u\|t>` |
| SlackPost.HeadingBold | src/monologue_tools/slack_post.py:77-80 | one to six `#`, a space and a text become the text in bold |
| SlackPost.Preamble | src/monologue_tools/slack_post.py:20-25 | defines the preamble: the subject in bold, a line for each URL given and not empty, and a blank line; PreambleLines and MessageWithoutLinks are about it |
| SlackPost.MessageText | src/monologue_tools/slack_post.py:20-26 | defines the text `post_message` sends: the preamble followed by the body in mrkdwn; MessageLines is about it and SlackPublisher.PostMessage is proved to send it |
| SlackPost.PreambleLines | src/monologue_tools/slack_post.py:20-25 | the preamble is the bold subject, a Notion line and a Buttondown line when those URLs are given, then a blank line |
| SlackPost.MessageLines | src/monologue_tools/slack_post.py:20-26 | the message lines are the preamble lines followed by the converted body lines |
| SlackPost.MessageWithoutLinks | src/monologue_tools/slack_post.py:21-25 | with no URL, or an empty one, the message is the bold subject, a blank line and the converted body |
| SlackPost.FirstNamed | src/monologue_tools/slack_post.py:51-53 | a channel is found exactly when the page holds one with that name; the ID is that of the first such channel on the page |
| SlackPost.FindChannel | src/monologue_tools/slack_post.py:51-53 | the scan of one page returns the first channel with that name |
| SlackPost.Resolve | src/monologue_tools/slack_post.py:43-58 | defines the lookup from a page on: the first channel of that name on the first page holding one, or `Channel not found` after the last page; ResolveSound and ResolveFirst are about it |
| SlackPost.ListCalls | src/monologue_tools/slack_post.py:45-57 | the listing requests are one per page read, up to the page holding the name or the last page, the first with the given cursor and each later one with the cursor of the page before |
| SlackPost.ResolveSound | src/monologue_tools/slack_post.py:43-57 | a found ID belongs to a channel of that name on a page read; not found raises `Channel not found` naming the channel, only after the last page, and no page read held the name |
| SlackPost.ResolveFirst | src/monologue_tools/slack_post.py:43-57 | the first page holding the name gives its first such channel, and the pages after it are not requested |
| SlackPost.HashIgnored | src/monologue_tools/slack_post.py:44 | a leading `#` on the channel does not change the name looked up |
| SlackPost.SlackPublisher.constructor | src/monologue_tools/slack_post.py:9-11 | keeps the token and channel and makes no call |
| SlackPost.SlackPublisher.WithDefaultChannel | src/monologue_tools/slack_post.py:9-11 | without a channel argument, the channel is `#monologue-danny`; no call is made |
| SlackPost.SlackPublisher.PostMessage | src/monologue_tools/slack_post.py:13-27 | posts one message to the channel with the preamble and the converted body |
| SlackPost.SlackPublisher.CreateCanvas | src/monologue_tools/slack_post.py:29-33 | makes one canvas call with the title and the markdown body |
| SlackPost.SlackPublisher.ResolveChannelId | src/monologue_tools/slack_post.py:43-57 | the paging loop returns the resolved ID or the not-found error, requesting pages of 200 with each next cursor |
| SlackPost.SlackPublisher.PostCanvas | src/monologue_tools/slack_post.py:35-41 | resolves the channel, then creates the canvas in it; a missing channel raises before any canvas call |
| Buttondown.DraftKey | src/monologue_tools/buttondown.py:18-21 | an email is indexed exactly when it is a draft whose subject holds a date, and then under the first such date |
| Buttondown.IndexKeys | src/monologue_tools/buttondown.py:16-21 | a key is in the index exactly when some email gives it |
| Buttondown.IndexLast | src/monologue_tools/buttondown.py:16-21 | the email stored under a key is the last one giving that key: later ones overwrite earlier ones |
| Buttondown.IndexValues | src/monologue_tools/buttondown.py:16-21 | every stored email is one of the results and gives its own key |
| Buttondown.DraftIndex | src/monologue_tools/buttondown.py:13-22 | defines `list_drafts` over the listed emails: each draft whose subject holds a date, under its first date, a later one replacing an earlier one; IndexKeys, IndexLast, IndexValues and DraftIndexDrafts are about it |
| Buttondown.DraftIndexDrafts | src/monologue_tools/buttondown.py:17-21 | every indexed email is a draft from the results, stored under the first date of its subject |
| Buttondown.NoDateCreates | src/monologue_tools/buttondown.py:41-47 | a subject without a date creates a new draft and lists nothing |
| Buttondown.PublishCalls | src/monologue_tools/buttondown.py:40-47 | defines the requests `publish` makes: a subject without a date is created straight away; otherwise the drafts are listed and the draft filed under the subject's date is updated, or a new one is created; NoDateCreates and PublishWrite are about it |
| Buttondown.PublishWrite | src/monologue_tools/buttondown.py:40-47 | publishing makes only listing requests, then one write of the subject and body as a draft; the write updates exactly when a listed draft has the subject's date, and then it updates the last such draft, else it creates one |
| Buttondown.ButtondownClient.constructor | src/monologue_tools/buttondown.py:9-11 | the session authorises with `Token <key>` and has made no request |
| Buttondown.ButtondownClient.ListDrafts | src/monologue_tools/buttondown.py:13-22 | one listing request; the drafts returned are the index of the results |
| Buttondown.ButtondownClient.CreateDraft | src/monologue_tools/buttondown.py:24-30 | one POST to `/emails` with the subject, body and draft status |
| Buttondown.ButtondownClient.UpdateDraft | src/monologue_tools/buttondown.py:32-38 | one PATCH to `/emails/<id>` with the subject, body and draft status |
| Buttondown.ButtondownClient.Publish | src/monologue_tools/buttondown.py:40-47 | the requests made are those PublishCalls describes |
| TransformNotion.Field | bin/transformnotion.py:17-20 | a dictionary lookup finds a value stored under the key; a miss means no entry has the key |
| TransformNotion.MagicValue | bin/transformnotion.py:47-49 | defines the read of the magic key `n\G@` under `properties` and the first item of its first item, with the KeyError, IndexError or TypeError that read raises; MagicKeyFirst and TransformNotionLegacy.MagicFaults are about it |
| TransformNotion.FindUrlPropertyKey | bin/transformnotion.py:13-37 | defines `find_url_property_key` on a page: no key when there is no `properties` record, an AttributeError (no `items()`) when it is not a dictionary, otherwise the key UrlKey finds; ScannedUrl is about it |
| TransformNotion.UrlKey | bin/transformnotion.py:23-37 | the key found is not `title` and holds a list whose first item is a list whose first item is a string starting with `http`; no property before it is such a one, and none found means no property is |
| TransformNotion.FindUrlKey | bin/transformnotion.py:23-37 | the loop over the properties returns the first such key |
| TransformNotion.ScannedUrl | bin/transformnotion.py:52-55 | when the magic key fails and the scan finds the key `""`, the falsy key is skipped and there is no redirect; when it finds another key, reading that key gives its URL string |
| TransformNotion.EmptyKeyNoRedirect | bin/transformnotion.py:51-56 | a page whose only URL property has the key `""` has no redirect: the scan finds `""`, `if url_property_key:` skips it, and the page's own URL is kept |
| TransformNotion.AlternativeUrl | bin/transformnotion.py:45-56 | defines the redirect once both `try` blocks have run: the magic key's value when it can be read; after a KeyError or IndexError, the value under the key the scan finds; no redirect when the scan finds no key or the key `""`, or when that read also raises KeyError or IndexError; any other exception propagates. ScannedUrl, MagicKeyFirst and EmptyKeyNoRedirect are about it |
| TransformNotion.FieldFirst | bin/transformnotion.py:55 | in a dictionary, the key the scan found reads back as the value the scan inspected |
| TransformNotion.MagicKeyFirst | bin/transformnotion.py:47-49 | a readable magic key is used as it is, even when empty, and the scan is never run |
| TransformNotion.ChildText | bin/transformnotion.py:75-82 | a child gives preview text only when it is not a divider or table of contents and its stripped title is not empty |
| TransformNotion.Texts | bin/transformnotion.py:70-83 | every preview text is non-empty and stripped |
| TransformNotion.CollectIsPrefix | bin/transformnotion.py:66-83 | the loop keeps the first preview texts, at most five |
| TransformNotion.CollectContent | bin/transformnotion.py:66-83 | the loop over the children collects those texts |
| TransformNotion.PageContent | bin/transformnotion.py:66-85 | defines the preview: the first three texts of the children, joined by spaces; PageContentFirstThree is about it |
| TransformNotion.PageContentFirstThree | bin/transformnotion.py:85 | the preview is the first three texts, joined by spaces |
| TransformNotion.RedirectInfo | bin/transformnotion.py:40-90 | defines `get_redirected_url_and_content`: a truthy redirect with an empty title and preview, else the page's own URL with its title and preview; a fault from AlternativeUrl propagates. RedirectFallback is about it and GetRedirectedUrlAndContent is proved equal to it |
| TransformNotion.RedirectFallback | bin/transformnotion.py:59-90 | a truthy redirect is returned with an empty title and preview; otherwise the page's own URL is returned with its title |
| TransformNotion.GetRedirectedUrlAndContent | bin/transformnotion.py:40-90 | the method's outcome, including the faults that propagate, is RedirectInfo |
| TransformNotion.TextAroundLink | bin/transformnotion.py:151-179 | a paragraph of text, a link and text gives the three texts joined by spaces, with the link's text in the middle |
| TransformNotion.Leaves | bin/transformnotion.py:158-176 | defines the texts `extract_text` collects, in document order: a raw text's string, the texts of a link's or any other element's children, else a childless element's content. ExtractText is proved equal to it and TextAroundLink is about it |
| TransformNotion.ExtractText | bin/transformnotion.py:158-176 | the recursion appends the element's leaf texts in document order |
| TransformNotion.ExtractAll | bin/transformnotion.py:168-174 | the loop over children appends their leaf texts in order |
| TransformNotion.ExtractParagraphText | bin/transformnotion.py:151-179 | no element gives the empty text; an element gives its leaf texts joined by spaces |
| TransformNotion.LinkOutput | bin/transformnotion.py:119-148 | defines what `render_link` returns: the reference form when a definition matches, the link unchanged outside Notion or without a redirect, else the redirect, a space and the marker link to the page; a fault from the page lookup propagates. RefDefWins, ExternalPassThrough and InternalLink are about it |
| TransformNotion.LinkMisses | bin/transformnotion.py:137-146 | defines the missing-link record `render_link` adds: one exactly for an internal link with no matching definition and no redirect; RefDefWins, ExternalPassThrough, InternalLink and MissesFromPieces are about it |
| TransformNotion.RefDefWins | bin/transformnotion.py:124-136 | a link matching a reference definition is written in reference form and records no missing link |
| TransformNotion.ExternalPassThrough | bin/transformnotion.py:137-139 | a link outside Notion is rewritten unchanged and records nothing |
| TransformNotion.InternalLink | bin/transformnotion.py:140-148 | an internal link without a redirect is kept and recorded once, with its context, page title and preview; one with a redirect points at the redirect, followed by a space and the marker link to the page, and records nothing |
| TransformNotion.MissesFromPieces | bin/transformnotion.py:141-144 | every missing link recorded in a paragraph is an internal link of that paragraph, with the paragraph as context |
| TransformNotion.MissesFromDocument | bin/transformnotion.py:101-148 | every missing link recorded in a document is an internal link of one of its blocks, with that block's element as context |
| TransformNotion.DocumentOutput | bin/transformnotion.py:101-117 | defines the rendered document: each paragraph's children followed by a blank line, each list item's children, in order, up to the first fault; Renderer.RenderBlocks is proved to give it |
| TransformNotion.DocumentMisses | bin/transformnotion.py:101-148 | defines the missing links of a document, in order, each with the block it is found in as its context, up to the first fault; MissesFromDocument is about it and Renderer.RenderBlocks is proved to record it |
| TransformNotion.ProcessMissingLinks | bin/transformnotion.py:189-192 | one reported link per missing link, in order, with the same fields and the context element replaced by its text |
| TransformNotion.Renderer.constructor | bin/transformnotion.py:94-99 | no missing links, no chunks, no current paragraph or list item |
| TransformNotion.Renderer.RenderLink | bin/transformnotion.py:119-148 | renders the link as LinkOutput and appends its missing links with the current context; nothing else changes |
| TransformNotion.Renderer.RenderPiece | bin/transformnotion.py:105 | renders one child: text as it is, a link as RenderLink does |
| TransformNotion.Renderer.RenderPieces | bin/transformnotion.py:105 | renders the children in order, stopping at the first fault |
| TransformNotion.Renderer.RenderParagraph | bin/transformnotion.py:101-108 | renders the children with the paragraph as context and adds a blank line; the current paragraph is cleared only on success |
| TransformNotion.Renderer.RenderListItem | bin/transformnotion.py:110-117 | renders the children with the current paragraph, or else the item, as context; the current item is cleared only on success |
| TransformNotion.Renderer.RenderBlocks | bin/transformnotion.py:101-117 | rendering the blocks with nothing open gives DocumentOutput and appends exactly DocumentMisses; on success no paragraph or list item is left open |
| TransformNotion.TransformMarkdown | bin/transformnotion.py:182-194 | a fresh renderer renders the document: the text is DocumentOutput, and the reports are DocumentMisses in document order, each with its context element replaced by its text; a fault from a page lookup propagates |
| MarkdownLinks.EscapeQuotes | bin/transformnotion.py:122 | escaping never shortens a title |
| MarkdownLinks.UnescapeEscape | bin/transformnotion.py:122 | the escaped title can be read back |
| MarkdownLinks.QuotedTitle | bin/transformnotion.py:121-123 | a title is present exactly when the element's title is not empty, and is the escaped title in quotes |
| MarkdownLinks.FindLabel | bin/transformnotion.py:125-132 | a label is found exactly when some definition has the link's destination and quoted title, and it is the first such definition's key |
| MarkdownLinks.LabelFrom | bin/transformnotion.py:125-132 | the same search from a given definition on |
| MarkdownLinks.RefLinkForms | bin/transformnotion.py:133-136 | the short form `[label]` is written exactly when the label is the link text |
| TransformNotionLegacy.RedirectedUrl | scripts/transformnotion.py:13-23 | fails, with a TypeError, exactly when reading the magic key raises something other than KeyError or IndexError; otherwise a truthy redirect from the magic key, or the page's own URL |
| TransformNotionLegacy.MagicFaults | scripts/transformnotion.py:16-20 | reading the magic key raises only KeyError, IndexError or TypeError |
| TransformNotionLegacy.AgreesWithCurrent | scripts/transformnotion.py:18-22 | where the magic key can be read, the older rewriter picks the same destination as the current one |
| TransformNotionLegacy.LegacyLinkOutput | scripts/transformnotion.py:27-53 | defines this version's `render_link`: the reference form when a definition matches, the link unchanged outside Notion or without a redirect, else the redirect directly followed by the older marker link; LegacyRefDefWins, LegacyPassThrough, LegacyInternalLink and EmptyRedirectKeepsLink are about it |
| TransformNotionLegacy.LegacyRefDefWins | scripts/transformnotion.py:32-44 | a link matching a reference definition is written in reference form |
| TransformNotionLegacy.LegacyPassThrough | scripts/transformnotion.py:45-47 | a link outside Notion is kept as it is |
| TransformNotionLegacy.LegacyInternalLink | scripts/transformnotion.py:48-53 | an internal link is kept when there is no redirect and otherwise points at the redirect, followed directly by the older marker link |
| TransformNotionLegacy.EmptyRedirectKeepsLink | scripts/transformnotion.py:19-23 | an empty or missing redirect keeps the link |
| Notion2Monologue.FindHexRun | src/monologue_tools/notion2monologue.py:163 | the leftmost run of 32 hex digits, either case; none means there is no such run |
| Notion2Monologue.FilenameToNotionId | src/monologue_tools/notion2monologue.py:162-166 | succeeds exactly when the name holds 32 hex digits in a row; otherwise raises TypeError naming the file |
| Notion2Monologue.NotionIdShape | src/monologue_tools/notion2monologue.py:163-166 | the URL is the `filecoin` workspace prefix followed by the leftmost 32-digit run of the name |
| Notion2Monologue.ExportName | src/monologue_tools/notion2monologue.py:162-166 | an exported file named title, ID and suffix gives that ID, when the title ends in a non-hex character |
| Notion2Monologue.NoNotionIdInName | src/monologue_tools/notion2monologue.py:163-165 | a dated name with no ID is refused |
| Notion2Monologue.FirstHashLine | src/monologue_tools/notion2monologue.py:148-149 | the first line starting with `#`; none means no line does |
| Notion2Monologue.SubjectLine | src/monologue_tools/notion2monologue.py:146-159 | defines what `find_first_line_with_hash` returns: the first `#` line from its first date on, stripped; ValueError when that line has no date; "" when no line starts with `#`. SubjectStartsWithDate is about it and FindFirstLineWithHash is proved equal to it |
| Notion2Monologue.FindFirstLineWithHash | src/monologue_tools/notion2monologue.py:146-159 | the line loop gives the subject that SubjectLine defines: the first `#` line from its date on, stripped; a `#` line without a date raises; no `#` line gives "" |
| Notion2Monologue.StripKeepsDate | src/monologue_tools/notion2monologue.py:152-154 | stripping text that opens with a date keeps the date at its head |
| Notion2Monologue.SubjectStartsWithDate | src/monologue_tools/notion2monologue.py:146-159 | the subject is empty exactly when no line starts with `#`; otherwise it opens with the first date of the first `#` line |
| Notion2Monologue.LeadingControl | src/monologue_tools/notion2monologue.py:65 | `urlsplit` skips the leading run of control characters and spaces |
| Notion2Monologue.SchemeSplit | src/monologue_tools/notion2monologue.py:65 | a scheme holds only scheme characters |
| Notion2Monologue.NetlocEnd | src/monologue_tools/notion2monologue.py:65 | the network location ends at the first `/`, `?` or `#` |
| Notion2Monologue.SplitOnce | src/monologue_tools/notion2monologue.py:65 | splitting at the first occurrence of a character, or not at all when it is absent |
| Notion2Monologue.SplitParams | src/monologue_tools/notion2monologue.py:65 | the path without its `;` parameters is a prefix of the path |
| Notion2Monologue.NetlocSplit | src/monologue_tools/notion2monologue.py:65 | the network location holds no `/`, `?` or `#` |
| Notion2Monologue.PathSplit | src/monologue_tools/notion2monologue.py:65 | the path holds no `?` and no `#` |
| Notion2Monologue.UrlParse | src/monologue_tools/notion2monologue.py:65 | a parsed URL's network location and path hold no query or fragment |
| Notion2Monologue.UrlUnsplit | src/monologue_tools/notion2monologue.py:67 | defines `urlunsplit` without a query and a fragment; UnsplitKeepsOut is about it |
| Notion2Monologue.CleanNotionUrl | src/monologue_tools/notion2monologue.py:63-68 | defines `clean_notion_url`: the URL rebuilt from its scheme, network location and path, or the ValueError `urlparse` raises; CleanHasNoQueryOrFragment, CleanDropsQueryAndFragment and CleanOfParse are about it |
| Notion2Monologue.CleanHasNoQueryOrFragment | src/monologue_tools/notion2monologue.py:63-68 | a cleaned URL holds no `?` and no `#` |
| Notion2Monologue.UnsplitKeepsOut | src/monologue_tools/notion2monologue.py:67 | reassembling the parts adds no character other than `:` and `/` |
| Notion2Monologue.CleanDropsQueryAndFragment | src/monologue_tools/notion2monologue.py:63-68 | an HTTPS page URL with a query or fragment is cleaned to its scheme, host and path |
| Notion2Monologue.CleanOfParse | src/monologue_tools/notion2monologue.py:67 | the cleaned URL is the scheme, host and path reassembled |
| Notion2Monologue.ParsePageUrl | src/monologue_tools/notion2monologue.py:65 | an HTTPS page URL parses to its host and path |
| Notion2Monologue.Decimal | src/monologue_tools/notion2monologue.py:84 | a status code is written as one or more decimal digits |
| Notion2Monologue.GetDraftEmailsInfo | src/monologue_tools/notion2monologue.py:76-95 | a status other than 200 raises `Failed to fetch emails: <code>`; 200 gives the drafts indexed by the first date of their subject |
| Notion2Monologue.LexLe | src/monologue_tools/notion2monologue.py:233-236 | defines Python's `<=` on strings: character by character, with a prefix first; LexLeReflexive, LexLeTotal, LexLeAntisymmetric and LexLeTransitive are about it |
| Notion2Monologue.LexLeReflexive | src/monologue_tools/notion2monologue.py:233-236 | the timestamp comparison `<=` is reflexive |
| Notion2Monologue.LexLeTotal | src/monologue_tools/notion2monologue.py:233-236 | it is total |
| Notion2Monologue.LexLeAntisymmetric | src/monologue_tools/notion2monologue.py:233-236 | it is antisymmetric |
| Notion2Monologue.LexLeTransitive | src/monologue_tools/notion2monologue.py:233-236 | it is transitive |
| Notion2Monologue.ArchiveName | src/monologue_tools/notion2monologue.py:240-245 | the archive file name is the subject's first date followed by `.md`; a subject without a date raises ValueError naming it |
| Notion2Monologue.InboxStep | src/monologue_tools/notion2monologue.py:224-249 | defines one turn of the inbox loop: the ID and subject are read, a file no newer than its archived copy is skipped, otherwise the archived copy is removed before the archive name is computed; RemovesOnlyOlderCopy, ArchivedUnderSubjectDate and NoHeadingRemovesThenRaises are about it |
| Notion2Monologue.RemovesOnlyOlderCopy | src/monologue_tools/notion2monologue.py:225-238 | an archived file is removed only when it has the same Notion ID and an older timestamp |
| Notion2Monologue.ArchivedUnderSubjectDate | src/monologue_tools/notion2monologue.py:224-249 | a new or newer inbox file with a dated subject is written under that date with the Notion-Id, Last-Modified and Subject header |
| Notion2Monologue.NoHeadingRemovesThenRaises | src/monologue_tools/notion2monologue.py:231-244 | a newer file with no `#` line removes the archived copy and then raises on the empty subject |
| Notion2Monologue.NoSubheadingNeverExits | src/monologue_tools/notion2monologue.py:251-254 | as written, the `readline` loop never exits when no line starts with `##` |
| Notion2Monologue.SubheadinglessPageLoops | src/monologue_tools/notion2monologue.py:251-254 | a heading and one line of text is such a file |
| Notion2Monologue.SubheadingIndex | src/monologue_tools/notion2monologue.py:251-254 | the first line starting with `##`, or the end of the file |
| Notion2Monologue.SkipToSubheading | src/monologue_tools/notion2monologue.py:251-255 | the corrected loop stops at that line, or at the end, and reads it ("" at the end) |
| Notion2Monologue.SkipAgreesWhenItEnds | src/monologue_tools/notion2monologue.py:251-254 | wherever the loop as written exits, the corrected loop stops at the same line |
| Notion2Monologue.Truncated | src/monologue_tools/notion2monologue.py:288-293 | content of at most 200 characters is unchanged; longer content is its first 200 characters and `...` |
| Notion2Monologue.TruncatedIdempotent | src/monologue_tools/notion2monologue.py:288-293 | truncating twice is truncating once |
| Notion2Monologue.SnippetWindow | src/monologue_tools/notion2monologue.py:302-306 | the window lies in the context, holds the first occurrence of the link text and at most 150 characters either side, and starts or ends inside exactly when the context goes on further than that |
| Notion2Monologue.Snippet | src/monologue_tools/notion2monologue.py:300-311 | a snippet is taken exactly when the context is not empty and holds the link text |
| Notion2Monologue.SnippetBounds | src/monologue_tools/notion2monologue.py:300-311 | the snippet is at most the link text, 300 characters and two ellipses long, and opens with `...` when the link text starts more than 150 characters in |
| PreventInternalUrls.RunEnd | bin/prevent_internal_notion_urls.py:10 | the page-name run `[a-zA-Z0-9\-]+` extends greedily to the first character outside it |
| PreventInternalUrls.SchemeEnd | bin/prevent_internal_notion_urls.py:10-11 | `https?://` matches in any case, with the `s` optional |
| PreventInternalUrls.HostEnd | bin/prevent_internal_notion_urls.py:10-11 | the host is `notion.so/filecoin/`, optionally after `www.`, in any case |
| PreventInternalUrls.MatchAt | bin/prevent_internal_notion_urls.py:9-12 | a match at a position ends after it, inside the text |
| PreventInternalUrls.MatchShape | bin/prevent_internal_notion_urls.py:9-12 | a match opens with `http`, holds the Notion host and ends where the page-name run ends |
| PreventInternalUrls.MatchNoBracket | bin/prevent_internal_notion_urls.py:9-12 | no match holds a `[` |
| PreventInternalUrls.FindAll | bin/prevent_internal_notion_urls.py:37 | defines `findall`: the matches from left to right, each search resuming where the last match ended; FindAllMatches, NoMatchNoUrls and MatchFirst are about it |
| PreventInternalUrls.FindAllMatches | bin/prevent_internal_notion_urls.py:37 | every URL found is a match of the pattern in the content |
| PreventInternalUrls.NoMatchNoUrls | bin/prevent_internal_notion_urls.py:37 | content without a match gives no URLs |
| PreventInternalUrls.MatchFirst | bin/prevent_internal_notion_urls.py:37 | a match at the start is found first, and the search resumes after it |
| PreventInternalUrls.Allowed | bin/prevent_internal_notion_urls.py:15-24 | defines the allow-list test: the URL holds one of the three allowed patterns, in any case; PlaceholderNeverAllows is about it |
| PreventInternalUrls.PlaceholderNeverAllows | bin/prevent_internal_notion_urls.py:15-24 | the `[32-char-hex-id]` placeholder can never allow a found URL: a URL is allowed exactly when it holds the test ID or `example-` |
| PreventInternalUrls.Rejected | bin/prevent_internal_notion_urls.py:40-43 | the URLs kept are no more than those found |
| PreventInternalUrls.RejectedMembers | bin/prevent_internal_notion_urls.py:40-43 | an item is kept exactly when it is in the list and fails the test |
| PreventInternalUrls.RejectedConcat | bin/prevent_internal_notion_urls.py:40-43 | filtering a concatenation filters each part, keeping the order |
| PreventInternalUrls.Problematic | bin/prevent_internal_notion_urls.py:40-43 | defines the URLs reported: the found URLs that are not allowed, in the order found; Rejected and RejectedMembers are about it |
| PreventInternalUrls.CheckFile | bin/prevent_internal_notion_urls.py:27-51 | an unreadable file passes; otherwise the URLs reported are the found URLs that are not allowed, and the file passes exactly when there are none |
| PreventInternalUrls.FileFailsWhen | bin/prevent_internal_notion_urls.py:27-51 | a file fails exactly when it is readable and holds a found URL that is not allowed |
| PreventInternalUrls.RunHook | bin/prevent_internal_notion_urls.py:54-74 | with no file arguments the hook returns 0; otherwise the failed files are the arguments that fail, and the status is 1 exactly when there is one |
| PreventInternalUrls.HookFailsWhen | bin/prevent_internal_notion_urls.py:54-74 | the hook fails exactly when some file argument fails |
| PreventInternalUrls.FailedFiles | bin/prevent_internal_notion_urls.py:60-64 | defines the failed files: the arguments whose check fails, in argument order; FailedFilesExact and HookFailsWhen are about it |
| PreventInternalUrls.FailedFilesExact | bin/prevent_internal_notion_urls.py:60-64 | a path is listed exactly when it is an argument that fails, and the arguments are checked in order |

## Left out

- Character classes are ASCII. `\d` matches the ASCII digits only, where Python's also matches the other Unicode decimal digits. `re.IGNORECASE` folds ASCII letters only, so the non-ASCII characters Python also matches case-insensitively, such as U+212A KELVIN SIGN for `k` and U+017F LONG S for `s`, are not modelled in the URL pattern. `lower()` is modelled on ASCII letters; for the header-key test this is exact, because the only character outside ASCII that lowers to an ASCII letter is U+212A and no key holds a `k`.
- The network services are not modelled. Notion, Slack and Buttondown each become a log of the requests made. Their answers are parameters: the created page's ID and URL, the listed block IDs, the pages of channels, the email results and the Notion page record.
- Response handling is not modelled: `raise_for_status`, the dictionaries the clients return, and the HTTP status codes. The one exception is the status test in `get_draft_emails_info`, which raises.
- marko is not modelled. The parsed document is given as blocks of text and links, together with the reference definitions in dictionary order. The layout `super().render_list_item` gives an item (bin/transformnotion.py:114) is not modelled; the item's children are rendered in order.
- `URLRewritingMarkdownRenderer.content_chunks` is initialised and never used. The model keeps the field and proves that nothing changes it.
- Terminal output is not modelled: the `print` warnings, the `print_*` helpers and the report of missing links on stderr (bin/transformnotion.py:197-205).
- The I/O of `notion2monologue.main` is not modelled. This covers the glob of the archive and the inbox, zip extraction, `os.remove`, the file modification time, the `notion-exporter` subprocess, the `llm` subprocesses and their prompt text. What `main` decides is modelled one inbox file at a time: the notion ID, the subject, the skip rule, the removal and the archive name and header. The truncation and the snippet window of the prompt are modelled too.
- `export_notion_to_markdown` and `create_buttondown_draft` (src/monologue_tools/notion2monologue.py:98-143) are not modelled. They are a subprocess call and an HTTP request whose only outcome is printed.
- Notion2Monologue.UrlParse: only the parts of Python 3.11's `urlparse` that `clean_notion_url` depends on are modelled. These are the removal of leading control characters, tabs and line breaks, and the splitting of the scheme, network location, path, parameters, query and fragment. A network location with one square bracket but not the other raises ValueError. Python's further checks on a network location are not modelled: that a bracketed host is an IP address, and that NFKC normalisation adds no separator.
- TransformNotion.LinkOutput: a redirect that is not a string is written as "" rather than as its Python `str()`. Such a value is used only when it is truthy: a non-empty list or dictionary, `True`, or a non-zero number. The page records hold a string there.
- TransformNotion.ScannedUrl: requires the property keys to be distinct, as the keys of a Python dictionary are.
- PreventInternalUrls.CheckFile: `None` stands for a file that is missing or is not valid UTF-8, the two errors `check_file` catches. Decoding itself is not modelled. The other errors of opening a file, such as `PermissionError` and `IsADirectoryError`, are not caught by the source and end the hook; they are not modelled.
- PreventInternalUrls.CheckFile: the printed set of problematic URLs is not modelled (its order and its removal of duplicates). The method returns the list of problematic URLs instead.
- MarkdownUtils.Stem: the normalisation `PurePath` does first is not modelled. The model takes the text after the last `/` as the name, so a path ending in `/` or `/.` gives a different stem than Python does (for `2024-01-01/` the model's stem is empty, Python's is `2024-01-01`). The source reads the stem of a file it was given, whose path has none of these.
- PreventInternalUrls.MatchAt: the optional group `(?:-[a-f0-9]{32})?` can never match anything. The greedy `[a-zA-Z0-9\-]+` before it has already taken every dash and hex digit, so the model omits the group.
- SlackPost.SlackPublisher.ResolveChannelId: requires that the sequence of pages ends with a page without a next cursor. The source would request pages forever from a service that never stopped giving one.
- The behaviours that only the tests assert are not modelled, because the source does not have them. These are nested lists and image blocks in Notion, `write_metadata` and `---` front matter, and `update_message`.
- The legacy `transform_markdown` (scripts/transformnotion.py:56-59) is not modelled as a whole. It is the marko render with `render_link` replaced, and that `render_link` is modelled as TransformNotionLegacy.LegacyLinkOutput.
- src/monologue_tools/cli.py, src/monologue_tools/output.py, bin/inspect_notion_page.py and scripts/notion_export_to_archive.py are not part of this model. They are command-line plumbing, terminal output and debug or module-level I/O.

## Findings

| source | as written | input that shows it | evidently intended | confidence | as-written member | corrected member |
|---|---|---|---|---|---|---|
| src/monologue_tools/notion2monologue.py:251-254 | the `while True` loop calls `readline()` until a line starts with `##`. At the end of the file `readline()` returns `""`, which never does, so a page without a second-level heading is never exited | an inbox page with the lines `# 2024-01-01 Monday` and `Nothing else.` | stop skipping at the end of the file as well as at the first `##` line | not executed | Notion2Monologue.SubheadinglessPageLoops | Notion2Monologue.SkipToSubheading |

Notion2Monologue.NoSubheadingNeverExits shows the loop as written never exits on any file without a `##` line. Notion2Monologue.SkipAgreesWhenItEnds shows the corrected loop stops at the same line wherever the original does exit.

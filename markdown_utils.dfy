/** Parsing of a monologue entry: the archive header (`Key: value` lines up
    to the first blank line), the first `# ` heading, or a fallback, each
    giving a title, a date, a subject line and a stripped body. */
module MarkdownUtils {
  import opened Base
  import opened Text
  import opened IsoDate

  /** `MonologueEntry`; the source path is carried as its text. */
  datatype Entry = Entry(
    title: string,
    date: Date,
    subject: string,
    body: string,
    sourcePath: Option<string>,
    notionId: Option<string>,
    metadata: map<string, string>)

  /** `MonologueEntry.date_str`: the ISO text of the date, which parses
      back to the same date. */
  function DateStr(e: Entry): (r: string)
    requires ValidDate(e.date)
    ensures |r| == 10 && DateAt(r, 0) && FromIsoFormat(r) == Ok(e.date)
  {
    FromIsoFormatIsoFormat(e.date);
    IsoFormat(e.date)
  }

  /** The header keys the archive format recognises, lowercased. */
  const MetadataKeys: set<string> := {"notion-id", "last-modified", "subject", "buttondown-id"}

  /** What one line means to the header scan. */
  datatype HeaderRole = BlankLine | MetadataLine(key: string, value: string) | OtherLine

  /** A blank line ends the header; `key: value` with a recognised key
      (after stripping and lowercasing) is a header line, unless the line
      starts with `#`; anything else ends the scan. */
  function Role(line: string): (r: HeaderRole)
    ensures r.BlankLine? <==> AllSpace(line)
    ensures r.MetadataLine? ==> r.key in MetadataKeys && IsStripped(r.value)
  {
    StripEmpty(line);
    if Strip(line) == [] then BlankLine
    else if ':' in line && !StartsWith(line, "#") then
      var c := CharIndex(line, ':');
      var key := Lower(Strip(line[..c]));
      if key in MetadataKeys then MetadataLine(key, Strip(line[c + 1..])) else OtherLine
    else OtherLine
  }

  /** A line is a header line exactly when it is not blank, holds a colon,
      does not start with `#`, and the stripped text before its first colon
      lowercases to a recognised key; the key is that lowercased text and the
      value the stripped text after the colon. */
  lemma RoleMetadata(line: string)
    ensures Role(line).MetadataLine? <==>
      (!AllSpace(line) && ':' in line && !StartsWith(line, "#") && Lower(Strip(line[..CharIndex(line, ':')])) in MetadataKeys)
    ensures Role(line).MetadataLine? ==> var c := CharIndex(line, ':');
      Role(line).key == Lower(Strip(line[..c])) && Role(line).value == Strip(line[c + 1..])
  {
    StripEmpty(line);
  }

  /** `key:value` is a header line in whatever case its key is written,
      as long as the key holds no colon and the line does not start with
      `#`: the key is kept lowercased and the value stripped. */
  lemma HeaderLineAnyCase(key: string, value: string)
    requires ':' !in key && key != [] && key[0] != '#'
    requires Lower(Strip(key)) in MetadataKeys
    ensures Role(key + ":" + value) == MetadataLine(Lower(Strip(key)), Strip(value))
  {
    var line := key + ":" + value;
    var n := |key|;
    assert line[..n] == key && line[n] == ':' && line[n + 1..] == value;
    CharIndexIs(line, ':', n);
    assert !AllSpace(line) by {
      assert !IsSpace(':');
    }
    assert line[0] == key[0];
    NotStartsWithChar(line, '#');
    RoleMetadata(line);
  }

  /** The header scan from line `i` on, with `md` collected so far: the
      final metadata and `body_start` (the line after the blank line that
      ended the header, or 0 when the scan stopped without one). */
  function ScanFrom(lines: seq<string>, i: nat, md: map<string, string>): (r: (map<string, string>, nat))
    requires i <= |lines|
    ensures r.1 <= |lines|
    decreases |lines| - i
  {
    if i == |lines| then (md, 0)
    else match Role(lines[i])
      case BlankLine => (md, i + 1)
      case MetadataLine(k, v) => ScanFrom(lines, i + 1, md[k := v])
      case OtherLine => (md, 0)
  }

  function Header(lines: seq<string>): (map<string, string>, nat) {
    ScanFrom(lines, 0, map[])
  }

  /** The first line at or after `i` that is not a header line. */
  function HeaderEnd(lines: seq<string>, i: nat): (r: nat)
    requires i <= |lines|
    ensures i <= r <= |lines|
    ensures r < |lines| ==> !Role(lines[r]).MetadataLine?
    decreases |lines| - i
  {
    if i < |lines| && Role(lines[i]).MetadataLine? then HeaderEnd(lines, i + 1) else i
  }

  /** The `for i, line in enumerate(lines)` header loop with its `break`s. */
  method ScanHeader(lines: seq<string>) returns (metadata: map<string, string>, bodyStart: nat)
    ensures (metadata, bodyStart) == Header(lines)
  {
    metadata, bodyStart := map[], 0;
    var i := 0;
    while i < |lines|
      invariant i <= |lines|
      invariant ScanFrom(lines, i, metadata) == Header(lines)
    {
      var line := lines[i];
      if Strip(line) == [] {
        bodyStart := i + 1;
        break;
      }
      if ':' in line && !StartsWith(line, "#") {
        var c := CharIndex(line, ':');
        var key := Strip(line[..c]);
        if Lower(key) in MetadataKeys {
          metadata := metadata[Lower(key) := Strip(line[c + 1..])];
        } else {
          break;
        }
      } else {
        break;
      }
      i := i + 1;
    }
  }

  /** Only recognised keys are kept, each with a stripped value. */
  lemma {:induction false} ScanKeys(lines: seq<string>, i: nat, md: map<string, string>)
    requires i <= |lines|
    requires forall k :: k in md ==> k in MetadataKeys && IsStripped(md[k])
    ensures var m := ScanFrom(lines, i, md).0;
      forall k :: k in m ==> k in MetadataKeys && IsStripped(m[k])
    decreases |lines| - i
  {
    if i < |lines| {
      match Role(lines[i])
      case MetadataLine(k, v) => ScanKeys(lines, i + 1, md[k := v]);
      case _ =>
    }
  }

  /** `body_start` is the line after the first non-header line when that
      line is blank, and 0 when it is any other line or there is none. */
  lemma {:induction false} ScanBodyStart(lines: seq<string>, i: nat, md: map<string, string>)
    requires i <= |lines|
    ensures var f := HeaderEnd(lines, i);
      ScanFrom(lines, i, md).1 == (if f < |lines| && AllSpace(lines[f]) then f + 1 else 0)
    decreases |lines| - i
  {
    if i < |lines| {
      match Role(lines[i])
      case MetadataLine(k, v) => ScanBodyStart(lines, i + 1, md[k := v]);
      case _ =>
    }
  }

  /** `line` is a header line for `key`. */
  predicate Names(line: string, key: string) {
    Role(line).MetadataLine? && Role(line).key == key
  }

  /** A key ends up in the metadata exactly when it was there before or a
      header line names it. */
  lemma {:induction false} ScanKeySet(lines: seq<string>, i: nat, md: map<string, string>, key: string)
    requires i <= |lines|
    ensures key in ScanFrom(lines, i, md).0 <==>
      key in md || exists j :: i <= j < HeaderEnd(lines, i) && Names(lines[j], key)
    decreases |lines| - i
  {
    if i < |lines| && Role(lines[i]).MetadataLine? {
      var k, v := Role(lines[i]).key, Role(lines[i]).value;
      ScanKeySet(lines, i + 1, md[k := v], key);
      if key == k {
        assert Names(lines[i], key);
      }
      if exists j :: i <= j < HeaderEnd(lines, i) && Names(lines[j], key) {
        var j :| i <= j < HeaderEnd(lines, i) && Names(lines[j], key);
        if j == i {
          assert key == k;
        }
      }
    }
  }

  /** No line in `lines[i..e]` is a header line for `key`. */
  predicate NoneNames(lines: seq<string>, i: nat, e: nat, key: string) {
    forall j :: i <= j < e && j < |lines| ==> !Names(lines[j], key)
  }

  lemma NoneNamesBefore(lines: seq<string>, i: nat, e: nat, key: string)
    requires i < |lines| && !Names(lines[i], key) && NoneNames(lines, i + 1, e, key)
    ensures NoneNames(lines, i, e, key)
  {
    forall j | i <= j < e && j < |lines| ensures !Names(lines[j], key) {
      if j > i {
        assert i + 1 <= j;
      }
    }
  }

  /** Line `j` gives `key` the value `v` and no later line before `e`
      names `key` again. */
  predicate LastNames(lines: seq<string>, j: nat, e: nat, key: string, v: string) {
    j < |lines| && Role(lines[j]) == MetadataLine(key, v) && NoneNames(lines, j + 1, e, key)
  }

  /** Where the value `v` of `key` comes from after the scan of
      `lines[i..e]` starting from `md`: from `md`, with no line naming the
      key, or from the last line that names it. */
  predicate ValueOrigin(lines: seq<string>, i: nat, e: nat, md: map<string, string>, key: string, v: string) {
    || (key in md && v == md[key] && NoneNames(lines, i, e, key))
    || exists j :: i <= j < e && LastNames(lines, j, e, key, v)
  }

  /** Each value was given by the last header line naming its key, or was
      there before and no header line names the key. */
  lemma {:induction false} ScanValues(lines: seq<string>, i: nat, md: map<string, string>, key: string)
    requires i <= |lines|
    requires key in ScanFrom(lines, i, md).0
    ensures ValueOrigin(lines, i, HeaderEnd(lines, i), md, key, ScanFrom(lines, i, md).0[key])
    decreases |lines| - i
  {
    var v := ScanFrom(lines, i, md).0[key];
    var e := HeaderEnd(lines, i);
    if i < |lines| && Role(lines[i]).MetadataLine? {
      var k, x := Role(lines[i]).key, Role(lines[i]).value;
      var md' := md[k := x];
      assert e == HeaderEnd(lines, i + 1) && i < e;
      assert ScanFrom(lines, i, md) == ScanFrom(lines, i + 1, md');
      ScanValues(lines, i + 1, md', key);
      if key in md' && v == md'[key] && NoneNames(lines, i + 1, e, key) {
        if key == k {
          assert LastNames(lines, i, e, key, v);
          assert ValueOrigin(lines, i, e, md, key, v);
        } else {
          NoneNamesBefore(lines, i, e, key);
          assert key in md && v == md[key];
          assert ValueOrigin(lines, i, e, md, key, v);
        }
      } else {
        var j :| i + 1 <= j < e && LastNames(lines, j, e, key, v);
        assert i <= j < e;
        assert ValueOrigin(lines, i, e, md, key, v);
      }
    } else {
      assert e == i;
      assert ScanFrom(lines, i, md).0 == md;
      assert ValueOrigin(lines, i, e, md, key, v);
    }
  }

  /** `_parse_date_title`: the first `YYYY-MM-DD` gives the date and what
      follows it, without leading `:` and spaces and then stripped, the
      title; with no date, `today` and the stripped text. */
  function ParseDateTitle(text: string, today: Date): (r: Result<(Date, string)>)
    requires ValidDate(today)
    ensures r.Ok? ==> ValidDate(r.value.0) && IsStripped(r.value.1)
    ensures r.Err? <==> FindDate(text).Some? && !ValidDate(Fields(text[FindDate(text).value..FindDate(text).value + 10]))
    ensures r.Err? ==> r.error.ValueError?
    ensures FindDate(text).None? ==> r == Ok((today, Strip(text)))
  {
    match FindDate(text)
    case Some(k) =>
      (match FromIsoFormat(text[k..k + 10])
       case Err(e) => Err(e)
       case Ok(d) => Ok((d, Strip(LStripChars(text[k + 10..], {':', ' '})))))
    case None => Ok((today, Strip(text)))
  }

  /** Round trip: a date's ISO text, any run of `:` and spaces, and a
      stripped title that does not start with `:` parse back to that date
      and that title. */
  lemma DateTitleRoundTrip(d: Date, sep: string, title: string, today: Date)
    requires ValidDate(d) && ValidDate(today)
    requires forall i :: 0 <= i < |sep| ==> sep[i] in {':', ' '}
    requires IsStripped(title) && (title == [] || title[0] != ':')
    ensures ParseDateTitle(IsoFormat(d) + sep + title, today) == Ok((d, title))
  {
    var iso := IsoFormat(d);
    var text := iso + sep + title;
    assert DateAt(text, 0) by {
      assert forall i :: 0 <= i < 10 ==> text[i] == iso[i];
    }
    assert text[0..10] == iso;
    FromIsoFormatIsoFormat(d);
    assert text[10..] == sep + title;
    SkipSeparators(sep, title);
    StripStripped(title);
  }

  /** The subject form `<date>: <title>` in particular. */
  lemma SubjectParses(d: Date, title: string, today: Date)
    requires ValidDate(d) && ValidDate(today)
    requires IsStripped(title) && (title == [] || title[0] != ':')
    ensures ParseDateTitle(IsoFormat(d) + ": " + title, today) == Ok((d, title))
  {
    DateTitleRoundTrip(d, ": ", title, today);
  }

  lemma SkipSeparators(sep: string, title: string)
    requires forall i :: 0 <= i < |sep| ==> sep[i] in {':', ' '}
    requires title == [] || (title[0] != ':' && title[0] != ' ')
    ensures LStripChars(sep + title, {':', ' '}) == title
  {
    var s := sep + title;
    assert forall k :: 0 <= k < |sep| ==> s[k] in {':', ' '};
    assert title != [] ==> s[|sep|] !in {':', ' '};
    assert s[|sep|..] == title;
  }

  /** The first line at or after `i` that starts with `# `. */
  function FirstHeading(lines: seq<string>, i: nat): (r: Option<nat>)
    requires i <= |lines|
    ensures r.Some? ==> i <= r.value < |lines| && StartsWith(lines[r.value], "# ")
    ensures r.Some? ==> forall j :: i <= j < r.value ==> !StartsWith(lines[j], "# ")
    ensures r.None? ==> forall j :: i <= j < |lines| ==> !StartsWith(lines[j], "# ")
    decreases |lines| - i
  {
    if i == |lines| then None
    else if StartsWith(lines[i], "# ") then Some(i)
    else FirstHeading(lines, i + 1)
  }

  /** The `for i, line in enumerate(lines): if line.startswith("# ")` search. */
  method FindHeading(lines: seq<string>) returns (r: Option<nat>)
    ensures r == FirstHeading(lines, 0)
  {
    var i := 0;
    while i < |lines|
      invariant i <= |lines|
      invariant FirstHeading(lines, i) == FirstHeading(lines, 0)
    {
      if StartsWith(lines[i], "# ") {
        return Some(i);
      }
      i := i + 1;
    }
    return None;
  }

  /** `PurePath(path).stem` for a path given without a trailing separator:
      its last component without the final suffix. */
  function Stem(path: string): (r: string)
    ensures '/' !in r
  {
    var name := match LastIndex(path, '/') case Some(i) => path[i + 1..] case None => path;
    match LastIndex(name, '.')
    case Some(j) => if 0 < j < |name| - 1 then name[..j] else name
    case None => name
  }

  /** The fallback date: the first ISO date in the file's stem, else `today`. */
  function FallbackDate(sourcePath: Option<string>, today: Date): (r: Result<Date>)
    requires ValidDate(today)
    ensures r.Ok? ==> ValidDate(r.value)
    ensures sourcePath.None? ==> r == Ok(today)
  {
    match sourcePath
    case None => Ok(today)
    case Some(p) =>
      match FirstDateText(Stem(p))
      case None => Ok(today)
      case Some(t) => FromIsoFormat(t)
  }

  /** `parse_markdown(text, source_path)` with `date.today()` given as `today`. */
  function Parse(text: string, sourcePath: Option<string>, today: Date): (r: Result<Entry>)
    requires ValidDate(today)
    ensures r.Ok? ==> ValidDate(r.value.date) && IsStripped(r.value.body)
    ensures r.Ok? ==> r.value.sourcePath == sourcePath
  {
    var lines := Split(text, '\n');
    var (md, bodyStart) := Header(lines);
    if "subject" in md then
      var subject := md["subject"];
      match ParseDateTitle(subject, today)
      case Err(e) => Err(e)
      case Ok(dt) =>
        Ok(Entry(dt.1, dt.0, subject, Strip(Join("\n", lines[bodyStart..])), sourcePath,
                 if "notion-id" in md then Some(md["notion-id"]) else None, md))
    else
      match FirstHeading(lines, 0)
      case Some(i) =>
        var heading := Strip(lines[i][2..]);
        (match ParseDateTitle(heading, today)
         case Err(e) => Err(e)
         case Ok(dt) =>
           var subject := if dt.1 != [] then IsoFormat(dt.0) + ": " + dt.1 else heading;
           Ok(Entry(dt.1, dt.0, subject, Strip(Join("\n", lines[i + 1..])), sourcePath, None, map[])))
      case None =>
        match FallbackDate(sourcePath, today)
        case Err(e) => Err(e)
        case Ok(d) => Ok(Entry("Untitled", d, IsoFormat(d) + ": Untitled", Strip(text), sourcePath, None, map[]))
  }

  /** `parse_markdown`: the header loop, then the heading loop. */
  method ParseMarkdown(text: string, sourcePath: Option<string>, today: Date) returns (r: Result<Entry>)
    requires ValidDate(today)
    ensures r == Parse(text, sourcePath, today)
  {
    var lines := Split(text, '\n');
    var metadata, bodyStart := ScanHeader(lines);
    if "subject" in metadata {
      var subject := metadata["subject"];
      var dt := ParseDateTitle(subject, today);
      if dt.Err? {
        return Err(dt.error);
      }
      var notionId := if "notion-id" in metadata then Some(metadata["notion-id"]) else None;
      SubjectBranch(text, sourcePath, today, dt.value.0, dt.value.1);
      return Ok(Entry(dt.value.1, dt.value.0, subject, Strip(Join("\n", lines[bodyStart..])), sourcePath, notionId, metadata));
    }
    var h := FindHeading(lines);
    if h.Some? {
      var i := h.value;
      var heading := Strip(lines[i][2..]);
      var dt := ParseDateTitle(heading, today);
      if dt.Err? {
        return Err(dt.error);
      }
      var subject := if dt.value.1 != [] then IsoFormat(dt.value.0) + ": " + dt.value.1 else heading;
      HeadingBranch(text, sourcePath, today, i, dt.value.0, dt.value.1);
      return Ok(Entry(dt.value.1, dt.value.0, subject, Strip(Join("\n", lines[i + 1..])), sourcePath, None, map[]));
    }
    var d := FallbackDate(sourcePath, today);
    if d.Err? {
      return Err(d.error);
    }
    return Ok(Entry("Untitled", d.value, IsoFormat(d.value) + ": Untitled", Strip(text), sourcePath, None, map[]));
  }

  /** The ISO text of a date holds only digits and dashes. */
  lemma IsoFormatChars(d: Date)
    requires ValidDate(d)
    ensures forall i :: 0 <= i < 10 ==> IsDigit(IsoFormat(d)[i]) || IsoFormat(d)[i] == '-'
  {
  }

  /** The heading branch, once the header has no subject. */
  lemma HeadingBranch(text: string, sourcePath: Option<string>, today: Date, i: nat, d: Date, title: string)
    requires ValidDate(today) && ValidDate(d)
    requires var lines := Split(text, '\n');
      && "subject" !in Header(lines).0
      && FirstHeading(lines, 0) == Some(i)
      && ParseDateTitle(Strip(lines[i][2..]), today) == Ok((d, title))
    ensures var lines := Split(text, '\n');
      Parse(text, sourcePath, today) == Ok(Entry(title, d,
        if title != [] then IsoFormat(d) + ": " + title else Strip(lines[i][2..]),
        Strip(Join("\n", lines[i + 1..])), sourcePath, None, map[]))
  {
  }

  /** The archive branch, once the header has a subject. */
  lemma SubjectBranch(text: string, sourcePath: Option<string>, today: Date, d: Date, title: string)
    requires ValidDate(today)
    requires var lines := Split(text, '\n');
      && "subject" in Header(lines).0
      && ParseDateTitle(Header(lines).0["subject"], today) == Ok((d, title))
    ensures var lines := Split(text, '\n');
      var (md, bodyStart) := Header(lines);
      Parse(text, sourcePath, today) == Ok(Entry(title, d, md["subject"],
        Strip(Join("\n", lines[bodyStart..])), sourcePath,
        if "notion-id" in md then Some(md["notion-id"]) else None, md))
  {
  }

  /** A plain entry `# <date>: <title>` followed by a body parses to that
      date and title, the subject `<date>: <title>`, and the stripped body. */
  lemma PlainRoundTrip(d: Date, title: string, body: string, sourcePath: Option<string>, today: Date)
    requires ValidDate(d) && ValidDate(today)
    requires title != [] && IsStripped(title) && title[0] != ':' && '\n' !in title
    ensures var subject := IsoFormat(d) + ": " + title;
      Parse("# " + subject + "\n" + body, sourcePath, today)
        == Ok(Entry(title, d, subject, Strip(body), sourcePath, None, map[]))
  {
    var subject := IsoFormat(d) + ": " + title;
    var line := "# " + subject;
    var text := line + "\n" + body;
    SubjectNoNewline(d, title);
    SplitHead(line, '\n', body);
    var lines := Split(text, '\n');
    HeadingFirst(line, Split(body, '\n'));
    StrippedSubject(d, title);
    assert line[2..] == subject;
    SubjectParses(d, title, today);
    HeadingBranch(text, sourcePath, today, 0, d, title);
    assert lines[1..] == Split(body, '\n');
  }

  /** A first line that starts with `# ` is not a header line and is the
      first heading. */
  lemma HeadingFirst(line: string, rest: seq<string>)
    requires StartsWith(line, "# ")
    ensures Header([line] + rest).0 == map[]
    ensures FirstHeading([line] + rest, 0) == Some(0)
  {
    assert line[0] == '#';
    StripNonSpaceHead(line);
    assert StartsWith(line, "#");
    assert Role(line) == OtherLine;
    assert ([line] + rest)[0] == line;
  }

  lemma SubjectNoNewline(d: Date, title: string)
    requires ValidDate(d) && '\n' !in title
    ensures '\n' !in IsoFormat(d) + ": " + title
  {
    IsoFormatChars(d);
  }

  lemma StrippedSubject(d: Date, title: string)
    requires ValidDate(d) && title != [] && IsStripped(title)
    ensures IsStripped(IsoFormat(d) + ": " + title)
    ensures Strip(IsoFormat(d) + ": " + title) == IsoFormat(d) + ": " + title
  {
    var subject := IsoFormat(d) + ": " + title;
    IsoFormatChars(d);
    assert subject[0] == IsoFormat(d)[0];
    assert subject[|subject| - 1] == title[|title| - 1];
    StripStripped(subject);
  }

  /** An archive entry `Subject: <date>: <title>`, a blank line, and a body
      parses to the header's subject, its date and title, and the stripped
      body, whatever headings the body holds. */
  lemma ArchiveRoundTrip(d: Date, title: string, body: string, sourcePath: Option<string>, today: Date)
    requires ValidDate(d) && ValidDate(today)
    requires title != [] && IsStripped(title) && title[0] != ':' && '\n' !in title
    ensures var subject := IsoFormat(d) + ": " + title;
      Parse("Subject: " + subject + "\n\n" + body, sourcePath, today)
        == Ok(Entry(title, d, subject, Strip(body), sourcePath, None, map["subject" := subject]))
  {
    var subject := IsoFormat(d) + ": " + title;
    var text := "Subject: " + subject + "\n\n" + body;
    ArchiveHeader(d, title, body);
    var lines := Split(text, '\n');
    var md := Header(lines).0;
    assert md == map["subject" := subject];
    assert "notion-id" !in md;
    assert Join("\n", lines[2..]) == body;
    SubjectParses(d, title, today);
    SubjectBranch(text, sourcePath, today, d, title);
  }

  lemma ArchiveHeader(d: Date, title: string, body: string)
    requires ValidDate(d)
    requires title != [] && IsStripped(title) && '\n' !in title
    ensures var subject := IsoFormat(d) + ": " + title;
      var lines := Split("Subject: " + subject + "\n\n" + body, '\n');
      Header(lines) == (map["subject" := subject], 2) && lines[2..] == Split(body, '\n')
  {
    var subject := IsoFormat(d) + ": " + title;
    var line := "Subject: " + subject;
    SubjectNoNewline(d, title);
    ArchiveLines(line, body);
    var lines := Split(line + "\n\n" + body, '\n');
    StrippedSubject(d, title);
    SubjectHeaderLine(subject, line);
    SubjectHeader(line, subject, Split(body, '\n'));
    assert lines[2..] == Split(body, '\n');
  }

  lemma SubjectHeader(line: string, subject: string, rest: seq<string>)
    requires Role(line) == MetadataLine("subject", subject)
    ensures Header([line, ""] + rest) == (map["subject" := subject], 2)
  {
    var lines := [line, ""] + rest;
    var m := map[]["subject" := subject];
    assert m == map["subject" := subject];
    assert lines[1] == "";
    assert Role(lines[1]) == BlankLine;
    assert ScanFrom(lines, 1, m) == (m, 2);
    assert lines[0] == line;
    assert ScanFrom(lines, 0, map[]) == ScanFrom(lines, 1, m);
  }

  lemma ArchiveLines(line: string, body: string)
    requires '\n' !in line
    ensures Split(line + "\n\n" + body, '\n') == [line, ""] + Split(body, '\n')
  {
    var rest := "" + ['\n'] + body;
    assert line + "\n\n" + body == line + ['\n'] + rest;
    SplitHead(line, '\n', rest);
    SplitHead("", '\n', body);
  }

  lemma SubjectHeaderLine(subject: string, line: string)
    requires subject != [] && IsStripped(subject) && line == "Subject: " + subject
    ensures Role(line) == MetadataLine("subject", subject)
  {
    var key := "Subject";
    assert line == key + ":" + (" " + subject);
    SubjectKey(key, " " + subject);
    StripLeadingSpace(subject);
  }

  /** A line `Subject:<rest>` is a header line for the key `subject`. */
  lemma SubjectKey(key: string, rest: string)
    requires key == "Subject"
    ensures var line := key + ":" + rest;
      && Strip(line) != [] && ':' in line && !StartsWith(line, "#")
      && CharIndex(line, ':') == 7 && line[..7] == key && line[8..] == rest
      && Lower(Strip(key)) == "subject"
  {
    var line := key + ":" + rest;
    assert line[0] == 'S' && line[7] == ':';
    assert ':' !in key;
    assert line[..7] == key;
    StripNonSpaceHead(line);
    StripStripped(key);
    assert Lower(key) == "subject";
  }

  lemma StripLeadingSpace(s: string)
    requires s != [] && IsStripped(s)
    ensures Strip(" " + s) == s
  {
    var t := " " + s;
    assert SkipSpace(t, 1) == 1;
    assert SkipSpace(t, 0) == 1;
    assert BackSpace(t, |t|) == |t|;
    assert t[1..] == s;
  }

  /** A text with no `:` and no `#` has no header and no heading: its
      title is "Untitled", its date `today` and its body the whole text,
      stripped. */
  lemma FallbackUntitled(text: string, today: Date)
    requires ValidDate(today)
    requires ':' !in text && '#' !in text
    ensures Parse(text, None, today)
      == Ok(Entry("Untitled", today, IsoFormat(today) + ": Untitled", Strip(text), None, None, map[]))
  {
    var lines := Split(text, '\n');
    SplitAbsent(text, '\n', ':');
    SplitAbsent(text, '\n', '#');
    NoColonNoHeader(lines);
    NoHashNoHeading(lines);
    FallbackBranch(text, None, today, today);
  }

  /** The fallback branch, once there is neither a subject nor a heading. */
  lemma FallbackBranch(text: string, sourcePath: Option<string>, today: Date, d: Date)
    requires ValidDate(today)
    requires var lines := Split(text, '\n');
      && "subject" !in Header(lines).0
      && FirstHeading(lines, 0).None?
      && FallbackDate(sourcePath, today) == Ok(d)
    ensures Parse(text, sourcePath, today)
      == Ok(Entry("Untitled", d, IsoFormat(d) + ": Untitled", Strip(text), sourcePath, None, map[]))
  {
  }

  lemma NoColonNoHeader(lines: seq<string>)
    requires |lines| > 0 && ':' !in lines[0]
    ensures Header(lines).0 == map[]
  {
    assert !Role(lines[0]).MetadataLine?;
  }

  lemma NoHashNoHeading(lines: seq<string>)
    requires forall k :: 0 <= k < |lines| ==> '#' !in lines[k]
    ensures FirstHeading(lines, 0).None?
  {
    forall j | 0 <= j < |lines| ensures !StartsWith(lines[j], "# ") {
      NoHashNotHeading(lines[j]);
    }
  }

  lemma NoHashNotHeading(line: string)
    requires '#' !in line
    ensures !StartsWith(line, "# ")
  {
    if |line| >= 2 {
      assert line[..2][0] == line[0];
    }
  }

  /** A file whose stem holds a date takes that date when it has no
      header and no heading. */
  lemma FallbackDateOfStem(path: string, d: Date, today: Date)
    requires ValidDate(d) && ValidDate(today)
    requires FirstDateText(Stem(path)) == Some(IsoFormat(d))
    ensures FallbackDate(Some(path), today) == Ok(d)
  {
    FromIsoFormatIsoFormat(d);
  }
}

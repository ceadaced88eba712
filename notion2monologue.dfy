/** The decisions the Notion-to-archive script makes between its file and
    process I/O: the Notion id a file name carries, the subject line of an
    exported page, the cleaned page URL, the index of Buttondown drafts by
    date, when an inbox file replaces its archived copy and under which
    name, and the snippets and truncations put into a URL suggestion
    prompt. File contents, modification times and service responses are
    parameters. */
module Notion2Monologue {
  import opened Base
  import opened Text
  import opened IsoDate
  import Buttondown

  // ---------------------------------------------------------------------
  // filename_to_notion_id
  // ---------------------------------------------------------------------

  const NotionIdPrefix := "https://notion.so/filecoin/"

  /** `[a-fA-F0-9]{32}` matches `s` at position `k`. */
  predicate HexRunAt(s: string, k: int) {
    0 <= k && k + 32 <= |s| && forall j :: k <= j < k + 32 ==> IsHex(s[j])
  }

  /** The start of the leftmost run of 32 hexadecimal digits. */
  function FindHexRun(s: string): (r: Option<nat>)
    ensures r.Some? ==> HexRunAt(s, r.value)
    ensures r.Some? ==> forall k :: 0 <= k < r.value ==> !HexRunAt(s, k)
    ensures r.None? ==> forall k :: 0 <= k < |s| ==> !HexRunAt(s, k)
  {
    FindHexRunFrom(s, 0)
  }

  function FindHexRunFrom(s: string, i: nat): (r: Option<nat>)
    requires forall k :: 0 <= k < i ==> !HexRunAt(s, k)
    ensures r.Some? ==> i <= r.value && HexRunAt(s, r.value)
    ensures r.Some? ==> forall k :: 0 <= k < r.value ==> !HexRunAt(s, k)
    ensures r.None? ==> forall k :: 0 <= k < |s| ==> !HexRunAt(s, k)
    decreases |s| - i
  {
    if i + 32 > |s| then None
    else if HexRunAt(s, i) then Some(i)
    else FindHexRunFrom(s, i + 1)
  }

  /** `filename_to_notion_id`: the page URL built from the leftmost run of
      32 hexadecimal digits in the file name, or `TypeError` without one. */
  function FilenameToNotionId(fname: string): (r: Result<string>)
    ensures r.Ok? <==> exists k :: HexRunAt(fname, k)
    ensures r.Err? ==> r.error == TypeError("Could not find notion id in " + fname)
  {
    match FindHexRun(fname)
    case None => Err(TypeError("Could not find notion id in " + fname))
    case Some(k) => Ok(NotionIdPrefix + fname[k..k + 32])
  }

  /** The id is the prefix and the leftmost 32-digit run of the name. */
  lemma NotionIdShape(fname: string)
    requires FilenameToNotionId(fname).Ok?
    ensures var u := FilenameToNotionId(fname).value;
      && |u| == |NotionIdPrefix| + 32 && StartsWith(u, NotionIdPrefix)
      && exists k :: && HexRunAt(fname, k) && (forall j :: 0 <= j < k ==> !HexRunAt(fname, j))
                     && u[|NotionIdPrefix|..] == fname[k..k + 32]
  {
    var k := FindHexRun(fname).value;
    var u := FilenameToNotionId(fname).value;
    assert u == NotionIdPrefix + fname[k..k + 32];
    assert u[|NotionIdPrefix|..] == fname[k..k + 32];
  }

  /** An export name: a title ending in a character that is not a digit,
      at most 32 characters long, then the 32-digit page id, then the rest
      of the name. The id is the one found, whatever follows it. */
  lemma ExportName(title: string, id: string, rest: string)
    requires 0 < |title| <= 32 && !IsHex(title[|title| - 1])
    requires |id| == 32 && forall j :: 0 <= j < 32 ==> IsHex(id[j])
    ensures FilenameToNotionId(title + id + rest) == Ok(NotionIdPrefix + id)
  {
    var s := title + id + rest;
    var k := |title|;
    assert s[k - 1] == title[k - 1];
    forall j | k <= j < k + 32
      ensures IsHex(s[j])
    {
      assert s[j] == id[j - k];
    }
    assert HexRunAt(s, k);
    forall j | 0 <= j < k
      ensures !HexRunAt(s, j)
    {
      assert j <= k - 1 < j + 32;
    }
    assert s[k..k + 32] == id;
  }

  /** A name without an id raises. */
  lemma NoNotionIdInName()
    ensures FilenameToNotionId("20210401-This-is-a-test-with-no-id.md").Err?
  {
    var s := "20210401-This-is-a-test-with-no-id.md";
    assert !IsHex(s[8]);
    forall k | 0 <= k < |s|
      ensures !HexRunAt(s, k)
    {
      if k + 32 <= |s| {
        assert !IsHex(s[8]);
      }
    }
  }

  // ---------------------------------------------------------------------
  // find_first_line_with_hash
  // ---------------------------------------------------------------------

  /** The first line that starts with `#`. */
  function FirstHashLine(lines: seq<string>): (r: Option<nat>)
    ensures r.Some? ==> r.value < |lines| && StartsWith(lines[r.value], "#")
    ensures r.Some? ==> forall i :: 0 <= i < r.value ==> !StartsWith(lines[i], "#")
    ensures r.None? ==> forall i :: 0 <= i < |lines| ==> !StartsWith(lines[i], "#")
  {
    FirstHashFrom(lines, 0)
  }

  function FirstHashFrom(lines: seq<string>, i: nat): (r: Option<nat>)
    requires i <= |lines|
    requires forall j :: 0 <= j < i ==> !StartsWith(lines[j], "#")
    ensures r.Some? ==> i <= r.value < |lines| && StartsWith(lines[r.value], "#")
    ensures r.Some? ==> forall j :: 0 <= j < r.value ==> !StartsWith(lines[j], "#")
    ensures r.None? ==> forall j :: 0 <= j < |lines| ==> !StartsWith(lines[j], "#")
    decreases |lines| - i
  {
    if i == |lines| then None
    else if StartsWith(lines[i], "#") then Some(i)
    else FirstHashFrom(lines, i + 1)
  }

  /** What `find_first_line_with_hash` returns for a file of `lines`
      (each with its line end): the first heading line from its first date
      on, stripped; `ValueError` when that heading has no date; `""` when no
      line is a heading. */
  function SubjectLine(lines: seq<string>): Result<string> {
    match FirstHashLine(lines)
    case None => Ok("")
    case Some(i) =>
      match FindDate(lines[i])
      case None => Err(ValueError("Subject line does not contain a valid date: " + lines[i]))
      case Some(k) => Ok(Strip(lines[i][k..]))
  }

  /** The loop over the file's lines, leaving at the first heading. */
  method FindFirstLineWithHash(lines: seq<string>) returns (r: Result<string>)
    ensures r == SubjectLine(lines)
  {
    var i := 0;
    while i < |lines|
      invariant i <= |lines|
      invariant forall j :: 0 <= j < i ==> !StartsWith(lines[j], "#")
    {
      var line := lines[i];
      if StartsWith(line, "#") {
        var dateMatch := FindDate(line);
        if dateMatch.Some? {
          return Ok(Strip(line[dateMatch.value..]));
        }
        return Err(ValueError("Subject line does not contain a valid date: " + line));
      }
      i := i + 1;
    }
    return Ok("");
  }

  /** Stripping a text that starts with a date keeps the date in front. */
  lemma StripKeepsDate(s: string)
    requires DateAt(s, 0)
    ensures |Strip(s)| >= 10 && Strip(s)[..10] == s[..10]
  {
    StripSlice(s);
    var a, b := StripStart(s), StripEnd(s);
    assert !IsSpace(s[0]);
    assert a == 0;
    assert !IsSpace(s[9]);
  }

  /** A subject is either empty, exactly when the file has no heading, or
      starts with the first date of the first heading. */
  lemma SubjectStartsWithDate(lines: seq<string>)
    requires SubjectLine(lines).Ok?
    ensures var subject := SubjectLine(lines).value;
      && (subject == "" <==> FirstHashLine(lines).None?)
      && (subject != "" ==> (|subject| >= 10 && DateAt(subject, 0)
            && Some(subject[..10]) == FirstDateText(lines[FirstHashLine(lines).value])))
  {
    match FirstHashLine(lines)
    case None =>
    case Some(i) =>
      var k := FindDate(lines[i]).value;
      var rest := lines[i][k..];
      assert DateAt(rest, 0);
      StripKeepsDate(rest);
      var subject := Strip(rest);
      assert subject[..10] == rest[..10] == lines[i][k..k + 10];
  }

  // ---------------------------------------------------------------------
  // clean_notion_url: urlparse and urlunparse of Python 3.11
  // ---------------------------------------------------------------------

  /** C0 control characters and space, stripped from the front. */
  predicate IsControlOrSpace(c: char) {
    c <= ' '
  }

  /** The first index of `s` that is neither a control character nor
      space. */
  function LeadingControl(s: string, i: nat): (r: nat)
    requires i <= |s|
    ensures i <= r <= |s| && (r == |s| || !IsControlOrSpace(s[r]))
    decreases |s| - i
  {
    if i < |s| && IsControlOrSpace(s[i]) then LeadingControl(s, i + 1) else i
  }

  predicate IsSchemeChar(c: char) {
    IsAsciiLetter(c) || IsDigit(c) || c == '+' || c == '-' || c == '.'
  }

  /** The scheme before the first `:` when it starts with a letter and
      holds scheme characters only, lowered; the rest of the URL. */
  function SchemeSplit(url: string): (r: (string, string))
    ensures forall k :: 0 <= k < |r.0| ==> IsSchemeChar(r.0[k])
  {
    if ':' !in url then ("", url)
    else
      var i := CharIndex(url, ':');
      if i > 0 && IsAsciiLetter(url[0]) && (forall k :: 0 <= k < i ==> IsSchemeChar(url[k])) then
        (Lower(url[..i]), url[i + 1..])
      else ("", url)
  }

  /** The characters that end a network location. */
  predicate EndsNetloc(c: char) {
    c == '/' || c == '?' || c == '#'
  }

  /** The first index from `i` on that ends the network location. */
  function NetlocEnd(s: string, i: nat): (r: nat)
    requires i <= |s|
    ensures i <= r <= |s|
    ensures forall k :: i <= k < r ==> !EndsNetloc(s[k])
    ensures r == |s| || EndsNetloc(s[r])
    decreases |s| - i
  {
    if i < |s| && !EndsNetloc(s[i]) then NetlocEnd(s, i + 1) else i
  }

  /** `s.split(c, 1)` when `c` is in `s`, `(s, "")` otherwise. */
  function SplitOnce(s: string, c: char): (r: (string, string))
    ensures c !in r.0
    ensures c in s ==> s == r.0 + [c] + r.1
    ensures c !in s ==> r == (s, "")
  {
    if c in s then
      var i := CharIndex(s, c);
      assert s == s[..i] + [c] + s[i + 1..];
      (s[..i], s[i + 1..])
    else (s, "")
  }

  /** The schemes whose paths carry `;` parameters. */
  predicate UsesParams(scheme: string) {
    || scheme == "" || scheme == "ftp" || scheme == "hdl" || scheme == "prospero" || scheme == "http"
    || scheme == "imap" || scheme == "https" || scheme == "shttp" || scheme == "rtsp" || scheme == "rtsps"
    || scheme == "rtspu" || scheme == "sip" || scheme == "sips" || scheme == "mms" || scheme == "sftp"
    || scheme == "tel"
  }

  /** The schemes written with `//` before the network location. */
  predicate UsesNetloc(scheme: string) {
    || scheme == "" || scheme == "ftp" || scheme == "http" || scheme == "gopher" || scheme == "nntp"
    || scheme == "telnet" || scheme == "imap" || scheme == "wais" || scheme == "file" || scheme == "mms"
    || scheme == "https" || scheme == "shttp" || scheme == "snews" || scheme == "prospero" || scheme == "rtsp"
    || scheme == "rtsps" || scheme == "rtspu" || scheme == "rsync" || scheme == "svn" || scheme == "svn+ssh"
    || scheme == "sftp" || scheme == "nfs" || scheme == "git" || scheme == "git+ssh" || scheme == "ws"
    || scheme == "wss" || scheme == "itms-services"
  }

  /** The six components `urlparse` returns. */
  datatype Url = Url(scheme: string, netloc: string, path: string, params: string, query: string, fragment: string)

  /** `_splitparams`: the parameters start at the first `;` after the last
      `/`, or at the first `;` when there is no `/`. */
  function SplitParams(path: string): (r: (string, string))
    ensures |r.0| <= |path| && r.0 == path[..|r.0|]
  {
    match LastIndex(path, '/')
    case Some(j) =>
      if ';' in path[j..] then
        var i := j + CharIndex(path[j..], ';');
        (path[..i], path[i + 1..])
      else (path, "")
    case None =>
      if ';' in path then
        var i := CharIndex(path, ';');
        (path[..i], path[i + 1..])
      else (path, "")
  }

  /** Leading control characters and spaces dropped, tabs and line ends
      removed. */
  function Sanitized(url: string): string {
    RemoveChar(RemoveChar(RemoveChar(url[LeadingControl(url, 0)..], '\t'), '\r'), '\n')
  }

  /** `_splitnetloc`: the network location after `//`, up to the first
      `/`, `?` or `#`, and what follows it. */
  function NetlocSplit(rest: string): (r: (string, string))
    ensures forall k :: 0 <= k < |r.0| ==> !EndsNetloc(r.0[k])
  {
    if StartsWith(rest, "//") then
      var e := NetlocEnd(rest, 2);
      (rest[2..e], rest[e..])
    else ("", rest)
  }

  /** The path, the query and the fragment: the fragment after the first
      `#`, then the query after the first `?`. */
  function PathSplit(after: string): (r: (string, string, string))
    ensures '#' !in r.0 && '?' !in r.0
  {
    var (beforeFragment, fragment) := SplitOnce(after, '#');
    var (path, query) := SplitOnce(beforeFragment, '?');
    assert '#' !in path by {
      assert '?' in beforeFragment ==> beforeFragment == path + ['?'] + query;
    }
    (path, query, fragment)
  }

  /** `urlparse(url)`: the scheme, the network location, the fragment, the
      query and the parameters are split off in that order. A network
      location with one square bracket but not the other raises
      `ValueError`. */
  function UrlParse(url: string): (r: Result<Url>)
    ensures r.Ok? ==> forall k :: 0 <= k < |r.value.netloc| ==> !EndsNetloc(r.value.netloc[k])
    ensures r.Ok? ==> '#' !in r.value.path && '?' !in r.value.path
  {
    var (scheme, rest) := SchemeSplit(Sanitized(url));
    var (netloc, after) := NetlocSplit(rest);
    if ('[' in netloc) != (']' in netloc) then Err(ValueError("Invalid IPv6 URL"))
    else
      var (path, query, fragment) := PathSplit(after);
      if UsesParams(scheme) && ';' in path then
        var (p, params) := SplitParams(path);
        assert forall c :: c in p ==> c in path;
        Ok(Url(scheme, netloc, p, params, query, fragment))
      else Ok(Url(scheme, netloc, path, "", query, fragment))
  }

  /** `urlunsplit` without a query and a fragment: `//` and a `/` are put
      in front of the path when there is a network location, or when the
      scheme uses one and the path does not start with `//`. */
  function UrlUnsplit(scheme: string, netloc: string, path: string): string {
    var url :=
      if netloc != "" || (scheme != "" && UsesNetloc(scheme) && !StartsWith(path, "//")) then
        "//" + netloc + (if path != "" && path[0] != '/' then "/" + path else path)
      else path;
    if scheme != "" then scheme + ":" + url else url
  }

  /** `clean_notion_url`: the URL rebuilt from its scheme, network location
      and path alone. */
  function CleanNotionUrl(url: string): Result<string> {
    match UrlParse(url)
    case Err(e) => Err(e)
    case Ok(u) => Ok(UrlUnsplit(u.scheme, u.netloc, u.path))
  }

  /** A cleaned URL has neither a query nor a fragment left. */
  lemma CleanHasNoQueryOrFragment(url: string)
    requires CleanNotionUrl(url).Ok?
    ensures '?' !in CleanNotionUrl(url).value && '#' !in CleanNotionUrl(url).value
  {
    var u := UrlParse(url).value;
    assert '?' !in u.scheme && '#' !in u.scheme by {
      assert forall c :: c in u.scheme ==> IsSchemeChar(c);
    }
    assert '?' !in u.netloc && '#' !in u.netloc by {
      assert forall c :: c in u.netloc ==> !EndsNetloc(c);
    }
    UnsplitKeepsOut(u.scheme, u.netloc, u.path, '?');
    UnsplitKeepsOut(u.scheme, u.netloc, u.path, '#');
  }

  /** Rebuilding adds only `/` and `:` to the components. */
  lemma UnsplitKeepsOut(scheme: string, netloc: string, path: string, c: char)
    requires c !in scheme && c !in netloc && c !in path && c != '/' && c != ':'
    ensures c !in UrlUnsplit(scheme, netloc, path)
  {
  }

  /** A page URL keeps its host and path and loses whatever query or
      fragment follows them. */
  lemma CleanDropsQueryAndFragment(host: string, path: string, tail: string)
    requires host != [] && '[' !in host && ']' !in host
    requires forall k :: 0 <= k < |host| ==> !EndsNetloc(host[k])
    requires path == [] || path[0] == '/'
    requires '?' !in path && '#' !in path && ';' !in path
    requires tail == [] || tail[0] == '?' || tail[0] == '#'
    requires '\t' !in host + path + tail && '\r' !in host + path + tail && '\n' !in host + path + tail
    ensures CleanNotionUrl("https://" + host + path + tail) == Ok("https://" + host + path)
  {
    ParsePageUrl(host, path, tail);
    CleanOfParse(PageUrl(host, path, tail), host, path);
    PageUrlText(host, path, tail);
  }

  /** The two ways the lemmas above write a page URL. */
  lemma PageUrlText(host: string, path: string, tail: string)
    ensures PageUrl(host, path, tail) == "https://" + host + path + tail
    ensures "https" + ":" + ("//" + host + path) == "https://" + host + path
  {
    assert PageUrl(host, path, tail) == "https://" + host + path + tail;
  }

  /** A parse with the scheme `https`, a host and an absolute or empty
      path is rebuilt as `https://` followed by the host and the path. */
  lemma CleanOfParse(url: string, host: string, path: string)
    requires UrlParse(url).Ok? && UrlParse(url).value.scheme == "https"
    requires UrlParse(url).value.netloc == host && UrlParse(url).value.path == path
    requires host != [] && (path == [] || path[0] == '/')
    ensures CleanNotionUrl(url) == Ok("https" + ":" + ("//" + host + path))
  {
  }

  /** `https://` followed by a host, a path and a tail. */
  function PageUrl(host: string, path: string, tail: string): string {
    "https:" + ("//" + host + (path + tail))
  }

  /** Parsing such a URL finds the scheme `https`, the host and the path. */
  lemma ParsePageUrl(host: string, path: string, tail: string)
    requires host != [] && '[' !in host && ']' !in host
    requires forall k :: 0 <= k < |host| ==> !EndsNetloc(host[k])
    requires path == [] || path[0] == '/'
    requires '?' !in path && '#' !in path && ';' !in path
    requires tail == [] || tail[0] == '?' || tail[0] == '#'
    requires '\t' !in host + path + tail && '\r' !in host + path + tail && '\n' !in host + path + tail
    ensures UrlParse(PageUrl(host, path, tail)).Ok?
    ensures UrlParse(PageUrl(host, path, tail)).value.scheme == "https"
    ensures UrlParse(PageUrl(host, path, tail)).value.netloc == host
    ensures UrlParse(PageUrl(host, path, tail)).value.path == path
  {
    var after := path + tail;
    var rest := "//" + host + after;
    var url := "https:" + rest;
    assert Sanitized(url) == url by {
      SanitizedPlain(rest);
    }
    assert SchemeSplit(url) == ("https", rest) by {
      HttpsScheme(rest);
    }
    assert NetlocSplit(rest) == (host, after) by {
      assert after == [] || EndsNetloc(after[0]);
      NetlocOf(host, after);
    }
    assert PathSplit(after).0 == path by {
      PathOf(path, tail);
    }
    ParseSteps(url, rest, host, after, path);
  }

  /** The parse of a URL assembled from the results of its steps. */
  lemma ParseSteps(url: string, rest: string, host: string, after: string, path: string)
    requires Sanitized(url) == url && SchemeSplit(url) == ("https", rest)
    requires NetlocSplit(rest) == (host, after) && '[' !in host && ']' !in host
    requires PathSplit(after).0 == path && ';' !in path
    ensures UrlParse(url).Ok?
    ensures UrlParse(url).value.scheme == "https" && UrlParse(url).value.netloc == host
    ensures UrlParse(url).value.path == path
  {
  }

  /** A URL that starts with a visible character and holds no tab or line
      end is kept as it is before parsing. */
  lemma SanitizedPlain(rest: string)
    requires '\t' !in rest && '\r' !in rest && '\n' !in rest
    ensures Sanitized("https:" + rest) == "https:" + rest
  {
    var url := "https:" + rest;
    assert url[0] == 'h';
    assert url[LeadingControl(url, 0)..] == url;
    assert '\t' !in url && '\r' !in url && '\n' !in url;
  }

  /** The path ends at a query or fragment the path itself does not
      hold. */
  lemma PathOf(path: string, tail: string)
    requires '?' !in path && '#' !in path
    requires tail == [] || tail[0] == '?' || tail[0] == '#'
    ensures PathSplit(path + tail).0 == path
  {
    SplitOncePrefix(path, tail, '#');
    var t := SplitOnce(tail, '#').0;
    SplitOnceHead(tail, '#', '?');
    SplitOncePrefix(path, t, '?');
    SplitOnceHead(t, '?', '?');
  }

  /** `https:` is split off as the scheme. */
  lemma HttpsScheme(rest: string)
    ensures SchemeSplit("https:" + rest) == ("https", rest)
  {
    var url := "https:" + rest;
    var i := CharIndex(url, ':');
    assert url[5] == ':';
    assert url[..5] == "https";
    assert i == 5;
    assert Lower("https") == "https";
  }

  /** The network location runs up to the first `/`, `?` or `#`. */
  lemma NetlocOf(host: string, after: string)
    requires forall k :: 0 <= k < |host| ==> !EndsNetloc(host[k])
    requires after == [] || EndsNetloc(after[0])
    ensures NetlocSplit("//" + host + after) == (host, after)
  {
    var s := "//" + host + after;
    assert StartsWith(s, "//");
    assert NetlocEnd(s, 2) == 2 + |host| by {
      assert forall k :: 2 <= k < 2 + |host| ==> s[k] == host[k - 2];
      assert after != [] ==> s[2 + |host|] == after[0];
    }
    assert s[2..2 + |host|] == host && s[2 + |host|..] == after;
  }

  /** Splitting at a character the front does not hold splits the back. */
  lemma SplitOncePrefix(a: string, b: string, c: char)
    requires c !in a
    ensures SplitOnce(a + b, c).0 == a + SplitOnce(b, c).0
  {
    if c in b {
      var i := CharIndex(b, c);
      assert (a + b)[|a| + i] == c;
      var j := CharIndex(a + b, c);
      assert j == |a| + i by {
        assert c !in (a + b)[..|a|];
        assert (a + b)[..|a| + i] == a + b[..i];
      }
      assert (a + b)[..j] == a + b[..i];
    } else {
      assert c !in a + b;
    }
  }

  /** A text starting with the character splits into an empty front; one
      starting with another character `d` keeps `d` in front. */
  lemma SplitOnceHead(s: string, c: char, d: char)
    ensures s == [] || s[0] == c ==> SplitOnce(s, c).0 == []
    ensures s != [] && s[0] == d && d != c ==> SplitOnce(s, c).0 != [] && SplitOnce(s, c).0[0] == d
  {
    if s != [] && s[0] == c {
      assert CharIndex(s, c) == 0;
    }
  }

  // ---------------------------------------------------------------------
  // get_draft_emails_info
  // ---------------------------------------------------------------------

  /** `f"{n}"` for a natural number. */
  function Decimal(n: nat): (r: string)
    ensures |r| >= 1 && forall k :: 0 <= k < |r| ==> IsDigit(r[k])
    decreases n
  {
    if n < 10 then [DigitChar(n)] else Decimal(n / 10) + [DigitChar(n % 10)]
  }

  /** `get_draft_emails_info` on the service's answer: a status other than
      200 raises; otherwise each draft is filed under the first date of its
      subject, a later one replacing an earlier one. */
  method GetDraftEmailsInfo(statusCode: nat, results: seq<Buttondown.Email>) returns (r: Result<map<string, Buttondown.Email>>)
    ensures statusCode != 200 ==> r == Err(Exception("Failed to fetch emails: " + Decimal(statusCode)))
    ensures statusCode == 200 ==> r == Ok(Buttondown.DraftIndex(results))
  {
    if statusCode != 200 {
      return Err(Exception("Failed to fetch emails: " + Decimal(statusCode)));
    }
    var info := map[];
    var i := 0;
    while i < |results|
      invariant i <= |results|
      invariant info == Buttondown.DraftIndex(results[..i])
    {
      var email := results[i];
      assert results[..i + 1][..i] == results[..i];
      if email.status == "draft" {
        var dateMatch := FindDate(email.subject);
        if dateMatch.Some? {
          info := info[email.subject[dateMatch.value..dateMatch.value + 10] := email];
        }
      }
      i := i + 1;
    }
    assert results[..i] == results;
    return Ok(info);
  }

  // ---------------------------------------------------------------------
  // Archiving an inbox file
  // ---------------------------------------------------------------------

  /** Python's `<=` on strings: character by character, a prefix first. */
  predicate LexLe(a: string, b: string)
    decreases |a|
  {
    |a| == 0 || (|b| > 0 && (a[0] < b[0] || (a[0] == b[0] && LexLe(a[1..], b[1..]))))
  }

  lemma {:induction false} LexLeReflexive(a: string)
    ensures LexLe(a, a)
    decreases |a|
  {
    if |a| > 0 {
      LexLeReflexive(a[1..]);
    }
  }

  lemma {:induction false} LexLeTotal(a: string, b: string)
    ensures LexLe(a, b) || LexLe(b, a)
    decreases |a|
  {
    if |a| > 0 && |b| > 0 && a[0] == b[0] {
      LexLeTotal(a[1..], b[1..]);
    }
  }

  lemma {:induction false} LexLeAntisymmetric(a: string, b: string)
    requires LexLe(a, b) && LexLe(b, a)
    ensures a == b
    decreases |a|
  {
    if |a| > 0 {
      LexLeAntisymmetric(a[1..], b[1..]);
      assert a == [a[0]] + a[1..];
      assert b == [b[0]] + b[1..];
    }
  }

  lemma {:induction false} LexLeTransitive(a: string, b: string, c: string)
    requires LexLe(a, b) && LexLe(b, c)
    ensures LexLe(a, c)
    decreases |a|
  {
    if |a| > 0 && a[0] == b[0] && b[0] == c[0] {
      LexLeTransitive(a[1..], b[1..], c[1..]);
    }
  }

  /** What the archive index keeps of an archived file. */
  datatype ArchiveEntry = ArchiveEntry(filename: string, lastModified: string)

  /** An inbox file is skipped exactly when its page is archived and it
      was not modified after the archived copy. */
  predicate Skipped(notionId: string, lastModified: string, archive: map<string, ArchiveEntry>) {
    notionId in archive && LexLe(lastModified, archive[notionId].lastModified)
  }

  /** The archive file name: the subject's first date and `.md`. */
  function ArchiveName(subject: string): (r: Result<string>)
    ensures r.Ok? <==> FindDate(subject).Some?
    ensures r.Ok? ==> (|r.value| == 13 && DateAt(r.value, 0) && r.value[10..] == ".md"
      && Some(r.value[..10]) == FirstDateText(subject))
    ensures r.Err? ==> r.error == ValueError("Subject line does not contain a valid date: " + subject)
  {
    match FirstDateText(subject)
    case None => Err(ValueError("Subject line does not contain a valid date: " + subject))
    case Some(d) => Ok(d + ".md")
  }

  /** The header written in front of an archived page. */
  function ArchiveHeader(notionId: string, lastModified: string, subject: string): string {
    "Notion-Id: " + notionId + "\nLast-Modified: " + lastModified + "\nSubject: " + subject + "\n\n"
  }

  /** What happens to one inbox file. */
  datatype Step =
    | Skip
    | Write(removed: Option<string>, filename: string, header: string)
    | Raise(removed: Option<string>, error: PyError)

  /** One turn of the inbox loop: the id and the subject are read first,
      then a file no newer than its archived copy is skipped; otherwise the
      archived copy is removed before the archive name is computed. */
  function InboxStep(fname: string, lastModified: string, lines: seq<string>, archive: map<string, ArchiveEntry>): Step {
    match FilenameToNotionId(fname)
    case Err(e) => Raise(None, e)
    case Ok(notionId) =>
      match SubjectLine(lines)
      case Err(e) => Raise(None, e)
      case Ok(subject) =>
        if Skipped(notionId, lastModified, archive) then Skip
        else
          var removed := if notionId in archive then Some(archive[notionId].filename) else None;
          match ArchiveName(subject)
          case Err(e) => Raise(removed, e)
          case Ok(name) => Write(removed, name, ArchiveHeader(notionId, lastModified, subject))
  }

  /** Only an archived copy strictly older than the inbox file is ever
      removed, and only that page's copy. */
  lemma RemovesOnlyOlderCopy(fname: string, lastModified: string, lines: seq<string>, archive: map<string, ArchiveEntry>)
    ensures var step := InboxStep(fname, lastModified, lines, archive);
      !step.Skip? && step.removed.Some? ==>
        && FilenameToNotionId(fname).Ok?
        && var notionId := FilenameToNotionId(fname).value;
        && notionId in archive && step.removed.value == archive[notionId].filename
        && LexLe(archive[notionId].lastModified, lastModified)
        && archive[notionId].lastModified != lastModified
  {
    var step := InboxStep(fname, lastModified, lines, archive);
    if !step.Skip? && step.removed.Some? {
      var notionId := FilenameToNotionId(fname).value;
      LexLeTotal(lastModified, archive[notionId].lastModified);
      if archive[notionId].lastModified == lastModified {
        LexLeReflexive(lastModified);
      }
    }
  }

  /** A page with a heading that holds a date is archived under that
      date, with the header naming its id, time and subject. */
  lemma ArchivedUnderSubjectDate(fname: string, lastModified: string, lines: seq<string>, archive: map<string, ArchiveEntry>)
    requires FilenameToNotionId(fname).Ok?
    requires SubjectLine(lines).Ok? && SubjectLine(lines).value != ""
    requires !Skipped(FilenameToNotionId(fname).value, lastModified, archive)
    ensures var step := InboxStep(fname, lastModified, lines, archive); var subject := SubjectLine(lines).value;
      && step.Write?
      && step.filename == subject[..10] + ".md"
      && step.header == ArchiveHeader(FilenameToNotionId(fname).value, lastModified, subject)
  {
    var subject := SubjectLine(lines).value;
    SubjectStartsWithDate(lines);
    assert FindDate(subject) == Some(0);
  }

  /** A page with no heading at all still loses its archived copy before
      the missing date raises. */
  lemma NoHeadingRemovesThenRaises(fname: string, lastModified: string, lines: seq<string>, archive: map<string, ArchiveEntry>)
    requires FilenameToNotionId(fname).Ok?
    requires forall i :: 0 <= i < |lines| ==> !StartsWith(lines[i], "#")
    requires FilenameToNotionId(fname).value in archive
    requires !Skipped(FilenameToNotionId(fname).value, lastModified, archive)
    ensures InboxStep(fname, lastModified, lines, archive)
      == Raise(Some(archive[FilenameToNotionId(fname).value].filename),
               ValueError("Subject line does not contain a valid date: "))
  {
    assert FirstHashLine(lines) == None;
    assert FindDate("") == None;
  }

  // ---------------------------------------------------------------------
  // Copying the page body
  // ---------------------------------------------------------------------

  /** `readline()` after `n` lines: the next line, or `""` at the end. */
  function ReadLine(lines: seq<string>, n: nat): string {
    if n < |lines| then lines[n] else ""
  }

  /** As written, the copying loop reads until a line starts with `##`:
      it leaves after reading line `n` exactly when that is the first such
      line. */
  predicate LoopExitsAt(lines: seq<string>, n: nat) {
    StartsWith(ReadLine(lines, n), "##") && forall m :: 0 <= m < n ==> !StartsWith(ReadLine(lines, m), "##")
  }

  /** At the end of the file `readline()` keeps returning `""`, so a file
      without a `##` line never leaves the loop. */
  lemma NoSubheadingNeverExits(lines: seq<string>)
    requires forall i :: 0 <= i < |lines| ==> !StartsWith(lines[i], "##")
    ensures forall n: nat :: !LoopExitsAt(lines, n)
  {
  }

  /** A page with a heading and a paragraph but no second-level heading. */
  lemma SubheadinglessPageLoops()
    ensures forall n: nat :: !LoopExitsAt(["# 2024-01-01 Monday\n", "Nothing else.\n"], n)
  {
    var lines := ["# 2024-01-01 Monday\n", "Nothing else.\n"];
    assert lines[0][1] != '#';
    assert lines[1][0] != '#';
    NoSubheadingNeverExits(lines);
  }

  /** Where the corrected loop stops: the first `##` line, or the end of
      the file. */
  function SubheadingIndex(lines: seq<string>): (r: nat)
    ensures r <= |lines|
    ensures forall i :: 0 <= i < r ==> !StartsWith(lines[i], "##")
    ensures r < |lines| ==> StartsWith(lines[r], "##")
  {
    SubheadingFrom(lines, 0)
  }

  function SubheadingFrom(lines: seq<string>, i: nat): (r: nat)
    requires i <= |lines|
    requires forall j :: 0 <= j < i ==> !StartsWith(lines[j], "##")
    ensures i <= r <= |lines|
    ensures forall j :: 0 <= j < r ==> !StartsWith(lines[j], "##")
    ensures r < |lines| ==> StartsWith(lines[r], "##")
    decreases |lines| - i
  {
    if i == |lines| || StartsWith(lines[i], "##") then i else SubheadingFrom(lines, i + 1)
  }

  /** The copying loop, stopping at the end of the file as well: how many
      lines it read before the line it writes, and that line. */
  method SkipToSubheading(lines: seq<string>) returns (n: nat, line: string)
    ensures n == SubheadingIndex(lines) && line == ReadLine(lines, n)
  {
    n := 0;
    while n < |lines| && !StartsWith(lines[n], "##")
      invariant n <= |lines|
      invariant forall i :: 0 <= i < n ==> !StartsWith(lines[i], "##")
    {
      n := n + 1;
    }
    line := ReadLine(lines, n);
  }

  /** Whenever the loop as written ends, the corrected one ends at the same
      line. */
  lemma SkipAgreesWhenItEnds(lines: seq<string>, n: nat)
    requires LoopExitsAt(lines, n)
    ensures SubheadingIndex(lines) == n
  {
    var r := SubheadingIndex(lines);
    assert ReadLine(lines, n) == lines[n];
    assert r < |lines| ==> ReadLine(lines, r) == lines[r];
  }

  // ---------------------------------------------------------------------
  // The suggestion prompt
  // ---------------------------------------------------------------------

  const ContentLimit := 200
  const SnippetRadius := 150

  /** The page content as the prompt shows it: cut to 200 characters and
      marked with `...` when longer. */
  function Truncated(content: string): (r: string)
    ensures |content| <= ContentLimit ==> r == content
    ensures |content| > ContentLimit ==> |r| == ContentLimit + 3 && r[..ContentLimit] == content[..ContentLimit] && r[ContentLimit..] == "..."
  {
    if |content| > ContentLimit then content[..ContentLimit] + "..." else content
  }

  /** Truncating twice is truncating once. */
  lemma TruncatedIdempotent(content: string)
    ensures Truncated(Truncated(content)) == Truncated(content)
  {
    if |content| > ContentLimit {
      var t := Truncated(content);
      assert t[..ContentLimit] == content[..ContentLimit];
    }
  }

  /** The part of the context shown around the link text: up to 150
      characters on each side of its first occurrence. */
  function SnippetWindow(context: string, linkText: string): (r: (nat, nat))
    requires Contains(context, linkText)
    ensures r.0 <= r.1 <= |context|
    ensures var p := Find(context, linkText).value;
      && r.0 <= p && p + |linkText| <= r.1 && r.1 - r.0 <= |linkText| + 2 * SnippetRadius
      && OccursAt(context[r.0..r.1], linkText, p - r.0)
      && (r.0 > 0 <==> p > SnippetRadius)
      && (r.1 < |context| <==> p + |linkText| + SnippetRadius < |context|)
  {
    var p := Find(context, linkText).value;
    var start := if p - SnippetRadius > 0 then p - SnippetRadius else 0;
    var end := if p + |linkText| + SnippetRadius < |context| then p + |linkText| + SnippetRadius else |context|;
    SliceOfSlice(context, start, end, p - start, p - start + |linkText|);
    (start, end)
  }

  lemma SliceOfSlice(s: string, a: nat, b: nat, c: nat, d: nat)
    requires a <= b <= |s| && c <= d <= b - a
    ensures s[a..b][c..d] == s[a + c..a + d]
  {
    assert forall k :: 0 <= k < d - c ==> s[a..b][c..d][k] == s[a + c + k];
  }

  /** The snippet, when the context is not empty and holds the link text:
      the window stripped, with `...` on each side where it cuts the
      context short. */
  function Snippet(context: string, linkText: string): (r: Option<string>)
    ensures r.Some? <==> context != "" && Contains(context, linkText)
  {
    if context == "" || !Contains(context, linkText) then None
    else
      var (start, end) := SnippetWindow(context, linkText);
      Some((if start > 0 then "..." else "") + Strip(context[start..end]) + (if end < |context| then "..." else ""))
  }

  /** The snippet is never more than the window and the two marks, and it
      is marked on a side exactly when the context goes on past the window
      there. */
  lemma SnippetBounds(context: string, linkText: string)
    requires context != "" && Contains(context, linkText)
    ensures var s := Snippet(context, linkText).value; var p := Find(context, linkText).value;
      && |s| <= |linkText| + 2 * SnippetRadius + 6
      && (p > SnippetRadius ==> StartsWith(s, "..."))
      && (s != [] && s[0] != '.' ==> p <= SnippetRadius)
  {
    var (start, end) := SnippetWindow(context, linkText);
    var core := Strip(context[start..end]);
    var s := Snippet(context, linkText).value;
    if start > 0 {
      assert s == "..." + (core + (if end < |context| then "..." else ""));
    }
  }
}

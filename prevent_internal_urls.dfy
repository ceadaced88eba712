/** The pre-commit hook that refuses internal Notion URLs: every match of
    the internal-URL pattern in a file's text is checked against an
    allow-list of documentation placeholders, and a file with a match that
    no placeholder covers fails the hook. */
module PreventInternalUrls {
  import opened Base
  import opened Text

  /** `lit` occurs at `k` in `s`, letters compared without regard to
      case. */
  predicate LitAt(s: string, k: nat, lit: string) {
    k + |lit| <= |s| && forall j :: 0 <= j < |lit| ==> LowerChar(s[k + j]) == LowerChar(lit[j])
  }

  /** `re.search(lit, s, re.IGNORECASE)` for a pattern without special
      characters. */
  predicate ContainsAnyCase(s: string, lit: string) {
    exists k :: 0 <= k <= |s| - |lit| && LitAt(s, k, lit)
  }

  /** `[a-zA-Z0-9\-]` */
  predicate IsRunChar(c: char) {
    IsAsciiLetter(c) || IsDigit(c) || c == '-'
  }

  /** The end of the run of path characters starting at `k`. */
  function RunEnd(s: string, k: nat): (e: nat)
    requires k <= |s|
    ensures k <= e <= |s|
    ensures forall j :: k <= j < e ==> IsRunChar(s[j])
    ensures e == |s| || !IsRunChar(s[e])
    decreases |s| - k
  {
    if k == |s| || !IsRunChar(s[k]) then k else RunEnd(s, k + 1)
  }

  const WwwHost := "www.notion.so/filecoin/"
  const BareHost := "notion.so/filecoin/"

  /** Where `http`, an optional `s` and `://` starting at `i` end, or 0. */
  function SchemeEnd(s: string, i: nat): (j: nat)
    ensures j != 0 ==> LitAt(s, i, "http") && i + 7 <= j <= i + 8 && j <= |s| && LitAt(s, j - 3, "://")
    ensures j == i + 8 ==> LowerChar(s[i + 4]) == 's'
  {
    if !LitAt(s, i, "http") then 0
    else
      var j := if i + 4 < |s| && LowerChar(s[i + 4]) == 's' then i + 5 else i + 4;
      if LitAt(s, j, "://") then j + 3 else 0
  }

  /** Where an optional `www.` and `notion.so/filecoin/` starting at `k`
      end, or 0. */
  function HostEnd(s: string, k: nat): (h: nat)
    ensures h != 0 ==> k + |BareHost| <= h <= |s| && LitAt(s, h - |BareHost|, BareHost)
    ensures h != 0 ==> h == k + |BareHost| || (h == k + |WwwHost| && LitAt(s, k, WwwHost))
  {
    if LitAt(s, k, WwwHost) then
      WwwSuffix(s, k);
      k + |WwwHost|
    else if LitAt(s, k, BareHost) then k + |BareHost|
    else 0
  }

  /** `www.` followed by the host is the host after four characters. */
  lemma WwwSuffix(s: string, k: nat)
    requires LitAt(s, k, WwwHost)
    ensures LitAt(s, k + 4, BareHost)
  {
    assert forall m :: 0 <= m < |BareHost| ==> BareHost[m] == WwwHost[m + 4];
    forall m | 0 <= m < |BareHost|
      ensures LowerChar(s[k + 4 + m]) == LowerChar(BareHost[m])
    {
      assert LowerChar(s[k + (m + 4)]) == LowerChar(WwwHost[m + 4]);
    }
  }

  /** Where a match of the internal-URL pattern starting at `i` ends, if
      one starts there: `http`, an optional `s`, `://`, an optional
      `www.`, `notion.so/filecoin/` and the longest non-empty run of path
      characters. Each optional part is decided by the character that
      follows it, so trying it and then doing without it never finds a
      second match. The pattern's trailing optional `-` and 32 hex digits
      can only match the empty string after the greedy run, so it is left
      out. */
  function MatchAt(s: string, i: nat): (r: Option<nat>)
    ensures r.Some? ==> i < r.value <= |s|
  {
    var j := SchemeEnd(s, i);
    if j == 0 then None
    else
      var h := HostEnd(s, j);
      if h == 0 then None
      else
        var e := RunEnd(s, h);
        if e == h then None else Some(e)
  }

  /** `NOTION_URL_PATTERN.findall(s)`: the matches from left to right,
      the search going on where the last match ended. */
  function FindAll(s: string): seq<string> {
    FindAllFrom(s, 0)
  }

  function FindAllFrom(s: string, i: nat): seq<string>
    requires i <= |s|
    decreases |s| - i
  {
    if i == |s| then []
    else match MatchAt(s, i)
      case Some(e) => [s[i..e]] + FindAllFrom(s, e)
      case None => FindAllFrom(s, i + 1)
  }

  /** A text that matches a literal without square brackets has none
      there either. */
  lemma NoBracketAt(s: string, k: nat, lit: string)
    requires LitAt(s, k, lit) && '[' !in lit
    ensures forall m :: k <= m < k + |lit| ==> s[m] != '['
  {
    forall m | k <= m < k + |lit|
      ensures s[m] != '['
    {
      assert LowerChar(s[k + (m - k)]) == LowerChar(lit[m - k]);
      assert lit[m - k] in lit;
    }
  }

  /** A match starts with `http`, holds the Notion host and ends at a
      character that cannot continue it. */
  lemma MatchShape(s: string, i: nat)
    requires MatchAt(s, i).Some?
    ensures LitAt(s, i, "http")
    ensures exists k: nat :: LitAt(s, k, BareHost) && i < k && k + |BareHost| < MatchAt(s, i).value
    ensures MatchAt(s, i).value == |s| || !IsRunChar(s[MatchAt(s, i).value])
  {
    var h := HostEnd(s, SchemeEnd(s, i));
    assert LitAt(s, h - |BareHost|, BareHost);
  }

  /** A match holds no square bracket. */
  lemma MatchNoBracket(s: string, i: nat)
    requires MatchAt(s, i).Some?
    ensures '[' !in s[i..MatchAt(s, i).value]
  {
    var e := MatchAt(s, i).value;
    var j := SchemeEnd(s, i);
    var h := HostEnd(s, j);
    assert forall m :: i <= m < j ==> s[m] != '[' by {
      NoBracketAt(s, i, "http");
      NoBracketAt(s, j - 3, "://");
      assert j == i + 8 ==> s[i + 4] != '[';
    }
    assert forall m :: j <= m < h ==> s[m] != '[' by {
      NoBracketAt(s, h - |BareHost|, BareHost);
      if h != j + |BareHost| {
        NoBracketAt(s, j, WwwHost);
      }
    }
    assert forall m :: h <= m < e ==> s[m] != '[' by {
      assert forall m :: h <= m < e ==> IsRunChar(s[m]);
    }
    SliceWithout(s, i, e, '[');
  }

  /** A slice holds no `c` when no index in its range does. */
  lemma SliceWithout(s: string, i: nat, e: nat, c: char)
    requires i <= e <= |s|
    requires forall m :: i <= m < e ==> s[m] != c
    ensures c !in s[i..e]
  {
    assert forall m :: 0 <= m < e - i ==> s[i..e][m] == s[i + m];
  }

  /** Every item `findall` returns is a match of the pattern at some
      position of the text. */
  lemma {:induction false} FindAllMatches(s: string, i: nat)
    requires i <= |s|
    ensures forall m :: m in FindAllFrom(s, i) ==>
      exists p: nat :: i <= p && MatchAt(s, p).Some? && m == s[p..MatchAt(s, p).value]
    decreases |s| - i
  {
    if i < |s| {
      match MatchAt(s, i)
      case Some(e) =>
        FindAllMatches(s, e);
      case None =>
        FindAllMatches(s, i + 1);
    }
  }

  /** A text in which the pattern matches nowhere gives no match. */
  lemma {:induction false} NoMatchNoUrls(s: string, i: nat)
    requires i <= |s|
    requires forall p: nat :: i <= p < |s| ==> MatchAt(s, p).None?
    ensures FindAllFrom(s, i) == []
    decreases |s| - i
  {
    if i < |s| {
      NoMatchNoUrls(s, i + 1);
    }
  }

  /** A match found at the start of the text comes first, and the search
      goes on after it. */
  lemma MatchFirst(s: string)
    requires |s| > 0 && MatchAt(s, 0).Some?
    ensures FindAll(s) == [s[..MatchAt(s, 0).value]] + FindAllFrom(s, MatchAt(s, 0).value)
  {
  }

  const PlaceholderAllowed := "notion.so/filecoin/[32-char-hex-id]"
  const TestIdAllowed := "notion.so/filecoin/abcdef123456abcdef123456abcdef12"
  const ExampleAllowed := "notion.so/filecoin/example-"

  /** `ALLOWED_REGEX.search(url)`: the URL holds one of the placeholders. */
  predicate Allowed(url: string) {
    ContainsAnyCase(url, PlaceholderAllowed) || ContainsAnyCase(url, TestIdAllowed)
      || ContainsAnyCase(url, ExampleAllowed)
  }

  /** The bracketed placeholder never allows a match: a match holds no
      square bracket, so only the other two placeholders decide. */
  lemma PlaceholderNeverAllows(s: string, i: nat)
    requires MatchAt(s, i).Some?
    ensures var url := s[i..MatchAt(s, i).value];
      Allowed(url) <==> ContainsAnyCase(url, TestIdAllowed) || ContainsAnyCase(url, ExampleAllowed)
  {
    var url := s[i..MatchAt(s, i).value];
    MatchNoBracket(s, i);
    assert PlaceholderAllowed[19] == '[';
    forall k | 0 <= k <= |url| - |PlaceholderAllowed|
      ensures !LitAt(url, k, PlaceholderAllowed)
    {
      assert url[k + 19] in url;
      assert LowerChar(url[k + 19]) != LowerChar(PlaceholderAllowed[19]);
    }
  }

  /** The items of `xs` that do not pass, in their order: what a loop
      appending each failing item to a list builds. */
  function Rejected<T>(xs: seq<T>, pass: T -> bool): (r: seq<T>)
    ensures |r| <= |xs|
  {
    if |xs| == 0 then []
    else (if pass(xs[0]) then [] else [xs[0]]) + Rejected(xs[1..], pass)
  }

  /** An item is rejected exactly when it is one of the items and fails. */
  lemma {:induction false} RejectedMembers<T>(xs: seq<T>, pass: T -> bool, x: T)
    ensures x in Rejected(xs, pass) <==> x in xs && !pass(x)
    decreases |xs|
  {
    if |xs| > 0 {
      RejectedMembers(xs[1..], pass, x);
      assert xs == [xs[0]] + xs[1..];
    }
  }

  /** Rejection keeps the order of the items: the rejects of two runs one
      after the other are the first run's rejects followed by the
      second's. */
  lemma {:induction false} RejectedConcat<T>(a: seq<T>, b: seq<T>, pass: T -> bool)
    ensures Rejected(a + b, pass) == Rejected(a, pass) + Rejected(b, pass)
    decreases |a|
  {
    if |a| == 0 {
      assert a + b == b;
    } else {
      RejectedConcat(a[1..], b, pass);
      var head := if pass(a[0]) then [] else [a[0]];
      assert (a + b)[0] == a[0] && (a + b)[1..] == a[1..] + b;
      assert Rejected(a + b, pass) == head + (Rejected(a[1..], pass) + Rejected(b, pass));
      assert Rejected(a, pass) == head + Rejected(a[1..], pass);
    }
  }

  /** One step of the loop: the rejects from `i` on are the item at `i`
      if it fails, then the rejects after it. */
  lemma RejectedStep<T>(done: seq<T>, xs: seq<T>, i: nat, pass: T -> bool)
    requires i < |xs|
    ensures done + Rejected(xs[i..], pass)
      == (done + if pass(xs[i]) then [] else [xs[i]]) + Rejected(xs[i + 1..], pass)
  {
    assert xs[i..][0] == xs[i] && xs[i..][1..] == xs[i + 1..];
    var head := if pass(xs[i]) then [] else [xs[i]];
    assert Rejected(xs[i..], pass) == head + Rejected(xs[i + 1..], pass);
    assert done + (head + Rejected(xs[i + 1..], pass)) == (done + head) + Rejected(xs[i + 1..], pass);
  }

  /** The matches no placeholder allows, in the order found. */
  function Problematic(urls: seq<string>): seq<string> {
    Rejected(urls, Allowed)
  }

  /** `check_file`, with the file's text given as `content`; `None`
      stands for a file that is missing or is not UTF-8, which passes.
      `reported` holds the URLs the hook prints. */
  method CheckFile(content: Option<string>) returns (passes: bool, reported: seq<string>)
    ensures content.None? ==> passes && reported == []
    ensures content.Some? ==> reported == Problematic(FindAll(content.value))
    ensures passes <==> reported == []
  {
    if content.None? {
      return true, [];
    }
    var matches := FindAll(content.value);
    reported := [];
    var i := 0;
    while i < |matches|
      invariant i <= |matches|
      invariant reported + Rejected(matches[i..], Allowed) == Rejected(matches, Allowed)
    {
      RejectedStep(reported, matches, i, Allowed);
      if !Allowed(matches[i]) {
        reported := reported + [matches[i]];
      }
      i := i + 1;
    }
    passes := reported == [];
  }

  /** Whether the file at `path` passes; `files` maps each readable file
      to its text. */
  predicate FilePasses(files: map<string, string>, path: string) {
    path !in files || Problematic(FindAll(files[path])) == []
  }

  /** A file fails exactly when one of its matches is not allowed. */
  lemma FileFailsWhen(files: map<string, string>, path: string)
    ensures !FilePasses(files, path) <==>
      path in files && exists u :: u in FindAll(files[path]) && !Allowed(u)
  {
    if path in files {
      var urls := FindAll(files[path]);
      if Problematic(urls) != [] {
        RejectedMembers(urls, Allowed, Problematic(urls)[0]);
      }
      forall u | u in urls && !Allowed(u)
        ensures Problematic(urls) != []
      {
        RejectedMembers(urls, Allowed, u);
      }
    }
  }

  /** The check of each file as a function of its path. */
  function PassesIn(files: map<string, string>): string -> bool {
    path => FilePasses(files, path)
  }

  /** The arguments whose check fails, in argument order. */
  function FailedFiles(paths: seq<string>, files: map<string, string>): seq<string> {
    Rejected(paths, PassesIn(files))
  }

  /** `main`, with `argv` standing for `sys.argv`: the exit status and the
      files that failed. */
  method RunHook(argv: seq<string>, files: map<string, string>) returns (status: nat, failed: seq<string>)
    ensures |argv| < 2 ==> status == 0 && failed == []
    ensures |argv| >= 2 ==> failed == FailedFiles(argv[1..], files)
    ensures status == (if failed == [] then 0 else 1)
  {
    if |argv| < 2 {
      return 0, [];
    }
    var paths := argv[1..];
    failed := [];
    var i := 0;
    while i < |paths|
      invariant i <= |paths|
      invariant failed + Rejected(paths[i..], PassesIn(files)) == Rejected(paths, PassesIn(files))
    {
      RejectedStep(failed, paths, i, PassesIn(files));
      var content := if paths[i] in files then Some(files[paths[i]]) else None;
      var passes, _ := CheckFile(content);
      assert passes == PassesIn(files)(paths[i]) by {
        assert PassesIn(files)(paths[i]) == FilePasses(files, paths[i]);
      }
      if !passes {
        failed := failed + [paths[i]];
      }
      i := i + 1;
    }
    status := if failed == [] then 0 else 1;
  }

  /** The hook fails exactly when some file argument fails its check. */
  lemma HookFailsWhen(argv: seq<string>, files: map<string, string>)
    ensures |argv| >= 2 && FailedFiles(argv[1..], files) != [] <==>
      exists i :: 1 <= i < |argv| && !FilePasses(files, argv[i])
  {
    if |argv| >= 2 {
      var paths := argv[1..];
      if FailedFiles(paths, files) != [] {
        RejectedMembers(paths, PassesIn(files), FailedFiles(paths, files)[0]);
      }
      forall i | 1 <= i < |argv| && !FilePasses(files, argv[i])
        ensures FailedFiles(paths, files) != []
      {
        assert argv[i] == paths[i - 1];
        RejectedMembers(paths, PassesIn(files), argv[i]);
      }
    }
  }

  /** The failed list names exactly the failing arguments, in argument
      order. */
  lemma FailedFilesExact(paths: seq<string>, more: seq<string>, files: map<string, string>, p: string)
    ensures p in FailedFiles(paths, files) <==> p in paths && !FilePasses(files, p)
    ensures FailedFiles(paths + more, files) == FailedFiles(paths, files) + FailedFiles(more, files)
  {
    RejectedMembers(paths, PassesIn(files), p);
    RejectedConcat(paths, more, PassesIn(files));
  }
}

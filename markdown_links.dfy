/** The parts of `render_link` the two link rewriters share: the quoting
    of a link title, the search of the document's link reference
    definitions, and the text of reference-style and inline links. */
module MarkdownLinks {
  import opened Base
  import opened Text

  /** The prefix of the internal page links that get rewritten. */
  const NotionPrefix := "https://www.notion.so/"

  /** `title.replace('"', '\\"')` */
  function EscapeQuotes(s: string): (r: string)
    ensures |r| >= |s|
  {
    if |s| == 0 then ""
    else (if s[0] == '"' then "\\\"" else [s[0]]) + EscapeQuotes(s[1..])
  }

  /** Reading an escaped title back: `\"` stands for `"`. */
  function UnescapeQuotes(s: string): string
    decreases |s|
  {
    if |s| >= 2 && s[0] == '\\' && s[1] == '"' then "\"" + UnescapeQuotes(s[2..])
    else if |s| == 0 then ""
    else [s[0]] + UnescapeQuotes(s[1..])
  }

  /** Escaping loses nothing: the original title can be read back. */
  lemma {:induction false} UnescapeEscape(s: string)
    ensures UnescapeQuotes(EscapeQuotes(s)) == s
    decreases |s|
  {
    if |s| > 0 {
      UnescapeEscape(s[1..]);
      var e := EscapeQuotes(s[1..]);
      if s[0] == '"' {
        assert EscapeQuotes(s) == "\\\"" + e;
        assert (EscapeQuotes(s))[2..] == e;
      } else if s[0] == '\\' {
        assert EscapeQuotes(s) == ['\\'] + e;
        EscapeNoBareQuote(s[1..]);
        assert EscapeQuotes(s)[1..] == e;
      } else {
        assert EscapeQuotes(s) == [s[0]] + e;
        assert EscapeQuotes(s)[1..] == e;
      }
    }
  }

  /** An escaped text never starts with a quote: every quote in it comes
      after the backslash put in front of it. */
  lemma EscapeNoBareQuote(s: string)
    ensures EscapeQuotes(s) == [] || EscapeQuotes(s)[0] != '"'
  {
  }

  /** `'"{}"'.format(title.replace('"', '\\"')) if title else None` */
  function QuotedTitle(title: string): (r: Option<string>)
    ensures r.Some? <==> title != ""
    ensures r.Some? ==> |r.value| >= 2 && r.value[0] == '"' && r.value[|r.value| - 1] == '"'
    ensures r.Some? ==> UnescapeQuotes(r.value[1..|r.value| - 1]) == title
  {
    if title == "" then None
    else
      var q := "\"" + EscapeQuotes(title) + "\"";
      assert q[1..|q| - 1] == EscapeQuotes(title);
      UnescapeEscape(title);
      Some(q)
  }

  /** ` {link_title}` when there is a title. */
  function TitleSuffix(linkTitle: Option<string>): string {
    match linkTitle
    case Some(t) => " " + t
    case None => ""
  }

  /** One entry of the document's link reference definitions, in the order
      the dictionary holds them. */
  datatype RefDef = RefDef(key: string, dest: string, title: Option<string>)

  /** The key of the first definition whose destination and title are the
      link's. */
  function FindLabel(defs: seq<RefDef>, dest: string, linkTitle: Option<string>): (r: Option<string>)
    ensures r.Some? <==> exists i :: 0 <= i < |defs| && defs[i].dest == dest && defs[i].title == linkTitle
    ensures r.Some? ==> exists i ::
      && 0 <= i < |defs| && defs[i].dest == dest && defs[i].title == linkTitle && defs[i].key == r.value
      && forall j :: 0 <= j < i ==> !(defs[j].dest == dest && defs[j].title == linkTitle)
  {
    LabelFrom(defs, dest, linkTitle, 0)
  }

  function LabelFrom(defs: seq<RefDef>, dest: string, linkTitle: Option<string>, i: nat): (r: Option<string>)
    requires i <= |defs|
    requires forall j :: 0 <= j < i ==> !(defs[j].dest == dest && defs[j].title == linkTitle)
    ensures r.Some? <==> exists k :: i <= k < |defs| && defs[k].dest == dest && defs[k].title == linkTitle
    ensures r.Some? ==> exists k ::
      && i <= k < |defs| && defs[k].dest == dest && defs[k].title == linkTitle && defs[k].key == r.value
      && forall j :: 0 <= j < k ==> !(defs[j].dest == dest && defs[j].title == linkTitle)
    decreases |defs| - i
  {
    if i == |defs| then None
    else if defs[i].dest == dest && defs[i].title == linkTitle then Some(defs[i].key)
    else LabelFrom(defs, dest, linkTitle, i + 1)
  }

  /** A link written against a reference definition: `[key]` when the
      key is the link text, `[text][key]` otherwise. */
  function RefLink(text: string, key: string): string {
    if key == text then "[" + key + "]" else "[" + text + "][" + key + "]"
  }

  /** `[text](dest title)` */
  function InlineLink(text: string, dest: string, linkTitle: Option<string>): string {
    "[" + text + "](" + dest + TitleSuffix(linkTitle) + ")"
  }

  /** The two reference forms are told apart by their text alone. */
  lemma RefLinkForms(text: string, key: string)
    ensures RefLink(text, key) == "[" + text + "]" <==> key == text
  {
    if key != text {
      var long := "[" + text + "][" + key + "]";
      assert |long| > |"[" + text + "]"|;
    }
  }
}

/** The older internal-link rewriter: the redirect is read under the
    magic key only, nothing is recorded about links without a redirect,
    and the marker link follows the rewritten link with no space. */
module TransformNotionLegacy {
  import opened Base
  import opened Text
  import opened MarkdownLinks
  import opened TransformNotion

  /** The marker link's text in this version. */
  const LegacyMarker := "\U{1F13D}"

  /** `get_redirected_url`: the magic key's value when it can be read and
      is truthy, the page's own URL after a `KeyError`, an `IndexError` or
      an empty value; any other exception propagates. */
  function RedirectedUrl(dest: string, page: Page): (r: Outcome<Value>)
    ensures r.Fail? <==> MagicValue(page).Fail? && MagicValue(page).fault !in {KeyFault, IndexFault}
    ensures r.Fail? ==> r.fault == TypeFault
    ensures r.Done? ==> Truthy(r.value) || r.value == Str(dest)
    ensures r.Done? && r.value != Str(dest) ==> MagicValue(page) == Done(r.value)
  {
    match MagicValue(page)
    case Fail(f) => if f == KeyFault || f == IndexFault then Done(Str(dest)) else Fail(f)
    case Done(v) => if Truthy(v) then Done(v) else Done(Str(dest))
  }

  /** The only fault reading the magic key can raise besides the two
      caught ones is a `TypeError`. */
  lemma MagicFaults(page: Page)
    ensures MagicValue(page).Fail? ==> MagicValue(page).fault in {KeyFault, IndexFault, TypeFault}
  {
  }

  /** Where the magic key can be read, the two versions pick the same
      destination. */
  lemma AgreesWithCurrent(dest: string, page: Page)
    requires MagicValue(page).Done?
    ensures RedirectedUrl(dest, page).Done? && RedirectInfo(dest, page).Done?
    ensures RedirectedUrl(dest, page).value == RedirectInfo(dest, page).value.0
  {
    MagicKeyFirst(page);
  }

  /** `render_link` of this version. */
  function LegacyLinkOutput(link: LinkNode, defs: seq<RefDef>, page: Page): Outcome<string> {
    var linkTitle := QuotedTitle(link.title);
    match FindLabel(defs, link.dest, linkTitle)
    case Some(key) => Done(RefLink(link.text, key))
    case None =>
      if !StartsWith(link.dest, NotionPrefix) then Done(InlineLink(link.text, link.dest, linkTitle))
      else match RedirectedUrl(link.dest, page)
        case Fail(f) => Fail(f)
        case Done(linkDest) =>
          if linkDest == Str(link.dest) then Done(InlineLink(link.text, link.dest, linkTitle))
          else Done("[" + link.text + "](" + Display(linkDest) + TitleSuffix(linkTitle) + ")[" + LegacyMarker + "](" + link.dest + ")")
  }

  /** A link matching a reference definition is written against it with
      no lookup. */
  lemma LegacyRefDefWins(link: LinkNode, defs: seq<RefDef>, page: Page, i: nat)
    requires i < |defs| && defs[i].dest == link.dest && defs[i].title == QuotedTitle(link.title)
    ensures LegacyLinkOutput(link, defs, page).Done?
    ensures var out := LegacyLinkOutput(link, defs, page).value;
      out == "[" + link.text + "]" || exists key :: out == "[" + link.text + "][" + key + "]"
  {
  }

  /** A link to anywhere but a Notion page is kept as it is. */
  lemma LegacyPassThrough(link: LinkNode, defs: seq<RefDef>, page: Page)
    requires FindLabel(defs, link.dest, QuotedTitle(link.title)).None?
    requires !StartsWith(link.dest, NotionPrefix)
    ensures LegacyLinkOutput(link, defs, page)
      == Done("[" + link.text + "](" + link.dest + TitleSuffix(QuotedTitle(link.title)) + ")")
  {
  }

  /** An internal link whose page holds a string redirect under the magic
      key is written to the redirect, followed directly by the marker link
      to the page; any other readable page leaves the link as it is. */
  lemma LegacyInternalLink(link: LinkNode, defs: seq<RefDef>, page: Page)
    requires FindLabel(defs, link.dest, QuotedTitle(link.title)).None?
    requires StartsWith(link.dest, NotionPrefix)
    requires RedirectedUrl(link.dest, page).Done?
    ensures var u := RedirectedUrl(link.dest, page).value; var t := TitleSuffix(QuotedTitle(link.title));
      if u == Str(link.dest) then
        LegacyLinkOutput(link, defs, page) == Done("[" + link.text + "](" + link.dest + t + ")")
      else
        LegacyLinkOutput(link, defs, page)
          == Done("[" + link.text + "](" + Display(u) + t + ")[" + LegacyMarker + "](" + link.dest + ")")
  {
  }

  /** A page with an empty redirect, or none, is never redirected. */
  lemma EmptyRedirectKeepsLink(link: LinkNode, defs: seq<RefDef>, page: Page)
    requires FindLabel(defs, link.dest, QuotedTitle(link.title)).None?
    requires StartsWith(link.dest, NotionPrefix)
    requires MagicValue(page).Fail? ==> MagicValue(page).fault in {KeyFault, IndexFault}
    requires MagicValue(page).Done? ==> !Truthy(MagicValue(page).value)
    ensures LegacyLinkOutput(link, defs, page) == Done(InlineLink(link.text, link.dest, QuotedTitle(link.title)))
  {
  }
}

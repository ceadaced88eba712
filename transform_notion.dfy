/** The internal-link rewriter: a markdown renderer that replaces each
    link to a Notion page by the page's redirect URL, keeps a marker link
    to the page itself, and records the links it could not redirect with
    the paragraph or list item they occur in and a short preview of the
    page. The page store is a parameter: `page` is what the client answers
    for the link's destination. */
module TransformNotion {
  import opened Base
  import opened Text
  import opened MarkdownLinks

  // ---------------------------------------------------------------------
  // Page records
  // ---------------------------------------------------------------------

  /** The JSON-like values a page record holds. `Scalar` stands for the
      values that cannot be subscripted (`None`, numbers, booleans), with
      their truth value. An object keeps its keys in order. */
  datatype Value =
    | Str(s: string)
    | Arr(items: seq<Value>)
    | Obj(fields: seq<(string, Value)>)
    | Scalar(truthy: bool)

  /** The exceptions a subscription or a method call on a value raises. */
  datatype Fault = KeyFault | IndexFault | TypeFault | AttributeFault

  datatype Outcome<+T> = Done(value: T) | Fail(fault: Fault)

  /** Python truthiness. */
  predicate Truthy(v: Value) {
    match v
    case Str(s) => s != ""
    case Arr(items) => items != []
    case Obj(fields) => fields != []
    case Scalar(t) => t
  }

  /** The value stored under `k` in an object's fields. */
  function Field(fields: seq<(string, Value)>, k: string): (r: Option<Value>)
    ensures r.Some? ==> exists i :: 0 <= i < |fields| && fields[i] == (k, r.value)
    ensures r.None? ==> forall i :: 0 <= i < |fields| ==> fields[i].0 != k
  {
    if |fields| == 0 then None
    else if fields[0].0 == k then Some(fields[0].1)
    else
      var r := Field(fields[1..], k);
      assert forall i :: 1 <= i < |fields| ==> fields[1..][i - 1] == fields[i];
      r
  }

  /** `v[k]` for a string key. */
  function Key(v: Value, k: string): Outcome<Value> {
    match v
    case Obj(fields) => (match Field(fields, k) case Some(x) => Done(x) case None => Fail(KeyFault))
    case _ => Fail(TypeFault)
  }

  /** `v[0]`: the first item of a list, the first character of a string. */
  function First(v: Value): Outcome<Value> {
    match v
    case Arr(items) => if items == [] then Fail(IndexFault) else Done(items[0])
    case Str(s) => if s == "" then Fail(IndexFault) else Done(Str([s[0]]))
    case Obj(_) => Fail(KeyFault)
    case Scalar(_) => Fail(TypeFault)
  }

  /** `v[k][0][0]` */
  function KeyFirstFirst(v: Value, k: string): Outcome<Value> {
    match Key(v, k)
    case Fail(f) => Fail(f)
    case Done(x) =>
      match First(x)
      case Fail(f) => Fail(f)
      case Done(y) => First(y)
  }

  /** One child block of a page: its `type` and the `str()` of its
      `title`, each `None` when the block has no such attribute. */
  datatype Child = Child(kind: Option<string>, title: Option<string>)

  /** What the client gives for a page: the record `page.get()` returns,
      the page's `title`, and its children (`None` when fetching them
      raises). */
  datatype Page = Page(record: seq<(string, Value)>, title: string, children: Option<seq<Child>>)

  /** The key of the redirect property in the page records. */
  const MagicKey := "n\\G@"

  /** `page.get()["properties"]["n\\G@"][0][0]` */
  function MagicValue(page: Page): Outcome<Value> {
    match Field(page.record, "properties")
    case None => Fail(KeyFault)
    case Some(props) => KeyFirstFirst(props, MagicKey)
  }

  // ---------------------------------------------------------------------
  // find_url_property_key
  // ---------------------------------------------------------------------

  /** A property value shaped `[[s, ...], ...]` with `s` a string starting
      with `http`. */
  predicate HoldsUrl(v: Value) {
    && v.Arr? && |v.items| > 0
    && v.items[0].Arr? && |v.items[0].items| > 0
    && v.items[0].items[0].Str? && StartsWith(v.items[0].items[0].s, "http")
  }

  /** Whether property `f` is one the scan returns. */
  predicate UrlProperty(f: (string, Value)) {
    f.0 != "title" && HoldsUrl(f.1)
  }

  /** A first URL property of `fields[1..]` is the first of `fields` when
      `fields[0]` is none. */
  lemma UrlKeyShift(fields: seq<(string, Value)>, r: Option<string>)
    requires |fields| > 0 && !UrlProperty(fields[0])
    requires r.Some? ==>
      exists i :: 0 <= i < |fields[1..]| && fields[1..][i].0 == r.value && HoldsUrl(fields[1..][i].1) && forall j :: 0 <= j < i ==> !UrlProperty(fields[1..][j])
    ensures r.Some? ==>
      exists i :: 0 <= i < |fields| && fields[i].0 == r.value && HoldsUrl(fields[i].1) && forall j :: 0 <= j < i ==> !UrlProperty(fields[j])
  {
    if r.Some? {
      var i :| 0 <= i < |fields[1..]| && fields[1..][i].0 == r.value && HoldsUrl(fields[1..][i].1) && forall j :: 0 <= j < i ==> !UrlProperty(fields[1..][j]);
      assert fields[i + 1] == fields[1..][i];
      forall j | 0 <= j < i + 1 ensures !UrlProperty(fields[j]) {
        if j > 0 { assert fields[j] == fields[1..][j - 1]; }
      }
    }
  }

  /** The first property other than `title` that holds a URL. */
  function UrlKey(fields: seq<(string, Value)>): (r: Option<string>)
    ensures r.Some? ==> exists i :: 0 <= i < |fields| && fields[i].0 == r.value && r.value != "title" && HoldsUrl(fields[i].1)
    ensures r.None? ==> forall i :: 0 <= i < |fields| && fields[i].0 != "title" ==> !HoldsUrl(fields[i].1)
    ensures r.Some? ==>
      exists i :: 0 <= i < |fields| && fields[i].0 == r.value && HoldsUrl(fields[i].1) && forall j :: 0 <= j < i ==> !UrlProperty(fields[j])
  {
    if |fields| == 0 then None
    else if UrlProperty(fields[0]) then Some(fields[0].0)
    else
      var r := UrlKey(fields[1..]);
      assert forall i :: 1 <= i < |fields| ==> fields[1..][i - 1] == fields[i];
      UrlKeyShift(fields, r);
      r
  }

  /** `find_url_property_key`: no key without a `properties` record; a
      `properties` value that is not an object has no `items()`. */
  function FindUrlPropertyKey(page: Page): Outcome<Option<string>> {
    match Field(page.record, "properties")
    case None => Done(None)
    case Some(props) =>
      if props.Obj? then Done(UrlKey(props.fields)) else Fail(AttributeFault)
  }

  /** The loop of `find_url_property_key` over the properties. */
  method FindUrlKey(fields: seq<(string, Value)>) returns (r: Option<string>)
    ensures r == UrlKey(fields)
  {
    var i := 0;
    while i < |fields|
      invariant i <= |fields|
      invariant UrlKey(fields) == UrlKey(fields[i..])
    {
      var (key, value) := fields[i];
      assert fields[i..][1..] == fields[i + 1..];
      if key != "title" {
        if value.Arr? && |value.items| > 0 {
          if value.items[0].Arr? && |value.items[0].items| > 0 {
            var firstVal := value.items[0].items[0];
            if firstVal.Str? && StartsWith(firstVal.s, "http") {
              return Some(key);
            }
          }
        }
      }
      i := i + 1;
    }
    return None;
  }

  // ---------------------------------------------------------------------
  // The redirect
  // ---------------------------------------------------------------------

  /** `alternative_url` once both `try` blocks have run: the magic key's
      value if it can be read at all; else, after a `KeyError` or an
      `IndexError`, the value of the first property holding a URL, unless
      that property's key is the falsy `""`. Other exceptions propagate. */
  function AlternativeUrl(page: Page): Outcome<Option<Value>> {
    match MagicValue(page)
    case Done(v) => Done(Some(v))
    case Fail(f) =>
      if f == KeyFault || f == IndexFault then
        match FindUrlPropertyKey(page)
        case Fail(g) => Fail(g)
        case Done(None) => Done(None)
        case Done(Some(k)) =>
          if k == "" then Done(None)
          else match KeyFirstFirst(Field(page.record, "properties").value, k)
            case Done(v) => Done(Some(v))
            case Fail(g) => if g == KeyFault || g == IndexFault then Done(None) else Fail(g)
      else Fail(f)
  }

  /** The property found by the scan reads back as its URL, except that a
      property keyed `""` is found but never read. */
  lemma ScannedUrl(page: Page)
    requires MagicValue(page).Fail? && MagicValue(page).fault in {KeyFault, IndexFault}
    requires FindUrlPropertyKey(page).Done? && FindUrlPropertyKey(page).value.Some?
    requires DistinctKeys(Field(page.record, "properties").value.fields)
    ensures FindUrlPropertyKey(page).value.value == "" ==> AlternativeUrl(page) == Done(None)
    ensures FindUrlPropertyKey(page).value.value != "" ==>
      && AlternativeUrl(page).Done? && AlternativeUrl(page).value.Some?
      && var v := AlternativeUrl(page).value.value; v.Str? && StartsWith(v.s, "http")
  {
    var props := Field(page.record, "properties").value;
    assert props.Obj? && FindUrlPropertyKey(page) == Done(UrlKey(props.fields));
    var k := FindUrlPropertyKey(page).value.value;
    if k != "" {
      var i :| 0 <= i < |props.fields| && props.fields[i].0 == k && k != "title" && HoldsUrl(props.fields[i].1);
      FieldFirst(props.fields, k, i);
      var x := props.fields[i].1;
      assert Key(props, k) == Done(x);
      assert First(x) == Done(x.items[0]) && First(x.items[0]) == Done(x.items[0].items[0]);
      assert KeyFirstFirst(props, k) == Done(x.items[0].items[0]);
    }
  }

  /** A page without the magic key whose only URL property is keyed `""`
      keeps no redirect: the link goes to the page itself. */
  lemma EmptyKeyNoRedirect(dest: string, title: string)
    ensures var props := Obj([("", Arr([Arr([Str("http://x")])]))]);
      var page := Page([("properties", props)], title, None);
      && FindUrlPropertyKey(page) == Done(Some(""))
      && AlternativeUrl(page) == Done(None)
      && RedirectInfo(dest, page) == Done((Str(dest), title, ""))
  {
    var props := Obj([("", Arr([Arr([Str("http://x")])]))]);
    var page := Page([("properties", props)], title, None);
    assert StartsWith("http://x", "http");
    assert MagicValue(page) == Fail(KeyFault);
  }

  /** The keys of a Python dictionary are distinct. */
  predicate DistinctKeys(fields: seq<(string, Value)>) {
    forall i, j :: 0 <= i < j < |fields| ==> fields[i].0 != fields[j].0
  }

  /** Reading the key the scan found gives the value the scan looked at. */
  lemma {:induction false} FieldFirst(fields: seq<(string, Value)>, k: string, i: nat)
    requires DistinctKeys(fields)
    requires i < |fields| && fields[i].0 == k && HoldsUrl(fields[i].1)
    ensures Field(fields, k) == Some(fields[i].1)
  {
    if i > 0 {
      assert fields[0].0 != k;
      assert fields[1..][i - 1] == fields[i];
      FieldFirst(fields[1..], k, i - 1);
    }
  }

  /** A page whose redirect is readable under the magic key never has its
      other properties scanned, even when that value is empty. */
  lemma MagicKeyFirst(page: Page)
    requires MagicValue(page).Done?
    ensures AlternativeUrl(page) == Done(Some(MagicValue(page).value))
  {
  }

  // ---------------------------------------------------------------------
  // The content preview
  // ---------------------------------------------------------------------

  /** Children of these types are never previewed. */
  predicate Skipped(c: Child) {
    c.kind == Some("divider") || c.kind == Some("table_of_contents")
  }

  /** The preview text a child gives, if any: its stripped title when that
      is not empty. */
  function ChildText(c: Child): (r: Option<string>)
    ensures r.Some? ==> r.value != [] && IsStripped(r.value)
  {
    if Skipped(c) then None
    else match c.title
      case None => None
      case Some(t) => if Strip(t) == [] then None else Some(Strip(t))
  }

  /** Every preview text among the children, with no bound. */
  function Texts(cs: seq<Child>): (r: seq<string>)
    ensures forall i :: 0 <= i < |r| ==> r[i] != [] && IsStripped(r[i])
  {
    if |cs| == 0 then []
    else match ChildText(cs[0])
      case Some(t) => [t] + Texts(cs[1..])
      case None => Texts(cs[1..])
  }

  const MaxChildren := 5

  /** The collecting loop once `count` texts are in: it stops as soon as it
      holds five. */
  function CollectFrom(cs: seq<Child>, count: nat): seq<string>
    decreases |cs|
  {
    if |cs| == 0 || count >= MaxChildren then []
    else match ChildText(cs[0])
      case Some(t) => [t] + CollectFrom(cs[1..], count + 1)
      case None => CollectFrom(cs[1..], count)
  }

  /** The loop keeps the first texts and no more than five of them. */
  lemma {:induction false} CollectIsPrefix(cs: seq<Child>, count: nat)
    requires count <= MaxChildren
    ensures var n := MaxChildren - count;
      CollectFrom(cs, count) == Texts(cs)[..if |Texts(cs)| < n then |Texts(cs)| else n]
    decreases |cs|
  {
    if |cs| > 0 && count < MaxChildren {
      CollectIsPrefix(cs[1..], if ChildText(cs[0]).Some? then count + 1 else count);
    }
  }

  /** `' '.join(content_parts[:3])` */
  function PageContent(cs: seq<Child>): string {
    var parts := CollectFrom(cs, 0);
    Join(" ", parts[..if |parts| < 3 then |parts| else 3])
  }

  /** The preview is the first three texts of the page, whatever follows
      them. */
  lemma PageContentFirstThree(cs: seq<Child>)
    ensures var t := Texts(cs); PageContent(cs) == Join(" ", t[..if |t| < 3 then |t| else 3])
  {
    CollectIsPrefix(cs, 0);
    var t := Texts(cs);
    var parts := CollectFrom(cs, 0);
    var k := if |parts| < 3 then |parts| else 3;
    assert parts[..k] == t[..if |t| < 3 then |t| else 3];
  }

  /** The `for child in page.children` loop. */
  method CollectContent(cs: seq<Child>) returns (parts: seq<string>)
    ensures parts == CollectFrom(cs, 0)
  {
    parts := [];
    var childCount := 0;
    var i := 0;
    while i < |cs|
      invariant i <= |cs| && childCount == |parts|
      invariant parts + CollectFrom(cs[i..], childCount) == CollectFrom(cs, 0)
    {
      if childCount >= MaxChildren {
        break;
      }
      var child := cs[i];
      assert cs[i..][1..] == cs[i + 1..];
      if Skipped(child) {
        i := i + 1;
        continue;
      }
      if child.title.Some? {
        var text := Strip(child.title.value);
        if text != [] {
          assert parts + CollectFrom(cs[i..], childCount) == (parts + [text]) + CollectFrom(cs[i + 1..], childCount + 1);
          parts := parts + [text];
          childCount := childCount + 1;
        }
      }
      i := i + 1;
    }
    if i < |cs| {
      assert CollectFrom(cs[i..], childCount) == [];
    } else {
      assert CollectFrom(cs[i..], childCount) == [];
    }
  }

  /** `get_redirected_url_and_content`: the URL to link to (the redirect,
      or the page's own URL), and the page's title and preview when there is
      no redirect. */
  function RedirectInfo(dest: string, page: Page): Outcome<(Value, string, string)> {
    match AlternativeUrl(page)
    case Fail(f) => Fail(f)
    case Done(alt) =>
      if alt.Some? && Truthy(alt.value) then Done((alt.value, "", ""))
      else
        var content := match page.children case None => "" case Some(cs) => PageContent(cs);
        Done((Str(dest), page.title, content))
  }

  /** An empty or missing redirect falls back to the page's own URL; a
      redirect that is there is used, and then no preview is taken. */
  lemma RedirectFallback(dest: string, page: Page)
    requires AlternativeUrl(page).Done?
    ensures var alt := AlternativeUrl(page).value; var r := RedirectInfo(dest, page);
      && r.Done?
      && (alt.Some? && Truthy(alt.value) ==> r.value == (alt.value, "", ""))
      && (!(alt.Some? && Truthy(alt.value)) ==> r.value.0 == Str(dest) && r.value.1 == page.title)
  {
  }

  method GetRedirectedUrlAndContent(dest: string, page: Page) returns (r: Outcome<(Value, string, string)>)
    ensures r == RedirectInfo(dest, page)
  {
    var alternativeUrl: Option<Value> := None;
    var pageTitle := "";
    var pageContent := "";
    var magic := MagicValue(page);
    if magic.Done? {
      alternativeUrl := Some(magic.value);
    } else if magic.fault == KeyFault || magic.fault == IndexFault {
      var found := FindUrlPropertyKey(page);
      if found.Fail? {
        return Fail(found.fault);
      }
      if found.value.Some? && found.value.value != "" {
        var v := KeyFirstFirst(Field(page.record, "properties").value, found.value.value);
        if v.Done? {
          alternativeUrl := Some(v.value);
        } else if !(v.fault == KeyFault || v.fault == IndexFault) {
          return Fail(v.fault);
        }
      }
    } else {
      return Fail(magic.fault);
    }
    if !(alternativeUrl.Some? && Truthy(alternativeUrl.value)) {
      pageTitle := page.title;
      if page.children.Some? {
        var contentParts := CollectContent(page.children.value);
        pageContent := Join(" ", contentParts[..if |contentParts| < 3 then |contentParts| else 3]);
      }
      return Done((Str(dest), pageTitle, pageContent));
    }
    return Done((alternativeUrl.value, pageTitle, pageContent));
  }

  // ---------------------------------------------------------------------
  // Document elements and their text
  // ---------------------------------------------------------------------

  /** The `children` attribute of a parsed element: absent, a string, or a
      list of elements. */
  datatype Kids = NoKids | TextKids(text: string) | NodeKids(nodes: seq<Element>)

  /** A parsed markdown element: its class name, its children and its
      `content` attribute, if any. */
  datatype Element = Element(typeName: string, children: Kids, content: Option<string>)

  /** The texts `extract_text` collects from `e`, in document order: a
      `RawText`'s string, the texts inside a `Link` or any other element
      with a list of children, and otherwise the `content` of a childless
      element. The characters of a string held by another element are
      visited but give nothing. */
  function Leaves(e: Element): seq<string>
    decreases e
  {
    if e.typeName == "RawText" then
      (match e.children case TextKids(t) => [t] case _ => [])
    else match e.children
      case NodeKids(nodes) => LeavesOf(nodes)
      case TextKids(_) => []
      case NoKids => if e.typeName != "Link" && e.content.Some? then [e.content.value] else []
  }

  function LeavesOf(nodes: seq<Element>): seq<string>
    decreases nodes
  {
    if |nodes| == 0 then [] else Leaves(nodes[0]) + LeavesOf(nodes[1..])
  }

  /** `extract_paragraph_text` */
  function ParagraphText(element: Option<Element>): string {
    match element
    case None => ""
    case Some(e) => Join(" ", Leaves(e))
  }

  lemma LeavesOfConcat(a: seq<Element>, b: seq<Element>)
    ensures LeavesOf(a + b) == LeavesOf(a) + LeavesOf(b)
    decreases |a|
  {
    if |a| == 0 {
      assert a + b == b;
    } else {
      assert (a + b)[1..] == a[1..] + b;
      LeavesOfConcat(a[1..], b);
    }
  }

  /** A paragraph holding plain text and a link gives the words of both,
      the link's text included, separated by spaces. */
  lemma TextAroundLink(before: string, linkText: string, after: string)
    ensures ParagraphText(Some(Element("Paragraph", NodeKids([
        Element("RawText", TextKids(before), None),
        Element("Link", NodeKids([Element("RawText", TextKids(linkText), None)]), None),
        Element("RawText", TextKids(after), None)]), None)))
      == before + " " + linkText + " " + after
  {
    var middle := Element("RawText", TextKids(linkText), None);
    var link := Element("Link", NodeKids([middle]), None);
    var nodes := [Element("RawText", TextKids(before), None), link, Element("RawText", TextKids(after), None)];
    assert LeavesOf([middle]) == [linkText] by {
      assert [middle][1..] == [];
    }
    assert LeavesOf(nodes[2..]) == [after] by {
      assert nodes[2..][1..] == [];
    }
    assert nodes[1..][1..] == nodes[2..];
    assert LeavesOf(nodes[1..]) == [linkText, after];
    assert LeavesOf(nodes) == [before, linkText, after];
    var parts := [before, linkText, after];
    assert parts[1..][1..] == [after];
    assert Join(" ", parts[1..]) == linkText + " " + after;
    assert Join(" ", parts) == before + " " + (linkText + " " + after);
    assert before + " " + (linkText + " " + after) == before + " " + linkText + " " + after;
  }

  /** The recursive `extract_text`, appending to the collected parts. */
  method ExtractText(e: Element, parts: seq<string>) returns (out: seq<string>)
    ensures out == parts + Leaves(e)
    decreases e, 1
  {
    out := parts;
    if e.typeName == "RawText" {
      if e.children.TextKids? {
        out := out + [e.children.text];
      }
    } else if e.children.NodeKids? {
      out := ExtractAll(e.children.nodes, out);
    } else if e.children.NoKids? && e.typeName != "Link" && e.content.Some? {
      out := out + [e.content.value];
    }
  }

  /** `for child in elem.children: extract_text(child)` */
  method ExtractAll(nodes: seq<Element>, parts: seq<string>) returns (out: seq<string>)
    ensures out == parts + LeavesOf(nodes)
    decreases nodes, 2
  {
    out := parts;
    var i := 0;
    while i < |nodes|
      invariant i <= |nodes|
      invariant out == parts + LeavesOf(nodes[..i])
    {
      assert nodes[..i + 1] == nodes[..i] + [nodes[i]];
      LeavesOfConcat(nodes[..i], [nodes[i]]);
      assert LeavesOf([nodes[i]]) == Leaves(nodes[i]) + LeavesOf([]);
      out := ExtractText(nodes[i], out);
      i := i + 1;
    }
    assert nodes[..i] == nodes;
  }

  method ExtractParagraphText(element: Option<Element>) returns (r: string)
    ensures r == ParagraphText(element)
  {
    if element.None? {
      return "";
    }
    var textParts := ExtractText(element.value, []);
    assert textParts == Leaves(element.value);
    r := Join(" ", textParts);
  }

  // ---------------------------------------------------------------------
  // The renderer
  // ---------------------------------------------------------------------

  /** The marker link text after a redirected link: the bytes of U+1F13D
      read as Mac OS Roman and written back as UTF-8. */
  const Marker := "\U{F8FF}\U{00FC}\U{00D1}\U{03A9}"

  /** A link as the renderer sees it: its rendered text, destination and
      title (empty when it has none). */
  datatype LinkNode = LinkNode(text: string, dest: string, title: string)

  /** A link that found no redirect, with where it occurs and the page's
      title and preview. */
  datatype MissingLink = MissingLink(text: string, dest: string, context: Option<Element>, pageTitle: string, pageContent: string)

  /** The rendered link, or the exception the redirect lookup raised. */
  function LinkOutput(link: LinkNode, defs: seq<RefDef>, page: Page): Outcome<string> {
    var linkTitle := QuotedTitle(link.title);
    match FindLabel(defs, link.dest, linkTitle)
    case Some(key) => Done(RefLink(link.text, key))
    case None =>
      if !StartsWith(link.dest, NotionPrefix) then Done(InlineLink(link.text, link.dest, linkTitle))
      else match RedirectInfo(link.dest, page)
        case Fail(f) => Fail(f)
        case Done((linkDest, _, _)) =>
          if linkDest == Str(link.dest) then Done(InlineLink(link.text, link.dest, linkTitle))
          else Done("[" + link.text + "](" + Display(linkDest) + TitleSuffix(linkTitle) + ") [" + Marker + "](" + link.dest + ")")
  }

  /** The text a redirect is written as. */
  function Display(v: Value): string {
    if v.Str? then v.s else ""
  }

  /** The record `render_link` adds for a link: one exactly when it is an
      internal link with no reference definition and no redirect. */
  function LinkMisses(link: LinkNode, defs: seq<RefDef>, page: Page, context: Option<Element>): seq<MissingLink> {
    if FindLabel(defs, link.dest, QuotedTitle(link.title)).None? && StartsWith(link.dest, NotionPrefix) then
      match RedirectInfo(link.dest, page)
      case Done((linkDest, title, content)) =>
        if linkDest == Str(link.dest) then [MissingLink(link.text, link.dest, context, title, content)] else []
      case Fail(_) => []
    else []
  }

  /** A link matching a reference definition is written against it, with
      no page lookup and no record. */
  lemma RefDefWins(link: LinkNode, defs: seq<RefDef>, page: Page, context: Option<Element>, i: nat)
    requires i < |defs| && defs[i].dest == link.dest && defs[i].title == QuotedTitle(link.title)
    ensures LinkOutput(link, defs, page).Done?
    ensures var out := LinkOutput(link, defs, page).value;
      out == "[" + link.text + "]" || exists key :: out == "[" + link.text + "][" + key + "]"
    ensures LinkMisses(link, defs, page, context) == []
  {
  }

  /** A link to anywhere but a Notion page is kept as it is. */
  lemma ExternalPassThrough(link: LinkNode, defs: seq<RefDef>, page: Page, context: Option<Element>)
    requires FindLabel(defs, link.dest, QuotedTitle(link.title)).None?
    requires !StartsWith(link.dest, NotionPrefix)
    ensures LinkOutput(link, defs, page) == Done("[" + link.text + "](" + link.dest + TitleSuffix(QuotedTitle(link.title)) + ")")
    ensures LinkMisses(link, defs, page, context) == []
  {
  }

  /** An internal link is either redirected, with the marker link to the
      page after it, or kept and recorded once, never both. */
  lemma InternalLink(link: LinkNode, defs: seq<RefDef>, page: Page, context: Option<Element>)
    requires FindLabel(defs, link.dest, QuotedTitle(link.title)).None?
    requires StartsWith(link.dest, NotionPrefix)
    requires RedirectInfo(link.dest, page).Done?
    ensures var info := RedirectInfo(link.dest, page).value; var t := QuotedTitle(link.title);
      if info.0 == Str(link.dest) then
        && LinkOutput(link, defs, page) == Done(InlineLink(link.text, link.dest, t))
        && LinkMisses(link, defs, page, context) == [MissingLink(link.text, link.dest, context, info.1, info.2)]
      else
        && LinkOutput(link, defs, page) == Done("[" + link.text + "](" + Display(info.0) + TitleSuffix(t) + ") [" + Marker + "](" + link.dest + ")")
        && LinkMisses(link, defs, page, context) == []
  {
  }

  /** Inline content of a paragraph or list item: text the renderer has
      produced already, or a link with the page its destination names. */
  datatype Piece = Plain(text: string) | LinkPiece(link: LinkNode, page: Page)

  /** The rendering of one piece. */
  function PieceOutput(piece: Piece, defs: seq<RefDef>): Outcome<string> {
    match piece
    case Plain(t) => Done(t)
    case LinkPiece(l, p) => LinkOutput(l, defs, p)
  }

  /** The records one piece adds. */
  function PieceMisses(piece: Piece, defs: seq<RefDef>, context: Option<Element>): seq<MissingLink> {
    match piece
    case Plain(_) => []
    case LinkPiece(l, p) => LinkMisses(l, defs, p, context)
  }

  /** The rendering of a run of pieces, up to the first exception. */
  function PiecesOutput(pieces: seq<Piece>, defs: seq<RefDef>): Outcome<string>
    decreases |pieces|
  {
    if |pieces| == 0 then Done("")
    else
      match PieceOutput(pieces[0], defs)
      case Fail(f) => Fail(f)
      case Done(h) =>
        match PiecesOutput(pieces[1..], defs)
        case Fail(f) => Fail(f)
        case Done(rest) => Done(h + rest)
  }

  /** The records a run of pieces adds, up to the first exception. */
  function PiecesMisses(pieces: seq<Piece>, defs: seq<RefDef>, context: Option<Element>): seq<MissingLink>
    decreases |pieces|
  {
    if |pieces| == 0 then []
    else
      PieceMisses(pieces[0], defs, context)
      + if PieceOutput(pieces[0], defs).Fail? then [] else PiecesMisses(pieces[1..], defs, context)
  }

  /** The records of a run are those of its first piece, then, unless
      that piece raised, those of the others. */
  lemma MissesCompose(pieces: seq<Piece>, defs: seq<RefDef>, context: Option<Element>,
                      before: seq<MissingLink>, middle: seq<MissingLink>, after: seq<MissingLink>,
                      first: Outcome<string>)
    requires |pieces| > 0 && first == PieceOutput(pieces[0], defs)
    requires middle == before + PieceMisses(pieces[0], defs, context)
    requires after == if first.Done? then middle + PiecesMisses(pieces[1..], defs, context) else middle
    ensures after == before + PiecesMisses(pieces, defs, context)
  {
  }

  /** The rendering of a run is its first piece's, then the others', up
      to the first exception. */
  lemma OutputCompose(pieces: seq<Piece>, defs: seq<RefDef>, first: Outcome<string>, rest: Outcome<string>)
    requires |pieces| > 0 && first == PieceOutput(pieces[0], defs)
    requires first.Done? ==> rest == PiecesOutput(pieces[1..], defs)
    ensures PiecesOutput(pieces, defs)
      == if first.Fail? then first else if rest.Fail? then rest else Done(first.value + rest.value)
  {
  }

  /** Every record a run of pieces adds is an internal link of the run,
      kept with the context it was rendered in. */
  lemma {:induction false} MissesFromPieces(pieces: seq<Piece>, defs: seq<RefDef>, context: Option<Element>)
    ensures forall m :: m in PiecesMisses(pieces, defs, context) ==>
      m.context == context && StartsWith(m.dest, NotionPrefix)
      && exists i :: 0 <= i < |pieces| && pieces[i].LinkPiece? && pieces[i].link.dest == m.dest && pieces[i].link.text == m.text
    decreases |pieces|
  {
    if |pieces| > 0 {
      MissesFromPieces(pieces[1..], defs, context);
      assert forall i :: 1 <= i < |pieces| ==> pieces[1..][i - 1] == pieces[i];
    }
  }

  /** A block the document renderer reaches: a paragraph or a list item,
      with its parsed element (what a missing link's context is read from)
      and the inline pieces it renders. */
  datatype Block =
    | ParagraphBlock(element: Element, pieces: seq<Piece>)
    | ListItemBlock(element: Element, pieces: seq<Piece>)

  /** A paragraph is its inline content followed by a blank line. */
  function ParagraphOutput(pieces: seq<Piece>, defs: seq<RefDef>): Outcome<string> {
    match PiecesOutput(pieces, defs)
    case Fail(f) => Fail(f)
    case Done(c) => Done(c + "\n\n")
  }

  function BlockOutput(b: Block, defs: seq<RefDef>): Outcome<string> {
    match b
    case ParagraphBlock(_, pieces) => ParagraphOutput(pieces, defs)
    case ListItemBlock(_, pieces) => PiecesOutput(pieces, defs)
  }

  /** The rendering of the document's blocks, up to the first exception. */
  function DocumentOutput(blocks: seq<Block>, defs: seq<RefDef>): Outcome<string>
    decreases |blocks|
  {
    if |blocks| == 0 then Done("")
    else
      match BlockOutput(blocks[0], defs)
      case Fail(f) => Fail(f)
      case Done(h) =>
        match DocumentOutput(blocks[1..], defs)
        case Fail(f) => Fail(f)
        case Done(rest) => Done(h + rest)
  }

  /** The records the document's blocks add, each link with the block it
      is found in as its context. */
  function DocumentMisses(blocks: seq<Block>, defs: seq<RefDef>): seq<MissingLink>
    decreases |blocks|
  {
    if |blocks| == 0 then []
    else
      PiecesMisses(blocks[0].pieces, defs, Some(blocks[0].element))
      + if BlockOutput(blocks[0], defs).Fail? then [] else DocumentMisses(blocks[1..], defs)
  }

  /** The records of a document are those of its first block, then,
      unless that block raised, those of the others. */
  lemma DocumentMissesCompose(blocks: seq<Block>, defs: seq<RefDef>,
                              before: seq<MissingLink>, middle: seq<MissingLink>, after: seq<MissingLink>,
                              first: Outcome<string>)
    requires |blocks| > 0 && first == BlockOutput(blocks[0], defs)
    requires middle == before + PiecesMisses(blocks[0].pieces, defs, Some(blocks[0].element))
    requires after == if first.Done? then middle + DocumentMisses(blocks[1..], defs) else middle
    ensures after == before + DocumentMisses(blocks, defs)
  {
  }

  /** The rendering of a document is its first block's, then the
      others', up to the first exception. */
  lemma DocumentOutputCompose(blocks: seq<Block>, defs: seq<RefDef>, first: Outcome<string>, rest: Outcome<string>)
    requires |blocks| > 0 && first == BlockOutput(blocks[0], defs)
    requires first.Done? ==> rest == DocumentOutput(blocks[1..], defs)
    ensures DocumentOutput(blocks, defs)
      == if first.Fail? then first else if rest.Fail? then rest else Done(first.value + rest.value)
  {
  }

  /** The record names one of the links among the pieces. */
  predicate LinkIn(pieces: seq<Piece>, m: MissingLink) {
    exists j :: 0 <= j < |pieces| && pieces[j].LinkPiece? && pieces[j].link.dest == m.dest && pieces[j].link.text == m.text
  }

  /** Every record of the document is an internal link of some block,
      with that block's element as its context. */
  lemma {:induction false} MissesFromDocument(blocks: seq<Block>, defs: seq<RefDef>)
    ensures forall m :: m in DocumentMisses(blocks, defs) ==>
      && StartsWith(m.dest, NotionPrefix)
      && exists i :: 0 <= i < |blocks| && m.context == Some(blocks[i].element) && LinkIn(blocks[i].pieces, m)
    decreases |blocks|
  {
    if |blocks| > 0 {
      MissesFromPieces(blocks[0].pieces, defs, Some(blocks[0].element));
      MissesFromDocument(blocks[1..], defs);
      assert forall i :: 1 <= i < |blocks| ==> blocks[1..][i - 1] == blocks[i];
    }
  }

  /** A missing link as `transform_markdown` reports it: the context
      element replaced by its text. */
  datatype ReportedLink = ReportedLink(text: string, dest: string, context: string, pageTitle: string, pageContent: string)

  function Reported(m: MissingLink): ReportedLink {
    ReportedLink(m.text, m.dest, ParagraphText(m.context), m.pageTitle, m.pageContent)
  }

  /** The loop of `transform_markdown` over the recorded links. */
  method ProcessMissingLinks(links: seq<MissingLink>) returns (r: seq<ReportedLink>)
    ensures |r| == |links|
    ensures forall k :: 0 <= k < |r| ==>
      && r[k].text == links[k].text && r[k].dest == links[k].dest
      && r[k].context == ParagraphText(links[k].context)
      && r[k].pageTitle == links[k].pageTitle && r[k].pageContent == links[k].pageContent
  {
    r := [];
    var i := 0;
    while i < |links|
      invariant i <= |links|
      invariant |r| == i
      invariant forall k :: 0 <= k < i ==> r[k] == Reported(links[k])
    {
      var context := ExtractParagraphText(links[i].context);
      r := r + [ReportedLink(links[i].text, links[i].dest, context, links[i].pageTitle, links[i].pageContent)];
      i := i + 1;
    }
  }

  /** `URLRewritingMarkdownRenderer` */
  class Renderer {
    var missingLinks: seq<MissingLink>
    var contentChunks: seq<string>
    var currentParagraph: Option<Element>
    var currentListItem: Option<Element>

    constructor()
      ensures missingLinks == [] && contentChunks == [] && currentParagraph == None && currentListItem == None
    {
      missingLinks := [];
      contentChunks := [];
      currentParagraph := None;
      currentListItem := None;
    }

    /** The element a link is found in: the paragraph if one is open, else
        the list item. */
    function Context(): Option<Element>
      reads this
    {
      if currentParagraph.Some? then currentParagraph else currentListItem
    }

    /** `render_link`; `page` is what the client gives for the link's
        destination. */
    method RenderLink(link: LinkNode, defs: seq<RefDef>, page: Page) returns (out: Outcome<string>)
      modifies this
      ensures out == LinkOutput(link, defs, page)
      ensures missingLinks == old(missingLinks) + LinkMisses(link, defs, page, old(Context()))
      ensures currentParagraph == old(currentParagraph) && currentListItem == old(currentListItem)
      ensures contentChunks == old(contentChunks)
    {
      var linkText := link.text;
      var linkTitle := QuotedTitle(link.title);
      var key := FindLabel(defs, link.dest, linkTitle);
      if key.Some? {
        if key.value == linkText {
          return Done("[" + key.value + "]");
        }
        return Done("[" + linkText + "][" + key.value + "]");
      }
      var title := TitleSuffix(linkTitle);
      if !StartsWith(link.dest, NotionPrefix) {
        return Done("[" + linkText + "](" + link.dest + title + ")");
      }
      var info := GetRedirectedUrlAndContent(link.dest, page);
      if info.Fail? {
        return Fail(info.fault);
      }
      var (linkDest, pageTitle, pageContent) := info.value;
      if linkDest == Str(link.dest) {
        var contextElement := if currentParagraph.Some? then currentParagraph else currentListItem;
        missingLinks := missingLinks + [MissingLink(linkText, link.dest, contextElement, pageTitle, pageContent)];
      }
      if linkDest == Str(link.dest) {
        return Done("[" + linkText + "](" + link.dest + title + ")");
      }
      return Done("[" + linkText + "](" + Display(linkDest) + title + ") [" + Marker + "](" + link.dest + ")");
    }

    /** One inline piece. */
    method RenderPiece(piece: Piece, defs: seq<RefDef>) returns (out: Outcome<string>)
      modifies this
      ensures out == PieceOutput(piece, defs)
      ensures missingLinks == old(missingLinks) + PieceMisses(piece, defs, old(Context()))
      ensures currentParagraph == old(currentParagraph) && currentListItem == old(currentListItem)
      ensures contentChunks == old(contentChunks)
    {
      if piece.Plain? {
        out := Done(piece.text);
      } else {
        out := RenderLink(piece.link, defs, piece.page);
      }
    }

    /** `render_children` over inline pieces, stopping at an exception. */
    method RenderPieces(pieces: seq<Piece>, defs: seq<RefDef>) returns (out: Outcome<string>)
      modifies this
      ensures out == PiecesOutput(pieces, defs)
      ensures missingLinks == old(missingLinks) + PiecesMisses(pieces, defs, old(Context()))
      ensures currentParagraph == old(currentParagraph) && currentListItem == old(currentListItem)
      ensures contentChunks == old(contentChunks)
      decreases |pieces|
    {
      if |pieces| == 0 {
        return Done("");
      }
      ghost var context := Context();
      ghost var before := missingLinks;
      var first := RenderPiece(pieces[0], defs);
      ghost var middle := missingLinks;
      var rest := first;
      if first.Done? {
        rest := RenderPieces(pieces[1..], defs);
      }
      MissesCompose(pieces, defs, context, before, middle, missingLinks, first);
      OutputCompose(pieces, defs, first, rest);
      out := if first.Fail? then first else if rest.Fail? then rest else Done(first.value + rest.value);
    }

    /** `render_paragraph`: links inside take the paragraph as their
        context; the paragraph is closed again only when rendering it
        raised nothing. */
    method RenderParagraph(element: Element, pieces: seq<Piece>, defs: seq<RefDef>) returns (out: Outcome<string>)
      modifies this
      ensures out == ParagraphOutput(pieces, defs)
      ensures missingLinks == old(missingLinks) + PiecesMisses(pieces, defs, Some(element))
      ensures currentParagraph == if out.Done? then None else Some(element)
      ensures currentListItem == old(currentListItem) && contentChunks == old(contentChunks)
    {
      currentParagraph := Some(element);
      out := RenderPieces(pieces, defs);
      if out.Done? {
        currentParagraph := None;
        out := Done(out.value + "\n\n");
      }
    }

    /** `render_list_item`: links take the list item as their context
        unless a paragraph is open. */
    method RenderListItem(element: Element, pieces: seq<Piece>, defs: seq<RefDef>) returns (out: Outcome<string>)
      modifies this
      ensures out == PiecesOutput(pieces, defs)
      ensures missingLinks == old(missingLinks)
        + PiecesMisses(pieces, defs, if old(currentParagraph).Some? then old(currentParagraph) else Some(element))
      ensures currentListItem == if out.Done? then None else Some(element)
      ensures currentParagraph == old(currentParagraph) && contentChunks == old(contentChunks)
    {
      currentListItem := Some(element);
      out := RenderPieces(pieces, defs);
      if out.Done? {
        currentListItem := None;
      }
    }

    /** `render` over the document's blocks in order, stopping at the
        first exception; with nothing open at the start, each link takes
        the block it is found in as its context. */
    method RenderBlocks(blocks: seq<Block>, defs: seq<RefDef>) returns (out: Outcome<string>)
      requires currentParagraph == None && currentListItem == None
      modifies this
      ensures out == DocumentOutput(blocks, defs)
      ensures missingLinks == old(missingLinks) + DocumentMisses(blocks, defs)
      ensures out.Done? ==> currentParagraph == None && currentListItem == None
      ensures contentChunks == old(contentChunks)
      decreases |blocks|
    {
      if |blocks| == 0 {
        return Done("");
      }
      ghost var before := missingLinks;
      var first: Outcome<string>;
      if blocks[0].ParagraphBlock? {
        first := RenderParagraph(blocks[0].element, blocks[0].pieces, defs);
      } else {
        first := RenderListItem(blocks[0].element, blocks[0].pieces, defs);
      }
      ghost var middle := missingLinks;
      var rest := first;
      if first.Done? {
        rest := RenderBlocks(blocks[1..], defs);
      }
      DocumentMissesCompose(blocks, defs, before, middle, missingLinks, first);
      DocumentOutputCompose(blocks, defs, first, rest);
      out := if first.Fail? then first else if rest.Fail? then rest else Done(first.value + rest.value);
    }
  }

  /** `transform_markdown` on a parsed document: the rendered text and
      the reported missing links, or the exception rendering raised. */
  method TransformMarkdown(blocks: seq<Block>, defs: seq<RefDef>) returns (out: Outcome<(string, seq<ReportedLink>)>)
    ensures out.Fail? <==> DocumentOutput(blocks, defs).Fail?
    ensures out.Fail? ==> out.fault == DocumentOutput(blocks, defs).fault
    ensures out.Done? ==> out.value.0 == DocumentOutput(blocks, defs).value
    ensures out.Done? ==> |out.value.1| == |DocumentMisses(blocks, defs)|
    ensures out.Done? ==> forall k :: 0 <= k < |out.value.1| ==>
      out.value.1[k] == Reported(DocumentMisses(blocks, defs)[k])
  {
    var renderer := new Renderer();
    var rendered := renderer.RenderBlocks(blocks, defs);
    if rendered.Fail? {
      return Fail(rendered.fault);
    }
    var missing := renderer.missingLinks;
    assert missing == DocumentMisses(blocks, defs);
    var links := ProcessMissingLinks(missing);
    return Done((rendered.value, links));
  }
}

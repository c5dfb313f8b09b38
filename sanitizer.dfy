/** The allow-list HTML filter of public/sanitizer.js over an abstract node
    tree. Parsing markup into a tree and serialising a tree back to markup
    belong to the host's HTML parser and are not part of this module:
    `SanitizeChildren` is what `sanitizeHtml` does to the children of the
    parsed body, and `SanitizeText` is what `sanitizeText` reads from it. */
module Sanitizer {
  import opened Wrappers

  datatype Attr = Attr(name: string, value: string)

  /** A DOM node: text, an element (tag name as the DOM reports it,
      upper-case for HTML), or any other kind (comment, processing
      instruction, ...). */
  datatype Node =
    | Text(text: string)
    | Element(tag: string, attrs: seq<Attr>, children: seq<Node>)
    | OtherNode(data: string)

  const AllowedAttributes: set<string> := {"alt", "height", "href", "type", "src", "width"}

  const AllowedTags: set<string> := {
    "A", "ABBR", "ADDR", "ARTICLE", "ASIDE", "AUDIO", "B", "BLOCKQUOTE",
    "BR", "CAPTION", "CITE", "CODE", "COL", "COLGROUP", "DD", "DEL", "DFN",
    "DIV", "DL", "DT", "EM", "FIGCAPTION", "FIGURE", "FOOTER", "HEADER",
    "HGROUP", "H1", "H2", "H3", "H4", "H5", "H6", "HR", "I", "IMG", "INS",
    "LABEL", "LI", "LINK", "MAIN", "MARK", "NAV", "OL", "P", "PICTURE",
    "PRE", "Q", "S", "SAMP", "SECTION", "SMALL", "SOURCE", "SPAN", "STRONG",
    "SUB", "SUP", "SVG", "TABLE", "TBODY", "TD", "TFOOT", "TH", "THEAD",
    "TIME", "TR", "TRACK", "U", "UL", "VIDEO", "WBR"}

  const ScriptScheme: string := "javascript:"

  predicate StartsWith(s: string, prefix: string) {
    |prefix| <= |s| && s[..|prefix|] == prefix
  }

  /** `indexOf("javascript:") != 0`: case-sensitive, position 0 only. */
  predicate AttrAllowed(a: Attr) {
    a.name in AllowedAttributes && !StartsWith(a.value, ScriptScheme)
  }

  /** A tree the filter leaves alone: text, or an allowed element whose
      attributes are allowed and whose children are all clean. */
  predicate Clean(n: Node) {
    match n
    case Text(_) => true
    case Element(tag, attrs, children) =>
      tag in AllowedTags
      && (forall a :: a in attrs ==> AttrAllowed(a))
      && (forall i :: 0 <= i < |children| ==> Clean(children[i]))
    case OtherNode(_) => false
  }

  predicate AllClean(ns: seq<Node>) {
    forall i :: 0 <= i < |ns| ==> Clean(ns[i])
  }

  /** sanitizeAttributes: keep each allowed attribute, in order. */
  function SanitizeAttributes(attrs: seq<Attr>): (r: seq<Attr>)
    ensures forall a :: a in r <==> a in attrs && AttrAllowed(a)
    ensures |r| <= |attrs|
  {
    if attrs == [] then []
    else (if AttrAllowed(attrs[0]) then [attrs[0]] else []) + SanitizeAttributes(attrs[1..])
  }

  /** sanitizeNode: text is copied, an allowed element is rebuilt from its
      filtered attributes and children, anything else is dropped with its
      whole subtree. */
  function SanitizeNode(n: Node): Option<Node>
    decreases n, 1
  {
    match n
    case Text(_) => Some(n)
    case Element(tag, attrs, children) =>
      if tag in AllowedTags
      then Some(Element(tag, SanitizeAttributes(attrs), SanitizeChildren(children)))
      else None
    case OtherNode(_) => None
  }

  /** sanitizeChildren: the kept children, in order. */
  function SanitizeChildren(ns: seq<Node>): seq<Node>
    decreases ns, 0
  {
    if ns == [] then []
    else
      (match SanitizeNode(ns[0]) case Some(m) => [m] case None => [])
      + SanitizeChildren(ns[1..])
  }

  /** The text content of a node: its text and that of all its descendants;
      other node kinds contribute nothing. */
  function TextContent(n: Node): string
    decreases n, 1
  {
    match n
    case Text(s) => s
    case Element(_, _, children) => TextContentAll(children)
    case OtherNode(_) => ""
  }

  function TextContentAll(ns: seq<Node>): string
    decreases ns, 0
  {
    if ns == [] then "" else TextContent(ns[0]) + TextContentAll(ns[1..])
  }

  /** sanitizeText: the text of the whole parsed body, filter or no filter. */
  function SanitizeText(body: seq<Node>): string {
    TextContentAll(body)
  }

  /** Kept attributes keep their relative order: the filter distributes
      over concatenation. */
  lemma {:induction false} SanitizeAttributesAppend(a: seq<Attr>, b: seq<Attr>)
    ensures SanitizeAttributes(a + b) == SanitizeAttributes(a) + SanitizeAttributes(b)
  {
    if a == [] {
      assert a + b == b;
    } else {
      assert (a + b)[1..] == a[1..] + b;
      SanitizeAttributesAppend(a[1..], b);
    }
  }

  /** Kept children keep their relative order. */
  lemma {:induction false} SanitizeChildrenAppend(a: seq<Node>, b: seq<Node>)
    ensures SanitizeChildren(a + b) == SanitizeChildren(a) + SanitizeChildren(b)
  {
    if a == [] {
      assert a + b == b;
    } else {
      assert (a + b)[0] == a[0];
      assert (a + b)[1..] == a[1..] + b;
      SanitizeChildrenAppend(a[1..], b);
    }
  }

  /** Every node the filter outputs is clean: elements carry allowed tags and
      attributes only, and every other output node is text. */
  lemma {:induction false} SanitizeNodeClean(n: Node)
    ensures SanitizeNode(n).Some? ==> Clean(SanitizeNode(n).value)
    decreases n, 1
  {
    match n
    case Text(_) =>
    case Element(tag, attrs, children) =>
      if tag in AllowedTags {
        SanitizeChildrenClean(children);
      }
    case OtherNode(_) =>
  }

  lemma {:induction false} SanitizeChildrenClean(ns: seq<Node>)
    ensures AllClean(SanitizeChildren(ns))
    decreases ns, 0
  {
    if ns != [] {
      SanitizeNodeClean(ns[0]);
      SanitizeChildrenClean(ns[1..]);
    }
  }

  lemma {:induction false} SanitizeAttributesFixed(attrs: seq<Attr>)
    requires forall a :: a in attrs ==> AttrAllowed(a)
    ensures SanitizeAttributes(attrs) == attrs
  {
    if attrs != [] {
      assert attrs[0] in attrs;
      SanitizeAttributesFixed(attrs[1..]);
      assert attrs == [attrs[0]] + attrs[1..];
    }
  }

  /** A clean tree passes through the filter unchanged. */
  lemma {:induction false} SanitizeNodeFixed(n: Node)
    requires Clean(n)
    ensures SanitizeNode(n) == Some(n)
    decreases n, 1
  {
    match n
    case Text(_) =>
    case Element(tag, attrs, children) =>
      SanitizeAttributesFixed(attrs);
      SanitizeChildrenFixed(children);
  }

  lemma {:induction false} SanitizeChildrenFixed(ns: seq<Node>)
    requires AllClean(ns)
    ensures SanitizeChildren(ns) == ns
    decreases ns, 0
  {
    if ns != [] {
      SanitizeNodeFixed(ns[0]);
      SanitizeChildrenFixed(ns[1..]);
      assert ns == [ns[0]] + ns[1..];
    }
  }

  /** Filtering the filter's own output returns the same tree. */
  lemma SanitizeIdempotent(ns: seq<Node>)
    ensures SanitizeChildren(SanitizeChildren(ns)) == SanitizeChildren(ns)
  {
    SanitizeChildrenClean(ns);
    SanitizeChildrenFixed(SanitizeChildren(ns));
  }

  /** A disallowed element is dropped together with its subtree: none of its
      children is hoisted into the output, whatever they are. */
  lemma {:induction false} DroppedElementNotHoisted(tag: string, attrs: seq<Attr>, children: seq<Node>, rest: seq<Node>)
    requires tag !in AllowedTags
    ensures SanitizeChildren([Element(tag, attrs, children)] + rest) == SanitizeChildren(rest)
  {
    assert ([Element(tag, attrs, children)] + rest)[1..] == rest;
  }

  /** sanitizeText reads text the HTML filter drops: the text under a
      disallowed element survives in `SanitizeText` while the element is
      absent from `SanitizeChildren`. */
  lemma {:induction false} TextSurvivesDroppedElement(tag: string, s: string)
    requires tag !in AllowedTags
    ensures SanitizeChildren([Element(tag, [], [Text(s)])]) == []
    ensures SanitizeText([Element(tag, [], [Text(s)])]) == s
  {
    assert [Element(tag, [], [Text(s)])][1..] == [];
    assert [Text(s)][1..] == [];
    assert TextContentAll([Text(s)]) == s + "";
    assert TextContent(Element(tag, [], [Text(s)])) == s;
  }
}

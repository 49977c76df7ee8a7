/**
 * The parsed markup the extractors walk: a tree of elements and text nodes,
 * with the handful of navigation functions of the tree library that the
 * extractors call (`children`, `first_child`, `first_element_child`,
 * `has_tag_name`, `attribute`, `text`).  A tag is the element's local name.
 */
module XmlTree {

  import opened Outcomes

  datatype Node =
    | Element(tag: string, attributes: map<string, string>, children: seq<Node>)
    | Text(content: string)

  /** `children()`: the child nodes in document order; a text node has none. */
  function Children(n: Node): seq<Node> {
    if n.Element? then n.children else []
  }

  /** `has_tag_name(t)`: an element whose local name is `t`. */
  predicate HasTagName(n: Node, t: string) {
    n.Element? && n.tag == t
  }

  /** `attribute(a)`. */
  function Attribute(n: Node, a: string): (r: Option<string>)
    ensures r.Some? <==> n.Element? && a in n.attributes
  {
    if n.Element? && a in n.attributes then Some(n.attributes[a]) else None
  }

  /** `first_child()`: the first child node of any kind. */
  function FirstChild(n: Node): (r: Option<Node>)
    ensures r.Some? <==> Children(n) != []
    ensures r.Some? ==> r.value == Children(n)[0]
  {
    if Children(n) == [] then None else Some(Children(n)[0])
  }

  /** The first element among `cs`, if there is one; text nodes before it are passed over. */
  function FirstElement(cs: seq<Node>): (r: Option<Node>)
    ensures r.None? <==> forall i :: 0 <= i < |cs| ==> cs[i].Text?
    ensures r.Some? ==> r.value.Element? && r.value in cs
    ensures cs != [] && cs[0].Element? ==> r == Some(cs[0])
  {
    if cs == [] then None
    else if cs[0].Element? then Some(cs[0])
    else FirstElement(cs[1..])
  }

  /** `first_element_child()`: the first child that is an element. */
  function FirstElementChild(n: Node): Option<Node> {
    FirstElement(Children(n))
  }

  /**
   * `text()`: the content of a text node; for an element, the content of its
   * first child when that child is a text node, and nothing otherwise.
   */
  function NodeText(n: Node): (r: Option<string>)
    ensures n.Text? ==> r == Some(n.content)
    ensures n.Element? ==> (r.Some? <==> n.children != [] && n.children[0].Text?)
    ensures n.Element? && r.Some? ==> r.value == n.children[0].content
  {
    match n
    case Text(s) => Some(s)
    case Element(_, _, cs) => if cs != [] && cs[0].Text? then Some(cs[0].content) else None
  }

  /** Position `i` holds the first element of `cs` named `tag`. */
  predicate FirstTaggedAt(cs: seq<Node>, tag: string, i: int) {
    0 <= i < |cs| && HasTagName(cs[i], tag) && forall j :: 0 <= j < i ==> !HasTagName(cs[j], tag)
  }

  /** `children().find(|c| c.has_tag_name(tag))`: the first child element named `tag`. */
  function FindChildTagged(cs: seq<Node>, tag: string): (r: Option<Node>)
    ensures r.None? <==> forall i :: 0 <= i < |cs| ==> !HasTagName(cs[i], tag)
    ensures r.Some? ==> exists i :: FirstTaggedAt(cs, tag, i) && cs[i] == r.value
  {
    if cs == [] then None
    else if HasTagName(cs[0], tag) then Some(cs[0])
    else
      var r := FindChildTagged(cs[1..], tag);
      if r.None? then None
      else
        ghost var i :| FirstTaggedAt(cs[1..], tag, i) && cs[1..][i] == r.value;
        assert FirstTaggedAt(cs, tag, i + 1) && cs[i + 1] == r.value by {
          forall j | 0 <= j < i + 1 ensures !HasTagName(cs[j], tag) {
            if j > 0 { assert cs[j] == cs[1..][j - 1]; }
          }
        }
        r
  }
}

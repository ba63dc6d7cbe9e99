/**
 * An abstract picture of the DOM nodes the builder creates: an element is a
 * record of its tag, its attributes, its class string, its inline style, its
 * click listener and its children. Nothing here is a live browser node; the
 * container the builder renders into is the one object that is updated in place.
 */
module Dom {
  import opened Common

  /** A callback supplied by the caller (an `onclick` function); only its identity matters. */
  datatype Handler = Handler(id: nat)

  /** A number or a string, as they appear in definition-list and table content. */
  datatype Scalar = Str(s: string) | Num(n: int)

  /** Structured text content: a definition list of pairs, or a table. */
  datatype Structured =
    | DefinitionList(pairs: seq<(Scalar, Scalar)>)
    | Table(headers: Option<seq<string>>, rows: seq<seq<Scalar>>, footers: Option<seq<string>>)

  /**
   * The value of an attribute: a string set as it is, or the JSON text of a
   * structured value (JSON serialisation itself is a foreign call).
   */
  datatype AttrValue = Literal(s: string) | Serialized(v: Structured)

  /**
   * The attributes the builder sets, each written here with its name in the
   * markup. The builder never sets any other attribute, so the names are a
   * closed set.
   */
  datatype AttrName =
    | Id              // id
    | Slot            // slot
    | LabelText       // label-text
    | ButtonHref      // button-href
    | BadgeContent    // badge-content
    | BadgePosition   // badge-position
    | MultiLine       // multi-line
    | DlContent       // dl-content
    | TableContent    // table-content
    | TextContent     // text-content
    | ShowEnvironment // show-environment
    | ShowGreeting    // show-greeting
    | AvatarAlt       // avatar-alt
    | AvatarSrc       // avatar-src
    | GreetingText    // greeting-text
    | ShowLogout      // show-logout
    | LogoutHref      // logout-href
    | LogoutLabel     // logout-label

  /**
   * An element: `customProps` holds the style properties set one by one with
   * `setProperty` (names starting with `--`), `props` those assigned in one
   * batch to the style object.
   */
  datatype Element = Element(
    tag: string,
    attrs: map<AttrName, AttrValue>,
    className: string,
    customProps: map<string, string>,
    props: map<string, string>,
    onClick: Option<Handler>,
    children: seq<Element>)

  /** A freshly created element with the given tag and nothing else. */
  function Bare(tag: string): (e: Element)
    ensures e.tag == tag && e.attrs == map[] && e.children == []
    ensures e.customProps == map[] && e.props == map[] && e.onClick == None && e.className == ""
  {
    Element(tag, map[], "", map[], map[], None, [])
  }

  /** `el.setAttribute(name, value)`: the attribute is added, or replaced when already set. */
  function SetAttribute(el: Element, name: AttrName, value: AttrValue): (r: Element)
    ensures r == el.(attrs := r.attrs)
    ensures r.attrs == el.attrs[name := value]
  {
    el.(attrs := el.attrs[name := value])
  }

  /** `parent.appendChild(child)`. */
  function AppendChild(parent: Element, child: Element): (r: Element)
    ensures r == parent.(children := r.children)
    ensures r.children == parent.children + [child]
  {
    parent.(children := parent.children + [child])
  }

  /** The tag names whose presence makes an icon unsafe to render. */
  predicate IsForbiddenTag(tag: string)
  {
    tag == "parsererror" || tag == "script"
  }

  /** Some element strictly below `e` (the root itself is not examined) has a forbidden tag. */
  predicate HasForbiddenDescendant(e: Element)
    ensures HasForbiddenDescendant(e) ==> e.children != []
    decreases e
  {
    exists i :: 0 <= i < |e.children| &&
      (IsForbiddenTag(e.children[i].tag) || HasForbiddenDescendant(e.children[i]))
  }

  /**
   * The tag names of all elements strictly below `e`, in document order; this
   * is what `getElementsByTagName('*')` enumerates on an element.
   */
  function DescendantTags(e: Element): (r: seq<string>)
    ensures |r| >= |e.children|
    ensures forall i :: 0 <= i < |e.children| ==> e.children[i].tag in r
    decreases e
  {
    var parts := seq(|e.children|, i requires 0 <= i < |e.children| =>
      [e.children[i].tag] + DescendantTags(e.children[i]));
    ConcatHeads(parts);
    assert forall i :: 0 <= i < |parts| ==> parts[i][0] == e.children[i].tag;
    Concat(parts)
  }

  /** Some tag of `tags` is forbidden. */
  predicate ListsForbiddenTag(tags: seq<string>)
  {
    exists k :: 0 <= k < |tags| && IsForbiddenTag(tags[k])
  }

  /** A forbidden tag in the flat list of descendant tags comes from a forbidden descendant. */
  lemma {:induction false} ListedTagIsDescendant(e: Element)
    requires ListsForbiddenTag(DescendantTags(e))
    ensures HasForbiddenDescendant(e)
    decreases e
  {
    var parts := seq(|e.children|, i requires 0 <= i < |e.children| =>
      [e.children[i].tag] + DescendantTags(e.children[i]));
    assert DescendantTags(e) == Concat(parts);
    var k :| 0 <= k < |DescendantTags(e)| && IsForbiddenTag(DescendantTags(e)[k]);
    var t := DescendantTags(e)[k];
    InConcat(parts, t);
    var i :| 0 <= i < |parts| && t in parts[i];
    var c := e.children[i];
    if t != c.tag {
      var j :| 0 <= j < |DescendantTags(c)| && DescendantTags(c)[j] == t;
      ListedTagIsDescendant(c);
    }
    assert IsForbiddenTag(c.tag) || HasForbiddenDescendant(c);
  }

  /** Every forbidden descendant shows up in the flat list of descendant tags. */
  lemma {:induction false} DescendantTagIsListed(e: Element)
    requires HasForbiddenDescendant(e)
    ensures ListsForbiddenTag(DescendantTags(e))
    decreases e
  {
    var parts := seq(|e.children|, i requires 0 <= i < |e.children| =>
      [e.children[i].tag] + DescendantTags(e.children[i]));
    assert DescendantTags(e) == Concat(parts);
    var i :| 0 <= i < |e.children| &&
      (IsForbiddenTag(e.children[i].tag) || HasForbiddenDescendant(e.children[i]));
    var c := e.children[i];
    var t := c.tag;
    if !IsForbiddenTag(t) {
      DescendantTagIsListed(c);
      var j :| 0 <= j < |DescendantTags(c)| && IsForbiddenTag(DescendantTags(c)[j]);
      t := DescendantTags(c)[j];
      assert t in parts[i];
    } else {
      assert t == parts[i][0];
    }
    InConcat(parts, t);
    var k :| 0 <= k < |DescendantTags(e)| && DescendantTags(e)[k] == t;
  }

  /** The element the builder renders into; `replaceChildren` swaps its whole content. */
  class Container {
    var children: seq<Element>

    constructor (children: seq<Element>)
      ensures this.children == children
    {
      this.children := children;
    }

    /** Removes every child and inserts `node` as the only one. */
    method ReplaceChildren(node: Element)
      modifies this
      ensures children == [node]
    {
      children := [node];
    }
  }
}

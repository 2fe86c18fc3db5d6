/**
 * A parsed HTML document as the plugin uses PHP's DOMDocument: an arena of
 * element nodes in document order, each with a tag name, an attribute map
 * and the index of its parent. Only attributes are ever changed; the shape
 * of the tree (tags and parents) stays as the parser left it.
 */
module Dom {
  import opened Wrappers

  type Attrs = map<string, string>

  datatype Node = Node(tag: string, attrs: Attrs, parent: Option<nat>)

  /** DOMElement::getAttribute: the attribute's value, or "" when it is absent. */
  function GetAttribute(a: Attrs, name: string): string {
    if name in a then a[name] else ""
  }

  /**
   * What the HTML parser guarantees: parents are other nodes of the arena,
   * every `img` has a parent, and `img` is a void element, so no node has an
   * `img` as its parent.
   */
  predicate WellFormed(nodes: seq<Node>) {
    forall i | 0 <= i < |nodes| ::
      && (nodes[i].parent.Some? ==>
            nodes[i].parent.value < |nodes| && nodes[i].parent.value != i
            && nodes[nodes[i].parent.value].tag != "img")
      && (nodes[i].tag == "img" ==> nodes[i].parent.Some?)
  }

  /** A parsed document: a well-formed arena. */
  type Tree = nodes: seq<Node> | WellFormed(nodes) witness []

  /** The same tags and parents, node for node: only attributes may differ. */
  predicate SameShape(a: seq<Node>, b: seq<Node>) {
    |a| == |b| && forall i | 0 <= i < |a| :: a[i].tag == b[i].tag && a[i].parent == b[i].parent
  }

  lemma SameShapeWellFormed(a: seq<Node>, b: seq<Node>)
    requires SameShape(a, b) && WellFormed(a)
    ensures WellFormed(b)
  {
    forall i | 0 <= i < |b| && b[i].parent.Some?
      ensures b[i].parent.value < |b| && b[i].parent.value != i && b[b[i].parent.value].tag != "img"
    {
      assert a[i].parent == b[i].parent;
    }
  }

  /** Indices of the nodes with `tag` from offset `start` on, in document order. */
  function ElementsFrom(nodes: seq<Node>, tag: string, start: nat): (r: seq<nat>)
    requires start <= |nodes|
    ensures forall k | 0 <= k < |r| :: start <= r[k] < |nodes| && nodes[r[k]].tag == tag
    ensures forall i | start <= i < |nodes| && nodes[i].tag == tag :: i in r
    ensures forall k, l | 0 <= k < l < |r| :: r[k] < r[l]
    decreases |nodes| - start
  {
    if start == |nodes| then []
    else if nodes[start].tag == tag then [start] + ElementsFrom(nodes, tag, start + 1)
    else ElementsFrom(nodes, tag, start + 1)
  }

  /** getElementsByTagName: every node with `tag`, once each, in document order. */
  function ElementsByTag(nodes: seq<Node>, tag: string): seq<nat> {
    ElementsFrom(nodes, tag, 0)
  }

  /** No node with `tag` from offset `start` on: the list is empty. */
  lemma {:induction false} ElementsFromNone(nodes: seq<Node>, tag: string, start: nat)
    requires start <= |nodes|
    requires forall i | start <= i < |nodes| :: nodes[i].tag != tag
    ensures ElementsFrom(nodes, tag, start) == []
    decreases |nodes| - start
  {
    if start < |nodes| {
      ElementsFromNone(nodes, tag, start + 1);
    }
  }

  /** The list of elements depends on the shape of the tree alone. */
  lemma {:induction false} ElementsFromSameShape(a: seq<Node>, b: seq<Node>, tag: string, start: nat)
    requires SameShape(a, b) && start <= |a|
    ensures ElementsFrom(a, tag, start) == ElementsFrom(b, tag, start)
    decreases |a| - start
  {
    if start < |a| {
      ElementsFromSameShape(a, b, tag, start + 1);
    }
  }

  /** `nodes` with attribute `name` of node `i` set to `value`. */
  function WithAttribute(nodes: seq<Node>, i: nat, name: string, value: string): (r: seq<Node>)
    requires i < |nodes|
    ensures SameShape(nodes, r)
  {
    nodes[i := nodes[i].(attrs := nodes[i].attrs[name := value])]
  }

  /** A second update of the same node overrides the first. */
  lemma UpdateTwice(nodes: seq<Node>, i: nat, x: Node, y: Node)
    requires i < |nodes|
    ensures nodes[i := x][i := y] == nodes[i := y]
  {
  }

  /** `nodes` with attribute `name` of node `i` removed. */
  function WithoutAttribute(nodes: seq<Node>, i: nat, name: string): (r: seq<Node>)
    requires i < |nodes|
    ensures SameShape(nodes, r)
  {
    nodes[i := nodes[i].(attrs := nodes[i].attrs - {name})]
  }

  /** A loaded DOMDocument, whose elements' attributes are changed in place. */
  class Document {
    var nodes: seq<Node>

    constructor (nodes: seq<Node>)
      ensures this.nodes == nodes
    {
      this.nodes := nodes;
    }

    /** DOMElement::setAttribute on node `i`. */
    method SetAttribute(i: nat, name: string, value: string)
      requires i < |nodes|
      modifies this
      ensures nodes == WithAttribute(old(nodes), i, name, value)
    {
      nodes := nodes[i := nodes[i].(attrs := nodes[i].attrs[name := value])];
    }

    /** DOMElement::removeAttribute on node `i`. */
    method RemoveAttribute(i: nat, name: string)
      requires i < |nodes|
      modifies this
      ensures nodes == WithoutAttribute(old(nodes), i, name)
    {
      nodes := nodes[i := nodes[i].(attrs := nodes[i].attrs - {name})];
    }
  }
}

// The part of the DOM the objects rely on: documents, elements that move, and the namespace
// declarations in scope at an element.
module Dom {
  import opened Names
  import opened MixedContent

  class Document {
    var root: Element?  // the element last put at the top
    var released: bool

    constructor ()
      ensures root == null && !released
    {
      root, released := null, false;
    }

    // A document is given back at most once.
    method Release()
      requires !released
      modifies this`released
      ensures released
    {
      released := true;
    }

    // The document element: none once the top element has been moved below another one.
    function DocumentElement(): Element?
      reads this`root, (if root == null then {} else {root})`parent
    {
      if root != null && root.parent == null then root else null
    }

    // The marshaller's setDocumentElement: e becomes the document element, wherever it was.
    method SetRoot(e: Element)
      requires e.doc == this
      requires e.parent != null ==> ElementNode(e) in e.parent.kids
      modifies this`root, e`parent, (if e.parent == null then {} else {e.parent})`kids
      ensures root == e && e.parent == null && DocumentElement() == e
      ensures old(e.parent) != null ==> old(e.parent).kids == Without(old(e.parent.kids), e)
    {
      if e.parent != null {
        e.parent.kids := Without(e.parent.kids, e);
        e.parent := null;
      }
      root := e;
    }
  }

  class Element {
    const doc: Document
    const uri: string
    const local: string
    var prefix: string
    var attrs: Attributes
    var kids: seq<Node<Element>>
    var parent: Element?

    constructor (doc: Document, uri: string, local: string)
      ensures this.doc == doc && this.uri == uri && this.local == local
      ensures prefix == "" && attrs == map[] && kids == [] && parent == null
    {
      this.doc, this.uri, this.local := doc, uri, local;
      prefix, attrs, kids, parent := "", map[], [], null;
    }

    // Node::appendChild: a child that already hangs somewhere leaves that place first.
    method AppendChild(child: Element)
      requires child != this && child.doc == doc
      requires child.parent != null ==> ElementNode(child) in child.parent.kids
      modifies this`kids, child`parent, (if child.parent == null then {} else {child.parent})`kids
      ensures child.parent == this
      ensures kids == (if old(child.parent) == this then Without(old(kids), child) else old(kids)) + [ElementNode(child)]
      ensures old(child.parent) != null && old(child.parent) != this ==>
                old(child.parent).kids == Without(old(child.parent.kids), child)
    {
      if child.parent != null {
        child.parent.kids := Without(child.parent.kids, child);
      }
      child.parent := this;
      kids := kids + [ElementNode(child)];
    }
  }

  // A child list after the removal of one element.
  function Without<E(==)>(nodes: seq<Node<E>>, e: E): seq<Node<E>> {
    if nodes == [] then []
    else if nodes[0] == ElementNode(e) then nodes[1..]
    else [nodes[0]] + Without(nodes[1..], e)
  }

  lemma {:induction false} WithoutKeeps<E>(nodes: seq<Node<E>>, e: E)
    ensures forall n :: n in nodes && n != ElementNode(e) ==> n in Without(nodes, e)
  {
    if nodes == [] {
    } else {
      WithoutKeeps(nodes[1..], e);
      assert nodes == [nodes[0]] + nodes[1..];
    }
  }

  // ---------------------------------------------------------------- declarations in scope

  // The attribute that declares a prefix; the default namespace has the prefix "".
  function DeclName(prefix: string): Expanded {
    Expanded(XMLNS_NS, if prefix == "" then "xmlns" else prefix)
  }

  // An element (or null) followed by its ancestors, root last.
  ghost predicate IsChain(e: Element?, up: seq<Element>)
    reads up`parent
  {
    if up == [] then e == null else e == up[0] && IsChain(e.parent, up[1..])
  }

  // The attributes along a chain, nearest element first.
  ghost function Scopes(up: seq<Element>): seq<Attributes>
    reads up`attrs
  {
    if up == [] then [] else [up[0].attrs] + Scopes(up[1..])
  }

  // What a prefix means where these attributes are in scope, by sections 6.1 and 6.2 of Namespaces in
  // XML 1.0: the nearest declaration wins, and the default namespace is null above the root.
  function Meaning(scopes: seq<Attributes>, prefix: string): Option<string> {
    if scopes == [] then if prefix == "" then Some("") else None
    else if DeclName(prefix) in scopes[0] then Some(scopes[0][DeclName(prefix)].value)
    else Meaning(scopes[1..], prefix)
  }

  // What a prefix means is what the first scope that declares it says; if none does, the default namespace is
  // the empty one, and any other prefix means nothing.
  lemma {:induction false} MeaningExactly(scopes: seq<Attributes>, prefix: string, i: nat)
    requires i <= |scopes|
    requires forall j :: 0 <= j < i ==> Expanded(XMLNS_NS, if prefix == "" then "xmlns" else prefix) !in scopes[j]
    ensures i < |scopes| && prefix == "" && Expanded(XMLNS_NS, "xmlns") in scopes[i] ==>
              Meaning(scopes, prefix) == Some(scopes[i][Expanded(XMLNS_NS, "xmlns")].value)
    ensures i < |scopes| && prefix != "" && Expanded(XMLNS_NS, prefix) in scopes[i] ==>
              Meaning(scopes, prefix) == Some(scopes[i][Expanded(XMLNS_NS, prefix)].value)
    ensures i == |scopes| ==> Meaning(scopes, prefix) == if prefix == "" then Some("") else None
    decreases i
  {
    if i > 0 {
      MeaningExactly(scopes[1..], prefix, i - 1);
    }
  }

  // The marshaller's own lookupNamespaceURI.
  method LookupNamespaceURI(n: Element?, prefix: string, ghost up: seq<Element>) returns (r: Option<string>)
    requires IsChain(n, up)
    decreases up
    ensures r == Meaning(Scopes(up), prefix)
  {
    if n == null {
      return if prefix == "" then Some("") else None;
    }
    if DeclName(prefix) in n.attrs {
      return Some(n.attrs[DeclName(prefix)].value);
    }
    r := LookupNamespaceURI(n.parent, prefix, up[1..]);
  }
}

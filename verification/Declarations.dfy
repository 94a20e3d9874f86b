// The attributes a fresh element gets: schema-instance attributes, the namespace declarations that
// are not in scope already, extension attributes.
module Declarations {
  import opened Names
  import opened Dom
  import opened XmlTree

  // The two maps differ in namespace declarations only.
  ghost predicate SameApartFromDeclarations(a: Attributes, b: Attributes) {
    && (forall k :: k in a && k.uri != XMLNS_NS ==> k in b && a[k] == b[k])
    && (forall k :: k in b && k.uri != XMLNS_NS ==> k in a)
  }

  lemma CanonAgrees(a: Attributes, b: Attributes)
    requires SameApartFromDeclarations(a, b)
    ensures Canon(a) == Canon(b)
  {
  }

  // No entry redefines the reserved prefix xmlns, and no two share a prefix.
  ghost predicate Declarable(nss: seq<Namespace>) {
    UniquePrefixes(nss) && forall i :: 0 <= i < |nss| ==> nss[i].prefix != "xmlns"
  }

  // The one declaration that is never written: xml is bound by definition.
  predicate IsXml(ns: Namespace) {
    ns.prefix == "xml" && ns.uri == XML_NS
  }

  // An entry is written unless it is in scope above already; a pinned one always is.
  predicate Written(ns: Namespace, above: seq<Attributes>) {
    !IsXml(ns) && (ns.always || Meaning(above, ns.prefix) != Some(ns.uri))
  }

  function Declaration(ns: Namespace): AttrVal {
    AttrVal(if ns.prefix == "" then "" else "xmlns", ns.uri)
  }

  function WithDeclarations(attrs: Attributes, nss: seq<Namespace>, above: seq<Attributes>): Attributes {
    if nss == [] then attrs
    else
      var ns := nss[|nss| - 1];
      var rest := WithDeclarations(attrs, nss[..|nss| - 1], above);
      if Written(ns, above) then rest[DeclName(ns.prefix) := Declaration(ns)] else rest
  }

  lemma {:induction false} DeclarationsOnly(attrs: Attributes, nss: seq<Namespace>, above: seq<Attributes>)
    ensures SameApartFromDeclarations(attrs, WithDeclarations(attrs, nss, above))
  {
    if nss != [] {
      DeclarationsOnly(attrs, nss[..|nss| - 1], above);
    }
  }

  // Each declaration is there exactly when it is called for, with its own URI.
  lemma {:induction false} DeclarationsExact(attrs: Attributes, nss: seq<Namespace>, above: seq<Attributes>, i: nat)
    requires Declarable(nss) && i < |nss|
    requires forall k :: k in attrs ==> k.uri != XMLNS_NS
    ensures var after := WithDeclarations(attrs, nss, above);
            && (DeclName(nss[i].prefix) in after <==> Written(nss[i], above))
            && (Written(nss[i], above) ==> after[DeclName(nss[i].prefix)] == Declaration(nss[i]))
  {
    var last := |nss| - 1;
    if i < last {
      assert nss[..last][i] == nss[i];
      DeclarationsExact(attrs, nss[..last], above, i);
    } else {
      NotYetDeclared(attrs, nss[..last], above, nss[last].prefix);
    }
  }

  lemma {:induction false} NotYetDeclared(attrs: Attributes, nss: seq<Namespace>, above: seq<Attributes>, prefix: string)
    requires prefix != "xmlns" && Declarable(nss) && forall i :: 0 <= i < |nss| ==> nss[i].prefix != prefix
    requires forall k :: k in attrs ==> k.uri != XMLNS_NS
    ensures DeclName(prefix) !in WithDeclarations(attrs, nss, above)
  {
    if nss != [] {
      NotYetDeclared(attrs, nss[..|nss| - 1], above, prefix);
    }
  }

  // marshallNamespaces.
  method MarshallNamespaces(nss: seq<Namespace>, d: Element, ghost up: seq<Element>)
    requires up != [] && up[0] == d && IsChain(d, up) && d !in up[1..]
    modifies d`attrs
    ensures d.attrs == WithDeclarations(old(d.attrs), nss, Scopes(up[1..]))
  {
    var n := 0;
    while n < |nss|
      invariant 0 <= n <= |nss|
      invariant d.attrs == WithDeclarations(old(d.attrs), nss[..n], Scopes(up[1..]))
    {
      assert nss[..n + 1][..n] == nss[..n];
      AddDeclaration(nss[n], d, up);
      n := n + 1;
    }
    assert nss[..n] == nss;
  }

  // Leaving out what is in scope already loses nothing: every entry of the set means at the element
  // what it would mean if the element declared its whole set, the null default namespace included.
  lemma DeclarationsResolve(own: Attributes, attrs: Attributes, nss: seq<Namespace>, above: seq<Attributes>, i: nat)
    requires Declarable(nss) && i < |nss| && !IsXml(nss[i])
    requires forall k :: k in attrs ==> k.uri != XMLNS_NS
    requires DeclName(nss[i].prefix) in own <==> DeclName(nss[i].prefix) in WithDeclarations(attrs, nss, above)
    requires DeclName(nss[i].prefix) in own ==>
               own[DeclName(nss[i].prefix)] == WithDeclarations(attrs, nss, above)[DeclName(nss[i].prefix)]
    ensures Meaning([own] + above, nss[i].prefix) == Some(nss[i].uri)
  {
    DeclarationsExact(attrs, nss, above, i);
  }

  // The function object _addns.
  method AddDeclaration(ns: Namespace, d: Element, ghost up: seq<Element>)
    requires up != [] && up[0] == d && IsChain(d, up) && d !in up[1..]
    modifies d`attrs
    ensures d.attrs == if old(Written(ns, Scopes(up[1..]))) then old(d.attrs)[DeclName(ns.prefix) := Declaration(ns)]
                       else old(d.attrs)
  {
    if ns.prefix == "xml" && ns.uri == XML_NS {
      return;
    }
    if !ns.always {
      var declared := LookupNamespaceURI(d.parent, ns.prefix, up[1..]);
      if declared == Some(ns.uri) {
        return;
      }
    }
    if ns.prefix != "" {
      d.attrs := d.attrs[Expanded(XMLNS_NS, ns.prefix) := AttrVal("xmlns", ns.uri)];
    } else {
      d.attrs := d.attrs[Expanded(XMLNS_NS, "xmlns") := AttrVal("", ns.uri)];
    }
  }

  const XSI := Namespace("xsi", XSI_NS, false, VisiblyUsed)

  // The namespace set after xsi:nil and xsi:type asked for their prefix.
  function WithXsi(nss: seq<Namespace>, nil: Nil, typ: Option<QName>): seq<Namespace> {
    var afterNil := if nil.NilNull? then nss else Added(nss, XSI);
    if typ.None? then afterNil else Added(afterNil, XSI)
  }

  // xsi:nil or xsi:type leaves an entry for xsi, visibly used if it is for the schema-instance namespace; nothing
  // else is added, and nothing is pinned.
  lemma WithXsiExactly(nss: seq<Namespace>, nil: Nil, typ: Option<QName>)
    ensures nil.NilNull? && typ.None? ==> WithXsi(nss, nil, typ) == nss
    ensures !nil.NilNull? || typ.Some? ==> Has(WithXsi(nss, nil, typ), "xsi", "http://www.w3.org/2001/XMLSchema-instance", false)
    ensures |nss| <= |WithXsi(nss, nil, typ)| <= |nss| + 1
    ensures forall i :: 0 <= i < |nss| ==> WithXsi(nss, nil, typ)[i].always == nss[i].always
    ensures |WithXsi(nss, nil, typ)| > |nss| ==> !WithXsi(nss, nil, typ)[|nss|].always
  {
    hide Added, Has;
    var once, twice := Added(nss, XSI), Added(Added(nss, XSI), XSI);
    AddedGrows(nss, XSI);
    AddedPins(nss, XSI);
    AddedHas(nss, XSI);
    AddedGrows(once, XSI);
    AddedPins(once, XSI);
    AddedHas(once, XSI);
    forall i | 0 <= i < |nss| ensures once[i].always == nss[i].always && twice[i].always == nss[i].always {
      assert Grows(nss[i], once[i]) && Grows(once[i], twice[i]);
    }
  }

  lemma WithXsiDeclarable(nss: seq<Namespace>, nil: Nil, typ: Option<QName>)
    requires Declarable(nss)
    ensures Declarable(WithXsi(nss, nil, typ))
  {
    AddedDeclarable(nss, XSI);
    AddedDeclarable(Added(nss, XSI), XSI);
  }

  lemma WithXsiFollows(nss: seq<Namespace>, nil: Nil, typ: Option<QName>)
    ensures Follows(nss, WithXsi(nss, nil, typ)) == true
  {
    hide Follows;
    FollowsSelf(nss);
    AddedFollows(nss, XSI);
    AddedFollows(Added(nss, XSI), XSI);
    FollowsTrans(nss, Added(nss, XSI), Added(Added(nss, XSI), XSI));
  }

  lemma AddedDeclarable(nss: seq<Namespace>, ns: Namespace)
    requires Declarable(nss) && ns.prefix != "xmlns"
    ensures Declarable(Added(nss, ns))
  {
    AddedUnique(nss, ns);
    AddedGrows(nss, ns);
    forall i | 0 <= i < |Added(nss, ns)| ensures Added(nss, ns)[i].prefix != "xmlns" {
      if i < |nss| { assert Grows(nss[i], Added(nss, ns)[i]); }
    }
  }

  // No extension attribute pretends to be a namespace declaration, and every entry can be declared.
  ghost predicate Plain(o: XMLObject)
    reads o`attributes, o`namespaces
  {
    Declarable(o.namespaces) && forall k :: k in o.attributes ==> k.uri != XMLNS_NS
  }

  // With these attributes in scope every entry of the set means its own URI.
  ghost predicate Resolved(nss: seq<Namespace>, scopes: seq<Attributes>) {
    forall i :: 0 <= i < |nss| && !(nss[i].prefix == "xml" && nss[i].uri == XML_NS) ==>
      Meaning(scopes, nss[i].prefix) == Some(nss[i].uri)
  }

  // The attributes declare the prefix, with this URI.
  predicate Declares(own: Attributes, prefix: string, uri: string) {
    var k := Expanded(XMLNS_NS, if prefix == "" then "xmlns" else prefix);
    k in own && own[k] == AttrVal(if prefix == "" then "" else "xmlns", uri)
  }

  // The entry is pinned, or not in scope above already, and is not the one for xml.
  predicate CalledFor(ns: Namespace, prefix: string, above: seq<Attributes>) {
    ns.prefix == prefix && (ns.always || Meaning(above, prefix) != Some(ns.uri)) && !(prefix == "xml" && ns.uri == XML_NS)
  }

  // The declarations of an element are just right for a namespace set: every entry means its own URI, the
  // pinned ones are declared here, and nothing is that is not called for.
  ghost predicate Settled(nss: seq<Namespace>, own: Attributes, above: seq<Attributes>) {
    && Resolved(nss, [own] + above)
    && (forall i :: 0 <= i < |nss| && nss[i].always && !(nss[i].prefix == "xml" && nss[i].uri == XML_NS) ==>
          Declares(own, nss[i].prefix, nss[i].uri))
    && (forall k :: k in own && k.uri == XMLNS_NS ==>
          exists i :: 0 <= i < |nss| && Declares(own, nss[i].prefix, nss[i].uri) && CalledFor(nss[i], PrefixOf(k), above))
  }

  // The prefix a declaration is about.
  function PrefixOf(k: Expanded): string {
    if k.local == "xmlns" then "" else k.local
  }

  // The URI the object's own set gives a prefix.
  function Bound(nss: seq<Namespace>, prefix: string): Option<string> {
    if nss == [] then None else if nss[0].prefix == prefix then Some(nss[0].uri) else Bound(nss[1..], prefix)
  }

  lemma {:induction false} BoundEntry(nss: seq<Namespace>, prefix: string) returns (i: nat)
    requires Binds(nss, prefix)
    ensures i < |nss| && nss[i].prefix == prefix && Bound(nss, prefix) == Some(nss[i].uri)
  {
    if nss[0].prefix == prefix {
      i := 0;
    } else {
      var j :| 0 <= j < |nss| && nss[j].prefix == prefix;
      assert nss[1..][j - 1] == nss[j];
      i := BoundEntry(nss[1..], prefix);
      i := i + 1;
    }
  }

  // Where a namespace set resolves, a prefix it binds means the URI of its first entry for it.
  lemma FirstEntryCounts(nss: seq<Namespace>, scopes: seq<Attributes>, prefix: string)
    requires Resolved(nss, scopes) && Binds(nss, prefix)
    ensures Bound(nss, prefix).Some? && (IsXmlBinding(prefix, Bound(nss, prefix)) || Meaning(scopes, prefix) == Bound(nss, prefix))
  {
    var i := BoundEntry(nss, prefix);
  }

  predicate IsXmlBinding(prefix: string, uri: Option<string>) {
    prefix == "xml" && uri == Some(XML_NS)
  }

  // So where an object's set resolves, its own prefix means the URI of its name; and the prefixes of its
  // attributes, of its type, and of xsi:nil and xsi:type mean their own URIs exactly if that is what the
  // set has for them: one that was taken does not get its own.
  lemma OwnNamesResolve(o: XMLObject, scopes: seq<Attributes>)
    requires o.Kept() && Resolved(o.namespaces, scopes)
    ensures IsXmlBinding(o.name.prefix, Some(o.name.uri)) || Meaning(scopes, o.name.prefix) == Some(o.name.uri)
    ensures forall k :: k in o.attributes ==> MeansOwn(o.namespaces, scopes, o.attributes[k].prefix, k.uri)
    ensures o.typ.Some? ==> MeansOwn(o.namespaces, scopes, o.typ.value.prefix, o.typ.value.uri)
    ensures Binds(o.namespaces, "xsi") ==> MeansOwn(o.namespaces, scopes, "xsi", XSI_NS)
  {
    assert o.namespaces[0].prefix == o.name.prefix;
    forall k | k in o.attributes ensures MeansOwn(o.namespaces, scopes, o.attributes[k].prefix, k.uri) {
      FirstEntryCounts(o.namespaces, scopes, o.attributes[k].prefix);
    }
    if o.typ.Some? { FirstEntryCounts(o.namespaces, scopes, o.typ.value.prefix); }
    if Binds(o.namespaces, "xsi") { FirstEntryCounts(o.namespaces, scopes, "xsi"); }
  }

  // The set has an entry for the prefix, and the prefix means `uri` exactly if the entry does.
  ghost predicate MeansOwn(nss: seq<Namespace>, scopes: seq<Attributes>, prefix: string, uri: string) {
    && Bound(nss, prefix).Some?
    && (IsXmlBinding(prefix, Bound(nss, prefix)) || (Meaning(scopes, prefix) == Some(uri) <==> Bound(nss, prefix) == Some(uri)))
  }

  // Writing xsi:nil or xsi:type binds the prefix.
  lemma WithXsiBinds(nss: seq<Namespace>, nil: Nil, typ: Option<QName>)
    ensures !nil.NilNull? || typ.Some? ==> Binds(WithXsi(nss, nil, typ), "xsi")
  {
    AddedBinds(nss, XSI, "xsi");
    AddedBinds(Added(nss, XSI), XSI, "xsi");
  }

  // The attributes of a fresh element before the extension attributes go on.
  function HeadAttributes(nil: Nil, typ: Option<QName>, nss: seq<Namespace>, above: seq<Attributes>): Attributes {
    WithDeclarations(XsiAttributes(nil, typ), nss, above)
  }

  // marshallInto up to the content: prefix, xsi:nil, xsi:type, declarations, extension attributes.
  method MarshallHead(o: XMLObject, d: Element, ghost up: seq<Element>)
    requires up != [] && up[0] == d && IsChain(d, up) && d !in up[1..]
    requires d.uri == o.name.uri && d.local == o.name.local && d.attrs == map[] && d.prefix == ""
    requires o.typ.Some? ==> o.typ.value.local != ""
    modifies d`prefix, d`attrs, o`namespaces
    ensures Canon(d.attrs) == Canon(o.Emitted())
    ensures o.namespaces == WithXsi(old(o.namespaces), o.nil, o.typ) && Follows(old(o.namespaces), o.namespaces) == true
    ensures !o.nil.NilNull? || o.typ.Some? ==> Binds(o.namespaces, "xsi")
    ensures old(Plain(o)) ==> Plain(o) && Settled(o.namespaces, d.attrs, Scopes(up[1..])) == true
    ensures d.prefix == o.name.prefix && Clad(o, d) == true
  {
    hide Follows, Canon, WithDeclarations, Declarable, Added, Meaning, XMLObject.Emitted, Settled, Clad;
    if o.name.prefix != "" {
      d.prefix := o.name.prefix;
    }
    MarshallXsi(o, d);
    ghost var above := Scopes(up[1..]);
    MarshallNamespaces(o.namespaces, d, up);
    assert d.attrs == HeadAttributes(o.nil, o.typ, o.namespaces, above);
    MarshallAttributes(o, d);
    HeadContent(o, d, above);
    WithXsiFollows(old(o.namespaces), o.nil, o.typ);
    WithXsiBinds(old(o.namespaces), o.nil, o.typ);
    if old(Plain(o)) {
      WithXsiDeclarable(old(o.namespaces), o.nil, o.typ);
      HeadSettled(o, d, above);
    }
    HeadClad(o, d, above);
  }

  // xsi:nil and xsi:type, each with its prefix.
  method MarshallXsi(o: XMLObject, d: Element)
    requires d.attrs == map[]
    modifies d`attrs, o`namespaces
    ensures d.attrs == XsiAttributes(o.nil, o.typ) && o.namespaces == WithXsi(old(o.namespaces), o.nil, o.typ)
  {
    hide Added;
    if !o.nil.NilNull? {
      d.attrs := d.attrs[NIL_NAME := AttrVal("xsi", NilText(o.nil))];
      o.AddNamespace(XSI);
    }
    if o.typ.Some? {
      d.attrs := d.attrs[TYPE_NAME := AttrVal("xsi", TypeText(o.typ.value))];
      o.AddNamespace(XSI);
    }
  }

  // marshallExtensionAttributes.
  method MarshallAttributes(o: XMLObject, d: Element)
    modifies d`attrs
    ensures d.attrs == old(d.attrs) + o.attributes
  {
    var todo := o.attributes.Keys;
    while todo != {}
      invariant todo <= o.attributes.Keys
      invariant d.attrs.Keys == old(d.attrs).Keys + (o.attributes.Keys - todo)
      invariant forall k :: k in d.attrs ==>
                  d.attrs[k] == if k in o.attributes && k !in todo then o.attributes[k] else old(d.attrs)[k]
      decreases todo
    {
      var k :| k in todo;
      d.attrs := d.attrs[k := o.attributes[k]];
      todo := todo - {k};
    }
  }

  lemma HeadContent(o: XMLObject, d: Element, above: seq<Attributes>)
    requires d.attrs == HeadAttributes(o.nil, o.typ, o.namespaces, above) + o.attributes
    ensures Canon(d.attrs) == Canon(o.Emitted())
  {
    var plain := XsiAttributes(o.nil, o.typ);
    DeclarationsOnly(plain, o.namespaces, above);
    CanonAgrees(o.Emitted(), d.attrs);
  }

  // The element has its object's name, prefix included, and each attribute but the declarations the prefix
  // the object has for it, or else xsi, which the object's set then binds.
  ghost predicate Dressed(o: XMLObject, e: Element, nss: seq<Namespace>, given: Attributes, prefix: string, attrs: Attributes) {
    && QName(e.uri, e.local, prefix) == o.name
    && forall k :: k in attrs && k.uri != XMLNS_NS ==>
         if k in given then attrs[k].prefix == given[k].prefix
         else k.uri == XSI_NS && attrs[k].prefix == "xsi" && Binds(nss, "xsi")
  }

  ghost predicate Clad(o: XMLObject, d: Element)
    reads o`namespaces, o`attributes, d`prefix, d`attrs
  {
    Dressed(o, d, o.namespaces, o.attributes, d.prefix, d.attrs)
  }

  lemma HeadClad(o: XMLObject, d: Element, above: seq<Attributes>)
    requires d.attrs == HeadAttributes(o.nil, o.typ, o.namespaces, above) + o.attributes && QName(d.uri, d.local, d.prefix) == o.name
    requires !o.nil.NilNull? || o.typ.Some? ==> Binds(o.namespaces, "xsi")
    ensures Clad(o, d) == true
  {
    DeclarationsOnly(XsiAttributes(o.nil, o.typ), o.namespaces, above);
  }

  lemma HeadSettled(o: XMLObject, d: Element, above: seq<Attributes>)
    requires Plain(o) && d.attrs == HeadAttributes(o.nil, o.typ, o.namespaces, above) + o.attributes
    ensures Settled(o.namespaces, d.attrs, above) == true
  {
    HeadResolves(o, d, above);
    hide Resolved, Declarable;
    var plain := XsiAttributes(o.nil, o.typ);
    forall i | 0 <= i < |o.namespaces| && Written(o.namespaces[i], above)
      ensures Declares(d.attrs, o.namespaces[i].prefix, o.namespaces[i].uri)
    {
      DeclarationsExact(plain, o.namespaces, above, i);
    }
    forall k | k in d.attrs && k.uri == XMLNS_NS
      ensures exists i :: 0 <= i < |o.namespaces| && Declares(d.attrs, o.namespaces[i].prefix, o.namespaces[i].uri)
                          && CalledFor(o.namespaces[i], PrefixOf(k), above)
    {
      var i := DeclaredBy(plain, o.namespaces, above, k);
      assert Declares(d.attrs, o.namespaces[i].prefix, o.namespaces[i].uri) && CalledFor(o.namespaces[i], PrefixOf(k), above);
    }
  }

  // A declaration comes from an entry it is called for by.
  lemma {:induction false} DeclaredBy(attrs: Attributes, nss: seq<Namespace>, above: seq<Attributes>, k: Expanded) returns (i: nat)
    requires k in WithDeclarations(attrs, nss, above) && k !in attrs
    requires forall j :: 0 <= j < |nss| ==> nss[j].prefix != "xmlns"
    ensures i < |nss| && Written(nss[i], above) && k == DeclName(nss[i].prefix) && nss[i].prefix == PrefixOf(k)
    decreases |nss|
  {
    var n := |nss| - 1;
    if Written(nss[n], above) && k == DeclName(nss[n].prefix) {
      i := n;
    } else {
      i := DeclaredBy(attrs, nss[..n], above, k);
    }
  }

  lemma HeadResolves(o: XMLObject, d: Element, above: seq<Attributes>)
    requires Plain(o) && d.attrs == HeadAttributes(o.nil, o.typ, o.namespaces, above) + o.attributes
    ensures Resolved(o.namespaces, [d.attrs] + above)
  {
    var plain := XsiAttributes(o.nil, o.typ);
    forall i | 0 <= i < |o.namespaces| && !IsXml(o.namespaces[i])
      ensures Meaning([d.attrs] + above, o.namespaces[i].prefix) == Some(o.namespaces[i].uri)
    {
      DeclarationsResolve(d.attrs, plain, o.namespaces, above, i);
    }
  }
}

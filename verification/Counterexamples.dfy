// Short runs that end where a caller would not expect.
module Counterexamples {
  import opened Names
  import opened MixedContent
  import opened Dom
  import opened XmlTree
  import opened Declarations
  import opened Snapshots
  import opened Scoping
  import opened Contents
  import opened Unmarshalling
  import opened DocumentMarshalling
  import opened Forests

  // What is known of one object of a forest.
  lemma Member(f: Forest, o: XMLObject)
    requires f.Valid() == true && o in f.objects
    ensures o in o.desc && o.Kept() && (o.dom != null ==> o.dom in f.elements && o.Says(o.dom) && o.Wraps(o.dom))
  {
    f.Parts();
    assert o.TreeAt(f.objects) && o.Coherent(f.elements) && o.Kept();
  }

  // An element by itself.
  lemma OneElement(e: Element)
    requires e.kids == [] && e.parent == null
    ensures IsShape(Shape(e, {e}, []), {e}) == true && Supported(Shape(e, {e}, []), {e}) == true && Hung(e, {e}) == true
  {
  }

  // An attribute set before unmarshall is not in the element, but the element is cached as if it were.
  method UnmarshallOver() returns (f: Forest, o: XMLObject)
    ensures o in f.objects && !f.Valid() && Expanded("", "q") in o.attributes
    ensures o.dom != null && o.dom.attrs == map[] && !o.SaysHead(o.dom)
  {
    hide Tree, Cache, Forest.Valid, Forest.Others, IsShape, Supported, Hung, NilsWritable, Read, CachedLive, Uses;
    f := new Forest();
    o := f.New(QName("", "a", ""), None);
    f.SetAttribute(o, QName("", "q", ""), "v", false);
    Member(f, o);
    var doc := new Document();
    var e := new Element(doc, "", "a");
    ghost var sh := Shape(e, {e}, []);
    OneElement(e);
    assert !HeadAddsNothing(o.attributes, o.nil, o.typ, e.attrs) by {
      assert ContentAt(o.attributes, Expanded("", "q")) == Some("v");
    }
    var ok := f.Unmarshall(o, e, false, (x, s) => "", n => false, sh, {e});
    assert Expanded("", "q") in o.attributes && o.attributes[Expanded("", "q")].value == "v";
    assert Canon(o.Emitted())[Expanded("", "q")] == "v";
  }

  // An xsi:nil that is none of the values the library writes is read as unset, and the element that still
  // has it is cached.
  method NilLost() returns (f: Forest, o: XMLObject)
    ensures o in f.objects && !f.Valid() && o.dom != null && o.dom.attrs == map[NIL_NAME := AttrVal("xsi", "yes")]
    ensures o.nil == NilNull && NIL_NAME !in o.attributes
  {
    hide Tree, Cache, Forest.Valid, Forest.Others, CachedLive, Matches, NilRead, DomSays, ContentOf, IsShape, Supported, Hung;
    f := new Forest();
    var doc := new Document();
    var e := new Element(doc, "", "a");
    e.attrs := map[NIL_NAME := AttrVal("xsi", "yes")];
    ghost var sh := Shape(e, {e}, []);
    OneElement(e);
    assert !NilsWritable({e});
    o := f.Build(e, false, (x, s) => "", n => false, sh, {e});
    Unset(o);
  }

  lemma Unset(o: XMLObject)
    requires o.dom != null && NilRead(o) == true && o.dom.attrs == map[NIL_NAME := AttrVal("xsi", "yes")]
    ensures o.nil == NilNull && NIL_NAME !in o.attributes
  {
  }

  // A root with one child.
  method Pair() returns (f: Forest, root: XMLObject, child: XMLObject)
    ensures fresh(f) && fresh(root) && fresh(child) && root != child && f.Valid() == true && f.Live() == true
    ensures f.objects == {root, child} && f.elements == {} && root.desc == {root, child} && child.desc == {child}
    ensures child.parent == root && root.parent == null && root.children == [child] && root.typ == None && child.typ == None
    ensures root.document == null && child.document == null && root.dom == null && child.dom == null && child.nil == NilNull
  {
    hide Tree, Cache, Forest.Valid, Forest.Others;
    f := new Forest();
    root := f.New(QName("", "a", ""), None);
    child := f.New(QName("", "b", ""), None);
    Member(f, root);
    Member(f, child);
    var ok := f.Append(root, child);
  }

  // The root made a document of its own.
  method OneOwnerPair() returns (f: Forest, root: XMLObject, child: XMLObject)
    ensures fresh(f) && fresh(root) && fresh(child) && root != child && f.Valid() == true && f.Live() == true
    ensures f.objects == {root, child} && root.desc == {root, child} && child.desc == {child} && child.typ == None
    ensures child.parent == root && root.parent == null && root.children == [child] && child.document == null && child.nil == NilNull
    ensures root.document != null && fresh(root.document) && root.dom != null && forall e :: e in f.elements ==> fresh(e)
  {
    hide Tree, Cache, Forest.Valid, Forest.Others, XMLObject.Uncached, Facts, Laid, AllPlain, Same, DomSays, ContentOf, CachedLive, Uses;
    f, root, child := Pair();
    UsesNothing(f.objects - root.desc);
    var r := f.Marshall(root, null);
  }

  // The element of a root keeps the child that was erased.
  method ErasedChild() returns (f: Forest, root: XMLObject)
    ensures root in f.objects && !f.Valid() && root.children == [] && root.dom != null && |Elems(root.dom.kids)| == 1
  {
    hide Tree, Cache, Forest.Valid, Forest.Others, CachedLive, Uses, XMLObject.Kept;
    var child;
    f, root, child := OneOwnerPair();
    Member(f, root);
    f.Erase(root, 0);
  }

  // Both made a document of their own, the child after it had changed.
  method TwoOwners() returns (f: Forest, root: XMLObject, child: XMLObject)
    ensures fresh(f) && fresh(root) && fresh(child) && f.Valid() == true && f.Live() == true
    ensures f.objects == {root, child} && root.desc == {root, child} && child.desc == {child}
    ensures child.parent == root && root.parent == null
    ensures root.document != null && fresh(root.document) && child.document != null && fresh(child.document)
    ensures child.dom != null && child.dom.doc == child.document
  {
    hide Tree, Cache, Forest.Valid, Forest.Others, XMLObject.Uncached, Facts, Laid, AllPlain, Same, DomSays, ContentOf, CachedLive, Uses;
    f, root, child := OneOwnerPair();
    f.SetNil(child, NilTrue);
    NoElement(f, child);
    UsesNothing(f.objects - child.desc);
    var r := f.Marshall(child, null);
  }

  lemma NoElement(f: Forest, o: XMLObject)
    requires f.Valid() == true && o in f.objects && o.Uncached(f.objects) == true
    ensures o.dom == null
  {
    Member(f, o);
  }

  // A child that made its own document before it is detached caches an element of a released document.
  method DanglingCache() returns (f: Forest, child: XMLObject)
    ensures f.Valid() && child in f.objects && child.dom != null && child.dom.doc.released && !f.Live()
  {
    hide Tree, Cache, Forest.Valid, Forest.Others;
    var root;
    f, root, child := TwoOwners();
    ghost var own := child.document;
    assert own in GivenUp(child) && child in f.objects - LeftBehind(child);
    var ok := f.Detach(child);
    assert !f.Live() && f.objects == {child};
  }

  // Two objects, the first marshalled.
  method OneMarshalled() returns (f: Forest, a: XMLObject, b: XMLObject, r: Element)
    ensures fresh(f) && fresh(a) && fresh(b) && a != b && f.Valid() == true && f.objects == {a, b} && a.desc == {a} && b.desc == {b}
    ensures a.dom == r && b.dom == null && b.parent == null && b.typ == None && r.parent == null && r in f.elements
    ensures forall e :: e in f.elements ==> fresh(e)
  {
    hide Tree, Cache, Forest.Valid, Forest.Others, XMLObject.Uncached, Facts, Laid, AllPlain, Same, DomSays, ContentOf, CachedLive, Uses;
    hide InitialNamespaces;
    f := new Forest();
    a := f.New(QName("", "a", ""), None);
    b := f.New(QName("", "b", ""), None);
    r := f.Marshall(a, null);
    Member(f, a);
  }

  // Under an element that another object caches, an object makes that cache wrong.
  method TargetInUse() returns (f: Forest, a: XMLObject, b: XMLObject)
    ensures a in f.objects && b in f.objects && b.dom != null && !f.Valid()
  {
    hide Tree, Cache, Forest.Valid, Forest.Others, XMLObject.Uncached, Facts, Laid, AllPlain, Same, DomSays, ContentOf, CachedLive, Uses;
    hide Rest, Scopes;
    var r;
    f, a, b, r := OneMarshalled();
    assert IsChain(r, [r]) && a in f.objects && a.dom == r && b !in a.desc;
    assert !Fits(b, r, f.objects);
    var s := f.MarshallInto(b, r, [r]);
  }

  // An attribute whose prefix was taken does not get its own URI.
  method PrefixTaken() returns (f: Forest, o: XMLObject)
    ensures f.Valid() && o in f.objects
    ensures var k := Expanded("u2", "a");
            k in o.attributes && o.attributes[k].prefix == "p"
            && forall scopes :: Resolved(o.namespaces, scopes) ==> Meaning(scopes, "p") == Some("u1")
  {
    hide Tree, Cache, Forest.Valid, Forest.Others;
    f := new Forest();
    o := f.New(QName("u1", "e", "p"), None);
    f.SetAttribute(o, QName("u2", "a", "p"), "v", false);
    Member(f, o);
  }

  // Of <p:a x="v" xmlns="d"/>, read in this order, the default declaration is not kept: the attribute without a
  // prefix has taken the default namespace for itself, and every later state of the set keeps that.
  method DefaultLost() returns (o: XMLObject)
    ensures fresh(o) && o.name == QName("u", "a", "p") && Expanded("", "x") in o.attributes
    ensures Binds(o.namespaces, "") &&
      forall nss: seq<Namespace>, ns: Namespace :: Follows(o.namespaces, nss) && ns in nss && ns.prefix == "" ==> ns.uri == ""
  {
    hide NamesFrom, InitialNamespaces, Follows;
    var x, declaration := Expanded("", "x"), Expanded(XMLNS_NS, "xmlns");
    o := new XMLObject(QName("u", "a", "p"), None);
    ghost var first, second := map[x := AttrVal("", "v")], map[declaration := AttrVal("", "d")];
    NamesThere(o.namespaces, first);
    ghost var base := o.namespaces;
    UnmarshallAttribute(o, x, AttrVal("", "v"), n => false, {}, base, first);
    assert x in o.attributes && o.attributes[x] == AttrVal("", "v");
    ghost var i := TakenByAttribute(o.namespaces, base, first);
    ghost var before := o.namespaces;
    NamesThere(before, second);
    UnmarshallAttribute(o, declaration, AttrVal("", "d"), n => false, {}, before, second);
    StillTaken(before, o.namespaces, i);
  }

  lemma TakenByAttribute(nss: seq<Namespace>, base: seq<Namespace>, attrs: Attributes) returns (i: nat)
    requires attrs == map[Expanded("", "x") := AttrVal("", "v")] && NamesFrom(nss, base, attrs) == true && Binds(nss, "")
    requires base == [Namespace("p", "u", false, VisiblyUsed)]
    ensures i < |nss| && nss[i].prefix == "" && nss[i].uri == ""
  {
    i :| 0 <= i < |nss| && nss[i].prefix == "";
    assert NameFrom(nss[i], base, attrs);
    if Named(nss[i], attrs) {
      var k :| k in attrs && NamedBy(nss[i], k, attrs[k]);
    }
  }

  lemma StillTaken(before: seq<Namespace>, after: seq<Namespace>, i: nat)
    requires i < |before| && before[i].prefix == "" && before[i].uri == "" && UniquePrefixes(before) && Follows(before, after) == true
    ensures Binds(after, "")
    ensures forall nss: seq<Namespace>, ns: Namespace :: Follows(after, nss) && ns in nss && ns.prefix == "" ==> ns.uri == ""
  {
    assert Grows(before[i], after[i]);
    forall nss: seq<Namespace>, ns: Namespace | Follows(after, nss) && ns in nss && ns.prefix == "" ensures ns.uri == "" {
      var j :| 0 <= j < |nss| && nss[j] == ns;
      assert Grows(after[i], nss[i]);
    }
  }

  // <a xmlns:p="u"><p:b/></a>
  method MakeDom() returns (doc: Document, ea: Element, eb: Element)
    ensures fresh(doc) && fresh(ea) && fresh(eb) && ea != eb && ea.doc == doc == eb.doc
    ensures !doc.released && doc.DocumentElement() == ea
    ensures ea.uri == "" && ea.local == "a" && ea.prefix == "" && ea.attrs == map[DeclName("p") := AttrVal("xmlns", "u")]
    ensures eb.uri == "u" && eb.local == "b" && eb.prefix == "p" && eb.attrs == map[]
    ensures ea.kids == [ElementNode(eb)] && eb.kids == [] && eb.parent == ea && ea.parent == null
  {
    doc := new Document();
    ea := new Element(doc, "", "a");
    eb := new Element(doc, "u", "b");
    ea.attrs := map[DeclName("p") := AttrVal("xmlns", "u")];
    eb.prefix := "p";
    doc.SetRoot(ea);
    ea.AppendChild(eb);
  }

  lemma OneChild(ea: Element, eb: Element, sh: Shape)
    requires sh == Shape(ea, {ea, eb}, [Shape(eb, {eb}, [])]) && ea != eb && ea.doc == eb.doc
    requires ea.kids == [ElementNode(eb)] && eb.kids == [] && eb.parent == ea && ea.parent == null
    ensures IsShape(sh, {ea, eb}) && Supported(sh, {ea, eb}) && Hung(ea, {ea, eb}) && Elems(ea.kids) == [eb]
  {
    assert Elems(ea.kids[..0]) == [];
    assert IsShape(Shape(eb, {eb}, []), {ea, eb});
    assert Used(sh, 1) == {eb} by { assert eb in sh.kids[0].below; }
  }

  // A subtree of a built object is plain and typed where the elements are.
  lemma BuiltBelow(f: Forest, a: XMLObject, b: XMLObject, below: set<Element>)
    requires f.Valid() == true && a in f.objects && b in a.children
    requires forall x :: x in a.desc ==> x.dom != null && x.dom in below && Matches(x) == true
    requires forall d :: d in below ==> NamesPlain(d.prefix, d.attrs) && WritableType(d.attrs)
    ensures b in f.objects && b.parent == a && AllPlain(b.desc) == true && Typed(b.desc) && b.name.prefix == b.dom.prefix
  {
    hide NamesPlain, WritableType, Plain;
    f.Parts();
    assert a.TreeAt(f.objects);
    assert b.TreeAt(f.objects);
    forall x | x in b.desc ensures Plain(x) && (x.typ.Some? ==> x.typ.value.local != "") {
      assert Matches(x);
    }
  }

  // Marshalling a cached object where its document is leaves its element's attributes as they were.
  lemma KeptAttributes(before: map<XMLObject, Fact>, f: Forest, b: XMLObject, known: set<Element>)
    requires b in f.objects && b in before && before[b].dom in known && b.dom == before[b].dom
    requires Laid(before, Facts(f.objects), b, f.objects, known, null, []) == true
    ensures b.dom != null && b.dom.attrs == before[b].attrs && b.dom.parent == null
  {
  }

  // <a xmlns:p="u"><p:b/></a>: once b is detached and marshalled by itself, nothing declares its prefix.
  method PrefixLost() returns (f: Forest, b: XMLObject)
    ensures f.Valid() && b in f.objects && b.dom != null && b.dom.parent == null
    ensures b.name.prefix == "p" && b.name.uri == "u" && !Resolved(b.namespaces, [b.dom.attrs])
  {
    hide Tree, Cache, Forest.Valid, Forest.Others, Hung, Matches, IsShape, Supported, XMLObject.Uncached, Facts, Laid, AllPlain, Same, DomSays;
    hide ContentOf, CachedLive, Uses, GivenUp, LeftBehind, Typed, XMLObject.Says, XMLObject.Wraps;
    hide Resolved, XMLObject.Kept, XMLObject.Coherent;
    var doc;
    f, doc, b := DetachedChild();
    ghost var before, known := Facts(f.objects), f.elements;
    FactHere(f, b);
    Member(f, b);
    var r := f.Marshall(b, doc);
    KeptAttributes(before, f, b, known);
    Member(f, b);
    Undeclared(b);
  }

  lemma Undeclared(o: XMLObject)
    requires o.Kept() && o.name.prefix == "p" && o.dom != null && o.dom.attrs == map[]
    ensures !Resolved(o.namespaces, [o.dom.attrs])
  {
    assert o.namespaces[0].prefix == "p" && !IsXml(o.namespaces[0]);
    assert [o.dom.attrs][1..] == [];
    assert Meaning([o.dom.attrs], "p") == None;
  }

  // The child took the document along.
  method DetachedChild() returns (f: Forest, doc: Document, b: XMLObject)
    ensures fresh(f) && fresh(doc) && f.Valid() == true && b in f.objects
    ensures (forall x :: x in f.objects ==> fresh(x)) && forall e :: e in f.elements ==> fresh(e)
    ensures b.document == doc && b.dom != null && b.dom.doc == doc && b.dom.attrs == map[] && AllPlain(b.desc) == true && Typed(b.desc) == true
    ensures b.name.prefix == "p" && b.name.uri == "u"
  {
    hide Tree, Cache, Forest.Valid, Forest.Others, AllPlain, CachedLive;
    hide Uses, GivenUp, LeftBehind, Typed, XMLObject.Says, XMLObject.Wraps, XMLObject.Kept;
    var a;
    f, doc, a, b := BuiltPair();
    Member(f, b);
    var ok := f.Detach(b);
  }

  lemma FactHere(f: Forest, b: XMLObject)
    requires b in f.objects && b.dom != null
    ensures Facts(f.objects)[b].dom == b.dom && Facts(f.objects)[b].attrs == b.dom.attrs && Facts(f.objects).Keys == f.objects
  {
  }

  // The tree built, its root owning the document.
  method BuiltPair() returns (f: Forest, doc: Document, a: XMLObject, b: XMLObject)
    ensures fresh(f) && fresh(doc) && f.Valid() == true && a in f.objects && b in f.objects && b.parent == a && a.parent == null
    ensures (forall x :: x in f.objects ==> fresh(x) && (x != a ==> x.document == null)) && forall e :: e in f.elements ==> fresh(e)
    ensures a.document == doc && b.dom != null && b.dom.doc == doc && b.dom.attrs == map[] && AllPlain(b.desc) == true && Typed(b.desc) == true
    ensures b.name.prefix == "p" && b.name.uri == "u"
  {
    hide Tree, Cache, Forest.Valid, Forest.Others, Matches, AllPlain, XMLObject.Kept, Typed;
    var ea, eb;
    f, doc, a, ea, eb := BuiltRoot();
    Member(f, a);
    b := a.children[0];
    BuiltBelow(f, a, b, {ea, eb});
    Member(f, b);
  }

  method BuiltRoot() returns (f: Forest, doc: Document, a: XMLObject, ea: Element, eb: Element)
    ensures fresh(f) && fresh(doc) && f.Valid() == true && a in f.objects && a.parent == null
    ensures (forall x :: x in f.objects ==> fresh(x) && (x != a ==> x.document == null)) && f.elements == {ea, eb} && fresh(ea) && fresh(eb)
    ensures a.document == doc && a.dom == ea && Elems(ea.kids) == [eb] && eb.doc == doc && eb.attrs == map[]
    ensures eb.uri == "u" && eb.prefix == "p" && a.dom != null
    ensures forall x :: x in a.desc ==> x.dom != null && x.dom in {ea, eb} && Matches(x) == true
    ensures forall d :: d in {ea, eb} ==> NamesPlain(d.prefix, d.attrs) && WritableType(d.attrs)
  {
    hide Tree, Cache, Forest.Valid, Forest.Others, Hung, Matches, IsShape, Supported, DomSays, ContentOf, CachedLive;
    f := new Forest();
    doc, ea, eb := MakeDom();
    ghost var sh := Shape(ea, {ea, eb}, [Shape(eb, {eb}, [])]);
    OneChild(ea, eb, sh);
    a := f.Build(ea, true, (x, s) => "", n => false, sh, {ea, eb});
  }
}

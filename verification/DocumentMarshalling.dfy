// marshall(document): the whole tree under an object becomes, or already is, the content of a document.
module DocumentMarshalling {
  import opened Names
  import opened MixedContent
  import opened Dom
  import opened XmlTree
  import opened Declarations
  import opened Snapshots
  import opened Scoping
  import opened Marshalling
  import opened Contents

  // releaseParentDOM(true): the ancestors that may be out of step drop their elements.
  method DropAncestors(o: XMLObject, ghost S: set<XMLObject>, ghost D: set<Element>)
    requires Tree(S) == true && Cache(S, D, o.Hole({})) == true && o in S
    modifies S`dom
    ensures Cache(S, D, {}) == true
    ensures o.dom == old(o.dom) && (o.parent != null ==> o.parent.dom == null)
    ensures forall x :: x in S && x.dom != old(x.dom) ==> x.dom == null && o.desc <= x.desc && x !in o.desc
    ensures Rest(old(Facts(S)), Facts(S), S - o.desc) == true
  {
    hide XMLObject.Coherent, XMLObject.Says, Hung, Rest, Facts;
    o.ChildrenInTree(S);
    TreeLinks(S);
    o.ReleaseParentDOM(S, D, {});
    CacheDropped((S, D, o.Hole({})));
    FactsKept((S, S - o.desc));
  }

  // Elements were dropped, and everything is in step again.
  twostate lemma CacheDropped(w: (set<XMLObject>, set<Element>, set<XMLObject>))
    requires old(Cache(w.0, w.1, w.2)) == true && AllCoherent(w.0, w.1, {}) == true
    requires forall o :: o in w.0 ==> o.dom == old(o.dom) || o.dom == null
    requires forall e :: e in w.1 ==> unchanged(e)
    ensures Cache(w.0, w.1, {}) == true
  {
    hide AllCoherent;
    var (S, D, X) := w;
    forall o | o in S && o.dom != null ensures o.dom in D && Hung(o.dom, D) {
      assert old(Hung(o.dom, D));
    }
  }

  // The cached element becomes the document element.
  method PlaceAtRoot(o: XMLObject, doc: Document, ghost S: set<XMLObject>, ghost D: set<Element>)
    requires Tree(S) == true && Cache(S, D, {}) == true && o in S && o.dom != null && o.dom.doc == doc
    modifies doc`root, D`parent, D`kids
    ensures Cache(S, D, o.Hole({})) == true && doc.root == o.dom && o.dom.parent == null
    ensures Rest(old(Facts(S)), Facts(S), {o}) == true && Facts(S)[o] == old(Facts(S)[o]).(hang := null)
  {
    hide Tree, Rest, Facts;
    var e: Element := o.dom;
    ghost var P := e.parent;
    RootHolder(o, S, D);
    FactAt(o, S);
    doc.SetRoot(e);
    if P != null {
      WithoutKeeps(old(P.kids), e);
    }
    RootPlaced((o, S, D));
    FactsKept((S, {o}));
    FactAt(o, S);
  }

  lemma RootHolder(o: XMLObject, S: set<XMLObject>, D: set<Element>)
    requires Tree(S) == true && Cache(S, D, {}) == true && o in S && o.dom != null
    ensures Hung(o.dom, D) && forall x :: x in S && x != o && x.dom != null ==> x.dom != o.dom
    ensures forall x :: x in S && x.dom != null && x.dom == o.dom.parent ==> x == o.parent
    ensures forall x :: x in S && x.dom != null ==> x.dom in D
  {
    forall x | x in S && x.dom != null && x.dom == o.dom.parent ensures x == o.parent {
      HolderIsParent(o, x, S, D, {});
    }
  }

  twostate lemma RootPlaced(w: (XMLObject, set<XMLObject>, set<Element>))
    requires w.0 in w.1 && old(Cache(w.1, w.2, {})) == true && w.0.dom != null && w.0.dom.parent == null
    requires unchanged(w.1) && forall e :: e in w.2 ==>
               && e.attrs == old(e.attrs) && e.prefix == old(e.prefix)
               && (e != w.0.dom ==> e.parent == old(e.parent))
    requires forall e :: e in w.2 && e != old(w.0.dom.parent) ==> e.kids == old(e.kids)
    requires forall e, n :: e in w.2 && n in old(e.kids) && n != ElementNode(w.0.dom) ==> n in e.kids
    requires forall x :: x in w.1 && x.dom != null && x.dom == old(w.0.dom.parent) ==> x == w.0.parent
    ensures Cache(w.1, w.2, w.0.Hole({})) == true
  {
    var (o, S, D) := w;
    forall x | x in S && x !in o.Hole({}) ensures x.Coherent(D) {
      assert old(x.Coherent(D));
    }
    forall x | x in S && x.dom != null ensures Hung(x.dom, D) {
      assert old(Hung(x.dom, D));
      var y: Element := x.dom;
      if x != o && y.parent != null {
        assert ElementNode(y) in old(y.parent.kids) && y != o.dom;
      }
    }
  }

  // createElementNS and setDocumentElement.
  method StartRoot(o: XMLObject, doc: Document, ghost S: set<XMLObject>, ghost D: set<Element>, ghost X: set<XMLObject>)
    returns (d: Element)
    requires Tree(S) == true && Cache(S, D, X) == true
    modifies doc`root
    ensures fresh(d) && Ready(S, D + {d}, X, [d]) == true
    ensures d.uri == o.name.uri && d.local == o.name.local && d.doc == doc && doc.root == d
    ensures d.attrs == map[] && d.prefix == "" && d.kids == [] && d.parent == null && Unhung(S, d) && Uncaches(S, d)
    ensures Rest(old(Facts(S)), Facts(S), {}) == true
  {
    hide Tree, Cache, Hung, Rest, Facts, Ready;
    CachedIn(S, D, X);
    d := new Element(doc, o.name.uri, o.name.local);
    doc.SetRoot(d);
    RootStarted((S, D, X), d);
    FactsKept((S, {}));
  }

  lemma CachedIn(S: set<XMLObject>, D: set<Element>, X: set<XMLObject>)
    requires Cache(S, D, X) == true
    ensures forall x :: x in S && x.dom != null ==> x.dom in D && (x.dom.parent != null ==> x.dom.parent in D)
  {
    assert forall x :: x in S && x.dom != null ==> Hung(x.dom, D);
  }

  twostate lemma RootStarted(w: (set<XMLObject>, set<Element>, set<XMLObject>), new d: Element)
    requires old(Tree(w.0)) == true && old(Cache(w.0, w.1, w.2)) == true && d !in w.1 && d.parent == null
    requires forall e :: e in w.1 ==> unchanged(e)
    requires forall x :: x in w.0 ==> unchanged(x)
    ensures Ready(w.0, w.1 + {d}, w.2, [d]) == true
  {
    var (S, D, X) := w;
    forall x | x in S ensures (x !in X ==> x.Coherent(D + {d})) && (x.dom != null ==> Hung(x.dom, D + {d})) {
      assert x !in X ==> old(x.Coherent(D));
      assert x.dom != null ==> old(Hung(x.dom, D));
    }
    assert IsChain(d, [d]);
  }

  // setDOM on the finished root element.
  method FinishRoot(o: XMLObject, d: Element, ghost S: set<XMLObject>, ghost D: set<Element>, ghost X: set<XMLObject>)
    requires Ready(S, D, X, [d]) == true && o in S && o.dom == null && d.parent == null && Uncaches(S, d)
    requires o.Says(d) == true && o.Wraps(d) == true && Clad(o, d) == true
    requires o.parent == null || o.parent.dom == null || o.parent in X
    modifies o`dom
    ensures o.dom == d && Cache(S, D, X) == true
    ensures Rest(old(Facts(S)), Facts(S), {o}) == true
  {
    hide Ready, Cache, XMLObject.Says, XMLObject.Wraps, Clad, Rest, Facts;
    CacheOf(S, D, X, d);
    o.dom := d;
    CacheFinished((o, d, S, D, X));
    FactsKept((S, {o}));
  }

  lemma CacheOf(S: set<XMLObject>, D: set<Element>, X: set<XMLObject>, d: Element)
    requires Ready(S, D, X, [d]) == true
    ensures Tree(S) == true && Cache(S, D, X) == true && d in D && (d.parent == null ==> Hung(d, D) == true)
  {
    assert d in [d];
  }

  // The root element with its attributes on.
  method PrepareRoot(o: XMLObject, doc: Document, ghost S: set<XMLObject>, ghost D: set<Element>, ghost X: set<XMLObject>)
    returns (d: Element)
    requires Tree(S) == true && Cache(S, D, X) == true && (o.typ.Some? ==> o.typ.value.local != "")
    modifies doc`root, o`namespaces
    ensures fresh(d) && Ready(S, D + {d}, X, [d]) == true && d.doc == doc && doc.root == d
    ensures d.kids == [] && d.parent == null && Unhung(S, d) && Uncaches(S, d) && o.SaysHead(d) && Clad(o, d) == true
    ensures Rest(old(Facts(S)), Facts(S), {o}) == true
    ensures old(Plain(o)) == true ==> Settled(o.namespaces, d.attrs, []) == true
  {
    hide Tree, Cache, Ready, Unhung, Canon, Snapshot, Plain, Settled, Clad, Rest, Facts;
    ghost var f := Facts(S);
    d := StartRoot(o, doc, S, D, X);
    assert [d] + [] == [d] && Scopes([]) == [];
    ghost var f1 := Facts(S);
    WriteHead(o, d, S, D + {d}, X, []);
    RestTrans(f, f1, Facts(S), {}, {o}, {o});
  }

  lemma EffectOutside(a: Snap, b: Snap, S: set<XMLObject>, D: set<Element>, moved: set<XMLObject>)
    requires Over(a, S, []) && Over(b, S, []) && moved <= S && Effect(a, b, S, D, [], moved, null, {}) == true
    ensures forall x :: x in S && x !in moved ==> b.dom[x] == a.dom[x]
    ensures forall x :: x in S ==> b.dom[x] == null || b.dom[x] == a.dom[x] || b.dom[x] !in D
  {
  }

  // marshallContent and setDOM on a prepared root element.
  method FillRoot(o: XMLObject, d: Element, ghost S: set<XMLObject>, ghost D: set<Element>, ghost X: set<XMLObject>)
    returns (ghost D': set<Element>)
    requires Ready(S, D, X, [d]) == true && o in S && X !! o.desc && Typed(o.desc) == true && o.dom == null
    requires o.parent == null || o.parent.dom == null || o.parent in X
    requires d.kids == [] && d.parent == null && Unhung(S, d) == true && Uncaches(S, d) && o.SaysHead(d) == true && Clad(o, d) == true
    modifies S`dom, S`namespaces, D
    ensures D <= D' && (forall e :: e in D' && e !in D ==> fresh(e)) && Cache(S, D', X) == true
    ensures o.dom == d && d.parent == null && forall x :: x in S && x !in o.desc ==> x.dom == old(x.dom)
    ensures forall x :: x in S && x != o ==> x.dom == null || x.dom == old(x.dom) || x.dom !in D
    ensures Rest(old(Facts(S)), Facts(S), o.desc) == true
    ensures o in Facts(S) && Facts(S)[o] == Fact(old(o.namespaces), d, null, old(d.attrs), old(d.prefix), o.attributes)
    ensures Plainly(old(Facts(S)), o.desc - {o}) == true ==>
              ChildrenLaid(old(Facts(S)), Facts(S), o, |o.children|, S, D, d, [old(d.attrs)]) == true
  {
    hide Tree, Cache, Ready, Effect, Over, Snapshot, Typed, Unhung, XMLObject.Says, XMLObject.SaysHead, XMLObject.Wraps;
    hide Rest, Facts, Laid, ChildrenLaid, Plainly, Clad;
    assert [d] + [] == [d] && Scopes([d] + []) == [d.attrs];
    PlaceInTree(o, S, D, X, [d]);
    ghost var f1, s1 := Facts(S), Snapshot(S, []);
    FactAt(o, S);
    SnapshotDoms(S, []);
    label Filled: D' := MarshallContent(o, d, S, D, X, []);
    SnapshotDoms(S, []);
    EffectOutside(s1, Snapshot(S, []), S, D, o.desc - {o});
    ghost var f2 := Facts(S);
    FactAt(o, S);
    OwnFact(f1, f2, o, o.desc - {o});
    StillClad@Filled((o, d));
    TreeOf(S, D', X, [d]);
    FinishRoot(o, d, S, D', X);
    FactAt(o, S);
    FilledLaid(f1, f2, Facts(S), o, S, D, d, [d.attrs]);
  }

  // The element is built in the document, filled and cached.
  method BuildRoot(o: XMLObject, doc: Document, ghost S: set<XMLObject>, ghost D: set<Element>, ghost X: set<XMLObject>)
    returns (d: Element, ghost D': set<Element>)
    requires Tree(S) == true && Cache(S, D, X) == true && o in S && o.dom == null && X !! o.desc && Typed(o.desc) == true
    requires o.parent == null || o.parent.dom == null || o.parent in X
    modifies S`dom, S`namespaces, D, doc`root
    ensures D <= D' && (forall e :: e in D' && e !in D ==> fresh(e)) && Cache(S, D', X) == true
    ensures fresh(d) && o.dom == d && d.doc == doc && doc.root == d && d.parent == null
    ensures forall x :: x in S && x !in o.desc ==> x.dom == old(x.dom)
    ensures forall x :: x in S ==> x.dom == null || x.dom == old(x.dom) || x.dom !in D
    ensures Rest(old(Facts(S)), Facts(S), o.desc) == true
    ensures Plainly(old(Facts(S)), o.desc) == true ==> Laid(old(Facts(S)), Facts(S), o, S, D, null, []) == true
  {
    hide Tree, Cache, Ready, Unhung, XMLObject.SaysHead;
    hide Rest, Facts, Laid, ChildrenLaid, Plainly, Plain, Settled, Clad;
    o.ChildrenInTree(S);
    ghost var f := Facts(S);
    PlainFact(o, S);
    d := PrepareRoot(o, doc, S, D, X);
    ghost var f1, own := Facts(S), d.attrs;
    D' := FillRoot(o, d, S, D + {d}, X);
    assert [own] + [] == [own];
    BuiltLaid(f, f1, Facts(S), o, S, D, D + {d}, null, []);
  }

  // marshall(document), without a document when the object is to own a new one.
  method MarshallInDocument(o: XMLObject, document: Document?, ghost S: set<XMLObject>, ghost D: set<Element>)
    returns (r: Element, ghost D': set<Element>)
    requires Tree(S) == true && Cache(S, D, {}) == true && o in S && Typed(o.desc) == true
    requires OneOwner(S) == true && OwnedLive(S) == true
    modifies S`dom, S`namespaces, D, o`document
    modifies (if document == null then {} else {document})`root, o.Owned()`released
    ensures D <= D' && (forall e :: e in D' && e !in D ==> fresh(e))
    ensures Tree(S) == true && Cache(S, D', {}) == true && OneOwner(S) == true && OwnedLive(S) == true
    ensures o.dom == r && (o.parent != null ==> o.parent.dom == null)
    ensures forall x :: x in S && x !in o.desc ==> x.dom == old(x.dom) || (x.dom == null && o.desc <= x.desc)
    ensures forall x :: x in S ==> x.dom == null || x.dom == old(x.dom) || x.dom !in D
    ensures forall x :: x in o.desc ==> x.dom != null && x.dom.doc == r.doc
    ensures document != null ==> r.doc == document && document.DocumentElement() == r
    ensures old(o.dom) != null && (document == null || document == old(o.dom).doc) ==> r == old(o.dom) && o.document == old(o.document)
    ensures old(o.dom) == null || (document != null && document != old(o.dom).doc) ==> fresh(r)
    ensures old(o.dom) == null && document == null ==>
              o.document == r.doc && fresh(r.doc) && r.doc.DocumentElement() == r
              && (old(o.document) != null ==> old(o.document).released)
    ensures document != null ==> o.document == old(o.document)
    ensures DomSays(r, old(ContentOf(o, S)), D') == true && ContentOf(o, S) == old(ContentOf(o, S))
    ensures Rest(old(Facts(S)), Facts(S), S) == true
    ensures document == null && old(o.dom) != null ==> Same(old(Facts(S)), Facts(S), o.desc) == true
    ensures (document != null || old(o.dom) == null) && Plainly(old(Facts(S)), o.desc) == true ==>
              Laid(old(Facts(S)), Facts(S), o, S, D, null, []) == true
  {
    hide Tree, Cache, OneOwner, OwnedLive, Facts, Plainly, Laid, Typed, Rest, Same, ContentOf, DomSays;
    o.ChildrenInTree(S);
    FactAt(o, S);
    ghost var f := Facts(S);
    if o.dom != null && (document == null || document == o.dom.doc) {
      r, D' := o.dom, D;
      CacheRelaxed(S, D, {}, o.Hole({}));
      RestSelf(f);
      if document != null {
        PlaceAtRoot(o, document, S, D);
      }
      ghost var f1 := Facts(S);
      DropAncestors(o, S, D);
      RootReused(f, f1, Facts(S), o, S, D, document != null);
    } else {
      r, D' := MarshallAfresh(o, document, S, D);
      RestWider(f, Facts(S), o.desc + (S - o.desc), S);
    }
    MarshalledSays(o, S, D', {});
  }

  // The cached element at the top of its document, or where it was, and the ancestors without theirs.
  lemma RootReused(f: map<XMLObject, Fact>, f1: map<XMLObject, Fact>, f2: map<XMLObject, Fact>, o: XMLObject,
                   S: set<XMLObject>, D: set<Element>, placed: bool)
    requires Tree(S) == true && o in S && f.Keys == S && f[o].dom != null
    requires Rest(f, f1, if placed then {o} else {}) == true && (placed ==> o in f1 && f1[o] == f[o].(hang := null))
    requires Rest(f1, f2, S - o.desc) == true
    ensures Rest(f, f2, S) == true
    ensures !placed ==> Same(f, f2, o.desc) == true
    ensures placed ==> Laid(f, f2, o, S, D, null, []) == true
  {
    hide Tree, Follows, Wears;
    o.ChildrenInTree(S);
    RestTrans(f, f1, f2, if placed then {o} else {}, S - o.desc, {o} + (S - o.desc));
    RestWider(f, f2, {o} + (S - o.desc), S);
    if placed {
      ReusedLaid(f, f2, o, S, D, S - o.desc, null, []);
    }
  }

  lemma MarshalledSays(o: XMLObject, S: set<XMLObject>, D: set<Element>, X: set<XMLObject>)
    requires Tree(S) == true && Cache(S, D, X) == true && X !! o.desc && o in S && o.dom != null
    ensures DomSays(o.dom, ContentOf(o, S), D) == true
    ensures forall x :: x in o.desc ==> x.dom != null && x.dom.doc == o.dom.doc
  {
    CacheSays(o, S, D, X);
    forall x | x in o.desc ensures x.dom != null && x.dom.doc == o.dom.doc {
      CachedBelow(o, S, D, X, x);
    }
  }

  method MarshallAfresh(o: XMLObject, document: Document?, ghost S: set<XMLObject>, ghost D: set<Element>)
    returns (r: Element, ghost D': set<Element>)
    requires Tree(S) == true && Cache(S, D, {}) == true && o in S && Typed(o.desc) == true
    requires OneOwner(S) == true && OwnedLive(S) == true
    modifies S`dom, S`namespaces, D, o`document
    modifies (if document == null then {} else {document})`root, o.Owned()`released
    ensures D <= D' && (forall e :: e in D' && e !in D ==> fresh(e))
    ensures Tree(S) == true && Cache(S, D', {}) == true && OneOwner(S) == true && OwnedLive(S) == true
    ensures fresh(r) && o.dom == r && (o.parent != null ==> o.parent.dom == null)
    ensures forall x :: x in S && x !in o.desc ==> x.dom == old(x.dom) || (x.dom == null && o.desc <= x.desc)
    ensures forall x :: x in S ==> x.dom == null || x.dom == old(x.dom) || x.dom !in D
    ensures r.doc.DocumentElement() == r
    ensures document != null ==> r.doc == document && o.document == old(o.document)
    ensures document == null ==> o.document == r.doc && fresh(r.doc) && (old(o.document) != null ==> old(o.document).released)
    ensures Rest(old(Facts(S)), Facts(S), o.desc + (S - o.desc)) == true
    ensures Plainly(old(Facts(S)), o.desc) == true ==> Laid(old(Facts(S)), Facts(S), o, S, D, null, []) == true
  {
    hide Tree, Cache, OneOwner, OwnedLive, Facts, Plainly, Laid, Typed, Rest, Bare, XMLObject.Hole;
    o.ChildrenInTree(S);
    ghost var f := Facts(S);
    CacheRelaxed(S, D, {}, o.Hole({}));
    RootDropped(o, S, D);
    ghost var f1 := Facts(S);
    r, D' := BuildThenDrop(o, document, S, D);
    AnewLaid(f, f1, Facts(S), o, S, D, S - o.desc, null, []);
  }

  // A new element for the object, and then the ancestors without theirs.
  method BuildThenDrop(o: XMLObject, document: Document?, ghost S: set<XMLObject>, ghost D: set<Element>)
    returns (r: Element, ghost D': set<Element>)
    requires Tree(S) == true && Cache(S, D, o.Hole({})) == true && o in S && o.dom == null && Typed(o.desc) == true
    requires OneOwner(S) == true && OwnedLive(S) == true
    modifies S`dom, S`namespaces, D, o`document
    modifies (if document == null then {} else {document})`root, o.Owned()`released
    ensures D <= D' && (forall e :: e in D' && e !in D ==> fresh(e))
    ensures Tree(S) == true && Cache(S, D', {}) == true && OneOwner(S) == true && OwnedLive(S) == true
    ensures fresh(r) && o.dom == r && (o.parent != null ==> o.parent.dom == null)
    ensures forall x :: x in S && x !in o.desc ==> x.dom == old(x.dom) || (x.dom == null && o.desc <= x.desc)
    ensures forall x :: x in S ==> x.dom == null || x.dom == old(x.dom) || x.dom !in D
    ensures r.doc.DocumentElement() == r
    ensures document != null ==> r.doc == document && o.document == old(o.document)
    ensures document == null ==> o.document == r.doc && fresh(r.doc) && (old(o.document) != null ==> old(o.document).released)
    ensures Rest(old(Facts(S)), Facts(S), o.desc + (S - o.desc)) == true
    ensures Plainly(old(Facts(S)), o.desc) == true ==> Laid(old(Facts(S)), Facts(S), o, S, D, null, []) == true
  {
    hide Tree, Cache, OneOwner, OwnedLive, Facts, Plainly, Laid, Typed, Rest;
    o.ChildrenInTree(S);
    if o.parent != null {
      ghost var i := o.InParent(S);
    }
    ghost var f1 := Facts(S);
    r, D' := BuildIn(o, document, S, D, o.Hole({}));
    ghost var f2 := Facts(S);
    DropAncestors(o, S, D');
    LaidThenDropped(f1, f2, Facts(S), o, S, D, S - o.desc, null, []);
  }

  // The element of another document, if there is one, is dropped with everything below it.
  method RootDropped(o: XMLObject, ghost S: set<XMLObject>, ghost D: set<Element>)
    requires Tree(S) == true && Cache(S, D, {}) == true && o in S && o in o.desc && o.desc <= S
    modifies o.desc`dom
    ensures o.dom == null && Cache(S, D, o.Hole({})) == true && forall x :: x in S ==> x.dom == null || x.dom == old(x.dom)
    ensures Rest(old(Facts(S)), Facts(S), o.desc) == true
    ensures Facts(S) == old(Facts(S)) || Bare(Facts(S), o.desc) == true
    ensures forall x :: x in S ==> Facts(S)[x].nss == old(Facts(S)[x].nss)
  {
    hide Tree, Cache, Facts, Rest;
    if o.dom != null {
      DropSubtree(o, S, D, {});
      BareFacts(S, o.desc);
    } else {
      CacheRelaxed(S, D, {}, o.Hole({}));
    }
    FactsKept((S, o.desc));
    SameNames(S);
  }

  method BuildIn(o: XMLObject, document: Document?, ghost S: set<XMLObject>, ghost D: set<Element>, ghost X: set<XMLObject>)
    returns (d: Element, ghost D': set<Element>)
    requires Tree(S) == true && Cache(S, D, X) == true && o in S && o.dom == null && X !! o.desc && Typed(o.desc) == true
    requires o.parent == null || o.parent.dom == null || o.parent in X
    requires OneOwner(S) == true && OwnedLive(S) == true
    modifies S`dom, S`namespaces, D, o`document
    modifies (if document == null then {} else {document})`root, o.Owned()`released
    ensures D <= D' && (forall e :: e in D' && e !in D ==> fresh(e)) && Cache(S, D', X) == true
    ensures OneOwner(S) == true && OwnedLive(S) == true
    ensures fresh(d) && o.dom == d && d.doc.root == d && d.parent == null
    ensures document != null ==> d.doc == document && o.document == old(o.document)
    ensures document == null ==> o.document == d.doc && fresh(d.doc) && (old(o.document) != null ==> old(o.document).released)
    ensures forall x :: x in S && x !in o.desc ==> x.dom == old(x.dom)
    ensures forall x :: x in S ==> x.dom == null || x.dom == old(x.dom) || x.dom !in D
    ensures Rest(old(Facts(S)), Facts(S), o.desc) == true
    ensures Plainly(old(Facts(S)), o.desc) == true ==> Laid(old(Facts(S)), Facts(S), o, S, D, null, []) == true
  {
    hide Tree, Cache, OneOwner, OwnedLive, Facts, Plainly, Laid, Typed, Rest;
    if document == null {
      d, D' := BuildBound(o, S, D, X);
    } else {
      d, D' := BuildRoot(o, document, S, D, X);
    }
  }

  lemma CacheRelaxed(S: set<XMLObject>, D: set<Element>, X: set<XMLObject>, X': set<XMLObject>)
    requires Cache(S, D, X) == true && X <= X'
    ensures Cache(S, D, X') == true
  {
  }

  // Without a document: the object builds and owns one.
  method BuildBound(o: XMLObject, ghost S: set<XMLObject>, ghost D: set<Element>, ghost X: set<XMLObject>)
    returns (d: Element, ghost D': set<Element>)
    requires Tree(S) == true && Cache(S, D, X) == true && o in S && o.dom == null && X !! o.desc && Typed(o.desc) == true
    requires o.parent == null || o.parent.dom == null || o.parent in X
    requires OneOwner(S) == true && OwnedLive(S) == true
    modifies S`dom, S`namespaces, D, o`document, o.Owned()`released
    ensures D <= D' && (forall e :: e in D' && e !in D ==> fresh(e)) && Cache(S, D', X) == true
    ensures OneOwner(S) == true && OwnedLive(S) == true
    ensures fresh(d) && fresh(d.doc) && o.dom == d && d.doc.root == d && d.parent == null
    ensures o.document == d.doc && (old(o.document) != null ==> old(o.document).released)
    ensures forall x :: x in S && x !in o.desc ==> x.dom == old(x.dom)
    ensures forall x :: x in S ==> x.dom == null || x.dom == old(x.dom) || x.dom !in D
    ensures Rest(old(Facts(S)), Facts(S), o.desc) == true
    ensures Plainly(old(Facts(S)), o.desc) == true ==> Laid(old(Facts(S)), Facts(S), o, S, D, null, []) == true
  {
    hide Tree, Cache, OneOwner, OwnedLive, Facts, Plainly, Laid, Typed, Rest;
    ghost var f, plain := Facts(S), Plainly(Facts(S), o.desc);
    var doc := new Document();
    assert Facts(S) == f && Plainly(f, o.desc) == plain;
    d, D' := BuildRoot(o, doc, S, D, X);
    ghost var g, laid := Facts(S), Laid(f, Facts(S), o, S, D, null, []);
    BindDocument(o, doc, S);
    assert Facts(S) == g && Laid(f, g, o, S, D, null, []) == laid;
  }

  // The document step of setDOM(dom, true): the object gives back what it owned and owns this one.
  method BindDocument(o: XMLObject, doc: Document, ghost S: set<XMLObject>)
    requires o in S && OneOwner(S) == true && OwnedLive(S) == true && !doc.released
    requires forall x :: x in S ==> x.document != doc
    modifies o`document, o.Owned()`released
    ensures OneOwner(S) == true && OwnedLive(S) == true
    ensures o.document == doc && (old(o.document) != null ==> old(o.document).released)
  {
    o.SetDocument(doc);
  }

  // ---------------------------------------------------------------- under an element

  // The objects that cache an element of the chain.
  ghost function Holders(S: set<XMLObject>, up: seq<Element>): (r: set<XMLObject>)
    reads S`dom
    ensures forall x :: x in S ==> (x in r <==> x.dom != null && x.dom in up)
    ensures r <= S
  {
    set x | x in S && x.dom != null && x.dom in up
  }

  // Nobody caches the target but perhaps an ancestor of o, or o's element is there already.
  ghost predicate Fits(o: XMLObject, target: Element, S: set<XMLObject>)
    reads S`dom, S`desc, o`dom, (if o.dom == null then {} else {o.dom})`parent
  {
    (o.dom != null && o.dom.parent == target) || forall x :: x in S && x.dom == target ==> o in x.desc
  }

  // marshall(parentElement) as callers see it, under any element that is not part of o's own.
  method MarshallInElement(o: XMLObject, parentElement: Element, ghost S: set<XMLObject>, ghost D: set<Element>,
                           ghost up: seq<Element>)
    returns (r: Element, ghost D': set<Element>)
    requires Tree(S) == true && Cache(S, D, {}) == true && o in S && Typed(o.desc) == true
    requires up != [] && up[0] == parentElement && IsChain(parentElement, up) && forall e :: e in up ==> e in D
    requires forall x :: x in o.desc && x.dom != null ==> x.dom !in up
    modifies S`dom, S`namespaces, D
    ensures D <= D' && (forall e :: e in D' && e !in D ==> fresh(e))
    ensures Tree(S) == true && o.dom == r && r.parent == parentElement && r.doc == parentElement.doc
    ensures Cache(S, D', {}) == true <==> old(Fits(o, parentElement, S))
    ensures old(o.dom) != null && old(o.dom).doc == parentElement.doc ==> r == old(o.dom)
    ensures o.parent != null ==> o.parent.dom == null || (r == old(o.dom) && old(r.parent) == parentElement)
    ensures forall x :: x in S && x !in o.desc ==> x.dom == old(x.dom) || (x.dom == null && o in x.desc)
    ensures forall x :: x in o.desc ==> x.dom != null && x.dom.doc == r.doc
    ensures DomSays(r, old(ContentOf(o, S)), D') == true && ContentOf(o, S) == old(ContentOf(o, S))
    ensures Rest(old(Facts(S)), Facts(S), S) == true
    ensures Plainly(old(Facts(S)), o.desc) == true ==> Laid(old(Facts(S)), Facts(S), o, S, D, parentElement, Scopes(up)) == true
  {
    hide Tree, Cache, Ready, Effect, Upward, Typed, Facts, Rest, Plainly;
    hide Laid, Scopes, ContentOf, DomSays, Snapshot, Over, HoldersKnown, Fits, Covers;
    o.ChildrenInTree(S);
    ghost var X, f, a, drop := Holders(S, up), Facts(S), Snapshot(S, up), Above(o, S);
    HoldersReady(o, S, D, up);
    HoldersBefore(o, S, D, up);
    SnapshotDoms(S, up);
    SnapshotAt(o, S, up);
    label Before: r, D' := MarshallUnder(o, parentElement, S, D, X, up, drop);
    RestWider(f, Facts(S), o.desc + drop, S);
    TreeOf(S, D', X, up);
    SnapshotDoms(S, up);
    SnapshotAt(o, S, up);
    OutsideKept(a, Snapshot(S, up), o, S, D, up, drop);
    HoldersAfter@Before((o, S, D, up), D');
    ReadyParts(S, D', X, up);
    MarshalledSays(o, S, D', X);
  }

  lemma OutsideKept(a: Snap, b: Snap, o: XMLObject, S: set<XMLObject>, D: set<Element>, up: seq<Element>, drop: set<XMLObject>)
    requires Over(a, S, up) && Over(b, S, up) && o in S && o.desc <= S && drop == Above(o, S)
    requires Effect(a, b, S, D, up, o.desc, o, drop) == true
    ensures forall x :: x in S && x !in o.desc ==> b.dom[x] == a.dom[x] || (b.dom[x] == null && o in x.desc)
  {
  }

  lemma HoldersReady(o: XMLObject, S: set<XMLObject>, D: set<Element>, up: seq<Element>)
    requires Tree(S) == true && Cache(S, D, {}) == true && o in S
    requires up != [] && IsChain(up[0], up) && forall e :: e in up ==> e in D
    requires forall x :: x in o.desc && x.dom != null ==> x.dom !in up
    ensures Ready(S, D, Holders(S, up), up) == true && Holders(S, up) !! o.desc && Covers(Above(o, S), o, S) == true
    ensures o.dom != null && o.dom.parent != null ==> o.dom.doc == o.dom.parent.doc
  {
    assert o.dom != null ==> Hung(o.dom, D);
  }

  // What is known of the holders beforehand: nothing of o's subtree hangs under their elements but
  // perhaps o's own, and then its parent is the holder; what is below a holder is cached.
  ghost predicate HoldersKnown(o: XMLObject, S: set<XMLObject>, up: seq<Element>)
    reads o`desc, S`dom, S`children, S`desc, S`parent, set x | x in S && x.dom != null :: x.dom
  {
    forall h :: h in Holders(S, up) ==>
      && h !in o.desc
      && (forall y :: y in o.desc && y in S && y.dom != null && y.dom.parent == h.dom ==> y == o && h == o.parent)
      && (forall c :: c in h.children ==> c in S && c.dom != null && c.parent == h && (c in o.desc ==> c == o))
      && (forall x :: x in h.desc && x in S ==> x.dom != null && x.dom.doc == h.dom.doc)
  }

  lemma HoldersBefore(o: XMLObject, S: set<XMLObject>, D: set<Element>, up: seq<Element>)
    requires Tree(S) == true && Cache(S, D, {}) == true && o in S
    requires forall x :: x in o.desc && x.dom != null ==> x.dom !in up
    ensures HoldersKnown(o, S, up) == true
  {
    forall h | h in Holders(S, up)
      ensures h !in o.desc
      ensures forall y :: y in o.desc && y in S && y.dom != null && y.dom.parent == h.dom ==> y == o && h == o.parent
      ensures forall c :: c in h.children ==> c in S && c.dom != null && c.parent == h && (c in o.desc ==> c == o)
      ensures forall x :: x in h.desc && x in S ==> x.dom != null && x.dom.doc == h.dom.doc
    {
      assert o.TreeAt(S) && h.TreeAt(S) && h.Coherent(D);
      forall y | y in o.desc && y in S && y.dom != null && y.dom.parent == h.dom ensures y == o && h == o.parent {
        HolderIsParent(y, h, S, D, {});
      }
      forall x | x in h.desc && x in S ensures x.dom != null && x.dom.doc == h.dom.doc {
        CachedBelow(h, S, D, {}, x);
      }
    }
  }

  // The walk up from o passed every ancestor, as long as they all had elements before.
  lemma {:induction false} AllDropped(o: XMLObject, y: XMLObject, h: XMLObject, S: set<XMLObject>, a: Snap, b: Snap)
    requires Tree(S) == true && h in S && y in h.desc && o in y.desc && y !in o.desc && a.dom.Keys == S && b.dom.Keys == S
    requires forall x :: x in h.desc && x in S ==> a.dom[x] != null
    requires o.parent != null && o.parent in S ==> b.dom[o.parent] == null
    requires Upward(a, b, S, o.desc) == true
    ensures y in S && b.dom[y] == null
    decreases y.desc
  {
    assert h.TreeAt(S) && y.TreeAt(S);
    var k := y.BelowChild(S, o);
    y.ChildrenInTree(S);
    var c := y.children[k];
    if c != o {
      assert c.TreeAt(S) && o.TreeAt(S);
      AllDropped(o, c, h, S, a, b);
    }
  }

  // Was o's element under the target all along?
  ghost predicate InPlace(o: XMLObject, target: Element)
    reads o`dom, (if o.dom == null then {} else {o.dom})`parent
  {
    o.dom != null && o.dom.parent == target
  }

  // The holder's element is as it was, and so are its children's.
  twostate lemma HolderSteady(w: (XMLObject, set<Element>), new D': set<Element>)
    requires old(w.0.Coherent(w.1)) && w.1 <= D' && w.0.dom == old(w.0.dom)
    requires unchanged(w.0`children, w.0`text, w.0`nil, w.0`attributes)
    requires w.0.dom != null ==> w.0.dom.attrs == old(w.0.dom.attrs) && w.0.dom.kids == old(w.0.dom.kids)
    requires forall c :: c in w.0.children ==> c.dom == old(c.dom)
    ensures w.0.Coherent(D')
  {
  }

  // One holder afterwards: in step unless it still caches the target and something was appended there.
  twostate lemma HolderAfter(w: (XMLObject, XMLObject, set<XMLObject>, set<Element>, seq<Element>), new D': set<Element>)
    requires w.1 in old(Holders(w.2, w.4)) && w.4 != [] && w.0 in w.2 && w.0.desc <= w.2 && w.3 <= D'
    requires old(w.1.Coherent(w.3)) && old(HoldersKnown(w.0, w.2, w.4)) == true
    requires unchanged(w.2`children, w.2`text, w.2`nil, w.2`attributes, w.2`parent, w.2`desc)
    requires Effect(old(Snapshot(w.2, w.4)), Snapshot(w.2, w.4), w.2, w.3, w.4, w.0.desc, w.0, Above(w.0, w.2)) == true
    requires Upward(old(Snapshot(w.2, w.4)), Snapshot(w.2, w.4), w.2, w.0.desc) == true
    requires w.0.dom != null && w.0.dom.parent == w.4[0] && w.0.desc == old(w.0.desc)
    requires w.0.parent != null ==> w.0.parent.dom == null || old(InPlace(w.0, w.4[0]))
    requires old(InPlace(w.0, w.4[0])) ==> Snapshot(w.2, w.4) == old(Snapshot(w.2, w.4))
    ensures w.1.Coherent(D') <==> w.1.dom == null || old(InPlace(w.0, w.4[0])) || old(w.1.dom) != w.4[0]
    ensures w.1.dom == null || w.1.dom == old(w.1.dom)
    ensures w.1.dom == null ==> w.0 in w.1.desc
  {
    var (o, h, S, D, up) := w;
    var a, b := old(Snapshot(S, up)), Snapshot(S, up);
    if h.dom != null {
      var e: Element := old(h.dom);
      assert a.dom[h] == e && b.dom[h] == h.dom == e && b.place[e] == a.place[e];
      forall c | c in h.children ensures c.dom == old(c.dom) {
        assert a.dom[c] == old(c.dom) && b.dom[c] == c.dom;
      }
      if old(InPlace(o, up[0])) {
        assert b.kids[e] == a.kids[e];
        HolderSteady((h, D), D');
      } else {
        assert Spared(a, o.desc, e);
        assert b.kids[e] == a.kids[e] + Newcomer(b, o, e);
        if e != up[0] {
          HolderSteady((h, D), D');
        } else {
          var r: Element := o.dom;
          assert e.kids == old(e.kids) + [ElementNode(r)];
          AppendElement(old(e.kids), r);
        }
      }
    }
  }

  twostate lemma OldCoherent(w: (XMLObject, set<XMLObject>, set<Element>))
    requires old(Cache(w.1, w.2, {})) == true && w.0 in w.1
    ensures old(w.0.Coherent(w.2))
  {
  }

  // A holder above o lost the target, as long as o's element came from elsewhere.
  twostate lemma HolderGone(w: (XMLObject, XMLObject, set<XMLObject>, seq<Element>))
    requires w.1 in old(Holders(w.2, w.3)) && w.0 in w.1.desc && Tree(w.2) == true && w.1.desc == old(w.1.desc)
    requires old(HoldersKnown(w.0, w.2, w.3)) == true && w.0.desc == old(w.0.desc)
    requires w.0.parent != null ==> w.0.parent.dom == null
    requires Upward(old(Snapshot(w.2, w.3)), Snapshot(w.2, w.3), w.2, w.0.desc) == true
    ensures w.1.dom == null
  {
    var (o, h, S, up) := w;
    h.ChildrenInTree(S);
    AllDropped(o, h, h, S, old(Snapshot(S, up)), Snapshot(S, up));
  }

  lemma StepParts(S: set<XMLObject>, D: set<Element>, X: set<XMLObject>, up: seq<Element>)
    requires Ready(S, D, X, up) == true && X <= S
    ensures Cache(S, D, {}) == true <==> forall h :: h in X ==> h.Coherent(D)
  {
  }

  // All in all: everything is in step again exactly if o fitted in.
  twostate lemma HoldersAfter(w: (XMLObject, set<XMLObject>, set<Element>, seq<Element>), new D': set<Element>)
    requires w.0 in w.1 && w.0.desc <= w.1 && w.3 != [] && w.2 <= D' && w.0.desc == old(w.0.desc)
    requires old(Tree(w.1)) == true && Tree(w.1) == true && old(Cache(w.1, w.2, {})) == true && old(HoldersKnown(w.0, w.1, w.3)) == true
    requires unchanged(w.1`children, w.1`text, w.1`nil, w.1`attributes, w.1`parent, w.1`desc)
    requires Ready(w.1, D', old(Holders(w.1, w.3)), w.3) == true
    requires Effect(old(Snapshot(w.1, w.3)), Snapshot(w.1, w.3), w.1, w.2, w.3, w.0.desc, w.0, Above(w.0, w.1)) == true
    requires Upward(old(Snapshot(w.1, w.3)), Snapshot(w.1, w.3), w.1, w.0.desc) == true
    requires w.0.dom != null && w.0.dom.parent == w.3[0]
    requires w.0.parent != null ==> w.0.parent.dom == null || old(InPlace(w.0, w.3[0]))
    requires old(InPlace(w.0, w.3[0])) ==> Snapshot(w.1, w.3) == old(Snapshot(w.1, w.3))
    ensures Cache(w.1, D', {}) == true <==> old(Fits(w.0, w.3[0], w.1))
  {
    hide Tree, Effect, Upward, Over, HoldersKnown, XMLObject.Coherent;
    var (o, S, D, up) := w;
    var X := old(Holders(S, up));
    forall h | h in X
      ensures h.Coherent(D') <==> old(Fits(o, up[0], S)) || old(h.dom) != up[0] || o in h.desc
    {
      OldCoherent((h, S, D));
      HolderAfter((o, h, S, D, up), D');
      if !old(InPlace(o, up[0])) && o in h.desc {
        HolderGone((o, h, S, up));
      }
    }
    StepParts(S, D', X, up);
  }
}

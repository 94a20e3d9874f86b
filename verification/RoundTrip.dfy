// Unmarshalling and marshalling undo each other on content, and on the meaning of prefixes.
module RoundTrip {
  import opened Names
  import opened Dom
  import opened XmlTree
  import opened Declarations
  import opened Snapshots
  import opened Scoping
  import opened Marshalling
  import opened DocumentMarshalling
  import opened Contents
  import opened Unmarshalling

  lemma BuiltForest(o: XMLObject, sh: Shape, D: set<Element>, c: Content)
    requires Built(o, sh, D) && sh.below <= D && (forall d :: d in sh.below ==> WritableType(d.attrs)) && DomSays(sh.elem, c, D)
    ensures Tree(o.desc) == true && Cache(o.desc, D, Misread(o.desc)) == true && o in o.desc && o.parent == null
    ensures OneOwner(o.desc) == true && OwnedLive(o.desc) == true && Typed(o.desc) == true && o.document == null
    ensures (forall d :: d in sh.below ==> NamesPlain(d.prefix, d.attrs)) ==> AllPlain(o.desc) == true
    ensures ContentOf(o, o.desc) == c <==> NilsWritable(sh.below)
  {
    hide Tree, Cache, NamesPlain, WritableType, WritableNil, Plain, ContentOf, DomSays, Misread, NilsWritable, SameNils, NilRead;
    forall x | x in o.desc ensures Young(x, sh.below) {
    }
    CacheAll(o.desc, D, Misread(o.desc));
    BuiltSays(o, o.desc, D, sh.below, c);
  }

  // What became of an element with these attributes: the new one's names and its object's namespace set mean
  // what they should along the real parent pointers, and whatever the old one declared is declared again, as
  // long as no name clashes with it.
  ghost predicate Rebuilt(x: XMLObject, was: Attributes, chain: seq<Element>)
    reads x`dom, x`namespaces, chain, (if x.dom == null then {} else {x.dom})
  {
    && NamedAlong(x, chain)
    && forall k :: k in was && Declaring(k, was[k]) && Unclashing(x, was, PrefixOf(k), was[k].value) ==>
         Declares(x.dom.attrs, PrefixOf(k), was[k].value)
  }

  // An entry pinned before is declared at the new element.
  lemma DeclaredAgain(x: XMLObject, nss: seq<Namespace>, was: Attributes, chain: seq<Element>)
    requires Follows(nss, x.namespaces) == true && NamedAlong(x, chain) == true && Pinned(x, nss, was) == true
    ensures Rebuilt(x, was, chain) == true
  {
    hide Unclashing;
    forall k | k in was && Declaring(k, was[k]) && Unclashing(x, was, PrefixOf(k), was[k].value)
      ensures Declares(x.dom.attrs, PrefixOf(k), was[k].value)
    {
      assert PinnedAt(nss, PrefixOf(k), was[k].value);
      var i :| 0 <= i < |nss| && nss[i].prefix == PrefixOf(k) && nss[i].uri == was[k].value && nss[i].always;
      assert Grows(nss[i], x.namespaces[i]);
    }
  }

  ghost predicate PinnedAt(nss: seq<Namespace>, prefix: string, uri: string) {
    exists i :: 0 <= i < |nss| && nss[i].prefix == prefix && nss[i].uri == uri && nss[i].always
  }

  ghost predicate Pinned(x: XMLObject, nss: seq<Namespace>, was: Attributes) {
    forall k :: k in was && Declaring(k, was[k]) && Unclashing(x, was, PrefixOf(k), was[k].value) ==> PinnedAt(nss, PrefixOf(k), was[k].value)
  }

  lemma ReadPinned(x: XMLObject)
    requires Matches(x) == true && x.dom != null
    ensures Pinned(x, x.namespaces, x.dom.attrs) == true
  {
    hide Matches, Unclashing;
    forall k | k in x.dom.attrs && Declaring(k, x.dom.attrs[k]) && Unclashing(x, x.dom.attrs, PrefixOf(k), x.dom.attrs[k].value)
      ensures PinnedAt(x.namespaces, PrefixOf(k), x.dom.attrs[k].value)
    {
      var i := DeclarationRead(x, k);
    }
  }

  // What is read of an element itself.
  datatype Head = Head(prefix: string, attrs: Attributes)

  ghost function Heads(T: set<Element>): (r: map<Element, Head>)
    reads T`prefix, T`attrs
    ensures r.Keys == T
  {
    map e | e in T :: Head(e.prefix, e.attrs)
  }

  // Each object stands for one of the elements there were, each of those for one object, and its own prefix is
  // that element's.
  ghost predicate StandsFor(o: XMLObject, S: set<XMLObject>, source: map<XMLObject, Element>, was: map<Element, Head>, e: Element) {
    && o in S && source.Keys == S && source[o] == e && source.Values == was.Keys
    && (forall x, y :: x in S && y in S && source[x] == source[y] ==> x == y)
    && forall x :: x in S ==> source[x] in was && x.name.prefix == was[source[x]].prefix
  }

  // The elements on those chains.
  ghost function Steps(ways: map<XMLObject, seq<Element>>): set<Element> {
    set x, e | x in ways && e in ways[x] :: e
  }

  // At each object's new element, along the chain given for it.
  ghost predicate AllRebuilt(S: set<XMLObject>, source: map<XMLObject, Element>, was: map<Element, Head>, ways: map<XMLObject, seq<Element>>)
    reads S`dom, S`namespaces, (set x | x in S && x.dom != null :: x.dom), Steps(ways)
  {
    forall x :: x in S ==>
      && x in source && source[x] in was && x in ways
      && (assert forall e :: e in ways[x] ==> e in Steps(ways); Rebuilt(x, was[source[x]].attrs, ways[x]) == true)
  }

  // Where each object of a built tree came from: every element of the source tree, each once.
  lemma Sources(o: XMLObject, sh: Shape, D: set<Element>) returns (source: map<XMLObject, Element>)
    requires Built(o, sh, D) == true && IsShape(sh, D) == true
    ensures StandsFor(o, o.desc, source, Heads(sh.below), sh.elem) == true && AllKept(o.desc) == true
    ensures forall x :: x in o.desc ==> x.dom == source[x] && Matches(x) == true
  {
    hide IsShape, Matches, XMLObject.Kept, SameNils, Misread, Mirrored;
    assert forall x :: x in o.desc ==> Young(x, sh.below);
    source := map x | x in o.desc && x.dom != null :: x.dom;
    forall d | d in sh.below ensures d in source.Values {
      var x := ElementRead(o, o.desc, sh, D, d);
      assert source[x] == d;
    }
    forall x | x in o.desc ensures x.name.prefix == x.dom.prefix {
      assert Matches(x);
      NameRead(x);
    }
  }

  lemma NameRead(x: XMLObject)
    requires Matches(x) == true && x.dom != null
    ensures x.name.prefix == x.dom.prefix
  {
  }

  // Build objects from an element tree, drop every cached element, marshal from scratch: the new tree
  // has the same expanded names, the same non-empty attributes and the same mixed content exactly if every
  // xsi:nil in the old one is written back as it was; and at each new element, one for each of the old ones,
  // all prefixes mean what they should and all declarations of the old one are there again.
  method RebuildFromScratch(e: Element, lookup: (Element, string) -> string, isId: Expanded -> bool, document: Document?,
                            ghost sh: Shape, ghost D: set<Element>, ghost c: Content)
    returns (o: XMLObject, r: Element, ghost D': set<Element>, ghost source: map<XMLObject, Element>, ghost ways: map<XMLObject, seq<Element>>)
    requires IsShape(sh, D) == true && sh.elem == e && Hung(e, D) && Supported(sh, D)
    requires forall d :: d in sh.below ==> WritableType(d.attrs)
    requires DomSays(e, c, D) == true
    modifies D, (if document == null then {} else {document})`root
    ensures DomSays(r, c, D') == true <==> old(NilsWritable(sh.below))
    ensures o.dom == r && forall x :: x in o.desc ==> x.dom != null && fresh(x.dom)
    ensures Tree(o.desc) == true && Cache(o.desc, D', {}) == true
    ensures StandsFor(o, o.desc, source, old(Heads(sh.below)), e) == true && NewClad(o.desc, D) == true
    ensures old(forall d :: d in sh.below ==> NamesPlain(d.prefix, d.attrs)) ==>
              Declared(Facts(o.desc), o, o.desc, null, []) == true && AllRebuilt(o.desc, source, old(Heads(sh.below)), ways) == true
  {
    hide Tree, Cache, Built, Typed, OneOwner, OwnedLive, ContentOf, DomSays, AllPlain, Facts, Declared, NamesPlain, NilsWritable, Misread;
    hide Matches, Pinned, AllKept, NewClad, StandsFor, AllRebuilt, Heads, AllFollow, AllPinned, AllNamed;
    ShapeTop(sh, D);
    ghost var was := Heads(sh.below);
    o := BuildFromElement(e, lookup, isId, sh, D);
    BuiltForest(o, sh, D, c);
    source := Sources(o, sh, D);
    InSubtree(o, source, was, e);
    ghost var c', S, nss := ContentOf(o, o.desc), o.desc, Sets(o.desc);
    ReadAllPinned(S, source, sh.below);
    r, D', ways := MarshallAgain(o, document, S, D, Misread(S));
    if DomSays(r, c, D') { SaysOne(r, c', c, D'); }
    if AllNamed(S, ways) { AllDeclaredAgain(S, source, was, nss, ways); }
  }

  ghost function Sets(S: set<XMLObject>): (r: map<XMLObject, seq<Namespace>>)
    reads S`namespaces
  {
    map x | x in S :: x.namespaces
  }

  // No namespace set lost anything.
  ghost predicate AllFollow(S: set<XMLObject>, nss: map<XMLObject, seq<Namespace>>)
    reads S`namespaces
  {
    forall x :: x in S ==> x in nss && Follows(nss[x], x.namespaces) == true
  }

  ghost predicate AllPinned(S: set<XMLObject>, source: map<XMLObject, Element>, was: map<Element, Head>, nss: map<XMLObject, seq<Namespace>>) {
    forall x :: x in S ==> x in nss && x in source && source[x] in was && Pinned(x, nss[x], was[source[x]].attrs) == true
  }

  ghost predicate AllNamed(S: set<XMLObject>, ways: map<XMLObject, seq<Element>>)
    reads S`dom, S`namespaces, (set x | x in S && x.dom != null :: x.dom), Steps(ways)
  {
    forall x :: x in S ==> x in ways && (assert forall e :: e in ways[x] ==> e in Steps(ways); NamedAlong(x, ways[x]) == true)
  }

  lemma InSubtree(o: XMLObject, source: map<XMLObject, Element>, was: map<Element, Head>, e: Element)
    requires StandsFor(o, o.desc, source, was, e) == true
    ensures o in o.desc && source.Keys == o.desc && forall x :: x in o.desc ==> source[x] in was
  {
  }

  lemma ReadAllPinned(S: set<XMLObject>, source: map<XMLObject, Element>, T: set<Element>)
    requires source.Keys == S && forall x :: x in S ==> source[x] in T && x.dom == source[x] && Matches(x) == true
    ensures AllPinned(S, source, Heads(T), Sets(S)) == true
  {
    hide Matches, Pinned;
    forall x | x in S ensures Pinned(x, Sets(S)[x], Heads(T)[source[x]].attrs) == true {
      ReadPinned(x);
    }
  }

  lemma AllDeclaredAgain(S: set<XMLObject>, source: map<XMLObject, Element>, was: map<Element, Head>, nss: map<XMLObject, seq<Namespace>>,
                         ways: map<XMLObject, seq<Element>>)
    requires AllNamed(S, ways) == true && AllFollow(S, nss) == true && AllPinned(S, source, was, nss) == true
    ensures AllRebuilt(S, source, was, ways) == true
  {
    hide NamedAlong, Pinned, Follows, Rebuilt;
    forall x | x in S ensures Rebuilt(x, was[source[x]].attrs, ways[x]) == true {
      DeclaredAgain(x, nss[x], was[source[x]].attrs, ways[x]);
    }
  }

  // Drop every cached element and marshal.
  method MarshallAgain(o: XMLObject, document: Document?, ghost S: set<XMLObject>, ghost D: set<Element>, ghost X: set<XMLObject>)
    returns (r: Element, ghost D': set<Element>, ghost ways: map<XMLObject, seq<Element>>)
    requires Tree(S) == true && Cache(S, D, X) == true && o in S && S == o.desc && o.parent == null && Typed(S) == true
    requires OneOwner(S) == true && OwnedLive(S) == true && o.document == null && AllKept(S) == true
    modifies S`dom, S`namespaces, o`document, D, (if document == null then {} else {document})`root
    ensures o.dom == r && DomSays(r, old(ContentOf(o, S)), D') == true && forall x :: x in S ==> x.dom != null && fresh(x.dom)
    ensures Tree(S) == true && Cache(S, D', {}) == true
    ensures AllFollow(S, old(Sets(S))) == true && NewClad(S, D) == true
    ensures old(AllPlain(S)) == true ==> Declared(Facts(S), o, S, null, []) == true && AllNamed(S, ways) == true
  {
    hide Tree, Cache, Typed, OneOwner, OwnedLive, ContentOf, DomSays, AllPlain, Plainly;
    hide Facts, Laid, Declared, Rest, Bare, AllKept, NewClad, AllFollow, Sets, AllNamed;
    DropSubtree(o, S, D, X);
    NoneCached(S, D, X);
    AllBare(S);
    ghost var f, plain := Facts(S), AllPlain(S);
    SetsOf(S);
    ways := map[];
    label Dropped: r, D' := MarshallInDocument(o, document, S, D);
    AllIn(S, D');
    KeptAfter@Dropped(S);
    BareKnown(f, S, D);
    CladAfter(f, S, D);
    FollowsAll(f, S);
    if plain {
      LaidAnew(f, f, Facts(S), o, S, D, null, []);
      ways := NamedAll(f, o, S, D);
    }
  }

  ghost function SetsIn(f: map<XMLObject, Fact>): map<XMLObject, seq<Namespace>> {
    map x | x in f :: f[x].nss
  }

  lemma SetsOf(S: set<XMLObject>)
    ensures Facts(S).Keys == S && SetsIn(Facts(S)) == Sets(S)
  {
  }

  lemma BareKnown(f: map<XMLObject, Fact>, S: set<XMLObject>, D: set<Element>)
    requires Bare(f, S) == true && f.Keys == S
    ensures forall x :: x in S ==> f[x].dom == null
  {
  }

  lemma FollowsAll(f: map<XMLObject, Fact>, S: set<XMLObject>)
    requires f.Keys == S && Rest(f, Facts(S), S) == true
    ensures AllFollow(S, SetsIn(f)) == true
  {
    hide Follows, Wears;
  }

  lemma NamedAll(f: map<XMLObject, Fact>, o: XMLObject, S: set<XMLObject>, D: set<Element>)
    returns (ways: map<XMLObject, seq<Element>>)
    requires Tree(S) == true && o in S && S == o.desc && Laid(f, Facts(S), o, S, D, null, []) == true && NewClad(S, D) == true && AllKept(S) == true
    requires f.Keys == S && forall x :: x in S ==> f[x].dom == null && x.dom != null && x.dom !in D
    ensures AllNamed(S, ways) == true
  {
    hide Tree, Laid, NewClad, AllKept, NamedAlong, Facts;
    assert Scopes([]) == [] && IsChain(null, []);
    forall x | x in S ensures exists chain :: NamedAlong(x, chain) == true {
      NewResolved(f, D, o, S, [], x);
    }
    ways := map x | x in S :: var chain :| NamedAlong(x, chain) == true; chain;
  }

  lemma NoneCached(S: set<XMLObject>, D: set<Element>, X: set<XMLObject>)
    requires Cache(S, D, X) == true && forall x :: x in S ==> x.dom == null
    ensures Cache(S, D, {}) == true
  {
  }

  lemma AllIn(S: set<XMLObject>, D: set<Element>)
    requires Cache(S, D, {}) == true
    ensures forall x :: x in S && x.dom != null ==> x.dom in D
  {
  }
}

// What an object tree and a DOM tree say, as plain values, and that the cache says the same.
module Contents {
  import opened Names
  import opened MixedContent
  import opened Dom
  import opened XmlTree

  // Expanded name, attributes that count, joined text around the children, and the children.
  datatype Content = Content(uri: string, local: string, attrs: map<Expanded, string>, texts: seq<string>, kids: seq<Content>)

  // The content of an object: what marshalling from scratch would put into the DOM.
  ghost function ContentOf(o: XMLObject, S: set<XMLObject>): (c: Content)
    requires Tree(S) && o in S
    reads S`desc, S`children, S`parent, S`text, S`nil, S`attributes
    ensures |c.kids| == |o.children|
    decreases o.desc, |o.children| + 1
  {
    Content(o.name.uri, o.name.local, Canon(o.Emitted()), Gaps(o.text, |o.children|), FirstKids(o, |o.children|, S))
  }

  ghost function FirstKids(o: XMLObject, n: nat, S: set<XMLObject>): (r: seq<Content>)
    requires Tree(S) && o in S && n <= |o.children|
    reads S`desc, S`children, S`parent, S`text, S`nil, S`attributes
    ensures |r| == n
    decreases o.desc, n
  {
    if n == 0 then []
    else
      o.ChildrenInTree(S);
      FirstKids(o, n - 1, S) + [ContentOf(o.children[n - 1], S)]
  }

  lemma {:induction false} KidAt(o: XMLObject, n: nat, S: set<XMLObject>, k: nat)
    requires Tree(S) && o in S && k < n <= |o.children|
    ensures o.children[k] in S && FirstKids(o, n, S)[k] == ContentOf(o.children[k], S)
    decreases n
  {
    o.ChildrenInTree(S);
    if k < n - 1 {
      KidAt(o, n - 1, S, k);
    }
  }

  // Element e, in a DOM, says c.
  ghost predicate DomSays(e: Element, c: Content, D: set<Element>)
    reads D`attrs, D`kids
    decreases c
  {
    && e in D && e.uri == c.uri && e.local == c.local && Canon(e.attrs) == c.attrs && Texts(e.kids) == c.texts
    && |Elems(e.kids)| == |c.kids| && forall k :: 0 <= k < |c.kids| ==> DomSays(Elems(e.kids)[k], c.kids[k], D)
  }

  // Cache coherence, all the way down: a cached element says exactly what its object says now.  X are
  // objects elsewhere that may be out of step.
  lemma {:induction false} CacheSays(o: XMLObject, S: set<XMLObject>, D: set<Element>, X: set<XMLObject>)
    requires Tree(S) && AllCoherent(S, D, X) && X !! o.desc && o in S && o.dom != null
    ensures DomSays(o.dom, ContentOf(o, S), D)
    decreases o.desc
  {
    o.ChildrenInTree(S);
    assert o.Coherent(D);
    forall k | 0 <= k < |o.children| ensures DomSays(Elems(o.dom.kids)[k], ContentOf(o, S).kids[k], D) {
      CacheSays(o.children[k], S, D, X);
      KidAt(o, |o.children|, S, k);
    }
  }

  // Everything below a cached object is cached, in elements of one document.
  lemma {:induction false} CachedBelow(o: XMLObject, S: set<XMLObject>, D: set<Element>, X: set<XMLObject>, x: XMLObject)
    requires Tree(S) == true && AllCoherent(S, D, X) == true && X !! o.desc && o in S && o.dom != null && x in o.desc
    ensures x.dom != null && x.dom.doc == o.dom.doc
    decreases o.desc
  {
    o.ChildrenInTree(S);
    assert o.Coherent(D);
    if x != o {
      var k := o.BelowChild(S, x);
      CachedBelow(o.children[k], S, D, X, x);
    }
  }

  // An element says one thing only, so two caches of the same objects agree.
  lemma {:induction false} SaysOne(e: Element, c: Content, c': Content, D: set<Element>)
    requires DomSays(e, c, D) && DomSays(e, c', D)
    ensures c == c'
    decreases c
  {
    forall k | 0 <= k < |c.kids| ensures c.kids[k] == c'.kids[k] {
      SaysOne(Elems(e.kids)[k], c.kids[k], c'.kids[k], D);
    }
  }
}

// Turning objects into DOM: cached elements are reused, moved or rebuilt.
module Marshalling {
  import opened Names
  import opened MixedContent
  import opened Dom
  import opened XmlTree
  import opened Declarations
  import opened Snapshots
  import opened Scoping

  // ---------------------------------------------------------------- moving and dropping cached elements

  // Only the object whose cached element it is can cache the element above it.
  lemma HolderIsParent(o: XMLObject, x: XMLObject, S: set<XMLObject>, D: set<Element>, X: set<XMLObject>)
    requires Tree(S) && Cache(S, D, X) && o in S && x in S && x !in X
    requires o.dom != null && o.dom.parent != null && x.dom == o.dom.parent
    ensures x == o.parent
  {
    assert Hung(o.dom, D) && x.Coherent(D);
    var e: Element := o.dom;
    ElemsMember(x.dom.kids, e);
    var i :| 0 <= i < |Elems(x.dom.kids)| && Elems(x.dom.kids)[i] == e;
    assert x.children[i].dom == o.dom;
    assert x.TreeAt(S);
  }

  method MoveUnder(o: XMLObject, target: Element, ghost S: set<XMLObject>, ghost D: set<Element>, ghost X: set<XMLObject>)
    requires Tree(S) == true && Cache(S, D, X) == true && o in S && o !in X && target in D && Free(S, X, [target]) == true
    requires o.dom != null && o.dom.parent != target && o.dom.doc == target.doc
    modifies D`kids, D`parent
    ensures Cache(S, D, o.Hole(X)) == true
    ensures o.dom.parent == target && target.kids == old(target.kids) + [ElementNode(o.dom)]
    ensures forall e :: e in D && e != o.dom ==> e.parent == old(e.parent)
    ensures forall e :: e in D && e != target && e != old(o.dom.parent) ==> e.kids == old(e.kids)
    ensures forall e, n :: e in D && n in old(e.kids) && n != ElementNode(o.dom) ==> n in e.kids
  {
    var e: Element := o.dom;
    ghost var P := e.parent;
    forall x | x in S && x !in X && P != null && x.dom == P ensures x == o.parent {
      HolderIsParent(o, x, S, D, X);
    }
    assert Hung(e, D) && o.dom !in [target];
    hide Tree;
    target.AppendChild(e);
    if P != null {
      WithoutKeeps(old(P.kids), e);
    }
    assert forall a, n :: a in D && n in old(a.kids) && n != ElementNode(e) ==> n in a.kids;
    forall x | x in S && x !in o.Hole(X) ensures x.Coherent(D) {
      assert old(x.Coherent(D));
    }
    forall x | x in S && x.dom != null ensures Hung(x.dom, D) {
      assert old(Hung(x.dom, D));
      var y: Element := x.dom;
      if x != o && y.parent != null {
        assert ElementNode(y) in old(y.parent.kids) && ElementNode(y) != ElementNode(e);
      }
    }
  }

  // releaseChildrenDOM(true) and releaseDOM together: only the parent can be out of step afterwards.
  method DropSubtree(o: XMLObject, ghost S: set<XMLObject>, ghost D: set<Element>, ghost X: set<XMLObject>)
    requires Tree(S) == true && Cache(S, D, X) == true && o in S
    modifies o.desc`dom
    ensures Cache(S, D, o.Hole(X)) == true
    ensures forall x :: x in o.desc ==> x.dom == null
  {
    hide Tree, Cache, XMLObject.Hole;
    o.ChildrenInTree(S);
    o.ReleaseChildrenDOM(S);
    o.ReleaseDOM();
    SubtreeDropped((o, S, D, X));
  }

  twostate lemma SubtreeDropped(w: (XMLObject, set<XMLObject>, set<Element>, set<XMLObject>))
    requires w.0 in w.1 && Tree(w.1) == true && old(Cache(w.1, w.2, w.3)) == true
    requires forall x :: x in w.0.desc ==> x.dom == null
    requires forall x :: x in w.1 && x !in w.0.desc ==> x.dom == old(x.dom)
    requires unchanged(w.1`children, w.1`text, w.1`nil, w.1`attributes, w.1`parent, w.1`desc)
    requires forall e :: e in w.2 ==> unchanged(e)
    ensures Cache(w.1, w.2, w.0.Hole(w.3)) == true
  {
    var (o, S, D, X) := w;
    forall x | x in S && x !in o.Hole(X) ensures x.Coherent(D) {
      assert old(x.Coherent(D)) && x.TreeAt(S) && o.TreeAt(S);
      if x !in o.desc && x.dom != null {
        forall i | 0 <= i < |x.children| ensures x.children[i] !in o.desc {
          assert x.children[i].TreeAt(S);
        }
      }
    }
    forall x | x in S && x.dom != null ensures Hung(x.dom, D) {
      assert old(Hung(x.dom, D));
    }
  }

  // ---------------------------------------------------------------- the marshaller

  // releaseParentDOM(true) after o got its element: the ancestors that are out of step drop theirs.
  method DropAbove(o: XMLObject, ghost S: set<XMLObject>, ghost D: set<Element>,
                   ghost X: set<XMLObject>, ghost up: seq<Element>, ghost drop: set<XMLObject>)
    requires Ready(S, D, o.Hole(X), up) == true && o in S
    requires Covers(drop, o, S) == true
    modifies S`dom
    ensures Ready(S, D, X, up) == true
    ensures o.parent != null ==> o.parent.dom == null
    ensures forall x :: x in S && x.dom != old(x.dom) ==> x.dom == null && x in drop
    ensures Dropped(old(Snapshot(S, up)), Snapshot(S, up), S, up, drop) == true
    ensures Upward(old(Snapshot(S, up)), Snapshot(S, up), S, o.desc) == true
    ensures Rest(old(Facts(S)), Facts(S), drop) == true
  {
    hide Ready, Cache, Tree, Links, XMLObject.Coherent, Dropped, Snapshot, Upward, Rest, Facts, Covers;
    ReadyParts(S, D, o.Hole(X), up);
    InStep(S, D, o.Hole(X));
    SnapshotDoms(S, up);
    TreeLinks(S);
    PlaceInTree(o, S, D, o.Hole(X), up);
    o.ReleaseParentDOM(S, D, X);
    ReadyDropped((o, S, D, X, up));
    WentUpward((S, o.desc, up));
    CoveredAbove((drop, o, S));
    FactsKept((S, drop));
    SnapDropped((S, up));
    SnapshotDoms(S, up);
    DroppedWithin(old(Snapshot(S, up)), Snapshot(S, up), S, up, S, drop);
  }

  lemma SnapshotDoms(S: set<XMLObject>, up: seq<Element>)
    ensures Over(Snapshot(S, up), S, up) && forall x :: x in S ==> Snapshot(S, up).dom[x] == x.dom
  {
  }

  lemma InStep(S: set<XMLObject>, D: set<Element>, X: set<XMLObject>)
    requires Cache(S, D, X) == true
    ensures AllCoherent(S, D, X)
  {
  }

  twostate lemma CoveredAbove(w: (set<XMLObject>, XMLObject, set<XMLObject>))
    requires old(Covers(w.0, w.1, w.2)) == true && unchanged(w.2`desc, w.2`parent) && w.1 in w.2 && w.1 in w.1.desc
    requires forall x :: x in w.2 && x.dom != old(x.dom) ==> w.1.desc <= x.desc && x !in w.1.desc
    requires w.1.parent == null || old(w.1.parent.dom) == null ==> forall x :: x in w.2 ==> x.dom == old(x.dom)
    ensures forall x :: x in w.2 && x.dom != old(x.dom) ==> x in w.0
  {
  }

  // The walk up is over.
  twostate lemma ReadyDropped(w: (XMLObject, set<XMLObject>, set<Element>, set<XMLObject>, seq<Element>))
    requires old(Ready(w.1, w.2, w.0.Hole(w.3), w.4)) == true && AllCoherent(w.1, w.2, w.3)
    requires unchanged(w.1`desc, w.1`children, w.1`parent) && w.0 in w.1
    requires forall x :: x in w.1 ==> x.dom == old(x.dom) || x.dom == null
    requires w.0.parent != null ==> w.0.parent.dom == null
    requires forall e :: e in w.2 ==> unchanged(e)
    ensures Ready(w.1, w.2, w.3, w.4) == true
  {
    hide AllCoherent;
    var (o, S, D, X, up) := w;
    forall x | x in S && x.dom != null ensures x.dom in D && Hung(x.dom, D) {
      assert old(Hung(x.dom, D));
    }
    ChainSteady((up[0], up));
  }

  twostate lemma FactsKept(w: (set<XMLObject>, set<XMLObject>))
    requires forall x :: x in w.0 && x !in w.1 ==> x.dom == old(x.dom) && x.namespaces == old(x.namespaces)
    requires forall x :: x in w.0 && x.namespaces != old(x.namespaces) ==> Follows(old(x.namespaces), x.namespaces) == true
    requires forall x :: x in w.0 && x !in w.1 && x.dom != null ==> x.dom.parent == old(x.dom.parent)
    requires forall x :: x in w.0 && x.dom != null ==>
               if x.dom == old(x.dom) then x.dom.attrs == old(x.dom.attrs) && x.dom.prefix == old(x.dom.prefix) else Clad(x, x.dom) == true
    requires unchanged(w.0`attributes)
    ensures Rest(old(Facts(w.0)), Facts(w.0), w.1) == true
  {
    hide Dressed, Follows;
    forall x | x in w.0 ensures Follows(old(x.namespaces), x.namespaces) == true {
      if x.namespaces == old(x.namespaces) { FollowsSelf(x.namespaces); }
    }
  }

  twostate lemma WentUpward(w: (set<XMLObject>, set<XMLObject>, seq<Element>))
    requires forall x :: x in w.0 && x.dom != old(x.dom) && x.parent != null ==> x.parent.dom == null
    ensures Upward(old(Snapshot(w.0, w.2)), Snapshot(w.0, w.2), w.0, w.1) == true
  {
  }

  twostate lemma SnapDropped(w: (set<XMLObject>, seq<Element>))
    requires forall x :: x in w.0 ==> x.dom == null || (x.dom == old(x.dom) && x.dom.parent == old(x.dom.parent))
    requires forall e :: e in w.1 ==> e.kids == old(e.kids) && e.attrs == old(e.attrs) && e.prefix == old(e.prefix) && e.parent == old(e.parent)
    ensures Dropped(old(Snapshot(w.0, w.1)), Snapshot(w.0, w.1), w.0, w.1, w.0) == true
  {
  }

  lemma DroppedWithin(s: Snap, s1: Snap, S: set<XMLObject>, up: seq<Element>, wide: set<XMLObject>, drop: set<XMLObject>)
    requires Over(s, S, up) && Over(s1, S, up) && Dropped(s, s1, S, up, wide) == true
    requires forall x :: x in S && s1.dom[x] != s.dom[x] ==> x in drop
    ensures Dropped(s, s1, S, up, drop) == true
  {
  }

  method MoveToTarget(o: XMLObject, target: Element, ghost S: set<XMLObject>, ghost D: set<Element>,
                      ghost X: set<XMLObject>, ghost up: seq<Element>)
    requires Ready(S, D, X, up) == true && up[0] == target && o in S
    requires o.dom != null && o.dom.doc == target.doc && o.dom.parent != target && o !in X
    modifies D`kids, D`parent
    ensures Ready(S, D, o.Hole(X), up) == true && o.dom.parent == target
    ensures Moved(old(Snapshot(S, up)), Snapshot(S, up), S, up, o, o.dom) == true
    ensures Rest(old(Facts(S)), Facts(S), {o}) == true
  {
    hide Ready, Tree, Cache, Hung, Moved, Snapshot, Over, Free, Rest, Facts;
    CachedApart(S, D, X, up);
    ReadyParts(S, D, X, up);
    MoveUnder(o, target, S, D, X);
    ReadyAgain((S, D, X, o.Hole(X), up));
    SnapMoved((o, S, D, up));
    FactsKept((S, {o}));
  }

  lemma ReadyParts(S: set<XMLObject>, D: set<Element>, X: set<XMLObject>, up: seq<Element>)
    requires Ready(S, D, X, up) == true
    ensures Tree(S) == true && Cache(S, D, X) == true && forall e :: e in up ==> e in D
  {
  }

  // With the cache in order again, and the chain as it was, everything is.
  twostate lemma ReadyAgain(w: (set<XMLObject>, set<Element>, set<XMLObject>, set<XMLObject>, seq<Element>))
    requires old(Ready(w.0, w.1, w.2, w.4)) == true && Tree(w.0) == true && Cache(w.0, w.1, w.3) == true
    requires forall x :: x in w.0 ==> x.dom == old(x.dom) || x.dom == null
    requires w.2 <= w.3 && forall e :: e in w.4 ==> e.parent == old(e.parent)
    ensures Ready(w.0, w.1, w.3, w.4) == true
  {
    hide Tree, Cache;
    ChainSteady((w.4[0], w.4));
  }

  twostate lemma SnapMoved(w: (XMLObject, set<XMLObject>, set<Element>, seq<Element>))
    requires w.0 in w.1 && w.3 != [] && w.0.dom != null && w.0.dom == old(w.0.dom) && w.0.dom !in w.3 && w.3[0] in w.2
    requires old(w.0.dom.parent) != w.3[0] && w.0.dom.parent == w.3[0]
    requires forall x :: x in w.1 ==> x.dom == old(x.dom) && (x.dom != null && x != w.0 ==> x.dom != w.0.dom && x.dom in w.2)
    requires forall e :: e in w.3 ==> e in w.2 && e.attrs == old(e.attrs) && e.prefix == old(e.prefix)
    requires w.3[0].kids == old(w.3[0].kids) + [ElementNode(w.0.dom)]
    requires forall e :: e in w.2 && e != w.0.dom ==> e.parent == old(e.parent)
    requires forall e :: e in w.2 && e != w.3[0] && e != old(w.0.dom.parent) ==> e.kids == old(e.kids)
    requires forall e, n :: e in w.2 && n in old(e.kids) && n != ElementNode(w.0.dom) ==> n in e.kids
    ensures Moved(old(Snapshot(w.1, w.3)), Snapshot(w.1, w.3), w.1, w.3, w.0, w.0.dom) == true
  {
    var (o, S, D, up) := w;
    var s, s1 := old(Snapshot(S, up)), Snapshot(S, up);
    assert s1.hang == s.hang[o := up[0]];
    forall e | e in up && e != s.hang[o] && e != up[0] ensures s1.kids[e] == s.kids[e] + [] {
      assert e.kids == old(e.kids);
    }
  }

  // The cached element belongs to the right document: it stays where it is or moves.
  method Reuse(o: XMLObject, target: Element, ghost S: set<XMLObject>, ghost D: set<Element>,
               ghost X: set<XMLObject>, ghost up: seq<Element>, ghost drop: set<XMLObject>)
    returns (r: Element)
    requires Ready(S, D, X, up) == true && up[0] == target && o in S && o in o.desc && o.desc <= S && o !in X
    requires Covers(drop, o, S) == true
    requires o.dom != null && o.dom.doc == target.doc
    modifies S`dom, D`kids, D`parent
    ensures Ready(S, D, X, up) == true
    ensures o.dom == r && r == old(o.dom) && r.parent == target
    ensures old(r.parent) != target && o.parent != null ==> o.parent.dom == null
    ensures old(r.parent) == target ==> Snapshot(S, up) == old(Snapshot(S, up))
    ensures Effect(old(Snapshot(S, up)), Snapshot(S, up), S, D, up, o.desc, o, drop) == true
    ensures Upward(old(Snapshot(S, up)), Snapshot(S, up), S, o.desc) == true
    ensures Rest(old(Facts(S)), Facts(S), {o} + drop) == true
  {
    hide Ready, Effect, Snapshot, Over, Rest, Facts, Upward, Covers;
    r := o.dom;
    if target == r.parent {
      SnapshotAt(o, S, up);
      EffectNone(Snapshot(S, up), S, D, up, o, o.desc, drop);
      UpwardNone(Snapshot(S, up), S, up, o.desc);
      RestSelf(Facts(S));
      RestWider(Facts(S), Facts(S), {}, {o} + drop);
    } else {
      Move(o, target, S, D, X, up, drop);
    }
  }

  lemma UpwardNone(s: Snap, S: set<XMLObject>, up: seq<Element>, below: set<XMLObject>)
    requires Over(s, S, up)
    ensures Upward(s, s, S, below) == true
  {
  }

  method Move(o: XMLObject, target: Element, ghost S: set<XMLObject>, ghost D: set<Element>,
              ghost X: set<XMLObject>, ghost up: seq<Element>, ghost drop: set<XMLObject>)
    requires Ready(S, D, X, up) == true && up[0] == target && o in S && o in o.desc && o.desc <= S && o !in X
    requires Covers(drop, o, S) == true
    requires o.dom != null && o.dom.doc == target.doc && o.dom.parent != target
    modifies S`dom, D`kids, D`parent
    ensures Ready(S, D, X, up) == true && o.dom == old(o.dom) && o.dom.parent == target
    ensures o.parent != null ==> o.parent.dom == null
    ensures Effect(old(Snapshot(S, up)), Snapshot(S, up), S, D, up, o.desc, o, drop) == true
    ensures Upward(old(Snapshot(S, up)), Snapshot(S, up), S, o.desc) == true
    ensures Rest(old(Facts(S)), Facts(S), {o} + drop) == true
  {
    hide Ready, Effect, Moved, Dropped, Snapshot, Over, Rest, Facts, Upward;
    PlaceInTree(o, S, D, X, up);
    ghost var s, f := Snapshot(S, up), Facts(S);
    SnapshotAt(o, S, up);
    MoveToTarget(o, target, S, D, X, up);
    ghost var s1, f1 := Snapshot(S, up), Facts(S);
    DropAbove(o, S, D, X, up, drop);
    RestTrans(f, f1, Facts(S), {o}, drop, {o} + drop);
    EffectMoved(s, s1, Snapshot(S, up), S, D, up, o, old(o.dom), o.desc, drop);
    MovedUpward(s, s1, Snapshot(S, up), S, up, o, old(o.dom));
  }

  lemma MovedUpward(s: Snap, s1: Snap, s2: Snap, S: set<XMLObject>, up: seq<Element>, o: XMLObject, r: Element)
    requires Over(s, S, up) && Over(s1, S, up) && Over(s2, S, up) && up != [] && o in S && Moved(s, s1, S, up, o, r) == true
    requires Upward(s1, s2, S, o.desc) == true
    ensures Upward(s, s2, S, o.desc) == true
  {
    UpwardAfter(s, s1, s2, S, o.desc);
  }

  lemma SnapshotAt(o: XMLObject, S: set<XMLObject>, up: seq<Element>)
    requires o in S
    ensures Over(Snapshot(S, up), S, up)
    ensures Snapshot(S, up).dom[o] == o.dom
    ensures Snapshot(S, up).hang[o] == if o.dom == null then null else o.dom.parent
  {
  }

  lemma SnapshotParent(o: XMLObject, S: set<XMLObject>, up: seq<Element>)
    ensures Over(Snapshot(S, up), S, up)
    ensures o.parent != null && o.parent in S ==> Snapshot(S, up).dom[o.parent] == o.parent.dom
  {
  }

  // A cached element of another document goes, with everything cached below it.
  method DropStale(o: XMLObject, ghost S: set<XMLObject>, ghost D: set<Element>,
                   ghost X: set<XMLObject>, ghost up: seq<Element>)
    requires Ready(S, D, X, up) == true && o in S && X !! o.desc && o.desc <= S
    modifies o.desc`dom
    ensures Ready(S, D, o.Hole(X), up) == true && o.Hole(X) !! o.desc
    ensures o.dom == null && (o.parent != null ==> o.parent.dom == old(o.parent.dom))
    ensures Cleared(old(Snapshot(S, up)), Snapshot(S, up), S, up, o.desc) == true
    ensures Rest(old(Facts(S)), Facts(S), o.desc) == true && (old(o.dom) == null ==> Facts(S) == old(Facts(S)))
    ensures old(o.dom) != null ==> Bare(Facts(S), o.desc) == true
    ensures forall x :: x in S ==> Facts(S)[x].nss == old(Facts(S)[x].nss)
  {
    hide Ready, Tree, Cache, Snapshot, Cleared, Rest, Facts;
    PlaceInTree(o, S, D, X, up);
    ReadyParts(S, D, X, up);
    if o.dom != null {
      DropSubtree(o, S, D, X);
      ReadyAgain((S, D, X, o.Hole(X), up));
      SnapCleared((o.desc, S, up));
    } else {
      CacheWider(S, D, X, o.Hole(X), up);
      ClearedNone(S, up, o.desc);
    }
    FactsKept((S, o.desc));
    if old(o.dom) != null { BareFacts(S, o.desc); }
    SameNames(S);
  }

  lemma BareFacts(S: set<XMLObject>, T: set<XMLObject>)
    requires T <= S && forall x :: x in T ==> x.dom == null
    ensures Bare(Facts(S), T) == true
  {
  }

  twostate lemma SameNames(S: set<XMLObject>)
    requires forall x :: x in S ==> x.namespaces == old(x.namespaces)
    ensures forall x :: x in S ==> Facts(S)[x].nss == old(Facts(S)[x].nss)
  {
  }

  lemma CacheWider(S: set<XMLObject>, D: set<Element>, X: set<XMLObject>, X': set<XMLObject>, up: seq<Element>)
    requires Ready(S, D, X, up) == true && X <= X'
    ensures Ready(S, D, X', up) == true
  {
  }

  lemma ClearedNone(S: set<XMLObject>, up: seq<Element>, below: set<XMLObject>)
    requires below <= S
    ensures Cleared(Snapshot(S, up), Snapshot(S, up), S, up, below) == true
  {
  }

  twostate lemma SnapCleared(w: (set<XMLObject>, set<XMLObject>, seq<Element>))
    requires w.0 <= w.1 && forall x :: x in w.0 ==> x.dom == null
    requires forall x :: x in w.1 && x !in w.0 ==> x.dom == old(x.dom) && (x.dom != null ==> x.dom.parent == old(x.dom.parent))
    requires forall e :: e in w.2 ==> e.kids == old(e.kids) && e.attrs == old(e.attrs) && e.prefix == old(e.prefix) && e.parent == old(e.parent)
    ensures Cleared(old(Snapshot(w.1, w.2)), Snapshot(w.1, w.2), w.1, w.2, w.0) == true
  {
  }

  // createElementNS and appendChild.
  method StartElement(o: XMLObject, target: Element, ghost S: set<XMLObject>, ghost D: set<Element>,
                      ghost X: set<XMLObject>, ghost up: seq<Element>)
    returns (d: Element)
    requires Ready(S, D, X, up) == true && up[0] == target
    modifies target`kids
    ensures fresh(d) && Ready(S, D + {d}, X, [d] + up) == true
    ensures d.uri == o.name.uri && d.local == o.name.local && d.doc == target.doc
    ensures d.attrs == map[] && d.prefix == "" && d.kids == [] && d.parent == target && Unhung(S, d) && Uncaches(S, d)
    ensures ElementNode(d) in target.kids && Started(old(Snapshot(S, up)), Snapshot(S, up), S, up, d) == true
    ensures Rest(old(Facts(S)), Facts(S), {}) == true
  {
    hide Tree, Cache, Hung, Started, Snapshot, Rest, Facts;
    CachedApart(S, D, X, up);
    d := new Element(target.doc, o.name.uri, o.name.local);
    target.AppendChild(d);
    ReadyStarted((S, D, X, up), d);
    SnapStarted((S, up), d);
    FactsKept((S, {}));
  }

  lemma CachedApart(S: set<XMLObject>, D: set<Element>, X: set<XMLObject>, up: seq<Element>)
    requires Ready(S, D, X, up) == true
    ensures up != [] && up[0] in D && up[0] in up && Free(S, X, [up[0]]) == true
    ensures forall x :: x in S && x.dom != null ==>
              x.dom in D && (x !in X ==> x.dom !in up) && (x.dom.parent != null ==> x.dom.parent in D)
    ensures forall o, p :: o in S && p in S && o.dom != null && o.dom == p.dom ==> o == p
  {
    assert forall x :: x in S && x.dom != null ==> Hung(x.dom, D);
  }

  twostate lemma ReadyStarted(w: (set<XMLObject>, set<Element>, set<XMLObject>, seq<Element>), new d: Element)
    requires w.3 != [] && old(Ready(w.0, w.1, w.2, w.3)) == true && d !in w.1 && d.parent == w.3[0]
    requires w.3[0].kids == old(w.3[0].kids) + [ElementNode(d)]
    requires forall e :: e in w.1 ==> e.parent == old(e.parent) && e.attrs == old(e.attrs) && e.prefix == old(e.prefix)
    requires forall e :: e in w.1 && e != w.3[0] ==> e.kids == old(e.kids)
    requires forall x :: x in w.0 ==> unchanged(x)
    requires forall x, c :: x in w.0 && c in x.children ==> c.dom == old(c.dom)
    ensures Ready(w.0, w.1 + {d}, w.2, [d] + w.3) == true
  {
    var (S, D, X, up) := w;
    assert IsChain(up[0], up) by { ChainSteady((up[0], up)); }
    assert ([d] + up)[1..] == up;
    forall x | x in S ensures (x !in X ==> x.Coherent(D + {d})) && (x.dom != null ==> Hung(x.dom, D + {d})) {
      assert x !in X ==> old(x.Coherent(D));
      assert x.dom != null ==> old(Hung(x.dom, D));
    }
  }

  twostate lemma SnapStarted(w: (set<XMLObject>, seq<Element>), new d: Element)
    requires w.1 != [] && w.1[0].kids == old(w.1[0].kids) + [ElementNode(d)]
    requires forall x :: x in w.0 ==> x.dom == old(x.dom) && (x.dom != null ==> x.dom.parent == old(x.dom.parent))
    requires forall e :: e in w.1 ==>
               && e.attrs == old(e.attrs) && e.prefix == old(e.prefix) && e.parent == old(e.parent)
               && (e != w.1[0] ==> e.kids == old(e.kids))
    ensures Started(old(Snapshot(w.0, w.1)), Snapshot(w.0, w.1), w.0, w.1, d) == true
  {
    var (S, up) := w;
    forall e | e in up && e != up[0] ensures Snapshot(S, up).kids[e] == old(Snapshot(S, up)).kids[e] + [] {
      assert e.kids == old(e.kids);
    }
  }

  // The fresh element, in place under the target and with its attributes on.
  method PrepareElement(o: XMLObject, target: Element, ghost S: set<XMLObject>, ghost D: set<Element>,
                        ghost X: set<XMLObject>, ghost up: seq<Element>)
    returns (d: Element, ghost D1: set<Element>)
    requires Ready(S, D, X, up) == true && up[0] == target && o in S && (o.typ.Some? ==> o.typ.value.local != "")
    modifies target`kids, o`namespaces
    ensures fresh(d) && D <= D1 && (forall e :: e in D1 && e !in D ==> fresh(e)) && Ready(S, D1, X, [d] + up) == true
    ensures d.doc == target.doc
    ensures d.kids == [] && d.parent == target && Unhung(S, d) == true && Uncaches(S, d) && ElementNode(d) in target.kids
    ensures o.SaysHead(d) == true && Clad(o, d) == true
    ensures Started(old(Snapshot(S, up)), Snapshot(S, up), S, up, d) == true
    ensures Rest(old(Facts(S)), Facts(S), {o}) == true
    ensures old(Plain(o)) == true ==> Settled(o.namespaces, d.attrs, Scopes(up)) == true
  {
    hide Ready, Started, Unhung, Canon, Snapshot, Over, Plain, Settled, Clad, Rest, Facts;
    ghost var f := Facts(S);
    d := StartElement(o, target, S, D, X, up);
    assert d !in up;
    D1 := D + {d};
    ghost var f1 := Facts(S);
    WriteHead(o, d, S, D1, X, up);
    RestTrans(f, f1, Facts(S), {}, {o}, {o});
  }

  // marshallInto's attributes, on an element no object caches yet.
  method WriteHead(o: XMLObject, d: Element, ghost S: set<XMLObject>, ghost D: set<Element>,
                   ghost X: set<XMLObject>, ghost up: seq<Element>)
    requires Ready(S, D, X, [d] + up) == true && d !in up && Uncaches(S, d) && (o.typ.Some? ==> o.typ.value.local != "")
    requires d.uri == o.name.uri && d.local == o.name.local && d.attrs == map[] && d.prefix == ""
    modifies d`prefix, d`attrs, o`namespaces
    ensures Ready(S, D, X, [d] + up) == true
    ensures Canon(d.attrs) == Canon(o.Emitted()) && Clad(o, d) == true
    ensures Snapshot(S, up) == old(Snapshot(S, up))
    ensures old(Plain(o)) == true ==> Settled(o.namespaces, d.attrs, Scopes(up)) == true
    ensures Rest(old(Facts(S)), Facts(S), {o}) == true
  {
    hide Tree, Cache, Plain, Settled, Clad, Canon, Snapshot, Rest, Facts;
    assert ([d] + up)[1..] == up && d in [d] + up;
    CachedApart(S, D, X, [d] + up);
    MarshallHead(o, d, [d] + up);
    ReadyWritten((d, S, D, X, [d] + up));
    SnapSteady((S, up));
    FactsKept((S, {o}));
  }

  // The attributes of an element no object caches can be written freely.
  twostate lemma ReadyWritten(w: (Element, set<XMLObject>, set<Element>, set<XMLObject>, seq<Element>))
    requires old(Ready(w.1, w.2, w.3, w.4)) == true && w.0 in w.4
    requires unchanged(w.1`dom, w.1`children, w.1`text, w.1`nil, w.1`attributes, w.1`desc, w.1`parent)
    requires forall e :: e in w.2 ==> e.kids == old(e.kids) && e.parent == old(e.parent)
    requires forall e :: e in w.2 && e != w.0 ==> e.attrs == old(e.attrs) && e.prefix == old(e.prefix)
    ensures Ready(w.1, w.2, w.3, w.4) == true
  {
    var (d, S, D, X, up) := w;
    assert IsChain(up[0], up) by { ChainSteady((up[0], up)); }
    forall x | x in S ensures (x !in X ==> x.Coherent(D)) && (x.dom != null ==> Hung(x.dom, D)) {
      assert x !in X ==> old(x.Coherent(D));
      assert x.dom != null ==> old(Hung(x.dom, D));
    }
  }

  twostate lemma SnapSteady(w: (set<XMLObject>, seq<Element>))
    requires forall x :: x in w.0 ==> x.dom == old(x.dom) && (x.dom != null ==> x.dom.parent == old(x.dom.parent))
    requires forall e :: e in w.1 ==> e.attrs == old(e.attrs) && e.prefix == old(e.prefix) && e.parent == old(e.parent) && e.kids == old(e.kids)
    ensures Snapshot(w.0, w.1) == old(Snapshot(w.0, w.1))
  {
  }

  // setDOM on the finished element.
  method FinishElement(o: XMLObject, d: Element, ghost S: set<XMLObject>, ghost D: set<Element>,
                       ghost X: set<XMLObject>, ghost up: seq<Element>)
    requires Ready(S, D, X, [d] + up) == true && o in S && o.dom == null && Hung(d, D) == true && Uncaches(S, d)
    requires o.Says(d) == true && o.Wraps(d) == true && Clad(o, d) == true && d !in up && up != [] && d.parent == up[0]
    requires o.parent == null || o.parent.dom == null || o.parent in X
    modifies o`dom
    ensures o.dom == d && Ready(S, D, X, up) == true
    ensures Finished(old(Snapshot(S, up)), Snapshot(S, up), up, o, d) == true
    ensures Rest(old(Facts(S)), Facts(S), {o}) == true
  {
    hide Ready, Hung, XMLObject.Says, XMLObject.Wraps, Clad, Finished, Snapshot, Rest, Facts;
    PlaceInTree(o, S, D, X, [d] + up);
    CachedApart(S, D, X, [d] + up);
    o.dom := d;
    ReadyFinished((o, d, S, D, X, up));
    SnapFinished((o, S, up));
    FactsKept((S, {o}));
  }

  twostate lemma CacheFinished(w: (XMLObject, Element, set<XMLObject>, set<Element>, set<XMLObject>))
    requires w.0 in w.2 && old(w.0.dom) == null && w.0.dom == w.1
    requires old(Tree(w.2)) == true && old(Cache(w.2, w.3, w.4)) == true && old(Hung(w.1, w.3)) == true
    requires forall x :: x in w.2 ==> old(x.dom) != w.1
    requires w.0 in w.4 || (old(w.0.Says(w.1)) == true && old(w.0.Wraps(w.1)) == true)
    requires old(w.0.parent) == null || old(w.0.parent.dom) == null || old(w.0.parent) in w.4
    requires forall x :: x in w.2 && x != w.0 ==> unchanged(x)
    requires unchanged(w.0`children, w.0`parent, w.0`desc, w.0`text, w.0`nil, w.0`attributes)
    requires forall e :: e in w.3 ==> unchanged(e)
    ensures Cache(w.2, w.3, w.4) == true
  {
    var (o, d, S, D, X) := w;
    assert old(o.TreeAt(S));
    forall x | x in S && x !in X ensures x.Coherent(D) {
      assert old(x.Coherent(D));
      assert old(x.TreeAt(S));
    }
  }

  twostate lemma ReadyFinished(w: (XMLObject, Element, set<XMLObject>, set<Element>, set<XMLObject>, seq<Element>))
    requires w.0 in w.2 && old(w.0.dom) == null && w.0.dom == w.1 && w.5 != [] && w.1 !in w.5
    requires old(Ready(w.2, w.3, w.4, [w.1] + w.5)) == true && old(Hung(w.1, w.3)) == true && w.1.parent == w.5[0]
    requires old(w.0.Says(w.1)) == true && old(w.0.Wraps(w.1)) == true
    requires old(w.0.parent) == null || old(w.0.parent.dom) == null || old(w.0.parent) in w.4
    requires forall x :: x in w.2 ==> old(x.dom) != w.1
    requires forall x :: x in w.2 && x != w.0 ==> unchanged(x)
    requires unchanged(w.0`children, w.0`parent, w.0`desc, w.0`text, w.0`nil, w.0`attributes)
    requires forall e :: e in w.3 ==> unchanged(e)
    ensures Ready(w.2, w.3, w.4, w.5) == true
  {
    hide Cache, Hung, XMLObject.Says, XMLObject.Wraps;
    var (o, d, S, D, X, up) := w;
    assert ([d] + up)[1..] == up && d in [d] + up && forall e :: e in up ==> e in [d] + up;
    assert IsChain(up[0], up) by { ChainSteady((up[0], up)); }
    CacheFinished((o, d, S, D, X));
  }

  twostate lemma SnapFinished(w: (XMLObject, set<XMLObject>, seq<Element>))
    requires w.0 in w.1 && w.2 != [] && w.0.dom != null && w.0.dom.parent == w.2[0]
    requires forall x :: x in w.1 && x != w.0 ==> x.dom == old(x.dom) && (x.dom != null ==> x.dom.parent == old(x.dom.parent))
    requires forall e :: e in w.2 ==> e.attrs == old(e.attrs) && e.prefix == old(e.prefix) && e.parent == old(e.parent) && e.kids == old(e.kids)
    ensures Finished(old(Snapshot(w.1, w.2)), Snapshot(w.1, w.2), w.2, w.0, w.0.dom) == true
  {
  }

  // marshall(parentElement): reuse in place, move, or drop and rebuild.  Every object that kept or got
  // an element is in step with it afterwards, outside X, and the ancestors that are not have dropped theirs.
  method MarshallUnder(o: XMLObject, target: Element, ghost S: set<XMLObject>, ghost D: set<Element>,
                       ghost X: set<XMLObject>, ghost up: seq<Element>, ghost drop: set<XMLObject>)
    returns (r: Element, ghost D': set<Element>)
    requires Ready(S, D, X, up) == true && up[0] == target && o in S && X !! o.desc && o.desc <= S && Typed(o.desc) == true
    requires Covers(drop, o, S) == true
    modifies S`dom, S`namespaces, D
    decreases o.desc, 8
    ensures D <= D' && (forall e :: e in D' && e !in D ==> fresh(e)) && Ready(S, D', X, up) == true
    ensures o.dom == r && r.parent == target && r.doc == target.doc
    ensures old(o.dom) != null && old(o.dom).doc == target.doc ==> r == old(o.dom)
    ensures o.parent != null ==> o.parent.dom == null || (old(o.dom) == r && old(r.parent) == target)
    ensures old(o.dom) == r && old(r.parent) == target ==> Snapshot(S, up) == old(Snapshot(S, up))
    ensures Effect(old(Snapshot(S, up)), Snapshot(S, up), S, D, up, o.desc, o, drop) == true
    ensures Upward(old(Snapshot(S, up)), Snapshot(S, up), S, o.desc) == true
    ensures Scopes(up) == old(Scopes(up))
    ensures Rest(old(Facts(S)), Facts(S), o.desc + drop) == true
    ensures Plainly(old(Facts(S)), o.desc) == true ==> Laid(old(Facts(S)), Facts(S), o, S, D, target, Scopes(up)) == true
  {
    hide Ready, Effect, Snapshot, Over, Rest, Facts, Laid, Plainly, Typed, Covers, Alone, Scopes, Upward;
    if o.dom != null && target.doc == o.dom.doc {
      PlaceInTree(o, S, D, X, up);
      FactAt(o, S);
      CoversApart(drop, o, S);
      ghost var f := Facts(S);
      r := Reuse(o, target, S, D, X, up, drop);
      FactAt(o, S);
      ReusedLaid(f, Facts(S), o, S, D, drop, up[0], Scopes(up));
      RestWider(f, Facts(S), {o} + drop, o.desc + drop);
      D' := D;
    } else {
      r, D' := MarshallAnew(o, target, S, D, X, up, drop);
    }
  }

  // A cached element of another document is dropped first; then the element is built.
  method MarshallAnew(o: XMLObject, target: Element, ghost S: set<XMLObject>, ghost D: set<Element>,
                      ghost X: set<XMLObject>, ghost up: seq<Element>, ghost drop: set<XMLObject>)
    returns (r: Element, ghost D': set<Element>)
    requires Ready(S, D, X, up) == true && up[0] == target && o in S && X !! o.desc && o.desc <= S && Typed(o.desc) == true
    requires Covers(drop, o, S) == true
    modifies S`dom, S`namespaces, D
    decreases o.desc, 7
    ensures D <= D' && (forall e :: e in D' && e !in D ==> fresh(e)) && Ready(S, D', X, up) == true
    ensures fresh(r) && o.dom == r && r.parent == target && r.doc == target.doc
    ensures o.parent != null ==> o.parent.dom == null
    ensures Effect(old(Snapshot(S, up)), Snapshot(S, up), S, D, up, o.desc, o, drop) == true
    ensures Upward(old(Snapshot(S, up)), Snapshot(S, up), S, o.desc) == true
    ensures Scopes(up) == old(Scopes(up))
    ensures Rest(old(Facts(S)), Facts(S), o.desc + drop) == true
    ensures Plainly(old(Facts(S)), o.desc) == true ==> Laid(old(Facts(S)), Facts(S), o, S, D, target, Scopes(up)) == true
  {
    hide Ready, Effect, Snapshot, Over, Cleared, Dropped, Typed, Rest, Facts, Laid, Plainly, Upward, Covers, Bare, Scopes;
    hide Outcome;
    PlaceInTree(o, S, D, X, up);
    CoversApart(drop, o, S);
    ghost var s, f := Snapshot(S, up), Facts(S);
    DropStale(o, S, D, X, up);
    ghost var s1, f1 := Snapshot(S, up), Facts(S);
    r, D' := BuildAnew(o, target, S, D, X, up, drop);
    TreeOf(S, D', X, up);
    OutcomeParts(s1, Snapshot(S, up), f1, Facts(S), o, S, D, up, drop, Scopes(up));
    AnewLaid(f, f1, Facts(S), o, S, D, drop, up[0], Scopes(up));
    EffectAnew(s, s1, Snapshot(S, up), S, D, up, o, o.desc, drop);
    ClearedUpward(s, s1, Snapshot(S, up), S, up, o);
  }

  // With nothing stale left, the element is built, and the ancestors that are out of step drop theirs.
  method BuildAnew(o: XMLObject, target: Element, ghost S: set<XMLObject>, ghost D: set<Element>,
                   ghost X: set<XMLObject>, ghost up: seq<Element>, ghost drop: set<XMLObject>)
    returns (r: Element, ghost D': set<Element>)
    requires Ready(S, D, o.Hole(X), up) == true && o.Hole(X) !! o.desc && up != [] && up[0] == target && o in S && o.desc <= S
    requires o in o.desc && o.dom == null && Typed(o.desc) == true && Covers(drop, o, S) == true && drop !! o.desc
    requires o.parent != null ==> o.parent in S && o.parent !in o.desc
    modifies S`dom, S`namespaces, D
    decreases o.desc, 6
    ensures D <= D' && (forall e :: e in D' && e !in D ==> fresh(e)) && Ready(S, D', X, up) == true
    ensures fresh(r) && o.dom == r && r.parent == target && r.doc == target.doc
    ensures o.parent != null ==> o.parent.dom == null
    ensures Scopes(up) == old(Scopes(up))
    ensures Outcome(old(Snapshot(S, up)), Snapshot(S, up), old(Facts(S)), Facts(S), o, S, D, up, drop, Scopes(up)) == true
  {
    hide Ready, Effect, Snapshot, Over, Dropped, Typed, Rest, Facts, Laid, Plainly, Upward, Covers, Scopes, Outcome;
    ghost var s1, f1 := Snapshot(S, up), Facts(S);
    SnapshotParent(o, S, up);
    r, D' := Rebuild(o, target, S, D, o.Hole(X), up);
    ParentKept(s1, o, S, D, up);
    ghost var s2, f2 := Snapshot(S, up), Facts(S);
    DropAbove(o, S, D', X, up, drop);
    TreeOf(S, D', X, up);
    BuiltOutcome(s1, s2, Snapshot(S, up), f1, f2, Facts(S), o, S, D, up, drop, Scopes(up));
  }

  // What marshalling did, seen as a whole.
  ghost predicate Outcome(s: Snap, t: Snap, f: map<XMLObject, Fact>, g: map<XMLObject, Fact>, o: XMLObject, S: set<XMLObject>,
                          D: set<Element>, up: seq<Element>, drop: set<XMLObject>, scopes: seq<Attributes>)
    reads o`desc, S`parent, S`desc, S`children, o.desc`attributes
  {
    && o in S && o.desc <= S && up != [] && Over(s, S, up) && Over(t, S, up)
    && Effect(s, t, S, D, up, o.desc, o, drop) && Upward(s, t, S, o.desc) && Rest(f, g, o.desc + drop)
    && (Plainly(f, o.desc) ==> Laid(f, g, o, S, D, up[0], scopes))
  }

  lemma OutcomeParts(s: Snap, t: Snap, f: map<XMLObject, Fact>, g: map<XMLObject, Fact>, o: XMLObject, S: set<XMLObject>,
                     D: set<Element>, up: seq<Element>, drop: set<XMLObject>, scopes: seq<Attributes>)
    requires Outcome(s, t, f, g, o, S, D, up, drop, scopes) == true
    ensures o in S && o.desc <= S && up != [] && Over(s, S, up) && Over(t, S, up)
    ensures Effect(s, t, S, D, up, o.desc, o, drop) == true && Upward(s, t, S, o.desc) == true && Rest(f, g, o.desc + drop) == true
    ensures Plainly(f, o.desc) == true ==> Laid(f, g, o, S, D, up[0], scopes) == true
  {
  }

  lemma BuiltOutcome(s1: Snap, s2: Snap, s3: Snap, f1: map<XMLObject, Fact>, f2: map<XMLObject, Fact>, f3: map<XMLObject, Fact>,
                     o: XMLObject, S: set<XMLObject>, D: set<Element>, up: seq<Element>, drop: set<XMLObject>, scopes: seq<Attributes>)
    requires Tree(S) == true && o in S && o in o.desc && o.desc <= S && drop !! o.desc && up != []
    requires Over(s1, S, up) && Over(s2, S, up) && Over(s3, S, up)
    requires Effect(s1, s2, S, D, up, o.desc, o, {}) == true && Dropped(s2, s3, S, up, drop) == true && Upward(s2, s3, S, o.desc) == true
    requires Rest(f1, f2, o.desc) == true && Rest(f2, f3, drop) == true
    requires Plainly(f1, o.desc) == true ==> Laid(f1, f2, o, S, D, up[0], scopes) == true
    ensures Outcome(s1, s3, f1, f3, o, S, D, up, drop, scopes) == true
  {
    hide Effect, Dropped, Upward, Rest, Plainly, Laid, Tree;
    LaidThenDropped(f1, f2, f3, o, S, D, drop, up[0], scopes);
    EffectDropped(s1, s2, s3, S, D, up, o, o.desc, drop);
    BuiltUpward(s1, s2, s3, S, D, up, o);
  }

  lemma BuiltUpward(s1: Snap, s2: Snap, s3: Snap, S: set<XMLObject>, D: set<Element>, up: seq<Element>, o: XMLObject)
    requires Over(s1, S, up) && Over(s2, S, up) && Over(s3, S, up) && o in S && o.desc <= S
    requires Effect(s1, s2, S, D, up, o.desc, o, {}) == true && Upward(s2, s3, S, o.desc) == true
    ensures Upward(s1, s3, S, o.desc) == true
  {
    UpwardAfter(s1, s2, s3, S, o.desc);
  }

  lemma ClearedUpward(s: Snap, s1: Snap, s2: Snap, S: set<XMLObject>, up: seq<Element>, o: XMLObject)
    requires Over(s, S, up) && Over(s1, S, up) && Over(s2, S, up) && o in S && o.desc <= S
    requires Cleared(s, s1, S, up, o.desc) == true && Upward(s1, s2, S, o.desc) == true
    ensures Upward(s, s2, S, o.desc) == true
  {
    UpwardAfter(s, s1, s2, S, o.desc);
  }

  // marshall(parentElement) for an object without a usable cached element.
  method Rebuild(o: XMLObject, target: Element, ghost S: set<XMLObject>, ghost D: set<Element>,
                 ghost X: set<XMLObject>, ghost up: seq<Element>)
    returns (d: Element, ghost D': set<Element>)
    requires Ready(S, D, X, up) == true && up[0] == target && o in S && X !! o.desc && o.desc <= S && Typed(o.desc) == true
    requires o.dom == null && (o.parent == null || o.parent.dom == null || o.parent in X)
    modifies S`dom, S`namespaces, D
    decreases o.desc, 5
    ensures D <= D' && (forall e :: e in D' && e !in D ==> fresh(e)) && Ready(S, D', X, up) == true
    ensures fresh(d) && o.dom == d && d.parent == target && d.doc == target.doc
    ensures Effect(old(Snapshot(S, up)), Snapshot(S, up), S, D, up, o.desc, o, {}) == true
    ensures Scopes(up) == old(Scopes(up))
    ensures Rest(old(Facts(S)), Facts(S), o.desc) == true
    ensures Plainly(old(Facts(S)), o.desc) == true ==> Laid(old(Facts(S)), Facts(S), o, S, D, target, Scopes(up)) == true
  {
    hide Ready, Effect, Snapshot, Over, Started, Filling, Unhung, Hung, XMLObject.SaysHead;
    hide Rest, Facts, Laid, ChildrenLaid, Plainly, Plain, Settled, Clad, Scopes, Typed, Uncaches, Tree;
    PlaceInTree(o, S, D, X, up);
    TypedTop(o);
    PlainFact(o, S);
    ghost var s, f := Snapshot(S, up), Facts(S);
    SnapshotAt(o, S, up);
    ghost var D1;
    d, D1 := PrepareElement(o, target, S, D, X, up);
    ghost var s1, f1, own, scopes := Snapshot(S, up), Facts(S), d.attrs, Scopes(up);
    assert Plainly(f, o.desc) == true ==> Settled(o.namespaces, own, scopes) == true;
    D' := FillElement(o, d, S, D1, X, up);
    EffectBuilt(s, s1, Snapshot(S, up), S, D, D1, up, o, o.desc, d);
    TreeOf(S, D', X, up);
    BuiltLaid(f, f1, Facts(S), o, S, D, D1, up[0], scopes);
  }

  lemma CoversApart(drop: set<XMLObject>, o: XMLObject, S: set<XMLObject>)
    requires Covers(drop, o, S) == true
    ensures drop !! o.desc
  {
  }

  lemma TypedTop(o: XMLObject)
    requires Typed(o.desc) == true && o in o.desc
    ensures o.typ.Some? ==> o.typ.value.local != ""
  {
  }

  lemma PlainFact(o: XMLObject, S: set<XMLObject>)
    requires o in S && o in o.desc
    ensures Facts(S)[o].nss == o.namespaces
    ensures Plainly(Facts(S), o.desc) == true ==> Plain(o) == true
  {
  }

  lemma TreeOf(S: set<XMLObject>, D: set<Element>, X: set<XMLObject>, up: seq<Element>)
    requires Ready(S, D, X, up) == true
    ensures Tree(S) == true
  {
  }

  lemma LaidThenDropped(f1: map<XMLObject, Fact>, f2: map<XMLObject, Fact>, f3: map<XMLObject, Fact>, o: XMLObject,
                        S: set<XMLObject>, D: set<Element>, drop: set<XMLObject>, above: Element?, scopes: seq<Attributes>)
    requires Tree(S) == true && o in S && drop !! o.desc
    requires Rest(f1, f2, o.desc) == true && Rest(f2, f3, drop) == true
    requires Plainly(f1, o.desc) == true ==> Laid(f1, f2, o, S, D, above, scopes) == true
    ensures Rest(f1, f3, o.desc + drop) == true
    ensures Plainly(f1, o.desc) == true ==> Laid(f1, f3, o, S, D, above, scopes) == true
  {
    hide Rest, Declarable, Tree, Laid, Plainly;
    RestTrans(f1, f2, f3, o.desc, drop, o.desc + drop);
    if Plainly(f1, o.desc) {
      RestSelf(f1);
      LaidBetween(f1, f1, f2, f3, o, S, D, D, {}, drop, above, scopes);
    }
  }

  // Dropping what was stale first makes no difference to what becomes of the prefixes.
  lemma AnewLaid(f: map<XMLObject, Fact>, f1: map<XMLObject, Fact>, f2: map<XMLObject, Fact>, o: XMLObject,
                 S: set<XMLObject>, D: set<Element>, drop: set<XMLObject>, above: Element?, scopes: seq<Attributes>)
    requires Tree(S) == true && o in S && f.Keys == S
    requires Rest(f, f1, o.desc) == true && Rest(f1, f2, o.desc + drop) == true
    requires f1 == f || Bare(f1, o.desc) == true
    requires forall x :: x in S ==> x in f1 && f1[x].nss == f[x].nss
    requires Plainly(f1, o.desc) == true ==> Laid(f1, f2, o, S, D, above, scopes) == true
    ensures Rest(f, f2, o.desc + drop) == true
    ensures Plainly(f, o.desc) == true ==> Laid(f, f2, o, S, D, above, scopes) == true
  {
    hide Rest, Declarable;
    o.ChildrenInTree(S);
    RestTrans(f, f1, f2, o.desc, o.desc + drop, o.desc + drop);
    if Plainly(f, o.desc) && f1 != f {
      LaidAnew(f1, f, f2, o, S, D, above, scopes);
    }
  }

  lemma ParentKept(s: Snap, o: XMLObject, S: set<XMLObject>, D: set<Element>, up: seq<Element>)
    requires Over(s, S, up) && o in S && o.desc <= S && Effect(s, Snapshot(S, up), S, D, up, o.desc, o, {}) == true
    requires o.parent != null ==> o.parent in S && o.parent !in o.desc
    ensures o.parent != null ==> o.parent.dom == s.dom[o.parent]
  {
  }

  // marshallContent and setDOM on a prepared element.
  method FillElement(o: XMLObject, d: Element, ghost S: set<XMLObject>, ghost D: set<Element>,
                     ghost X: set<XMLObject>, ghost up: seq<Element>)
    returns (ghost D': set<Element>)
    requires Ready(S, D, X, [d] + up) == true && o in S && X !! o.desc && o.desc <= S && Typed(o.desc) == true
    requires o.dom == null && (o.parent == null || o.parent.dom == null || o.parent in X)
    requires up != [] && d.parent == up[0] && ElementNode(d) in up[0].kids && d !in up && d.doc == up[0].doc && Uncaches(S, d)
    requires d.kids == [] && Unhung(S, d) == true && o.SaysHead(d) == true && Clad(o, d) == true
    modifies S`dom, S`namespaces, D
    decreases o.desc, 4
    ensures D <= D' && (forall e :: e in D' && e !in D ==> fresh(e)) && Ready(S, D', X, up) == true
    ensures o.dom == d && d.parent == up[0]
    ensures Filling(old(Snapshot(S, up)), Snapshot(S, up), S, D, up, o, o.desc, d) == true
    ensures Scopes(up) == old(Scopes(up)) && Rest(old(Facts(S)), Facts(S), o.desc) == true
    ensures o in Facts(S) && Facts(S)[o] == Fact(old(o.namespaces), d, up[0], old(d.attrs), old(d.prefix), o.attributes)
    ensures Plainly(old(Facts(S)), o.desc - {o}) == true ==>
              ChildrenLaid(old(Facts(S)), Facts(S), o, |o.children|, S, D, d, [old(d.attrs)] + Scopes(up)) == true
  {
    hide Ready, Effect, Snapshot, Over, Finished, Unhung, Hung, Typed, XMLObject.Says, XMLObject.SaysHead, XMLObject.Wraps;
    hide Rest, Facts, Laid, ChildrenLaid, Plainly, Filling, Uncaches, Tree, Clad;
    PlaceInTree(o, S, D, X, [d] + up);
    assert ([d] + up)[1..] == up && Scopes([d] + up)[1..] == Scopes(up);
    ghost var s1, f1 := Snapshot(S, up), Facts(S);
    FactAt(o, S);
    if o.parent != null { SnapshotAt(o.parent, S, up); }
    SnapshotUncaches(d, S, up);
    label Filled: D' := MarshallContent(o, d, S, D, X, up);
    ghost var s2, f2 := Snapshot(S, up), Facts(S);
    assert Scopes([d] + up)[1..] == Scopes(up);
    FactAt(o, S);
    OwnFact(f1, f2, o, o.desc - {o});
    StillClad@Filled((o, d));
    StillHung(o, d, S, D', X, up, s1, s2, D);
    FinishElement(o, d, S, D', X, up);
    FactAt(o, S);
    TreeOf(S, D', X, up);
    FilledLaid(f1, f2, Facts(S), o, S, D, d, [d.attrs] + Scopes(up));
    FillingFrom(s1, s2, Snapshot(S, up), S, D, up, o, o.desc, d);
  }

  lemma OwnFact(f1: map<XMLObject, Fact>, f2: map<XMLObject, Fact>, o: XMLObject, moved: set<XMLObject>)
    requires Rest(f1, f2, moved) == true && o in f1 && o !in moved
    ensures o in f2 && f2[o] == f1[o]
  {
    hide Follows, Wears;
  }

  twostate lemma StillClad(w: (XMLObject, Element))
    requires old(Clad(w.0, w.1)) == true && unchanged(w.0`namespaces, w.0`attributes, w.1`prefix, w.1`attrs)
    ensures Clad(w.0, w.1) == true
  {
  }

  lemma FactAt(o: XMLObject, S: set<XMLObject>)
    requires o in S
    ensures Facts(S)[o] == FactOf(o)
  {
  }

  ghost predicate Uncaches(S: set<XMLObject>, e: Element)
    reads S`dom
  {
    forall x :: x in S ==> x.dom != e
  }

  lemma SnapshotUncaches(d: Element, S: set<XMLObject>, up: seq<Element>)
    requires Uncaches(S, d) && up != [] && ElementNode(d) in up[0].kids
    ensures forall x :: x in S ==> Snapshot(S, up).dom[x] != d
    ensures ElementNode(d) in Snapshot(S, up).kids[up[0]]
  {
  }

  // One turn of the loop: a child and the text slot after it.
  method PlaceChild(o: XMLObject, i: nat, d: Element, ghost S: set<XMLObject>, ghost D: set<Element>,
                    ghost X: set<XMLObject>, ghost up: seq<Element>)
    returns (ghost D': set<Element>)
    requires Ready(S, D, X, [d] + up) == true && o in S && X !! o.desc && Typed(o.desc) == true && d !in up
    requires o.dom == null && i < |o.children| && Filled(o, d, S, i) == true && o.children[i].desc <= S
    modifies S`dom, S`namespaces, D
    decreases o.desc, 1
    ensures D <= D' && (forall e :: e in D' && e !in D ==> fresh(e)) && Ready(S, D', X, [d] + up) == true
    ensures o.dom == null && Filled(o, d, S, i + 1) == true && d.attrs == old(d.attrs) && d.prefix == old(d.prefix) && d.parent == old(d.parent)
    ensures Effect(old(Snapshot(S, up)), Snapshot(S, up), S, D, up, o.children[i].desc, null, {}) == true
    ensures Scopes([d] + up) == old(Scopes([d] + up)) && Rest(old(Facts(S)), Facts(S), o.children[i].desc) == true
    ensures Plainly(old(Facts(S)), o.children[i].desc) == true ==>
              Laid(old(Facts(S)), Facts(S), o.children[i], S, D, d, Scopes([d] + up)) == true
  {
    hide Ready, Effect, Snapshot, Over, Typed, Filled, Rest, Facts, Scopes, Plainly, Laid;
    ChildrenReady(o, S, D, X, [d] + up);
    assert ([d] + up)[1..] == up && d in [d] + up && [d] + up != [];
    D' := MarshallChild(o, i, d, S, D, X, up);
    label Placed: assert FilledBut(o, d, S, i);
    AppendText(d, TextAt(o.text, i + 1), S, D', X, [d] + up);
    FilledAgain@Placed((o, d, S, i));
  }

  // The child's turn alone; the text slot after it is still to come.
  method MarshallChild(o: XMLObject, i: nat, d: Element, ghost S: set<XMLObject>, ghost D: set<Element>,
                       ghost X: set<XMLObject>, ghost up: seq<Element>)
    returns (ghost D': set<Element>)
    requires Ready(S, D, X, [d] + up) == true && o in S && X !! o.desc && Typed(o.desc) == true && d !in up
    requires o.dom == null && i < |o.children| && Filled(o, d, S, i) == true && o.children[i].desc <= S
    modifies S`dom, S`namespaces, D
    decreases o.desc, 0
    ensures D <= D' && (forall e :: e in D' && e !in D ==> fresh(e)) && Ready(S, D', X, [d] + up) == true
    ensures o.dom == null && FilledBut(o, d, S, i) == true && d.attrs == old(d.attrs) && d.prefix == old(d.prefix) && d.parent == old(d.parent)
    ensures Effect(old(Snapshot(S, up)), Snapshot(S, up), S, D, up, o.children[i].desc, null, {}) == true
    ensures Scopes([d] + up) == old(Scopes([d] + up)) && Rest(old(Facts(S)), Facts(S), o.children[i].desc) == true
    ensures Plainly(old(Facts(S)), o.children[i].desc) == true ==>
              Laid(old(Facts(S)), Facts(S), o.children[i], S, D, d, Scopes([d] + up)) == true
  {
    hide Ready, Effect, Snapshot, Over, Typed, Spared, Filled, FilledBut, Held, Alone, Covers;
    hide Rest, Facts, Scopes, Plainly, Laid;
    var c := o.children[i];
    ChildReady(o, i, S, D, X, [d] + up);
    SparedBefore(o, d, S, D, X, i, up);
    FilledHeld(o, d, S, D, X, i, up);
    SnapshotAt(o, S, [d] + up);
    SnapTail(S, d, up);
    PlaceAt(d, S, up);
    assert d in [d] + up && [d] + up != [];
    ghost var a, a' := Snapshot(S, [d] + up), Snapshot(S, up);
    var r;
    r, D' := MarshallUnder(c, d, S, D, X, [d] + up, {});
    assert c.desc + {} == c.desc;
    ChildPlaced(o, i, d, S, D, D', X, up, a, r);
    SnapshotAt(c, S, [d] + up);
    SnapTail(S, d, up);
    EffectAbove(a, Snapshot(S, [d] + up), a', Snapshot(S, up), S, D, d, up, c.desc, c);
  }

  lemma ChildrenReady(o: XMLObject, S: set<XMLObject>, D: set<Element>, X: set<XMLObject>, up: seq<Element>)
    requires Ready(S, D, X, up) == true && o in S
    ensures forall k :: 0 <= k < |o.children| ==>
              o.children[k] in S && o.children[k].desc < o.desc && o.children[k].desc <= S
    ensures up != [] && up[0] in D
  {
    o.ChildrenInTree(S);
  }

  // A child of an object without an element can be marshalled with no ancestor to worry about.
  lemma ChildReady(o: XMLObject, i: nat, S: set<XMLObject>, D: set<Element>, X: set<XMLObject>, up: seq<Element>)
    requires Ready(S, D, X, up) == true && o in S && o.dom == null && i < |o.children|
    requires X !! o.desc && Typed(o.desc) == true
    ensures var c := o.children[i];
            && c in S && c in c.desc && c.desc < o.desc && o !in c.desc && c.parent == o && c.desc <= S
            && Covers({}, c, S) == true && Alone(c) == true && Typed(c.desc) == true && X !! c.desc
  {
    o.ChildrenInTree(S);
  }

  lemma PlaceAt(d: Element, S: set<XMLObject>, up: seq<Element>)
    ensures d in Snapshot(S, [d] + up).place && Snapshot(S, [d] + up).place[d] == (d.parent, d.attrs, d.prefix)
  {
    assert d in [d] + up;
  }

  // Filled for n + 1 children, but with the slot after the last child still empty.
  ghost predicate FilledBut(o: XMLObject, d: Element, S: set<XMLObject>, n: nat)
    requires n < |o.children|
    reads o`children, o`text, S`dom, o.children`dom, d`kids, set x | x in S && x.dom != null :: x.dom
  {
    && |Elems(d.kids)| == n + 1 && Texts(d.kids) == Gaps(o.text, n) + [""]
    && (forall i :: 0 <= i <= n ==> o.children[i].dom == Elems(d.kids)[i] && Elems(d.kids)[i].doc == d.doc)
    && (forall x :: x in S && x.dom != null && x.dom.parent == d ==> x in o.children[..n + 1])
  }

  // Nothing of the next child's subtree hangs under d yet.
  lemma SparedBefore(o: XMLObject, d: Element, S: set<XMLObject>, D: set<Element>, X: set<XMLObject>,
                     i: nat, up: seq<Element>)
    requires Ready(S, D, X, [d] + up) == true && o in S && i < |o.children| && Filled(o, d, S, i) == true
    ensures o.children[i].desc <= S && Spared(Snapshot(S, [d] + up), o.children[i].desc, d) == true
  {
    o.ChildrenInTree(S);
    assert forall j :: 0 <= j < i ==> o.children[j] !in o.children[i].desc;
  }

  // What d held before the child's turn, in terms of a snapshot.
  ghost predicate Held(a: Snap, o: XMLObject, d: Element, S: set<XMLObject>, i: nat)
    requires a.dom.Keys == S && a.hang.Keys == S && d in a.kids && i < |o.children|
    reads o`children, o`text
  {
    && |Elems(a.kids[d])| == i && Texts(a.kids[d]) == Gaps(o.text, i)
    && (forall j :: 0 <= j < i ==> o.children[j] in S && a.dom[o.children[j]] == Elems(a.kids[d])[j] && Elems(a.kids[d])[j].doc == d.doc)
    && (forall x :: x in S && a.dom[x] != null && a.hang[x] == d ==> x in o.children[..i])
  }

  lemma FilledHeld(o: XMLObject, d: Element, S: set<XMLObject>, D: set<Element>, X: set<XMLObject>,
                   i: nat, up: seq<Element>)
    requires i < |o.children| && Filled(o, d, S, i) == true && Ready(S, D, X, [d] + up) == true && o in S
    ensures d in Snapshot(S, [d] + up).kids && Held(Snapshot(S, [d] + up), o, d, S, i) == true
  {
    assert d in [d] + up;
    o.ChildrenInTree(S);
  }

  // The child's element is the one newcomer under d.
  lemma ChildHung(d: Element, S: set<XMLObject>, D: set<Element>, up: seq<Element>,
                  a: Snap, b: Snap, c: XMLObject, r: Element)
    requires Over(a, S, [d] + up) && Over(b, S, [d] + up) && c in S && c.desc <= S && d in a.kids && d in b.kids
    requires Effect(a, b, S, D, [d] + up, c.desc, c, {}) == true && Spared(a, c.desc, d) == true
    requires b.dom[c] == r && b.hang[c] == d
    ensures b.kids[d] == a.kids[d] + [ElementNode(r)] && b.place[d] == a.place[d]
    ensures Elems(b.kids[d]) == Elems(a.kids[d]) + [r] && Texts(b.kids[d]) == Texts(a.kids[d]) + [""]
    ensures forall x :: x in S && x !in c.desc ==> b.dom[x] == a.dom[x]
    ensures forall x :: x in S && x != c && b.dom[x] != null && b.hang[x] == d ==> b.dom[x] == a.dom[x] && a.hang[x] == d
  {
    assert d in [d] + up;
    assert Newcomer(b, c, d) == [ElementNode(r)];
    AppendElement(a.kids[d], r);
  }

  // What d holds after the child's turn, in terms of a snapshot.
  ghost predicate HeldBut(b: Snap, o: XMLObject, d: Element, S: set<XMLObject>, i: nat)
    requires b.dom.Keys == S && b.hang.Keys == S && d in b.kids && i < |o.children|
    reads o`children, o`text
  {
    && |Elems(b.kids[d])| == i + 1 && Texts(b.kids[d]) == Gaps(o.text, i) + [""]
    && (forall j :: 0 <= j <= i ==> o.children[j] in S && b.dom[o.children[j]] == Elems(b.kids[d])[j] && Elems(b.kids[d])[j].doc == d.doc)
    && (forall x :: x in S && b.dom[x] != null && b.hang[x] == d ==> x in o.children[..i + 1])
  }

  lemma HeldStep(o: XMLObject, i: nat, d: Element, S: set<XMLObject>, D: set<Element>, up: seq<Element>,
                 a: Snap, b: Snap, r: Element)
    requires Over(a, S, [d] + up) && Over(b, S, [d] + up) && i < |o.children| && o.children[i].desc <= S
    requires d in a.kids && d in b.kids && Held(a, o, d, S, i) == true && o.children[i] in S
    requires forall j :: 0 <= j < i ==> o.children[j] !in o.children[i].desc
    requires Effect(a, b, S, D, [d] + up, o.children[i].desc, o.children[i], {}) == true
    requires Spared(a, o.children[i].desc, d) == true && b.dom[o.children[i]] == r && b.hang[o.children[i]] == d && r.doc == d.doc
    ensures HeldBut(b, o, d, S, i) == true
  {
    ghost var c := o.children[i];
    assert Held(a, o, d, S, i);
    hide Effect, Spared, Held, Over;
    ChildHung(d, S, D, up, a, b, c, r);
    assert o.children[..i + 1] == o.children[..i] + [c];
  }

  lemma SnapshotFilled(o: XMLObject, d: Element, S: set<XMLObject>, up: seq<Element>, i: nat)
    requires i < |o.children| && d in Snapshot(S, [d] + up).kids
    requires HeldBut(Snapshot(S, [d] + up), o, d, S, i) == true
    ensures FilledBut(o, d, S, i) == true
  {
    assert d in [d] + up;
  }

  lemma ChildPlaced(o: XMLObject, i: nat, d: Element, S: set<XMLObject>, D: set<Element>, D': set<Element>,
                    X: set<XMLObject>, up: seq<Element>, a: Snap, r: Element)
    requires Ready(S, D', X, [d] + up) == true && o in S && i < |o.children| && o.children[i].desc <= S
    requires Over(a, S, [d] + up) && a.dom[o] == null && d in a.kids && Held(a, o, d, S, i) == true
    requires Effect(a, Snapshot(S, [d] + up), S, D, [d] + up, o.children[i].desc, o.children[i], {}) == true
    requires Spared(a, o.children[i].desc, d) == true && o.children[i].dom == r && r.parent == d && r.doc == d.doc
    ensures o.dom == null && FilledBut(o, d, S, i) == true
    ensures d in a.place && (d.parent, d.attrs, d.prefix) == a.place[d]
  {
    o.ChildrenInTree(S);
    assert d in [d] + up;
    var b, c := Snapshot(S, [d] + up), o.children[i];
    SnapshotAt(c, S, [d] + up);
    SnapshotAt(o, S, [d] + up);
    PlaceAt(d, S, up);
    assert c.desc <= S && c in S && o !in c.desc && forall j :: 0 <= j < i ==> o.children[j] !in c.desc;
    hide Tree, Effect, Spared, Snapshot, Held, FilledBut, HeldBut;
    ChildHung(d, S, D, up, a, b, c, r);
    HeldStep(o, i, d, S, D, up, a, b, r);
    SnapshotFilled(o, d, S, up, i);
  }

  // The slot after the last child completes the next stage.
  twostate lemma FilledAgain(w: (XMLObject, Element, set<XMLObject>, nat))
    requires w.3 < |w.0.children| && w.0.children == old(w.0.children) && w.0.text == old(w.0.text)
    requires old(FilledBut(w.0, w.1, w.2, w.3)) == true
    requires Elems(w.1.kids) == old(Elems(w.1.kids))
    requires Texts(w.1.kids) == old(Texts(w.1.kids))[w.3 + 1 := old(Texts(w.1.kids))[w.3 + 1] + TextAt(w.0.text, w.3 + 1)]
    requires forall x :: x in w.2 ==> x.dom == old(x.dom) && (x.dom != null ==> x.dom.parent == old(x.dom.parent))
    requires forall j :: 0 <= j < |w.0.children| ==> w.0.children[j] in w.2
    ensures Filled(w.0, w.1, w.2, w.3 + 1) == true
  {
    var (o, d, S, i) := w;
    assert old(FilledBut(o, d, S, i));
    assert "" + TextAt(o.text, i + 1) == TextAt(o.text, i + 1);
    assert Texts(d.kids) == Gaps(o.text, i + 1);
  }

  // The text before the first child.
  method BeginContent(o: XMLObject, d: Element, ghost S: set<XMLObject>, ghost D: set<Element>,
                      ghost X: set<XMLObject>, ghost up: seq<Element>)
    requires Ready(S, D, X, [d] + up) == true && d !in up && d.kids == [] && Unhung(S, d)
    modifies d`kids
    ensures Ready(S, D, X, [d] + up) == true && Filled(o, d, S, 0) == true
    ensures Effect(old(Snapshot(S, up)), Snapshot(S, up), S, D, up, {}, null, {}) == true
  {
    AppendText(d, TextAt(o.text, 0), S, D, X, [d] + up);
    assert Texts(d.kids) == Gaps(o.text, 0) by { assert "" + TextAt(o.text, 0) == TextAt(o.text, 0); }
  }

  // marshallContent: the children in order with the text slots between them.
  method MarshallContent(o: XMLObject, d: Element, ghost S: set<XMLObject>, ghost D: set<Element>,
                         ghost X: set<XMLObject>, ghost up: seq<Element>)
    returns (ghost D': set<Element>)
    requires Ready(S, D, X, [d] + up) == true && o in S && X !! o.desc && Typed(o.desc) == true
    requires o.dom == null && d.kids == [] && Unhung(S, d) == true && d !in up && o.SaysHead(d) == true
    modifies S`dom, S`namespaces, D
    decreases o.desc, 3
    ensures D <= D' && (forall e :: e in D' && e !in D ==> fresh(e)) && Ready(S, D', X, [d] + up) == true
    ensures o.Says(d) == true && o.Wraps(d) == true
    ensures o.dom == null && d.attrs == old(d.attrs) && d.prefix == old(d.prefix) && d.parent == old(d.parent)
    ensures Scopes([d] + up) == old(Scopes([d] + up)) && Rest(old(Facts(S)), Facts(S), o.desc - {o}) == true
    ensures Plainly(old(Facts(S)), o.desc - {o}) == true ==>
              ChildrenLaid(old(Facts(S)), Facts(S), o, |o.children|, S, D, d, Scopes([d] + up)) == true
    ensures o.desc - {o} <= S && Effect(old(Snapshot(S, up)), Snapshot(S, up), S, D, up, o.desc - {o}, null, {}) == true
  {
    hide Ready, Effect, Filled, Snapshot, Over, Typed, Unhung, XMLObject.Says, XMLObject.SaysHead, XMLObject.Wraps;
    hide Facts, Rest, Scopes, Plainly, Laid, ChildrenLaid, Progress, Before;
    ghost var a, f, scopes := Snapshot(S, up), Facts(S), Scopes([d] + up);
    PlaceInTree(o, S, D, X, [d] + up);
    D' := D;
    BeginContent(o, d, S, D, X, up);
    ProgressStart(o, d, S, D, X, up, a, Snapshot(S, up), f, scopes);
    var i := 0;
    while i < |o.children|
      invariant 0 <= i <= |o.children|
      invariant D <= D' && (forall e :: e in D' && e !in D ==> fresh(e)) && Ready(S, D', X, [d] + up) == true
      invariant o.dom == null && Filled(o, d, S, i) == true && d.attrs == old(d.attrs) && d.prefix == old(d.prefix) && d.parent == old(d.parent)
      invariant Scopes([d] + up) == scopes
      invariant Progress(o, i, d, S, D, up, a, Snapshot(S, up), f, Facts(S), scopes) == true
    {
      D' := OneMore(o, i, d, S, D, D', X, up, a, f);
      i := i + 1;
    }
    ProgressEnd(o, d, S, D, D', X, up, a, Snapshot(S, up), f, Facts(S), scopes);
    FilledWraps(o, d, S);
  }

  // One turn of the loop, added to what was done before it.
  method OneMore(o: XMLObject, i: nat, d: Element, ghost S: set<XMLObject>, ghost D: set<Element>, ghost D1: set<Element>,
                 ghost X: set<XMLObject>, ghost up: seq<Element>, ghost a: Snap, ghost f: map<XMLObject, Fact>)
    returns (ghost D': set<Element>)
    requires Ready(S, D1, X, [d] + up) == true && o in S && X !! o.desc && Typed(o.desc) == true && d !in up && D <= D1
    requires o.dom == null && i < |o.children| && Filled(o, d, S, i) == true
    requires Progress(o, i, d, S, D, up, a, Snapshot(S, up), f, Facts(S), Scopes([d] + up)) == true
    modifies S`dom, S`namespaces, D1
    decreases o.desc, 2
    ensures D1 <= D' && (forall e :: e in D' && e !in D1 ==> fresh(e)) && Ready(S, D', X, [d] + up) == true
    ensures o.dom == null && Filled(o, d, S, i + 1) == true && d.attrs == old(d.attrs) && d.prefix == old(d.prefix) && d.parent == old(d.parent)
    ensures Scopes([d] + up) == old(Scopes([d] + up))
    ensures Progress(o, i + 1, d, S, D, up, a, Snapshot(S, up), f, Facts(S), Scopes([d] + up)) == true
  {
    hide Ready, Effect, Filled, Snapshot, Over, Typed;
    hide Facts, Rest, Scopes, Plainly, Laid, ChildrenLaid, Progress, Before;
    ChildrenReady(o, S, D1, X, [d] + up);
    ghost var b, g := Snapshot(S, up), Facts(S);
    D' := PlaceChild(o, i, d, S, D1, X, up);
    ProgressStep(o, i, d, S, D, D1, D', X, up, a, b, Snapshot(S, up), f, g, Facts(S), Scopes([d] + up));
  }

  // What marshalling the first n children did.
  ghost predicate Progress(o: XMLObject, n: nat, d: Element, S: set<XMLObject>, D: set<Element>, up: seq<Element>,
                           a: Snap, b: Snap, f: map<XMLObject, Fact>, g: map<XMLObject, Fact>, scopes: seq<Attributes>)
    reads o`children, o.children`desc, o.desc`attributes, o`desc, S`desc, S`children
  {
    && n <= |o.children| && Over(a, S, up) && Over(b, S, up) && f.Keys == S && Before(o, n) <= S
    && Effect(a, b, S, D, up, Before(o, n), null, {}) && Rest(f, g, Before(o, n))
    && (Plainly(f, o.desc - {o}) ==> ChildrenLaid(f, g, o, n, S, D, d, scopes))
  }

  lemma ProgressStart(o: XMLObject, d: Element, S: set<XMLObject>, D: set<Element>, X: set<XMLObject>, up: seq<Element>,
                      a: Snap, b: Snap, f: map<XMLObject, Fact>, scopes: seq<Attributes>)
    requires Ready(S, D, X, [d] + up) == true && o in S && Over(a, S, up) && Over(b, S, up) && f.Keys == S
    requires Effect(a, b, S, D, up, {}, null, {}) == true
    ensures Progress(o, 0, d, S, D, up, a, b, f, f, scopes) == true
  {
    hide Effect, Over, Plainly, Laid, Ready, Rest, Tree;
    TreeOf(S, D, X, [d] + up);
    RestSelf(f);
    BeforeStep(o, S, 0);
  }

  lemma ProgressStep(o: XMLObject, i: nat, d: Element, S: set<XMLObject>, D: set<Element>, D1: set<Element>, D2: set<Element>,
                     X: set<XMLObject>, up: seq<Element>, a: Snap, b: Snap, c: Snap,
                     f: map<XMLObject, Fact>, g: map<XMLObject, Fact>, h: map<XMLObject, Fact>, scopes: seq<Attributes>)
    requires Ready(S, D2, X, [d] + up) == true && o in S && i < |o.children| && D <= D1 && Over(c, S, up)
    requires Progress(o, i, d, S, D, up, a, b, f, g, scopes) == true
    requires o.children[i].desc <= S && Over(b, S, up) && Effect(b, c, S, D1, up, o.children[i].desc, null, {}) == true
    requires Rest(g, h, o.children[i].desc) == true
    requires Plainly(g, o.children[i].desc) == true ==> Laid(g, h, o.children[i], S, D1, d, scopes) == true
    ensures Progress(o, i + 1, d, S, D, up, a, c, f, h, scopes) == true
  {
    hide Ready, Tree, Effect, Over, Rest, Plainly, Laid, ChildrenLaid, Before;
    TreeOf(S, D2, X, [d] + up);
    BeforeStep(o, S, i);
    BeforeStep(o, S, i + 1);
    ChildLaid(f, g, h, o, i, S, D, D1, d, scopes);
    EffectTrans(a, b, c, S, D, D1, up, Before(o, i), o.children[i].desc);
  }

  lemma ProgressEnd(o: XMLObject, d: Element, S: set<XMLObject>, D: set<Element>, D2: set<Element>, X: set<XMLObject>,
                    up: seq<Element>, a: Snap, b: Snap, f: map<XMLObject, Fact>, g: map<XMLObject, Fact>, scopes: seq<Attributes>)
    requires Ready(S, D2, X, [d] + up) == true && o in S
    requires Progress(o, |o.children|, d, S, D, up, a, b, f, g, scopes) == true
    ensures Over(a, S, up) && Over(b, S, up) && o.desc - {o} <= S
    ensures Effect(a, b, S, D, up, o.desc - {o}, null, {}) == true && Rest(f, g, o.desc - {o}) == true
    ensures Plainly(f, o.desc - {o}) == true ==> ChildrenLaid(f, g, o, |o.children|, S, D, d, scopes) == true
  {
    hide Ready, Tree, Effect, Over, Rest, Plainly, Laid, ChildrenLaid;
    TreeOf(S, D2, X, [d] + up);
    BeforeStep(o, S, |o.children|);
    RestWider(f, g, Before(o, |o.children|), o.desc - {o});
    EffectWider(a, b, S, D, up, Before(o, |o.children|), o.desc - {o});
  }

  // The element appended before the content is still there after it.
  lemma StillHung(o: XMLObject, d: Element, S: set<XMLObject>, D': set<Element>, X: set<XMLObject>, up: seq<Element>,
                  s1: Snap, s2: Snap, D: set<Element>)
    requires Over(s1, S, up) && o.desc - {o} <= S && Ready(S, D', X, [d] + up) == true && s2 == Snapshot(S, up)
    requires Effect(s1, s2, S, D, up, o.desc - {o}, null, {}) == true && d in D && d !in up
    requires up != [] && d.doc == up[0].doc && d.parent == up[0] && ElementNode(d) in s1.kids[up[0]] && forall x :: x in S ==> s1.dom[x] != d
    ensures Hung(d, D') && Uncaches(S, d)
    ensures o in S ==> s2.dom[o] == o.dom && (o.dom == null ==> s2.hang[o] == null)
    ensures o.parent != null && o.parent in S && o.parent !in o.desc ==> o.parent.dom == s1.dom[o.parent]
  {
    assert up[0] in [d] + up && d in [d] + up;
  }

  lemma PlaceInTree(o: XMLObject, S: set<XMLObject>, D: set<Element>, X: set<XMLObject>, up: seq<Element>)
    requires Ready(S, D, X, up) == true && o in S
    ensures o in o.desc && o.desc <= S
    ensures o.parent != null ==> o.parent in S && o.parent !in o.desc
    ensures up != [] && up[0] in up && up[0] in D
  {
    assert o.TreeAt(S);
    if o.parent != null { assert o.parent.TreeAt(S); }
  }

  // The element holds the first n children and the text up to the slot after them, and nothing
  // else cached hangs under it.
  ghost predicate Filled(o: XMLObject, d: Element, S: set<XMLObject>, n: nat)
    reads o`children, o`text, S`dom, o.children`dom, d`kids, set x | x in S && x.dom != null :: x.dom
  {
    && n <= |o.children| && |Elems(d.kids)| == n && Texts(d.kids) == Gaps(o.text, n)
    && (forall i :: 0 <= i < n ==> o.children[i].dom == Elems(d.kids)[i] && Elems(d.kids)[i].doc == d.doc)
    && (forall x :: x in S && x.dom != null && x.dom.parent == d ==> x in o.children[..n])
  }

  lemma FilledWraps(o: XMLObject, d: Element, S: set<XMLObject>)
    requires Filled(o, d, S, |o.children|) == true && o.SaysHead(d) == true
    ensures o.Says(d) == true && o.Wraps(d) == true
  {
  }

  // createTextNode and appendChild, left out for an empty slot.
  method AppendText(d: Element, value: string, ghost S: set<XMLObject>, ghost D: set<Element>,
                    ghost X: set<XMLObject>, ghost chain: seq<Element>)
    requires Ready(S, D, X, chain) == true && d in chain
    modifies d`kids
    ensures Ready(S, D, X, chain) == true
    ensures Elems(d.kids) == Elems(old(d.kids))
    ensures Texts(d.kids) == Texts(old(d.kids))[|Elems(d.kids)| := Texts(old(d.kids))[|Elems(d.kids)|] + value]
    ensures d == chain[0] && d !in chain[1..] ==> Snapshot(S, chain[1..]) == old(Snapshot(S, chain[1..]))
  {
    hide Ready, Snapshot;
    ghost var k := |Elems(d.kids)|;
    ReadyParts(S, D, X, chain);
    assert value == "" ==> Texts(d.kids)[k] + value == Texts(d.kids)[k];
    if value != "" {
      d.kids := d.kids + [TextNode(value)];
      MixedContent.AppendText(old(d.kids), value);
      ReadyTexted((d, S, D, X, chain));
      if d == chain[0] && d !in chain[1..] { SnapSteady((S, chain[1..])); }
    }
  }

  // Text can go on an element no object caches.
  twostate lemma ReadyTexted(w: (Element, set<XMLObject>, set<Element>, set<XMLObject>, seq<Element>))
    requires old(Ready(w.1, w.2, w.3, w.4)) == true && w.0 in w.4
    requires unchanged(w.1`dom, w.1`children, w.1`text, w.1`nil, w.1`attributes, w.1`desc, w.1`parent)
    requires forall e :: e in w.2 ==> e.attrs == old(e.attrs) && e.prefix == old(e.prefix) && e.parent == old(e.parent)
    requires forall e :: e in w.2 && e != w.0 ==> e.kids == old(e.kids)
    requires forall n :: n in old(w.0.kids) ==> n in w.0.kids
    ensures Ready(w.1, w.2, w.3, w.4) == true
  {
    var (d, S, D, X, up) := w;
    assert IsChain(up[0], up) by { ChainSteady((up[0], up)); }
    forall x | x in S ensures (x !in X ==> x.Coherent(D)) && (x.dom != null ==> Hung(x.dom, D)) {
      assert x !in X ==> old(x.Coherent(D));
      assert x.dom != null ==> old(Hung(x.dom, D));
    }
  }
}

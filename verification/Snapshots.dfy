// What marshalling needs of the cache as a whole, and what it does to it, as relations between values.
// A predicate stated as `P(...) == true` in a contract stays folded for the callers.
module Snapshots {
  import opened Names
  import opened MixedContent
  import opened Dom
  import opened XmlTree
  import opened Declarations

  // ---------------------------------------------------------------- the cache as a whole

  // The cached element hangs where its parent pointer says it does.
  ghost predicate Hung(e: Element, D: set<Element>)
    reads e`parent, D`kids
  {
    e in D && (e.parent != null ==> e.parent in D && ElementNode(e) in e.parent.kids && e.parent.doc == e.doc)
  }

  // The whole cache of a forest: in step outside X, no element cached twice, every element in its place.
  ghost predicate Cache(S: set<XMLObject>, D: set<Element>, X: set<XMLObject>)
    reads S`dom, S`children, S`text, S`nil, S`attributes, D`attrs, D`kids, D`parent
  {
    && AllCoherent(S, D, X)
    && (forall o, p :: o in S && p in S && o.dom != null && o.dom == p.dom ==> o == p)
    && (forall o :: o in S && o.dom != null ==> o.dom in D && Hung(o.dom, D))
  }

  // An operation that only drops objects or cached elements, and keeps the rest in step, keeps the cache.
  twostate lemma CacheShrinks(w: (set<XMLObject>, set<XMLObject>, set<Element>))
    requires old(Cache(w.0, w.2, {})) == true && w.1 <= w.0 && AllCoherent(w.1, w.2, {}) == true
    requires forall o :: o in w.1 ==> o.dom == old(o.dom) || o.dom == null
    requires forall e :: e in w.2 ==> e.kids == old(e.kids) && e.parent == old(e.parent)
    ensures Cache(w.1, w.2, {}) == true
  {
    var (F, S, D) := w;
    forall o | o in S && o.dom != null ensures o.dom in D && Hung(o.dom, D) {
      assert old(Hung(o.dom, D));
    }
  }

  // Nothing in S caches an element of the chain, but for objects of X.
  ghost predicate Free(S: set<XMLObject>, X: set<XMLObject>, up: seq<Element>)
    reads S`dom
  {
    forall o :: o in S && o !in X && o.dom != null ==> o.dom !in up
  }

  // No cached element of T hangs under e.
  ghost predicate Unhung(T: set<XMLObject>, e: Element)
    reads T`dom, set x | x in T && x.dom != null :: x.dom
  {
    forall x :: x in T && x.dom != null ==> x.dom.parent != e
  }

  ghost predicate Typed(T: set<XMLObject>) {
    forall x :: x in T && x.typ.Some? ==> x.typ.value.local != ""
  }

  // What marshalling under `up[0]` needs of the whole forest.
  ghost predicate Ready(S: set<XMLObject>, D: set<Element>, X: set<XMLObject>, up: seq<Element>)
    reads S`dom, S`children, S`text, S`nil, S`attributes, S`desc, S`parent, D`attrs, D`kids, D`parent
    reads up`parent
  {
    && Tree(S) && Cache(S, D, X) && Free(S, X, up)
    && up != [] && IsChain(up[0], up) && forall e :: e in up ==> e in D
  }

  // ---------------------------------------------------------------- what marshalling leaves alone

  // The cache at one moment, as plain values: each object's element, the element it hangs under, and
  // the elements of a chain.
  datatype Snap = Snap(dom: map<XMLObject, Element?>, hang: map<XMLObject, Element?>,
                       kids: map<Element, seq<Node<Element>>>, place: map<Element, (Element?, Attributes, string)>)

  ghost function Snapshot(S: set<XMLObject>, up: seq<Element>): (r: Snap)
    reads S`dom, set x | x in S && x.dom != null :: x.dom, up
    ensures Over(r, S, up)
  {
    Snap(map x | x in S :: x.dom,
         map x | x in S :: if x.dom == null then null else x.dom.parent,
         map e | e in up :: e.kids,
         map e | e in up :: (e.parent, e.attrs, e.prefix))
  }

  ghost predicate Over(a: Snap, S: set<XMLObject>, up: seq<Element>) {
    a.dom.Keys == S && a.hang.Keys == S && forall e :: e in up ==> e in a.kids && e in a.place
  }

  // Nothing of `moved` hung under e.
  ghost predicate Spared(a: Snap, moved: set<XMLObject>, e: Element)
    requires moved <= a.dom.Keys && moved <= a.hang.Keys
  {
    forall x :: x in moved && a.dom[x] != null ==> a.hang[x] != e
  }

  // The node `top` has under e at last, if it hangs there.
  ghost function Newcomer(b: Snap, top: XMLObject?, e: Element): seq<Node<Element>>
    requires top != null ==> top in b.dom && top in b.hang
  {
    if top != null && b.dom[top] != null && b.hang[top] == e then
      var r: Element := b.dom[top];
      [ElementNode(r)]
    else []
  }

  // Between two moments the objects of `moved` were marshalled, of which only `top` came to hang under
  // the chain, and some of `drop` lost their elements.
  ghost predicate Effect(a: Snap, b: Snap, S: set<XMLObject>, D: set<Element>, up: seq<Element>,
                         moved: set<XMLObject>, top: XMLObject?, drop: set<XMLObject>)
    requires Over(a, S, up) && Over(b, S, up) && moved <= S && (top != null ==> top in S)
  {
    && (forall e :: e in up ==> b.place[e] == a.place[e])
    && (forall x :: x in S ==> b.dom[x] == null || b.dom[x] == a.dom[x] || b.dom[x] !in D)
    && (forall x :: x in S && x != top && b.dom[x] != null && b.hang[x] in up ==> b.dom[x] == a.dom[x] && b.hang[x] == a.hang[x])
    && (forall x :: x in S && x !in moved ==>
          && (b.dom[x] == a.dom[x] || (b.dom[x] == null && x in drop))
          && (b.dom[x] != null ==> b.hang[x] == a.hang[x]))
    && (forall e :: e in up && Spared(a, moved, e) ==> b.kids[e] == a.kids[e] + Newcomer(b, top, e))
    && (forall e, n :: e in up && n in a.kids[e] && n.ElementNode? && n.elem in D && (forall x :: x in S ==> a.dom[x] != n.elem)
                       ==> n in b.kids[e])
  }

  lemma EffectTrans(a: Snap, b: Snap, c: Snap, S: set<XMLObject>, D: set<Element>, D': set<Element>,
                    up: seq<Element>, done: set<XMLObject>, more: set<XMLObject>)
    requires Over(a, S, up) && Over(b, S, up) && Over(c, S, up) && done <= S && more <= S && done !! more
    requires D <= D' && Effect(a, b, S, D, up, done, null, {}) == true && Effect(b, c, S, D', up, more, null, {}) == true
    ensures Effect(a, c, S, D, up, done + more, null, {}) == true
  {
    forall e | e in up && Spared(a, done + more, e) ensures c.kids[e] == a.kids[e] {
      assert Spared(a, done, e) && Spared(b, more, e);
    }
  }

  lemma EffectWider(a: Snap, b: Snap, S: set<XMLObject>, D: set<Element>, up: seq<Element>,
                    done: set<XMLObject>, more: set<XMLObject>)
    requires Over(a, S, up) && Over(b, S, up) && done <= more <= S && Effect(a, b, S, D, up, done, null, {}) == true
    ensures Effect(a, b, S, D, up, more, null, {}) == true
  {
    forall e | e in up && Spared(a, more, e) ensures b.kids[e] == a.kids[e] {
      assert Spared(a, done, e);
    }
  }

  // a' is a, restricted to a shorter chain.
  ghost predicate Tail(a: Snap, a': Snap, up: seq<Element>) {
    && a'.dom == a.dom && a'.hang == a.hang
    && (forall e :: e in up ==> e in a.kids && e in a'.kids && a'.kids[e] == a.kids[e])
    && (forall e :: e in up ==> e in a.place && e in a'.place && a'.place[e] == a.place[e])
  }

  lemma SnapTail(S: set<XMLObject>, d: Element, up: seq<Element>)
    ensures Tail(Snapshot(S, [d] + up), Snapshot(S, up), up) == true
  {
    assert forall e :: e in up ==> e in [d] + up;
  }

  // Seen from further up, a child that went under d changed nothing on the chain.
  lemma EffectAbove(a: Snap, b: Snap, a': Snap, b': Snap, S: set<XMLObject>, D: set<Element>, d: Element,
                    up: seq<Element>, moved: set<XMLObject>, top: XMLObject)
    requires Over(a, S, [d] + up) && Over(b, S, [d] + up) && Over(a', S, up) && Over(b', S, up)
    requires moved <= S && top in moved && d !in up && b.hang[top] == d
    requires Tail(a, a', up) == true && Tail(b, b', up) == true
    requires Effect(a, b, S, D, [d] + up, moved, top, {}) == true
    ensures Effect(a', b', S, D, up, moved, null, {}) == true
  {
    assert forall e :: e in up ==> e in [d] + up;
    SparedAbove(a, b, a', b', S, D, d, up, moved, top);
    hide Spared, Newcomer;
  }

  lemma SparedAbove(a: Snap, b: Snap, a': Snap, b': Snap, S: set<XMLObject>, D: set<Element>, d: Element,
                    up: seq<Element>, moved: set<XMLObject>, top: XMLObject)
    requires Over(a, S, [d] + up) && Over(b, S, [d] + up) && Over(a', S, up) && Over(b', S, up)
    requires moved <= S && top in moved && d !in up && b.hang[top] == d
    requires Tail(a, a', up) == true && Tail(b, b', up) == true
    requires Effect(a, b, S, D, [d] + up, moved, top, {}) == true
    ensures forall e :: e in up && Spared(a', moved, e) ==> b'.kids[e] == a'.kids[e] + Newcomer(b', null, e)
  {
    forall e | e in up && Spared(a', moved, e) ensures b'.kids[e] == a'.kids[e] {
      assert e in [d] + up && Spared(a, moved, e);
    }
  }

  // A fresh element d was appended to the first of the chain.
  ghost predicate Started(s: Snap, s1: Snap, S: set<XMLObject>, up: seq<Element>, d: Element)
    requires Over(s, S, up) && Over(s1, S, up) && up != []
  {
    && s1.dom == s.dom && s1.hang == s.hang && s1.place == s.place
    && forall e :: e in up ==> s1.kids[e] == s.kids[e] + if e == up[0] then [ElementNode(d)] else []
  }

  // o came to cache d, which hangs under the first of the chain.
  ghost predicate Finished(s: Snap, s1: Snap, up: seq<Element>, o: XMLObject, d: Element)
    requires up != []
  {
    s1 == s.(dom := s.dom[o := d], hang := s.hang[o := up[0]])
  }

  // Objects of `below` lost their elements, all or none.
  ghost predicate Cleared(s: Snap, s1: Snap, S: set<XMLObject>, up: seq<Element>, below: set<XMLObject>)
    requires Over(s, S, up) && Over(s1, S, up) && below <= S
  {
    && (s1 == s || forall x :: x in below ==> s1.dom[x] == null)
    && (forall x :: x in S && x !in below ==> s1.dom[x] == s.dom[x])
    && (forall x :: x in S ==> s1.dom[x] == null || (s1.dom[x] == s.dom[x] && s1.hang[x] == s.hang[x]))
    && s1.kids == s.kids && s1.place == s.place
  }

  // d was filled with what is below o, and o came to cache it.
  ghost predicate Filling(s1: Snap, s3: Snap, S: set<XMLObject>, D: set<Element>, up: seq<Element>,
                          o: XMLObject, below: set<XMLObject>, d: Element)
    requires Over(s1, S, up) && Over(s3, S, up) && up != [] && below <= S && o in S
  {
    && s3.dom[o] == d && s3.hang[o] == up[0]
    && Effect(s1, s3.(dom := s3.dom[o := null], hang := s3.hang[o := null]), S, D, up, below - {o}, null, {})
  }

  lemma FillingFrom(s1: Snap, s2: Snap, s3: Snap, S: set<XMLObject>, D: set<Element>, up: seq<Element>,
                    o: XMLObject, below: set<XMLObject>, d: Element)
    requires Over(s1, S, up) && Over(s2, S, up) && Over(s3, S, up) && up != [] && below <= S && o in S
    requires s2.dom[o] == null && s2.hang[o] == null
    requires Effect(s1, s2, S, D, up, below - {o}, null, {}) == true && Finished(s2, s3, up, o, d) == true
    ensures Filling(s1, s3, S, D, up, o, below, d) == true
  {
    assert s3.dom[o := null] == s2.dom && s3.hang[o := null] == s2.hang;
  }

  // Hanging d under the target, filling it and caching it, put together.
  lemma EffectBuilt(s: Snap, s1: Snap, s3: Snap, S: set<XMLObject>, D: set<Element>, D1: set<Element>, up: seq<Element>,
                    o: XMLObject, below: set<XMLObject>, d: Element)
    requires Over(s, S, up) && Over(s1, S, up) && Over(s3, S, up) && up != []
    requires below <= S && o in below && D <= D1 && d !in D && s.dom[o] == null
    requires Started(s, s1, S, up, d) == true && Filling(s1, s3, S, D1, up, o, below, d) == true
    ensures Effect(s, s3, S, D, up, below, o, {}) == true
  {
    forall e | e in up && Spared(s, below, e) ensures s3.kids[e] == s.kids[e] + Newcomer(s3, o, e) {
      assert Spared(s1, below - {o}, e);
    }
  }

  // What is out of step afterwards is dropped.
  lemma EffectDropped(s1: Snap, s2: Snap, s3: Snap, S: set<XMLObject>, D: set<Element>, up: seq<Element>,
                      o: XMLObject, below: set<XMLObject>, drop: set<XMLObject>)
    requires Over(s1, S, up) && Over(s2, S, up) && Over(s3, S, up)
    requires below <= S && o in below && drop !! below
    requires Effect(s1, s2, S, D, up, below, o, {}) == true && Dropped(s2, s3, S, up, drop) == true
    ensures Effect(s1, s3, S, D, up, below, o, drop) == true
  {
  }

  // What was stale was dropped before.
  lemma EffectAnew(s: Snap, s1: Snap, s2: Snap, S: set<XMLObject>, D: set<Element>, up: seq<Element>,
                   o: XMLObject, below: set<XMLObject>, drop: set<XMLObject>)
    requires Over(s, S, up) && Over(s1, S, up) && Over(s2, S, up) && below <= S && o in below
    requires Cleared(s, s1, S, up, below) == true && Effect(s1, s2, S, D, up, below, o, drop) == true
    ensures Effect(s, s2, S, D, up, below, o, drop) == true
  {
    forall e | e in up && Spared(s, below, e) ensures s2.kids[e] == s.kids[e] + Newcomer(s2, o, e) {
      assert Spared(s1, below, e);
    }
  }

  // Between two moments nothing happened but some objects of `drop` losing their elements.
  ghost predicate Dropped(s: Snap, s1: Snap, S: set<XMLObject>, up: seq<Element>, drop: set<XMLObject>)
    requires Over(s, S, up) && Over(s1, S, up)
  {
    && (forall x :: x in S && s1.dom[x] != s.dom[x] ==> s1.dom[x] == null && x in drop)
    && (forall x :: x in S && s1.dom[x] != null ==> s1.hang[x] == s.hang[x])
    && s1.kids == s.kids && s1.place == s.place
  }

  // What moving o's element from one place to the end of the target's children does to the snapshot.
  ghost predicate Moved(s: Snap, s1: Snap, S: set<XMLObject>, up: seq<Element>, o: XMLObject, r: Element)
    requires Over(s, S, up) && Over(s1, S, up) && up != [] && o in S
  {
    && s1.dom == s.dom && s1.hang == s.hang[o := up[0]] && s1.place == s.place
    && (forall e :: e in up && e != s.hang[o] ==> s1.kids[e] == s.kids[e] + if e == up[0] then [ElementNode(r)] else [])
    && (forall e, n :: e in up && n in s.kids[e] && n != ElementNode(r) ==> n in s1.kids[e])
  }

  lemma EffectNone(s: Snap, S: set<XMLObject>, D: set<Element>, up: seq<Element>, o: XMLObject,
                   below: set<XMLObject>, drop: set<XMLObject>)
    requires Over(s, S, up) && below <= S && o in below && s.dom[o] != null
    ensures Effect(s, s, S, D, up, below, o, drop) == true
  {
  }

  // Moving o's element under the target, and what is out of step after, put together.
  lemma EffectMoved(s: Snap, s1: Snap, s2: Snap, S: set<XMLObject>, D: set<Element>, up: seq<Element>,
                    o: XMLObject, r: Element, below: set<XMLObject>, drop: set<XMLObject>)
    requires Over(s, S, up) && Over(s1, S, up) && Over(s2, S, up) && up != []
    requires below <= S && o in below && drop !! below && s.dom[o] == r && s.hang[o] != up[0]
    requires Moved(s, s1, S, up, o, r) == true
    requires Dropped(s1, s2, S, up, drop) == true
    ensures Effect(s, s2, S, D, up, below, o, drop) == true
  {
  }

  // The walk up from o stops at once.
  ghost predicate Alone(o: XMLObject)
    reads o`parent, (if o.parent == null then {} else {o.parent})`dom
  {
    o.parent == null || o.parent.dom == null
  }

  // The objects o is strictly below.
  ghost function Above(o: XMLObject, S: set<XMLObject>): (r: set<XMLObject>)
    reads o`desc, S`desc
    ensures forall x :: x in r ==> x in S && x !in o.desc && o in x.desc
  {
    set x | x in S && x !in o.desc && o in x.desc
  }

  // The objects that may lose their elements when o gets one: none if the walk stops at once.
  ghost predicate Covers(drop: set<XMLObject>, o: XMLObject, S: set<XMLObject>)
    reads o`desc, S`desc, o`parent, (if o.parent == null then {} else {o.parent})`dom
  {
    drop == Above(o, S) || (drop == {} && Alone(o))
  }

  // Whoever lost its element outside `below` has a parent without one.
  ghost predicate Upward(a: Snap, b: Snap, S: set<XMLObject>, below: set<XMLObject>)
    requires a.dom.Keys == S && b.dom.Keys == S
    reads S`parent
  {
    forall x :: x in S && x !in below && b.dom[x] != a.dom[x] && x.parent != null && x.parent in S ==> b.dom[x.parent] == null
  }

  lemma UpwardAfter(a: Snap, b: Snap, c: Snap, S: set<XMLObject>, below: set<XMLObject>)
    requires a.dom.Keys == S && b.dom.Keys == S && c.dom.Keys == S && Upward(b, c, S, below) == true
    requires forall x :: x in S && x !in below ==> b.dom[x] == a.dom[x]
    ensures Upward(a, c, S, below) == true
  {
  }

  twostate lemma {:induction false} ChainSteady(w: (Element?, seq<Element>))
    requires old(IsChain(w.0, w.1)) && forall e :: e in w.1 ==> e.parent == old(e.parent)
    ensures IsChain(w.0, w.1)
    decreases |w.1|
  {
    if w.1 != [] {
      ChainSteady((w.1[0].parent, w.1[1..]));
    }
  }
}

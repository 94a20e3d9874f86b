// Namespace declarations over a whole subtree: what every object's prefixes mean at its element, and
// when that survives moving the subtree somewhere else.
module Scoping {
  import opened Names
  import opened Dom
  import opened XmlTree
  import opened Declarations

  // What is known of one object: its namespace set and attributes, its element, where that hangs, its
  // attributes and its prefix.
  datatype Fact = Fact(nss: seq<Namespace>, dom: Element?, hang: Element?, attrs: Attributes, prefix: string, given: Attributes)

  ghost function FactOf(x: XMLObject): Fact
    reads x`namespaces, x`dom, x`attributes, (if x.dom == null then {} else {x.dom})`parent
    reads (if x.dom == null then {} else {x.dom})`attrs, (if x.dom == null then {} else {x.dom})`prefix
  {
    Fact(x.namespaces, x.dom, if x.dom == null then null else x.dom.parent, if x.dom == null then map[] else x.dom.attrs,
         if x.dom == null then "" else x.dom.prefix, x.attributes)
  }

  ghost function Facts(S: set<XMLObject>): (r: map<XMLObject, Fact>)
    reads S`namespaces, S`dom, S`attributes, (set x | x in S && x.dom != null :: x.dom)`parent
    reads (set x | x in S && x.dom != null :: x.dom)`attrs, (set x | x in S && x.dom != null :: x.dom)`prefix
    ensures r.Keys == S
  {
    map x | x in S :: FactOf(x)
  }

  // The element, if there is one, is as it was or carries the prefixes of its object.
  ghost predicate Wears(x: XMLObject, a: Fact, b: Fact) {
    && b.given == a.given
    && (b.dom == null || (b.dom == a.dom && b.prefix == a.prefix && b.attrs == a.attrs) || Dressed(x, b.dom, b.nss, b.given, b.prefix, b.attrs))
  }

  // Nothing is different outside `moved`, no namespace set lost anything, and new elements carry the prefixes
  // of their objects.
  ghost predicate Rest(a: map<XMLObject, Fact>, b: map<XMLObject, Fact>, moved: set<XMLObject>) {
    && a.Keys == b.Keys && (forall x :: x in a && x !in moved ==> b[x] == a[x])
    && forall x :: x in a ==> Follows(a[x].nss, b[x].nss) == true && Wears(x, a[x], b[x]) == true
  }

  lemma WearsTrans(x: XMLObject, a: Fact, b: Fact, c: Fact)
    requires Wears(x, a, b) == true && Wears(x, b, c) == true && Follows(b.nss, c.nss) == true
    ensures Wears(x, a, c) == true
  {
    if Binds(b.nss, "xsi") { FollowsBinds(b.nss, c.nss, "xsi"); }
  }

  lemma WearsSelf(x: XMLObject, a: Fact)
    ensures Wears(x, a, a) == true
  {
  }

  // Nothing of T is different.
  ghost predicate Same(a: map<XMLObject, Fact>, b: map<XMLObject, Fact>, T: set<XMLObject>) {
    forall x :: x in T ==> x in a && x in b && b[x] == a[x]
  }

  lemma RestTrans(a: map<XMLObject, Fact>, b: map<XMLObject, Fact>, c: map<XMLObject, Fact>,
                  first: set<XMLObject>, second: set<XMLObject>, both: set<XMLObject>)
    requires Rest(a, b, first) == true && Rest(b, c, second) == true && first <= both && second <= both
    ensures Rest(a, c, both) == true
  {
    hide Follows, Wears;
    forall x | x in a ensures Follows(a[x].nss, c[x].nss) == true && Wears(x, a[x], c[x]) == true {
      FollowsTrans(a[x].nss, b[x].nss, c[x].nss);
      WearsTrans(x, a[x], b[x], c[x]);
    }
  }

  lemma RestSelf(a: map<XMLObject, Fact>)
    ensures Rest(a, a, {}) == true
  {
    forall x | x in a ensures Wears(x, a[x], a[x]) == true {
      WearsSelf(x, a[x]);
    }
  }

  lemma RestKeys(a: map<XMLObject, Fact>, b: map<XMLObject, Fact>, moved: set<XMLObject>)
    requires Rest(a, b, moved) == true
    ensures a.Keys == b.Keys
  {
    hide Follows, Wears;
  }

  lemma RestWider(a: map<XMLObject, Fact>, b: map<XMLObject, Fact>, moved: set<XMLObject>, more: set<XMLObject>)
    requires Rest(a, b, moved) == true && moved <= more
    ensures Rest(a, b, more) == true
  {
    hide Follows, Wears;
  }

  // Nothing in T has an element yet.
  ghost predicate Bare(f: map<XMLObject, Fact>, T: set<XMLObject>) {
    forall x :: x in T ==> x in f && f[x].dom == null
  }

  // Every namespace entry and attribute in T can be written.
  ghost predicate Plainly(f: map<XMLObject, Fact>, T: set<XMLObject>)
    reads T`attributes
  {
    forall x :: x in T ==> x in f && Declarable(f[x].nss) && forall k :: k in x.attributes ==> k.uri != XMLNS_NS
  }

  lemma PlainlySmaller(a: map<XMLObject, Fact>, b: map<XMLObject, Fact>, moved: set<XMLObject>,
                       T: set<XMLObject>, T': set<XMLObject>)
    requires Plainly(a, T) == true && Rest(a, b, moved) == true && T' <= T && T' !! moved
    ensures Plainly(b, T') == true
  {
    hide Follows, Wears;
  }

  ghost predicate AllPlain(S: set<XMLObject>)
    reads S`attributes, S`namespaces
  {
    forall x :: x in S ==> Plain(x)
  }

  lemma PlainFacts(S: set<XMLObject>, T: set<XMLObject>)
    requires AllPlain(T) == true && T <= S
    ensures Plainly(Facts(S), T) == true
  {
  }

  lemma AllBare(S: set<XMLObject>)
    requires forall x :: x in S ==> x.dom == null
    ensures Bare(Facts(S), S) == true && (AllPlain(S) == true ==> Plainly(Facts(S), S) == true)
  {
  }

  // At the element of every object of the subtree, hanging where it should, every prefix of the
  // object's namespace set means its own URI.
  ghost predicate Declared(f: map<XMLObject, Fact>, o: XMLObject, S: set<XMLObject>, above: Element?, scopes: seq<Attributes>)
    reads S`desc, S`children
    decreases o.desc
  {
    && o in S && o in f && f[o].dom != null && f[o].hang == above && Resolved(f[o].nss, [f[o].attrs] + scopes)
    && forall k :: 0 <= k < |o.children| ==>
         var c := o.children[k];
         c in S && c.desc < o.desc && Declared(f, c, S, f[o].dom, [f[o].attrs] + scopes)
  }

  lemma {:induction false} DeclaredKept(a: map<XMLObject, Fact>, b: map<XMLObject, Fact>, o: XMLObject, S: set<XMLObject>,
                                        above: Element?, scopes: seq<Attributes>)
    requires Tree(S) == true && o in S && Declared(a, o, S, above, scopes) == true
    requires forall x :: x in o.desc && x in a ==> x in b && b[x] == a[x]
    ensures Declared(b, o, S, above, scopes) == true
    decreases o.desc
  {
    o.ChildrenInTree(S);
    forall k | 0 <= k < |o.children|
      ensures Declared(b, o.children[k], S, b[o].dom, [b[o].attrs] + scopes)
    {
      DeclaredKept(a, b, o.children[k], S, a[o].dom, [a[o].attrs] + scopes);
    }
  }

  // ---------------------------------------------------------------- what marshalling does

  // The subtree came along as it was, but for the place its top element hangs.
  ghost predicate Reused(f: map<XMLObject, Fact>, g: map<XMLObject, Fact>, o: XMLObject)
    reads o`desc
  {
    && o in f && o in g && f[o].dom != null && g[o] == f[o].(hang := g[o].hang)
    && forall x :: x in o.desc && x != o ==> x in f && x in g && g[x] == f[x]
  }

  // What marshalling an object under `above` makes of any mixture of cached and uncached objects below
  // it: cached subtrees are reused as they are, and every other object gets a new element with just the
  // declarations its namespace set calls for.
  ghost predicate Laid(f: map<XMLObject, Fact>, g: map<XMLObject, Fact>, o: XMLObject, S: set<XMLObject>,
                       D: set<Element>, above: Element?, scopes: seq<Attributes>)
    reads S`desc, S`children
    decreases o.desc
  {
    && o in S && o in f && o in g && g[o].dom != null && g[o].hang == above
    && (Reused(f, g, o)
        || (&& g[o].dom !in D && Settled(g[o].nss, g[o].attrs, scopes)
            && forall k :: 0 <= k < |o.children| ==>
                 var c := o.children[k];
                 c in S && c.desc < o.desc && Laid(f, g, c, S, D, g[o].dom, [g[o].attrs] + scopes)))
  }

  lemma {:induction false} LaidKept(f: map<XMLObject, Fact>, g: map<XMLObject, Fact>,
                                    f': map<XMLObject, Fact>, g': map<XMLObject, Fact>, o: XMLObject, S: set<XMLObject>,
                                    D: set<Element>, D': set<Element>, above: Element?, scopes: seq<Attributes>)
    requires Tree(S) == true && o in S && Laid(f, g, o, S, D, above, scopes) == true && D' <= D
    requires forall x :: x in o.desc && x in f ==> x in f' && f'[x] == f[x]
    requires forall x :: x in o.desc && x in g ==> x in g' && g'[x] == g[x]
    ensures Laid(f', g', o, S, D', above, scopes) == true
    decreases o.desc
  {
    o.ChildrenInTree(S);
    if !Reused(f, g, o) {
      forall k | 0 <= k < |o.children|
        ensures Laid(f', g', o.children[k], S, D', g'[o].dom, [g'[o].attrs] + scopes)
      {
        LaidKept(f, g, f', g', o.children[k], S, D, D', g[o].dom, [g[o].attrs] + scopes);
      }
    } else {
      assert Reused(f', g', o);
    }
  }

  // What happened elsewhere, before or after, does not matter.
  lemma LaidBetween(f0: map<XMLObject, Fact>, f: map<XMLObject, Fact>, g: map<XMLObject, Fact>, g1: map<XMLObject, Fact>,
                    o: XMLObject, S: set<XMLObject>, D0: set<Element>, D: set<Element>, first: set<XMLObject>, last: set<XMLObject>,
                    above: Element?, scopes: seq<Attributes>)
    requires Tree(S) == true && o in S && Laid(f, g, o, S, D, above, scopes) == true && D0 <= D
    requires Rest(f0, f, first) == true && Rest(g, g1, last) == true && first !! o.desc && last !! o.desc
    ensures Laid(f0, g1, o, S, D0, above, scopes) == true
  {
    hide Follows, Wears;
    LaidKept(f, g, f0, g1, o, S, D, D0, above, scopes);
  }

  // Where nothing was cached, everything below got a new element, whatever had been there before that.
  lemma {:induction false} LaidAnew(f: map<XMLObject, Fact>, f': map<XMLObject, Fact>, g: map<XMLObject, Fact>,
                                    o: XMLObject, S: set<XMLObject>, D: set<Element>, above: Element?, scopes: seq<Attributes>)
    requires Tree(S) == true && o in S && Laid(f, g, o, S, D, above, scopes) == true
    requires Bare(f, o.desc) == true && forall x :: x in o.desc ==> x in f'
    ensures Laid(f', g, o, S, D, above, scopes) == true && Declared(g, o, S, above, scopes) == true
    decreases o.desc
  {
    o.ChildrenInTree(S);
    forall k | 0 <= k < |o.children|
      ensures Laid(f', g, o.children[k], S, D, g[o].dom, [g[o].attrs] + scopes)
      ensures Declared(g, o.children[k], S, g[o].dom, [g[o].attrs] + scopes)
    {
      LaidAnew(f, f', g, o.children[k], S, D, g[o].dom, [g[o].attrs] + scopes);
    }
  }

  // An object whose element only came to hang elsewhere.
  lemma ReusedLaid(f: map<XMLObject, Fact>, g: map<XMLObject, Fact>, o: XMLObject, S: set<XMLObject>, D: set<Element>,
                   moved: set<XMLObject>, above: Element?, scopes: seq<Attributes>)
    requires o in S && o in f && o.desc <= S && f.Keys == S && f[o].dom != null && moved !! o.desc
    requires Rest(f, g, {o} + moved) == true && g[o] == f[o].(hang := above)
    ensures Laid(f, g, o, S, D, above, scopes) == true
  {
    hide Follows, Wears;
    assert Reused(f, g, o);
  }

  // The first n children's subtrees are laid out.
  ghost predicate ChildrenLaid(f: map<XMLObject, Fact>, g: map<XMLObject, Fact>, o: XMLObject, n: nat, S: set<XMLObject>,
                               D: set<Element>, above: Element?, scopes: seq<Attributes>)
    reads o`children, S`desc, S`children
  {
    n <= |o.children| && forall k :: 0 <= k < n ==> Laid(f, g, o.children[k], S, D, above, scopes)
  }

  // Everything at or below the first n children.
  ghost function Before(o: XMLObject, n: nat): (r: set<XMLObject>)
    reads o`children, o.children`desc
  {
    set k, x | 0 <= k < n && k < |o.children| && x in o.children[k].desc :: x
  }

  lemma BeforeStep(o: XMLObject, S: set<XMLObject>, n: nat)
    requires Tree(S) && o in S && n <= |o.children|
    ensures Before(o, 0) == {} && Before(o, n) <= o.desc - {o} <= S
    ensures n < |o.children| ==>
              Before(o, n + 1) == Before(o, n) + o.children[n].desc && Before(o, n) !! o.children[n].desc
    ensures n < |o.children| ==> o.children[n].desc <= S && o.children[n].desc < o.desc
  {
    o.ChildrenInTree(S);
  }

  // One more child was marshalled.
  lemma ChildLaid(start: map<XMLObject, Fact>, before: map<XMLObject, Fact>, after: map<XMLObject, Fact>,
                  o: XMLObject, i: nat, S: set<XMLObject>, D: set<Element>, D1: set<Element>, d: Element, scopes: seq<Attributes>)
    requires Tree(S) == true && o in S && i < |o.children| && start.Keys == S && D <= D1
    requires Rest(start, before, Before(o, i)) == true && Rest(before, after, o.children[i].desc) == true
    requires Plainly(start, o.desc - {o}) == true ==> ChildrenLaid(start, before, o, i, S, D, d, scopes) == true
    requires Plainly(before, o.children[i].desc) == true ==> Laid(before, after, o.children[i], S, D1, d, scopes) == true
    ensures Rest(start, after, Before(o, i + 1)) == true
    ensures Plainly(start, o.desc - {o}) == true ==> ChildrenLaid(start, after, o, i + 1, S, D, d, scopes) == true
  {
    hide Rest, Tree, Laid, Plainly, Before;
    o.ChildrenInTree(S);
    BeforeStep(o, S, i);
    var c := o.children[i];
    RestTrans(start, before, after, Before(o, i), c.desc, Before(o, i + 1));
    if Plainly(start, o.desc - {o}) {
      PlainlySmaller(start, before, Before(o, i), o.desc - {o}, c.desc);
      RestSelf(start);
      RestSelf(after);
      LaidBetween(start, before, after, after, c, S, D, D1, Before(o, i), {}, d, scopes);
      forall k | 0 <= k < i ensures Laid(start, after, o.children[k], S, D, d, scopes) == true {
        LaidBetween(start, start, before, after, o.children[k], S, D, D, {}, c.desc, d, scopes);
      }
    }
  }

  // The head and the children put together.
  lemma BuiltLaid(f: map<XMLObject, Fact>, f1: map<XMLObject, Fact>, f3: map<XMLObject, Fact>, o: XMLObject,
                  S: set<XMLObject>, D: set<Element>, D1: set<Element>, above: Element?, scopes: seq<Attributes>)
    requires Tree(S) == true && o in S && o in f3 && f3[o].dom != null && f3[o].hang == above && f.Keys == S
    requires Rest(f, f1, {o}) == true && Rest(f1, f3, o.desc) == true && D <= D1 && f3[o].dom !in D
    requires Plainly(f, o.desc) == true ==> Settled(f3[o].nss, f3[o].attrs, scopes) == true
    requires Plainly(f1, o.desc - {o}) == true ==>
               ChildrenLaid(f1, f3, o, |o.children|, S, D1, f3[o].dom, [f3[o].attrs] + scopes) == true
    ensures Rest(f, f3, o.desc) == true
    ensures Plainly(f, o.desc) == true ==> Laid(f, f3, o, S, D, above, scopes) == true
  {
    hide Rest, Tree, Plainly;
    RestKeys(f, f1, {o});
    o.ChildrenInTree(S);
    RestTrans(f, f1, f3, {o}, o.desc, o.desc);
    if Plainly(f, o.desc) {
      PlainlySmaller(f, f1, {o}, o.desc, o.desc - {o});
      forall k | 0 <= k < |o.children|
        ensures Laid(f, f3, o.children[k], S, D, f3[o].dom, [f3[o].attrs] + scopes)
      {
        RestSelf(f3);
        LaidBetween(f, f1, f3, f3, o.children[k], S, D, D1, {o}, {}, f3[o].dom, [f3[o].attrs] + scopes);
      }
    }
  }

  // Caching the parent's own element leaves its children as they are.
  lemma FilledLaid(f1: map<XMLObject, Fact>, f2: map<XMLObject, Fact>, f3: map<XMLObject, Fact>, o: XMLObject,
                   S: set<XMLObject>, D: set<Element>, d: Element, scopes: seq<Attributes>)
    requires Tree(S) == true && o in S && o in f1 && o in f2
    requires Rest(f1, f2, o.desc - {o}) == true && Rest(f2, f3, {o}) == true
    requires Plainly(f1, o.desc - {o}) == true ==> ChildrenLaid(f1, f2, o, |o.children|, S, D, d, scopes) == true
    ensures f1[o] == f2[o] && Rest(f1, f3, o.desc) == true
    ensures Plainly(f1, o.desc - {o}) == true ==> ChildrenLaid(f1, f3, o, |o.children|, S, D, d, scopes) == true
  {
    hide Follows, Wears, Tree, Plainly;
    o.ChildrenInTree(S);
    RestTrans(f1, f2, f3, o.desc - {o}, {o}, o.desc);
    if Plainly(f1, o.desc - {o}) {
      forall k | 0 <= k < |o.children| ensures Laid(f1, f3, o.children[k], S, D, d, scopes) {
        RestSelf(f1);
        LaidBetween(f1, f1, f2, f3, o.children[k], S, D, D, {}, {o}, d, scopes);
      }
    }
  }

  // ---------------------------------------------------------------- the declared subtree as lookups

  // In a declared subtree, looking a prefix of any object's namespace set up from that object's
  // element, along the real parent pointers, yields the URI the object wants it to have.
  lemma {:induction false} EveryPrefixResolves(o: XMLObject, S: set<XMLObject>, up: seq<Element>, x: XMLObject)
    returns (chain: seq<Element>)
    requires Tree(S) && o in S && x in o.desc && IsChain(if up == [] then null else up[0], up)
    requires Declared(Facts(S), o, S, if up == [] then null else up[0], Scopes(up))
    ensures x.dom != null && chain != [] && chain[0] == x.dom && IsChain(x.dom, chain)
    ensures Resolved(x.namespaces, Scopes(chain))
    decreases o.desc
  {
    var here := [o.dom] + up;
    assert here[1..] == up;
    if x == o {
      chain := here;
    } else {
      var k := o.BelowChild(S, x);
      o.ChildrenInTree(S);
      chain := EveryPrefixResolves(o.children[k], S, here, x);
    }
  }

  // ---------------------------------------------------------------- reusing a subtree elsewhere

  // The subtree looks the prefix up in whatever is above it.
  ghost predicate LooksUp(f: map<XMLObject, Fact>, o: XMLObject, S: set<XMLObject>, prefix: string)
    reads S`desc, S`children
    decreases o.desc
  {
    && o in S && o in f && DeclName(prefix) !in f[o].attrs
    && ((exists i :: 0 <= i < |f[o].nss| && f[o].nss[i].prefix == prefix && !IsXml(f[o].nss[i]))
        || exists k :: 0 <= k < |o.children| && o.children[k] in S && o.children[k].desc < o.desc &&
             LooksUp(f, o.children[k], S, prefix))
  }

  // Every prefix the subtree looks up above it means the same in both places.
  ghost predicate Agree(f: map<XMLObject, Fact>, o: XMLObject, S: set<XMLObject>, a: seq<Attributes>, b: seq<Attributes>)
    reads S`desc, S`children
  {
    forall p :: LooksUp(f, o, S, p) ==> Meaning(b, p) == Meaning(a, p)
  }

  // A cached subtree that is moved keeps its declarations as they are.  Its prefixes keep their
  // meaning exactly when every prefix it looks up means the same in the new place as in the old one.
  lemma {:induction false} MovedKeepsMeaning(f: map<XMLObject, Fact>, o: XMLObject, S: set<XMLObject>, above: Element?,
                                             scopes: seq<Attributes>, above': Element?, scopes': seq<Attributes>)
    requires Tree(S) == true && o in S && Declared(f, o, S, above, scopes)
    ensures Declared(f[o := f[o].(hang := above')], o, S, above', scopes') <==> Agree(f, o, S, scopes, scopes')
    decreases o.desc, 1
  {
    o.ChildrenInTree(S);
    var f', m := f[o := f[o].(hang := above')], f[o].attrs;
    forall p | DeclName(p) !in m
      ensures Meaning([m] + scopes, p) == Meaning(scopes, p) && Meaning([m] + scopes', p) == Meaning(scopes', p)
    {
      assert ([m] + scopes)[1..] == scopes && ([m] + scopes')[1..] == scopes';
    }
    forall k | 0 <= k < |o.children|
      ensures Declared(f', o.children[k], S, f[o].dom, [m] + scopes') <==>
                Agree(f, o.children[k], S, [m] + scopes, [m] + scopes')
    {
      ChildMoved(f, o, k, S, scopes, above', scopes');
    }
    if Declared(f', o, S, above', scopes') {
      forall p | LooksUp(f, o, S, p) ensures Meaning(scopes', p) == Meaning(scopes, p) {
        if k :| 0 <= k < |o.children| && LooksUp(f, o.children[k], S, p) {
          assert Declared(f', o.children[k], S, f[o].dom, [m] + scopes');
        }
      }
    }
    if Agree(f, o, S, scopes, scopes') {
      forall k | 0 <= k < |o.children| ensures Agree(f, o.children[k], S, [m] + scopes, [m] + scopes') {
        forall p | LooksUp(f, o.children[k], S, p) ensures Meaning([m] + scopes', p) == Meaning([m] + scopes, p) {
          if DeclName(p) !in m { assert LooksUp(f, o, S, p); }
        }
      }
      forall i | 0 <= i < |f[o].nss| && !IsXml(f[o].nss[i])
        ensures Meaning([m] + scopes', f[o].nss[i].prefix) == Some(f[o].nss[i].uri)
      {
        if DeclName(f[o].nss[i].prefix) !in m { assert LooksUp(f, o, S, f[o].nss[i].prefix); }
      }
      assert Resolved(f'[o].nss, [f'[o].attrs] + scopes');
    }
  }

  lemma {:induction false} ChildMoved(f: map<XMLObject, Fact>, o: XMLObject, k: nat, S: set<XMLObject>,
                                      scopes: seq<Attributes>, above': Element?, scopes': seq<Attributes>)
    requires Tree(S) == true && o in S && o in f && k < |o.children|
    requires Declared(f, o.children[k], S, f[o].dom, [f[o].attrs] + scopes)
    ensures Declared(f[o := f[o].(hang := above')], o.children[k], S, f[o].dom, [f[o].attrs] + scopes') <==>
              Agree(f, o.children[k], S, [f[o].attrs] + scopes, [f[o].attrs] + scopes')
    decreases o.desc, 0
  {
    o.ChildrenInTree(S);
    var c, m, f' := o.children[k], f[o].attrs, f[o := f[o].(hang := above')];
    MovedKeepsMeaning(f, c, S, f[o].dom, [m] + scopes, f[o].dom, [m] + scopes');
    assert f[c := f[c].(hang := f[o].dom)] == f;
    if Declared(f, c, S, f[o].dom, [m] + scopes') { DeclaredKept(f, f', c, S, f[o].dom, [m] + scopes'); }
    if Declared(f', c, S, f[o].dom, [m] + scopes') { DeclaredKept(f', f, c, S, f[o].dom, [m] + scopes'); }
  }

  // Each reused subtree had its prefixes in order where it was, under the declarations `was` gives for it.
  ghost predicate WereDeclared(f: map<XMLObject, Fact>, g: map<XMLObject, Fact>, o: XMLObject, S: set<XMLObject>,
                               was: map<XMLObject, seq<Attributes>>)
    reads S`desc, S`children
    decreases o.desc
  {
    && o in S
    && if Reused(f, g, o) then o in was && Declared(f, o, S, f[o].hang, was[o])
       else forall k :: 0 <= k < |o.children| ==>
              var c := o.children[k];
              c in S && c.desc < o.desc && WereDeclared(f, g, c, S, was)
  }

  // Each reused subtree finds what it looks up above itself unchanged in its new place.
  ghost predicate AllAgree(f: map<XMLObject, Fact>, g: map<XMLObject, Fact>, o: XMLObject, S: set<XMLObject>,
                           was: map<XMLObject, seq<Attributes>>, scopes: seq<Attributes>)
    reads S`desc, S`children
    decreases o.desc
  {
    && o in S && o in g
    && if Reused(f, g, o) then o in was && Agree(f, o, S, was[o], scopes)
       else forall k :: 0 <= k < |o.children| ==>
              var c := o.children[k];
              c in S && c.desc < o.desc && AllAgree(f, g, c, S, was, [g[o].attrs] + scopes)
  }

  // Marshalling preserves the meaning of every prefix of the subtree exactly when every subtree it
  // reused finds the prefixes it looks up above itself as they were.
  lemma {:induction false} LaidKeepsMeaning(f: map<XMLObject, Fact>, g: map<XMLObject, Fact>, o: XMLObject, S: set<XMLObject>,
                                            D: set<Element>, above: Element?, scopes: seq<Attributes>,
                                            was: map<XMLObject, seq<Attributes>>)
    requires Tree(S) == true && o in S && Laid(f, g, o, S, D, above, scopes) && WereDeclared(f, g, o, S, was)
    ensures Declared(g, o, S, above, scopes) <==> AllAgree(f, g, o, S, was, scopes)
    decreases o.desc
  {
    o.ChildrenInTree(S);
    if Reused(f, g, o) {
      var f' := f[o := f[o].(hang := above)];
      MovedKeepsMeaning(f, o, S, f[o].hang, was[o], above, scopes);
      if Declared(f', o, S, above, scopes) { DeclaredKept(f', g, o, S, above, scopes); }
      if Declared(g, o, S, above, scopes) { DeclaredKept(g, f', o, S, above, scopes); }
    } else {
      forall k | 0 <= k < |o.children|
        ensures var c := o.children[k];
                Declared(g, c, S, g[o].dom, [g[o].attrs] + scopes) <==> AllAgree(f, g, c, S, was, [g[o].attrs] + scopes)
      {
        LaidKeepsMeaning(f, g, o.children[k], S, D, g[o].dom, [g[o].attrs] + scopes, was);
      }
    }
  }

  // ---------------------------------------------------------------- each prefix by itself

  // The attributes from an object's element up to that of o.
  ghost function Along(f: map<XMLObject, Fact>, o: XMLObject, S: set<XMLObject>, x: XMLObject): (r: seq<Attributes>)
    requires Tree(S) && o in S && x in o.desc && o.desc <= f.Keys
    reads S`desc, S`children, S`parent
    ensures r != [] && r[0] == f[x].attrs
    decreases o.desc - x.desc
  {
    if x == o then [f[o].attrs]
    else
      StepUp(o, S, x);
      [f[x].attrs] + Along(f, o, S, x.parent)
  }

  lemma StepUp(o: XMLObject, S: set<XMLObject>, x: XMLObject)
    requires Tree(S) && o in S && x in o.desc && x != o
    ensures x.parent != null && x.parent in o.desc && o.desc - x.parent.desc < o.desc - x.desc
  {
    assert o.TreeAt(S);
    assert x.TreeAt(S);
    assert x.parent.TreeAt(S);
    var i :| 0 <= i < |x.parent.children| && x.parent.children[i] == x;
    assert x.parent in o.desc - x.desc;
  }

  predicate DeclaredIn(scopes: seq<Attributes>, prefix: string) {
    exists i :: 0 <= i < |scopes| && DeclName(prefix) in scopes[i]
  }

  // What is declared nearer hides what is further out, and nothing else does.
  lemma {:induction false} MeaningOutside(near: seq<Attributes>, far: seq<Attributes>, far': seq<Attributes>, prefix: string)
    ensures Meaning(near + far, prefix) == Meaning(near + far', prefix)
            <==> DeclaredIn(near, prefix) || Meaning(far, prefix) == Meaning(far', prefix)
  {
    if near == [] {
      assert near + far == far && near + far' == far';
    } else {
      assert (near + far)[1..] == near[1..] + far && (near + far')[1..] == near[1..] + far';
      if DeclName(prefix) !in near[0] {
        MeaningOutside(near[1..], far, far', prefix);
        assert DeclaredIn(near, prefix) ==> DeclaredIn(near[1..], prefix) by {
          if i :| 0 <= i < |near| && DeclName(prefix) in near[i] {
            assert near[1..][i - 1] == near[i];
          }
        }
        assert DeclaredIn(near[1..], prefix) ==> DeclaredIn(near, prefix) by {
          if i :| 0 <= i < |near[1..]| && DeclName(prefix) in near[1..][i] {
            assert near[i + 1] == near[1..][i];
          }
        }
      }
    }
  }

  // The way up from x leads through c, and up to c it is as before if c was reused.
  lemma {:induction false} AlongReused(f: map<XMLObject, Fact>, g: map<XMLObject, Fact>, o: XMLObject, S: set<XMLObject>,
                                       c: XMLObject, x: XMLObject)
    requires Tree(S) && o in S && c in S && c in o.desc && x in c.desc && o.desc <= f.Keys && o.desc <= g.Keys && Reused(f, g, c)
    ensures x in o.desc && c.desc <= o.desc
    ensures Along(g, o, S, x) == Along(f, c, S, x) + Along(g, o, S, c)[1..]
    decreases c.desc - x.desc
  {
    hide Tree, XMLObject.TreeAt;
    Within(o, S, c);
    if x != c {
      StepUp(c, S, x);
      AlongReused(f, g, o, S, c, x.parent);
      OnlyTop(o, S, c, x);
    }
  }

  lemma Within(o: XMLObject, S: set<XMLObject>, c: XMLObject)
    requires Tree(S) && o in S && c in o.desc
    ensures c.desc <= o.desc
  {
    assert o.TreeAt(S);
  }

  lemma OnlyTop(o: XMLObject, S: set<XMLObject>, c: XMLObject, x: XMLObject)
    requires Tree(S) && o in S && c in S && c in o.desc && x in c.desc && x != c
    ensures x != o
  {
    assert o.TreeAt(S) && c.TreeAt(S) && x.TreeAt(S);
  }

  // In a reused subtree, whatever did or did not resolve there: a prefix at an object's element means what
  // it meant under the declarations `was` exactly if the subtree declares it on the way up, or it means
  // above the subtree what it meant there.
  lemma PrefixKept(f: map<XMLObject, Fact>, g: map<XMLObject, Fact>, o: XMLObject, S: set<XMLObject>, scopes: seq<Attributes>,
                   c: XMLObject, was: seq<Attributes>, x: XMLObject, prefix: string)
    requires Tree(S) && o in S && c in S && c in o.desc && c.desc <= o.desc && x in c.desc && x in o.desc
    requires o.desc <= f.Keys && o.desc <= g.Keys && Reused(f, g, c)
    ensures Meaning(Along(g, o, S, x) + scopes, prefix) == Meaning(Along(f, c, S, x) + was, prefix) <==>
              DeclaredIn(Along(f, c, S, x), prefix) || Meaning(Along(g, o, S, c)[1..] + scopes, prefix) == Meaning(was, prefix)
  {
    AlongReused(f, g, o, S, c, x);
    var near, rest := Along(f, c, S, x), Along(g, o, S, c)[1..];
    assert (near + rest) + scopes == near + (rest + scopes);
    MeaningOutside(near, rest + scopes, was, prefix);
  }

  // Marshalling leaves no other objects: one with a new element, where all its entries resolve, or one in a
  // subtree that was reused.
  lemma {:induction false} NewOrReused(f: map<XMLObject, Fact>, g: map<XMLObject, Fact>, o: XMLObject, S: set<XMLObject>,
                                       D: set<Element>, above: Element?, scopes: seq<Attributes>, x: XMLObject)
    requires Tree(S) && o in S && x in o.desc && Laid(f, g, o, S, D, above, scopes) && o.desc <= g.Keys
    ensures (g[x].dom != null && g[x].dom !in D && Resolved(g[x].nss, Along(g, o, S, x) + scopes))
            || exists c :: c in S && x in c.desc && c in o.desc && Reused(f, g, c)
    decreases o.desc
  {
    hide Tree, XMLObject.TreeAt;
    o.ChildrenInTree(S);
    if !Reused(f, g, o) && x != o {
      var k := o.BelowChild(S, x);
      var c := o.children[k];
      NewOrReused(f, g, c, S, D, g[o].dom, [g[o].attrs] + scopes, x);
      AlongChild(g, o, S, c, x);
      assert (Along(g, c, S, x) + [g[o].attrs]) + scopes == Along(g, c, S, x) + ([g[o].attrs] + scopes);
    }
  }

  lemma {:induction false} AlongChild(g: map<XMLObject, Fact>, o: XMLObject, S: set<XMLObject>, c: XMLObject, x: XMLObject)
    requires Tree(S) && o in S && c in S && c in o.desc && c.parent == o && c != o && c.desc <= o.desc && x in c.desc && o.desc <= g.Keys
    ensures x in o.desc && Along(g, o, S, x) == Along(g, c, S, x) + [g[o].attrs]
    decreases c.desc - x.desc
  {
    hide Tree, XMLObject.TreeAt;
    if x != c {
      StepUp(c, S, x);
      AlongChild(g, o, S, c, x.parent);
      OnlyTop(o, S, c, x);
    }
  }

  // Along the chain from the object's element up to a root: every entry of the set means its own URI, with
  // just the declarations called for, the element's prefix means the element's own URI, and the prefix of
  // each of its attributes means the attribute's if and only if the first entry with that prefix does.
  ghost predicate NamedAlong(x: XMLObject, chain: seq<Element>)
    reads x`dom, x`namespaces, chain, (if x.dom == null then {} else {x.dom})
  {
    && x.dom != null && chain != [] && IsChain(x.dom, chain) && Settled(x.namespaces, x.dom.attrs, Scopes(chain[1..]))
    && (IsXmlBinding(x.dom.prefix, Some(x.dom.uri)) || Meaning(Scopes(chain), x.dom.prefix) == Some(x.dom.uri))
    && forall k :: k in x.dom.attrs && k.uri != XMLNS_NS ==> MeansOwn(x.namespaces, Scopes(chain), x.dom.attrs[k].prefix, k.uri)
  }

  lemma ChainTop(e: Element?, chain: seq<Element>)
    requires IsChain(e, chain) && chain != []
    ensures e == chain[0]
  {
  }

  // Every element the objects got since carries its object's names.
  ghost predicate NewClad(S: set<XMLObject>, known: set<Element>)
    reads S`dom, S`namespaces, S`attributes
    reads (set x | x in S && x.dom != null :: x.dom)`prefix, (set x | x in S && x.dom != null :: x.dom)`attrs
  {
    forall x :: x in S && x.dom != null && x.dom !in known ==> Clad(x, x.dom)
  }

  lemma CladAfter(f: map<XMLObject, Fact>, S: set<XMLObject>, known: set<Element>)
    requires Rest(f, Facts(S), S) == true && f.Keys == S && forall x :: x in S && f[x].dom != null ==> f[x].dom in known
    ensures NewClad(S, known) == true
  {
    hide Follows, Dressed;
    forall x | x in S && x.dom != null && x.dom !in known ensures Clad(x, x.dom) {
      assert Wears(x, f[x], Facts(S)[x]);
    }
  }

  lemma NamesMean(x: XMLObject, chain: seq<Element>)
    requires x.Kept() == true && x.dom != null && Clad(x, x.dom) == true && IsChain(x.dom, chain)
    requires chain != [] && Settled(x.namespaces, x.dom.attrs, Scopes(chain[1..])) == true
    ensures NamedAlong(x, chain) == true
  {
    hide IsChain, Resolved, Meaning, MeansOwn, Bound, Declares, CalledFor;
    assert Scopes(chain) == [x.dom.attrs] + Scopes(chain[1..]) by {
      ChainTop(x.dom, chain);
    }
    OwnNamesResolve(x, Scopes(chain));
  }

  // At every new element, whatever was reused beside or below it, every entry of the object's namespace
  // set means its own URI, looked up along the real parent pointers.
  lemma {:induction false} NewElementsResolve(f: map<XMLObject, Fact>, o: XMLObject, S: set<XMLObject>, D: set<Element>,
                                              up: seq<Element>, x: XMLObject)
    returns (chain: seq<Element>)
    requires Tree(S) && o in S && x in o.desc && x in S && IsChain(if up == [] then null else up[0], up)
    requires Laid(f, Facts(S), o, S, D, if up == [] then null else up[0], Scopes(up))
    requires x.dom != null && x.dom !in D && forall y :: y in f && f[y].dom != null ==> f[y].dom in D
    ensures chain != [] && chain[0] == x.dom && IsChain(x.dom, chain)
    ensures Settled(x.namespaces, x.dom.attrs, Scopes(chain[1..])) == true
    decreases o.desc
  {
    hide Settled;
    var here := [o.dom] + up;
    assert here[1..] == up;
    assert x in Facts(S) && Facts(S)[x].dom == x.dom;
    if x == o {
      chain := here;
    } else {
      var k := o.BelowChild(S, x);
      o.ChildrenInTree(S);
      chain := NewElementsResolve(f, o.children[k], S, D, here, x);
    }
  }

  ghost predicate AllKept(S: set<XMLObject>)
    reads S`namespaces, S`attributes, S`idAttribute
  {
    forall o :: o in S ==> o.Kept()
  }

  // Marshalling only adds to namespace sets.
  twostate lemma KeptAfter(F: set<XMLObject>)
    requires old(AllKept(F)) == true && Rest(old(Facts(F)), Facts(F), F) == true
    requires unchanged(F`attributes, F`idAttribute)
    ensures AllKept(F) == true
  {
    forall o | o in F ensures o.Kept() {
      assert old(o.Kept());
      assert old(Facts(F))[o].nss == old(o.namespaces) && Facts(F)[o].nss == o.namespaces;
      o.StillKept({});
    }
  }

  lemma NewResolved(f: map<XMLObject, Fact>, known: set<Element>, o: XMLObject, S: set<XMLObject>, up: seq<Element>, x: XMLObject)
    requires Tree(S) == true && o in S && IsChain(if up == [] then null else up[0], up)
    requires Laid(f, Facts(S), o, S, known, if up == [] then null else up[0], Scopes(up)) == true
    requires forall y :: y in f && f[y].dom != null ==> f[y].dom in known
    requires NewClad(S, known) == true && AllKept(S) == true
    requires x in o.desc && x in S && x.dom != null && x.dom !in known
    ensures exists chain :: NamedAlong(x, chain)
  {
    hide Laid, XMLObject.Kept, Settled, Clad;
    var chain := NewElementsResolve(f, o, S, known, up, x);
    NamesMean(x, chain);
    assert NamedAlong(x, chain);
  }
}

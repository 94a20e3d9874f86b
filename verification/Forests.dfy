// Every run: a forest of objects over a DOM, and the public operations, each keeping the whole invariant
// or saying exactly when it does.
module Forests {
  import opened Names
  import opened MixedContent
  import opened Dom
  import opened XmlTree
  import opened Declarations
  import opened Snapshots
  import opened Scoping
  import opened Marshalling
  import opened DocumentMarshalling
  import opened Contents
  import opened Unmarshalling

  // All live objects and all DOM elements there are to consider.
  class Forest {
    ghost var objects: set<XMLObject>
    ghost var elements: set<Element>
    ghost var bound: set<Document>  // every document that has ever been given to an object to own

    // A tree structure, a cache in step with it, one owner per document, every object in order.
    ghost predicate Valid()
      reads this, objects, elements, bound`released
      reads (set o | o in objects && o.document != null :: o.document)`released
    {
      && Tree(objects) == true && Cache(objects, elements, {}) == true && Others()
    }

    // All of it but the cache.
    ghost predicate Others()
      reads this`objects, this`bound, objects, bound`released
      reads (set o | o in objects && o.document != null :: o.document)`released
    {
      && OneOwner(objects) == true && OwnedLive(objects) == true && AccountedFor(objects, bound) == true
      && AllKept(objects) == true
    }

    // No object caches an element of a document that was given back.
    ghost predicate Live()
      reads this, objects`dom, (set x | x in objects && x.dom != null :: x.dom.doc)`released
    {
      CachedLive(objects)
    }

    lemma Parts()
      requires Valid() == true
      ensures Tree(objects) == true && Cache(objects, elements, {}) == true && AllKept(objects) == true && Others() == true
      ensures OneOwner(objects) == true && OwnedLive(objects) == true && AccountedFor(objects, bound) == true
    {
    }

    lemma Whole()
      requires Tree(objects) == true && AllKept(objects) == true
      requires OneOwner(objects) == true && OwnedLive(objects) == true && AccountedFor(objects, bound) == true
      ensures Others() == true && (Valid() == true <==> Cache(objects, elements, {}) == true)
    {
    }

    constructor ()
      ensures Valid() == true && objects == {} && elements == {} && bound == {}
    {
      objects, elements, bound := {}, {}, {};
    }

    // The destructors of a whole tree.
    method Destroy(o: XMLObject)
      requires Valid() == true && o in objects && o.parent == null
      modifies this`objects, o.Docs()`released
      ensures Valid() == true && objects == old(objects) - o.desc && bound == old(bound)
      ensures objects == {} ==> forall d :: d in bound ==> d.released
      ensures old(Live()) ==> (Live() <==> !Uses(objects, o.Docs()))
    {
      hide Tree, Cache, AllCoherent, OneOwner, OwnedLive, AccountedFor, AllKept, CachedLive, Uses, Valid, Others, XMLObject.Uncached;
      Parts();
      PartKept(o, objects, elements);
      ghost var F, S := objects, o.desc;
      PartOwners(o, F);
      o.Destroy(S);
      CacheShrinks((F, F - S, elements));
      PartDestroyed((F, S, bound));
      AliveWithout((F, F - S, old(o.Docs())));
      FewerKept(F, F - S);
      objects := F - S;
      AllReleased(objects, bound);
      Whole();
    }

    // releaseThisAndChildrenDOM, which does not tell the parent: its element, if it has one, is out of step.
    method ReleaseAll(o: XMLObject)
      requires Valid() == true && o in objects
      modifies o.desc`dom
      ensures Valid() == true <==> o.parent == null || o.parent.dom == null
      ensures Others() == true && (old(Live()) ==> Live() == true) && forall x :: x in o.desc ==> x.dom == null
    {
      hide Tree, Cache, AllCoherent, OneOwner, OwnedLive, AccountedFor, AllKept, CachedLive, Uses, Valid, Others;
      Parts();
      InTree(o, objects);
      DropSubtree(o, objects, elements, {});
      ParentHole(o, objects, elements);
      AliveWithout((objects, objects, {}));
      UsesNothing(objects);
      Whole();
    }

    method SetTextContent(o: XMLObject, value: string, position: nat) returns (ok: bool)
      requires Valid() == true && o in objects
      modifies objects`dom, o`text
      ensures Valid() == true && (old(Live()) ==> Live() == true)
      ensures ok <==> position <= |o.children|
      ensures o.text == if ok then WithText(old(o.text), value, position) else old(o.text)
      ensures ok && value != "" ==> o.Uncached(objects)
    {
      hide Tree, Cache, AllCoherent, OneOwner, OwnedLive, AccountedFor, AllKept, CachedLive, Uses, Valid, Others, XMLObject.Uncached;
      Parts();
      CacheAll(objects, elements, {});
      ok := o.SetTextContent(value, position, objects, elements, {});
      CacheShrinks((objects, objects, elements));
      AliveWithout((objects, objects, {}));
      UsesNothing(objects);
      Whole();
    }

    method SetNil(o: XMLObject, value: Nil)
      requires Valid() == true && o in objects
      modifies objects`dom, o`nil
      ensures Valid() == true && (old(Live()) ==> Live() == true) && o.nil == value
      ensures value != old(o.nil) ==> o.Uncached(objects)
    {
      hide Tree, Cache, AllCoherent, OneOwner, OwnedLive, AccountedFor, AllKept, CachedLive, Uses, Valid, Others, XMLObject.Uncached;
      Parts();
      CacheAll(objects, elements, {});
      o.SetNil(value, objects, elements, {});
      CacheShrinks((objects, objects, elements));
      AliveWithout((objects, objects, {}));
      UsesNothing(objects);
      Whole();
    }

    method SetAttribute(o: XMLObject, q: QName, value: string, isId: bool)
      requires Valid() == true && o in objects
      modifies objects`dom, o`attributes, o`idAttribute, o`namespaces
      ensures Valid() == true && (old(Live()) ==> Live() == true) && o.attributes == WithAttribute(old(o.attributes), q, value)
      ensures o.attributes != old(o.attributes) ==> o.Uncached(objects)
      ensures forall i :: 0 <= i < |old(o.namespaces)| ==> i < |o.namespaces| && Grows(old(o.namespaces)[i], o.namespaces[i])
    {
      hide Tree, Cache, AllCoherent, OneOwner, OwnedLive, AccountedFor, AllKept, CachedLive, Uses, Valid, Others, XMLObject.Uncached;
      hide XMLObject.Kept, WithAttribute, Added;
      Parts();
      AddedGrows(o.namespaces, Namespace(q.prefix, q.uri, false, VisiblyUsed));
      CacheAll(objects, elements, {});
      KeptAt(o, objects);
      label Before: o.SetAttribute(q, value, isId, objects, elements, {});
      OneKept@Before((o, objects));
      CacheShrinks((objects, objects, elements));
      AliveWithout((objects, objects, {}));
      UsesNothing(objects);
      Whole();
    }

    // Child assignment.  That the new parent is not below the child is left to the caller.
    method Append(o: XMLObject, child: XMLObject) returns (ok: bool)
      requires Valid() == true && o in objects && child in objects && o !in child.desc
      modifies objects`dom, objects`desc, o`children, child`parent
      ensures Valid() == true && (old(Live()) ==> Live() == true)
      ensures ok <==> old(child.parent) == null
      ensures o.children == if ok then old(o.children) + [child] else old(o.children)
      ensures ok ==> child.parent == o && o.Uncached(objects) && child.desc == old(child.desc) && child.dom == old(child.dom)
      ensures ok ==> forall x :: x in objects ==> x.desc == if o in old(x.desc) then old(x.desc) + old(child.desc) else old(x.desc)
    {
      hide Tree, Cache, AllCoherent, OneOwner, OwnedLive, AccountedFor, AllKept, CachedLive, Uses, Valid, Others, XMLObject.Uncached;
      Parts();
      if child.parent != null {
        return false;
      }
      ghost var U := child.desc;
      RootApart(child, objects);
      assert (objects - U) + U == objects;
      AppendApart(o, child, objects);
      PartKept(child, objects, elements);
      ok := o.PushBack(child, objects - U, U, elements, {});
      CacheShrinks((objects, objects, elements));
      AliveWithout((objects, objects, {}));
      UsesNothing(objects);
      Whole();
    }

    // Assignment to a child slot, by its place among the children there are: a child it held is destroyed.
    method AssignChild(o: XMLObject, index: nat, filled: bool, value: XMLObject?) returns (ok: bool)
      requires Valid() == true && o in objects && (if filled then index < |o.children| else index <= |o.children|)
      requires value != null ==> value in objects && o !in value.desc
      modifies this`objects, objects`dom, objects`desc, objects`parent, o`children
      modifies (if filled then o.children[index].Docs() else {})`released
      ensures Valid() == true
      ensures ok <==> value == null || old(value.parent) == null
      ensures o.children == if !ok then old(o.children)
                            else old(o.children)[..index] + (if value == null then [] else [value])
                                 + old(o.children)[if filled then index + 1 else index..]
      ensures objects == if ok && filled then old(objects) - old(o.children[index].desc) else old(objects)
      ensures ok && value != null ==> value.parent == o
      ensures ok && (filled || value != null) ==> o.Uncached(objects) == true
      ensures forall x :: x in old(objects) && x !in objects && x.document != null ==> x.document.released
      ensures old(Live()) ==> (Live() <==> !ok || !filled || !Uses(objects, old(if filled then o.children[index].Docs() else {})))
    {
      hide Tree, AllCoherent, Cache, XMLObject.Uncached, OneOwner, OwnedLive;
      hide AccountedFor, XMLObject.Coherent, AllKept, CachedLive, Uses, Valid, Others;
      Parts();
      if value != null && value.parent != null {
        return false;
      }
      ghost var F, below, U, D := objects, o.SlotPart(index, filled), {}, elements;
      ghost var given := if filled then o.children[index].Docs() else {};
      if value == null {
        NoPart(F, D);
      } else {
        U := value.desc;
        PartKept(value, F, D);
      }
      if filled {
        var was := o.children[index];
        ChildPart(o, index, value, F);
        PartOwners(was, F);
        was.Destroy(F);
      }
      o.AssignSlot(index, filled, value, F - U, U, D);
      assert F - U - below + U == F - below;
      CacheShrinks((F, F - below, D));
      PartDestroyed((F, below, bound));
      AliveWithout((F, F - below, given));
      UsesNothing(F);
      FewerKept(F, F - below);
      objects := F - below;
      Whole();
      return true;
    }

    // The children list's erase: the child at an index is destroyed.  The object's own cached element is not
    // dropped, so the forest is as it should be afterwards exactly if there was none.
    method Erase(o: XMLObject, index: nat)
      requires Valid() == true && o in objects && index < |o.children|
      modifies this`objects, objects`dom, objects`desc, objects`parent, o`children, o.children[index].Docs()`released
      ensures Valid() == true <==> old(o.dom) == null
      ensures Others() == true && Tree(objects) == true && objects == old(objects) - old(o.children[index].desc)
      ensures o.children == old(o.children[..index] + o.children[index + 1..]) && o.dom == old(o.dom)
      ensures o.parent != null ==> o.parent.Uncached(objects) == true
      ensures forall x :: x in old(objects) && x !in objects && x.document != null ==> x.document.released
      ensures old(Live()) ==> (Live() <==> !Uses(objects, old(o.children[index].Docs())))
    {
      hide Tree, AllCoherent, Cache, OneOwner, OwnedLive, AccountedFor, XMLObject.Coherent, AllKept, CachedLive, Uses, Valid, Others;
      Parts();
      CacheAll(objects, elements, {});
      ghost var F, child := objects, o.children[index];
      ghost var below, given := child.desc, child.Docs();
      ChildPart(o, index, null, F);
      PartOwners(child, F);
      o.InDesc(index, F);
      o.Erase(index, F, elements);
      CacheErased((o, F, F - below, elements));
      PartDestroyed((F, below, bound));
      AliveWithout((F, F - below, given));
      FewerKept(F, F - below);
      objects := F - below;
      Whole();
    }

    lemma NoPart(F: set<XMLObject>, D: set<Element>)
      requires Cache(F, D, {}) == true
      ensures Tree({}) == true && AllCoherent({}, D, {}) == true && F - {} == F && AllCoherent(F, D, {}) == true
    {
    }

    // A child's part of the tree lies clear of a root's that the child's parent is not below.
    lemma ChildPart(o: XMLObject, index: nat, root: XMLObject?, F: set<XMLObject>)
      requires Tree(F) == true && o in F && index < |o.children|
      requires root != null ==> root in F && root.parent == null && o !in root.desc
      ensures o.children[index] in F && o.children[index].desc <= F
      ensures root != null ==> o.children[index].desc !! root.desc
    {
      assert o.TreeAt(F);
      assert o.children[index].TreeAt(F);
      if root != null {
        OutsideRoot(root, F, o);
      }
    }

    method New(name: QName, typ: Option<QName>) returns (o: XMLObject)
      requires Valid() == true
      modifies this`objects
      ensures Valid() == true && fresh(o) && objects == old(objects) + {o} && (old(Live()) ==> Live() == true)
      ensures o.name == name && o.typ == typ && o.dom == null && o.document == null && o.parent == null && o.children == [] && o.desc == {o}
      ensures o.text == [] && o.attributes == map[] && o.nil == NilNull && o.namespaces == InitialNamespaces(name, typ)
    {
      hide Tree, Cache, OneOwner, OwnedLive, AccountedFor, AllKept, CachedLive, Valid, Others, InitialNamespaces;
      Parts();
      o := new XMLObject(name, typ);
      AddTree(o, objects, elements);
      AddOther(o, objects, bound);
      objects := objects + {o};
      Whole();
    }

    // marshall(document); null asks for a new document that the object will own.
    method Marshall(o: XMLObject, document: Document?) returns (r: Element)
      requires Valid() == true && o in objects && Typed(o.desc)
      modifies this`elements, this`bound, objects`dom, objects`namespaces, elements, o`document
      modifies (if document == null then {} else {document})`root, o.Owned()`released
      ensures Valid() == true && o.dom == r && (o.parent != null ==> o.parent.Uncached(objects) == true)
      ensures forall e :: e in elements && e !in old(elements) ==> fresh(e)
      ensures Tree(objects) && DomSays(r, old(ContentOf(o, objects)), elements)
      ensures document != null ==> r.doc == document && document.DocumentElement() == r
      ensures old(o.dom) != null && (document == null || document == old(o.dom).doc) ==> r == old(o.dom) && o.document == old(o.document)
      ensures old(o.dom) == null && document == null ==> o.document == r.doc && fresh(r.doc) && r.doc.DocumentElement() == r
      ensures document == null && old(o.dom) != null ==> Same(old(Facts(objects)), Facts(objects), o.desc) == true
      ensures NewClad(objects, old(elements)) == true
      ensures (document != null || old(o.dom) == null) && old(AllPlain(o.desc)) == true ==>
                Laid(old(Facts(objects)), Facts(objects), o, objects, old(elements), null, []) == true
      ensures old(Live()) && (document != null ==> !document.released) ==>
                (Live() <==> !old(Uses(objects - o.desc, Replaced(o, document))))
      ensures forall x :: x in objects && x !in o.desc ==> x.dom == old(x.dom) || x.dom == null
    {
      hide Tree, Cache, OneOwner, OwnedLive, AccountedFor, ContentOf, DomSays, Typed, XMLObject.Uncached, CachedLive, Uses, Laid, Facts, AllPlain;
      hide Valid, Others, Same, Document.DocumentElement, Plainly, NewClad;
      Parts();
      BeforeMarshalling(o, objects, elements);
      ghost var given := Replaced(o, document);
      r := MarshallBinding(o, document);
      Parts();
      if o.parent != null {
        ParentUncached(o, objects, elements);
      }
      if old(Live()) && (document != null ==> !document.released) {
        RootAlive((o, objects, document, given), r);
        AliveAfter((o, objects, given), r);
        SameUses((o, objects, given));
      }
    }

    method MarshallBinding(o: XMLObject, document: Document?) returns (r: Element)
      requires Valid() == true && o in objects && Typed(o.desc) == true
      modifies this`elements, this`bound, objects`dom, objects`namespaces, elements, o`document
      modifies (if document == null then {} else {document})`root, o.Owned()`released
      ensures Valid() == true && o.dom == r && (o.parent != null ==> o.parent.dom == null)
      ensures forall e :: e in elements && e !in old(elements) ==> fresh(e)
      ensures DomSays(r, old(ContentOf(o, objects)), elements) == true
      ensures document != null ==> r.doc == document && document.DocumentElement() == r
      ensures old(o.dom) != null && (document == null || document == old(o.dom).doc) ==> r == old(o.dom) && o.document == old(o.document)
      ensures old(o.dom) == null && document == null ==> o.document == r.doc && fresh(r.doc) && r.doc.DocumentElement() == r
      ensures document == null && old(o.dom) != null ==> Same(old(Facts(objects)), Facts(objects), o.desc) == true
      ensures NewClad(objects, old(elements)) == true
      ensures (document != null || old(o.dom) == null) && old(AllPlain(o.desc)) == true ==>
                Laid(old(Facts(objects)), Facts(objects), o, objects, old(elements), null, []) == true
      ensures forall x :: x in objects && x !in o.desc ==> x.dom == old(x.dom) || (x.dom == null && o.desc <= x.desc)
      ensures forall x :: x in o.desc ==> x.dom != null && x.dom.doc == r.doc
      ensures old(o.document) != null && o.document != old(o.document) ==> old(o.document).released
      ensures document != null ==> o.document == old(o.document)
    {
      hide Tree, Cache, OneOwner, OwnedLive, AccountedFor, ContentOf, DomSays, Typed, Document.DocumentElement, Valid, Facts, Plainly, Laid;
      hide Rest, AllKept, AllPlain, CachedLive, Uses, Same, Others, NewClad;
      Parts();
      PlainBelow(o, objects);
      ghost var D;
      r, D := MarshallInDocument(o, document, objects, elements);
      KeptAndClad((objects, elements));
      AccountedRebound((o, objects, bound));
      elements, bound := D, bound + o.Owned();
      Whole();
    }

    // marshall(parentElement): under any element that is not part of the object's own.  Everything is in
    // step afterwards exactly if the object fitted in there.
    method MarshallInto(o: XMLObject, parentElement: Element, ghost up: seq<Element>) returns (r: Element)
      requires Valid() == true && o in objects && Typed(o.desc)
      requires up != [] && up[0] == parentElement && IsChain(parentElement, up) && forall e :: e in up ==> e in elements
      requires forall x :: x in o.desc && x.dom != null ==> x.dom !in up
      modifies this`elements, objects`dom, objects`namespaces, elements
      ensures Valid() <==> old(Fits(o, parentElement, objects))
      ensures o.dom == r && r.parent == parentElement && Others() == true
      ensures forall e :: e in elements && e !in old(elements) ==> fresh(e)
      ensures Valid() == true && o.parent != null ==> o.parent.Uncached(objects) == true || (r == old(o.dom) && old(r.parent) == parentElement)
      ensures Tree(objects) && DomSays(r, old(ContentOf(o, objects)), elements)
      ensures old(o.dom) != null && old(o.dom).doc == parentElement.doc ==> r == old(o.dom)
      ensures NewClad(objects, old(elements)) == true
      ensures old(AllPlain(o.desc)) == true ==>
                Laid(old(Facts(objects)), Facts(objects), o, objects, old(elements), parentElement, Scopes(up)) == true
      ensures old(Live()) && !parentElement.doc.released ==> Live()
    {
      hide Tree, Cache, OneOwner, OwnedLive, AccountedFor, ContentOf, DomSays;
      hide Typed, XMLObject.Uncached, Rest, Facts, Plainly, Laid, AllKept, AllPlain;
      hide CachedLive, Fits, Scopes, NewClad;
      BeforeMarshalling(o, objects, elements);
      ghost var D;
      r, D := MarshallInElement(o, parentElement, objects, elements, up);
      elements := D;
      KeptAndClad((objects, old(elements)));
      UsesNothing(objects - o.desc);
      if old(Live()) && !parentElement.doc.released {
        AliveAfter((o, objects, {}), r);
      }
      Whole();
      if Cache(objects, D, {}) && o.parent != null && o.parent.dom == null {
        ParentUncached(o, objects, D);
      }
    }

    // buildFromElement over a DOM tree no live object caches; bound, the object owns the document.  The
    // forest is as it should be afterwards, and what was built says what the element says, exactly if every
    // xsi:nil in the tree is written back as it was.
    method Build(e: Element, bind: bool, lookup: (Element, string) -> string, isId: Expanded -> bool,
                 ghost sh: Shape, ghost D: set<Element>)
      returns (o: XMLObject?)
      requires Valid() == true && elements <= D
      requires IsShape(sh, D) && sh.elem == e && Hung(e, D)
      requires forall x :: x in objects && x.dom != null ==> x.dom !in sh.below
      requires bind ==> !e.doc.released && e.doc.DocumentElement() == e && forall x :: x in objects ==> x.document != e.doc
      modifies this
      ensures Valid() == true <==> o == null || NilsWritable(sh.below)
      ensures Others() == true && Tree(objects) == true && elements == D
      ensures o != null <==> Supported(sh, D)
      ensures o == null ==> objects == old(objects)
      ensures o != null ==> fresh(o) && objects == old(objects) + o.desc && o.dom == e && o.parent == null
      ensures o != null ==> o in o.desc && o.document == (if bind then e.doc else null) && forall x :: x in o.desc && x != o ==> x.document == null
      ensures o != null ==> o.name == QName(e.uri, e.local, e.prefix)
      ensures o != null ==> forall x :: x in o.desc ==> x.dom != null && x.dom in sh.below && Matches(x) == true && NilRead(x) == true
      ensures o != null ==> o in objects && forall c :: DomSays(e, c, D) ==> (ContentOf(o, objects) == c <==> NilsWritable(sh.below))
      ensures old(Live()) && !e.doc.released ==> Live()
    {
      hide Tree, Cache, OneOwner, OwnedLive, AccountedFor, AllKept, ContentOf, DomSays, IsShape, Built;
      hide Supported, Matches, NilRead, CachedLive, Valid, Others, Hung, NilsWritable;
      Parts();
      CacheGrows(objects, elements, D);
      elements := D;
      o := BuildFromElement(e, lookup, isId, sh, D);
      if o != null {
        JoinBuilt(o, sh);
        OtherParts();
        if bind {
          Bind(o, e.doc);
        }
      }
      OthersAgain();
    }

    // What was built joins the forest.
    ghost method JoinBuilt(o: XMLObject, sh: Shape)
      requires Tree(objects) == true && Cache(objects, elements, {}) == true && Others() == true
      requires Built(o, sh, elements) == true && IsShape(sh, elements) == true && objects !! o.desc
      requires forall x :: x in objects && x.dom != null ==> x.dom !in sh.below
      modifies this`objects
      ensures objects == old(objects) + o.desc && o in o.desc && o.parent == null && o.dom == sh.elem && Tree(objects) == true && Others() == true
      ensures Cache(objects, elements, {}) == true <==> NilsWritable(sh.below)
      ensures forall x :: x in o.desc ==> x.document == null && x.dom != null && x.dom in sh.below && Matches(x) == true && NilRead(x) == true
      ensures forall c :: DomSays(sh.elem, c, elements) ==> (ContentOf(o, objects) == c <==> NilsWritable(sh.below))
      ensures old(Live()) && !sh.elem.doc.released ==> Live() == true
    {
      hide Tree, Cache, OneOwner, OwnedLive, AccountedFor, AllKept, ContentOf, DomSays, IsShape, Built, Matches, NilRead, CachedLive, Valid, Others;
      hide NilsWritable;
      OtherParts();
      JoinForest(o, sh, objects, elements);
      SaysContent(o, objects + o.desc, sh, elements);
      JoinYoung(o, sh, objects, elements);
      AliveJoined(objects, o.desc, sh.elem.doc);
      AccountedJoined(objects, o.desc, bound);
      objects := objects + o.desc;
      OthersAgain();
    }

    // unmarshall on any object; bound, the object owns the document and gives back the one it had.  It is
    // refused on an object that has an element or a parent.  Otherwise the forest is as it should be
    // afterwards exactly if every xsi:nil read below is written back as it was and, should it succeed, what
    // the object held before adds nothing to what the element says.
    method Unmarshall(o: XMLObject, e: Element, bind: bool, lookup: (Element, string) -> string, isId: Expanded -> bool,
                      ghost sh: Shape, ghost D: set<Element>)
      returns (ok: bool)
      requires Valid() == true && o in objects && elements <= D
      requires IsShape(sh, D) == true && sh.elem == e && Hung(e, D) == true
      requires forall x :: x in objects && x.dom != null ==> x.dom !in sh.below
      requires bind ==> !e.doc.released && e.doc.DocumentElement() == e && forall x :: x in objects ==> x.document != e.doc
      modifies this, objects`dom, objects`desc, o.Owned()`released
      modifies o`children, o`text, o`attributes, o`idAttribute, o`namespaces, o`nil, o`document
      ensures ok <==> old(o.dom) == null && old(o.parent) == null && Expanded(e.uri, e.local) == Expanded(o.name.uri, o.name.local)
                      && forall d :: d in sh.below ==> old(OtherNode !in d.kids)
      ensures ok <==> old(Accepts(o, e)) && Supported(sh, D)
      ensures Valid() <==> (old(Accepts(o, e)) ==> NilsWritable(Read(sh, D)) && (ok ==> old(AddsNothing(o, e))))
      ensures Others() == true && elements == D && old(objects) <= objects
      ensures ok ==> o.dom == e && o.document == if bind then e.doc else old(o.document)
      ensures ok ==> o.attributes == Overlaid(old(o.attributes), e.attrs, {})
      ensures old(Live()) && !e.doc.released ==>
                (Live() <==> !ok || !bind || !old(Uses(objects - {o}, o.Owned())))
    {
      hide Tree, Cache, OneOwner, OwnedLive, AccountedFor, AllKept, IsShape, Supported, XMLObject.Kept, AddsNothing, CachedLive, Uses, Hung;
      hide Valid, Others, Overlaid, NilsWritable, Read;
      Parts();
      SupportedExactly(sh, D);
      CacheGrows(objects, elements, D);
      elements := D;
      RootPart(o, objects, D);
      if o.parent != null {
        ghost var F := objects;
        label Before: ok := Unmarshalling.Unmarshall(o, e, lookup, isId, sh, D);
        Untouched@Before((o, F, bound, D));
        Whole();
      } else {
        ok := UnmarshallRoot(o, e, bind, lookup, isId, sh, D);
      }
    }

    method UnmarshallRoot(o: XMLObject, e: Element, bind: bool, lookup: (Element, string) -> string, isId: Expanded -> bool,
                          ghost sh: Shape, ghost D: set<Element>)
      returns (ok: bool)
      requires Tree(objects) == true && Cache(objects, D, {}) == true && Others() == true && o in objects && elements == D
      requires IsShape(sh, D) == true && sh.elem == e && Hung(e, D) == true && o.parent == null
      requires forall x :: x in objects && x.dom != null ==> x.dom !in sh.below
      requires bind ==> !e.doc.released && forall x :: x in objects ==> x.document != e.doc
      modifies this`objects, this`bound, objects`dom, objects`desc, o.Owned()`released
      modifies o`children, o`text, o`attributes, o`idAttribute, o`namespaces, o`nil, o`document
      ensures ok <==> old(Accepts(o, e)) && Supported(sh, D)
      ensures Valid() == true <==> (old(Accepts(o, e)) ==> NilsWritable(Read(sh, D)) && (ok ==> old(AddsNothing(o, e))))
      ensures Others() == true && old(objects) <= objects
      ensures ok ==> o.dom == e && o.document == if bind then e.doc else old(o.document)
      ensures ok ==> o.attributes == Overlaid(old(o.attributes), e.attrs, {})
      ensures old(Live()) && !e.doc.released ==> (Live() == true <==> !ok || !bind || !old(Uses(objects - {o}, o.Owned())))
    {
      hide Tree, Cache, OneOwner, OwnedLive, AccountedFor, AllKept, IsShape, Supported, AddsNothing, Accepts, CachedLive, Uses, Hung, Valid, Others;
      hide Overlaid, NilsWritable, Read;
      ghost var F, owned := objects, o.Owned();
      UsesNothing(F - {o});
      ok := ReadRoot(o, e, lookup, isId, sh, D);
      OtherParts();
      ghost var read, nils := Read(sh, D), NilsWritable(Read(sh, D));
      if ok && bind {
        Bind(o, e.doc);
      }
      assert Read(sh, D) == read && NilsWritable(read) == nils;
      OthersAgain();
      if !e.doc.released {
        AliveRead((o, F, sh, D, if ok && bind then owned else {}), objects);
      }
    }

    // unmarshall itself; what is new joins the forest.
    method ReadRoot(o: XMLObject, e: Element, lookup: (Element, string) -> string, isId: Expanded -> bool,
                    ghost sh: Shape, ghost D: set<Element>)
      returns (ok: bool)
      requires Tree(objects) == true && Cache(objects, D, {}) == true && Others() == true && o in objects && elements == D
      requires IsShape(sh, D) == true && sh.elem == e && Hung(e, D) == true && o.parent == null
      requires forall x :: x in objects && x.dom != null ==> x.dom !in sh.below
      modifies this`objects, objects`dom, objects`desc
      modifies o`children, o`text, o`attributes, o`idAttribute, o`namespaces, o`nil
      ensures ok <==> old(Accepts(o, e)) && Supported(sh, D)
      ensures Tree(objects) == true
      ensures Cache(objects, D, {}) == true <==> (old(Accepts(o, e)) ==> NilsWritable(Read(sh, D)) && (ok ==> old(AddsNothing(o, e))))
      ensures Others() == true && old(objects) <= objects && o.dom == if ok then e else old(o.dom)
      ensures ok ==> o.attributes == Overlaid(old(o.attributes), e.attrs, {})
      ensures forall x :: x in old(objects) && x != o ==> x.dom == old(x.dom)
      ensures forall x :: x in objects && x !in old(objects) ==> x.dom != null && x.dom in sh.below && x.document == null
    {
      hide Tree, Cache, OneOwner, OwnedLive, AccountedFor, AllKept, IsShape, Supported, Young, XMLObject.Kept, AddsNothing, Accepts, Hung;
      hide NamesPlain, Plain, Others, Overlaid, OverlaidNil, TextRead, NilsWritable, Read, Misread, SameNils;
      ghost var F, S := objects, o.desc;
      OtherParts();
      RootPart(o, F, D);
      ok := Unmarshalling.Unmarshall(o, e, lookup, isId, sh, D);
      ShapeTop(sh, D);
      RootRead((o, F, S, sh, D));
      KeptRead((o, F, S, sh));
      OwnersRead((o, F, S, bound, sh));
      YoungCached(o.desc - S, sh);
      objects := F - S + o.desc;
      OthersAgain();
    }

    lemma OthersAgain()
      requires OneOwner(objects) == true && OwnedLive(objects) == true && AccountedFor(objects, bound) == true && AllKept(objects) == true
      ensures Others() == true && (Tree(objects) == true ==> (Valid() == true <==> Cache(objects, elements, {}) == true))
    {
    }

    // setDocument: the document owned before is given back.
    method Bind(o: XMLObject, doc: Document)
      requires OneOwner(objects) == true && OwnedLive(objects) == true && AccountedFor(objects, bound) == true
      requires o in objects && !doc.released && forall x :: x in objects ==> x.document != doc
      modifies this`bound, o`document, o.Owned()`released
      ensures OneOwner(objects) == true && OwnedLive(objects) == true && AccountedFor(objects, bound) == true
      ensures o.document == doc && (old(o.document) != null ==> old(o.document).released)
    {
      hide OneOwner, OwnedLive, AccountedFor;
      NotBound(objects, bound, doc);
      BindDocument(o, doc, objects);
      AccountedRebound((o, objects, bound));
      bound := bound + {doc};
    }

    lemma OtherParts()
      requires Others() == true
      ensures OneOwner(objects) == true && OwnedLive(objects) == true && AccountedFor(objects, bound) == true && AllKept(objects) == true
    {
    }

    // detach: from a root only.  The object keeps its tree and takes over its parent's document; the
    // rest of the tree is destroyed, and with it every document owned there.  What the object cached in a
    // document given up on the way is left dangling.
    method Detach(o: XMLObject) returns (ok: bool)
      requires Valid() == true && o in objects
      modifies this`objects, objects`parent, objects`children, objects`desc, objects`document
      modifies (set x | x in objects && x.document != null :: x.document)`released
      ensures Valid() == true && objects <= old(objects) && o in objects
      ensures ok <==> old(o.parent) == null || old(o.parent.parent) == null
      ensures !ok || old(o.parent) == null ==> objects == old(objects) && o.document == old(o.document)
      ensures ok && old(o.parent) != null ==> o.parent == null && o.desc == old(o.desc)
      ensures ok && old(o.parent) != null ==> objects == old(objects) - (old(o.parent.desc) - old(o.desc))
      ensures ok && old(o.parent) != null ==>
                o.document == if old(o.parent.document) != null then old(o.parent.document) else old(o.document)
      ensures forall x :: x in old(objects) && x !in objects && x.document != null ==> x.document.released
      ensures forall x :: x in objects ==> x.dom == old(x.dom) && (x != o ==> x.document == old(x.document))
      ensures old(Live()) ==> (Live() <==> !ok || !old(Uses(objects - LeftBehind(o), GivenUp(o))))
    {
      hide CachedLive, Uses, GivenUp, LeftBehind, Valid, Others, Tree, Cache, AllCoherent, OneOwner, OwnedLive, AccountedFor, AllKept;
      if o.parent == null || o.parent.parent != null {
        Parts();
        CacheAll(objects, elements, {});
        RootGivesNothing(o, objects);
        label Before: ok := o.Detach(objects, elements);
        StillOwned@Before(objects);
        Untouched@Before((o, objects, bound, elements));
        AliveWithout@Before((objects, objects, {}));
        UsesNothing(objects);
        Whole();
      } else {
        DetachChild(o);
        ok := true;
      }
    }

    method DetachChild(o: XMLObject)
      requires Valid() == true && o in objects && o.parent != null && o.parent.parent == null
      modifies this`objects, objects`parent, objects`children, objects`desc, objects`document
      modifies (set x | x in objects && x.document != null :: x.document)`released
      ensures Valid() == true && o in objects && o.parent == null && o.desc == old(o.desc)
      ensures objects == old(objects) - (old(o.parent.desc) - old(o.desc))
      ensures o.document == if old(o.parent.document) != null then old(o.parent.document) else old(o.document)
      ensures forall x :: x in old(objects) && x !in objects && x.document != null ==> x.document.released
      ensures forall x :: x in objects ==> x.dom == old(x.dom) && (x != o ==> x.document == old(x.document))
      ensures old(Live()) ==> (Live() <==> !old(Uses(objects - LeftBehind(o), GivenUp(o))))
    {
      hide Tree, Cache, AllCoherent, OneOwner, OwnedLive, AccountedFor, AllKept, CachedLive, Uses, GivenUp, LeftBehind, Valid, Others;
      Parts();
      ghost var F, p, S, D := objects, o.parent, o.parent.desc, elements;
      ghost var i := o.InParent(F);
      PartKept(p, F, D);
      PartOwners(p, F);
      LeftPart(o, F);
      label Before: var ok := o.Detach(S, D);
      JoinParts(F - S, o.desc, D);
      CacheShrinks((F, F - S + o.desc, D));
      OwnersDetached((o, p, F, S, bound));
      AccountedDetached((o, p, F, S, bound));
      AliveDetached@Before((o, p, F, S));
      FewerKept(F, F - S + o.desc);
      assert F - (S - o.desc) == F - S + o.desc;
      objects := F - S + o.desc;
      Whole();
    }
  }

  // What marshalling did to prefixes, for a caller.  At every new element, whatever was reused beside or
  // below it, every entry of the object's namespace set means its own URI along the real parent pointers, and
  // so does the prefix the element itself carries, and each attribute's if the set has it for that URI.
  // And if the subtrees that were reused had their prefixes in order where they were, under declarations
  // `was`, the whole subtree has exactly if each of them finds the prefixes it looks up unchanged.
  lemma MarshalledPrefixes(f: Forest, before: map<XMLObject, Fact>, known: set<Element>, o: XMLObject, up: seq<Element>)
    requires Tree(f.objects) == true && o in f.objects && IsChain(if up == [] then null else up[0], up)
    requires Laid(before, Facts(f.objects), o, f.objects, known, if up == [] then null else up[0], Scopes(up)) == true
    requires forall y :: y in before && before[y].dom != null ==> before[y].dom in known
    requires NewClad(f.objects, known) == true && AllKept(f.objects) == true
    ensures forall x :: x in o.desc && x in f.objects && x.dom != null && x.dom !in known ==>
              exists chain :: NamedAlong(x, chain)
    ensures forall was :: WereDeclared(before, Facts(f.objects), o, f.objects, was) ==>
              (Declared(Facts(f.objects), o, f.objects, if up == [] then null else up[0], Scopes(up)) <==>
                 AllAgree(before, Facts(f.objects), o, f.objects, was, Scopes(up)))
  {
    hide Tree, Laid, Facts, Scopes, NamedAlong, NewClad, AllKept;
    var S, above := f.objects, if up == [] then null else up[0];
    forall x | x in o.desc && x in f.objects && x.dom != null && x.dom !in known {
      NewResolved(before, known, o, S, up, x);
    }
    forall was | WereDeclared(before, Facts(S), o, S, was)
      ensures Declared(Facts(S), o, S, above, Scopes(up)) <==> AllAgree(before, Facts(S), o, S, was, Scopes(up))
    {
      LaidKeepsMeaning(before, Facts(S), o, S, known, above, Scopes(up), was);
    }
  }

  // The rest of the tree of a detached child of a root.
  ghost function LeftBehind(o: XMLObject): set<XMLObject>
    reads o`parent, o`desc, (if o.parent == null then {} else {o.parent})`desc
  {
    if o.parent == null then {} else o.parent.desc - o.desc
  }

  // The documents nobody owns any more once a child of a root is detached: those of the rest of the tree,
  // but for the root's, which the child takes over, and then the child's own.
  ghost function GivenUp(o: XMLObject): set<Document>
    reads o`parent, o`desc, o`document, (if o.parent == null then {} else {o.parent})`desc
    reads (if o.parent == null then {} else {o.parent})`document, LeftBehind(o)`document
  {
    (set y | y in LeftBehind(o) && y != o.parent && y.document != null :: y.document)
    + (if o.parent != null && o.parent.document != null then o.Owned() else {})
  }

  // The document a marshalled object gives back for the one it is about to make.
  ghost function Replaced(o: XMLObject, document: Document?): set<Document>
    reads o`dom, o`document
  {
    if o.dom == null && document == null then o.Owned() else {}
  }

  // No cached element belongs to a document that was given back.
  ghost predicate CachedLive(S: set<XMLObject>)
    reads S`dom, (set x | x in S && x.dom != null :: x.dom.doc)`released
  {
    forall x :: x in S && x.dom != null ==> !x.dom.doc.released
  }

  // Somebody caches an element of one of these documents.
  ghost predicate Uses(S: set<XMLObject>, docs: set<Document>)
    reads S`dom
  {
    exists x :: x in S && x.dom != null && x.dom.doc in docs
  }

  lemma UsesNothing(S: set<XMLObject>)
    ensures !Uses(S, {})
  {
  }

  lemma FewerKept(F: set<XMLObject>, S: set<XMLObject>)
    requires AllKept(F) == true && S <= F
    ensures AllKept(S) == true
  {
  }

  lemma KeptAt(o: XMLObject, F: set<XMLObject>)
    requires AllKept(F) == true && o in F
    ensures o.Kept() == true
  {
  }

  twostate lemma OneKept(w: (XMLObject, set<XMLObject>))
    requires old(AllKept(w.1)) == true && w.0.Kept() == true
    requires forall x :: x in w.1 && x != w.0 ==> unchanged(x`namespaces, x`attributes, x`idAttribute)
    ensures AllKept(w.1) == true
  {
    forall x | x in w.1 ensures x.Kept() {
      if x != w.0 { assert old(x.Kept()); }
    }
  }

  lemma AllReleased(F: set<XMLObject>, bound: set<Document>)
    requires AccountedFor(F, bound) == true
    ensures F == {} ==> forall d :: d in bound ==> d.released
  {
  }

  // Part of the forest went and caches were dropped; only w.0 may be out of step.
  twostate lemma CacheErased(w: (XMLObject, set<XMLObject>, set<XMLObject>, set<Element>))
    requires old(Cache(w.1, w.3, {})) == true && w.0 in w.2 && w.2 <= w.1 && AllCoherent(w.2, w.3, {w.0}) == true
    requires forall x :: x in w.2 ==> x.dom == old(x.dom) || x.dom == null
    requires forall e :: e in w.3 ==> unchanged(e)
    ensures Cache(w.2, w.3, {}) == true <==> w.0.Coherent(w.3) == true
  {
    var (o, F, S, D) := w;
    forall x | x in S && x.dom != null ensures x.dom in D && Hung(x.dom, D) {
      assert old(Hung(x.dom, D));
    }
  }

  lemma InTree(o: XMLObject, F: set<XMLObject>)
    requires Tree(F) == true && o in F
    ensures o in o.desc && o.desc <= F && (o.parent != null ==> o.parent in F && o in o.parent.children)
  {
    assert o.TreeAt(F);
  }

  // A parent is in step with a child that has no element exactly if it has none itself.
  lemma ParentHole(o: XMLObject, F: set<XMLObject>, D: set<Element>)
    requires Cache(F, D, o.Hole({})) == true && o in F && o.dom == null
    requires o.parent != null ==> o.parent in F && o in o.parent.children
    ensures Cache(F, D, {}) == true <==> o.parent == null || o.parent.dom == null
  {
    hide XMLObject.Says, Hung;
    if o.parent != null && Cache(F, D, {}) {
      assert o.parent.Coherent(D);
    }
    if o.parent != null && o.parent.dom == null {
      o.parent.Bare(D);
    }
  }

  // Caches were dropped and the documents of w.2 given back.
  twostate lemma AliveWithout(w: (set<XMLObject>, set<XMLObject>, set<Document>))
    requires w.1 <= w.0 && forall x :: x in w.1 ==> x.dom == old(x.dom) || x.dom == null
    requires forall x :: x in w.1 && x.dom != null ==> (x.dom.doc.released <==> old(x.dom.doc.released) || x.dom.doc in w.2)
    ensures old(CachedLive(w.0)) ==> (CachedLive(w.1) <==> !Uses(w.1, w.2))
  {
    assert forall x :: x in w.1 && x.dom != null ==> old(x.dom) == x.dom;
  }

  // After marshalling o all of it is in r's document, and the documents of w.2 were given back.
  twostate lemma AliveAfter(w: (XMLObject, set<XMLObject>, set<Document>), new r: Element)
    requires w.0.desc <= w.1 && !r.doc.released && forall x :: x in w.0.desc ==> x.dom != null && x.dom.doc == r.doc
    requires forall x :: x in w.1 && x !in w.0.desc ==> x.dom == old(x.dom) || x.dom == null
    requires forall x :: x in w.1 && x !in w.0.desc && x.dom != null ==>
               (x.dom.doc.released <==> old(x.dom.doc.released) || x.dom.doc in w.2)
    ensures old(CachedLive(w.1)) ==> (CachedLive(w.1) <==> !Uses(w.1 - w.0.desc, w.2))
  {
    var (o, F, R) := w;
    assert forall x :: x in F && x !in o.desc && x.dom != null ==> old(x.dom) == x.dom;
    assert forall x :: x in F - o.desc ==> x in F;
  }

  // The element marshalled is in a live document, and of the others only the one given up was given back.
  twostate lemma RootAlive(w: (XMLObject, set<XMLObject>, Document?, set<Document>), new r: Element)
    requires w.0 in w.1 && old(OwnedLive(w.1)) == true && OwnedLive(w.1) == true && old(CachedLive(w.1)) == true
    requires w.2 != null ==> !w.2.released && r.doc == w.2 && w.0.document == old(w.0.document)
    requires w.2 == null && old(w.0.dom) == null ==> w.0.document == r.doc && (old(w.0.document) != null ==> old(w.0.document).released)
    requires w.2 == null && old(w.0.dom) != null ==> r == old(w.0.dom) && w.0.document == old(w.0.document)
    requires w.3 == old(Replaced(w.0, w.2))
    requires forall x :: x in w.1 && old(x.dom) != null && old(x.dom).doc != old(w.0.document) ==>
               old(x.dom).doc.released == old(x.dom.doc.released)
    ensures !r.doc.released
    ensures forall x :: x in w.1 && old(x.dom) != null ==>
              (old(x.dom).doc.released <==> old(x.dom.doc.released) || old(x.dom).doc in w.3)
  {
  }

  // Nobody else lost an element, as long as there was none above.
  twostate lemma SameUses(w: (XMLObject, set<XMLObject>, set<Document>))
    requires w.0.desc == old(w.0.desc)
    requires forall x :: x in w.1 && x !in w.0.desc ==> x.dom == old(x.dom) || (x.dom == null && w.0 in x.desc)
    requires old(w.0.dom) == null ==> forall x :: x in w.1 && w.0 in x.desc ==> old(x.dom) == null
    ensures old(w.0.dom) == null || w.2 == {} ==> (Uses(w.1 - w.0.desc, w.2) <==> old(Uses(w.1 - w.0.desc, w.2)))
  {
    var (o, F, R) := w;
    if old(o.dom) == null {
      assert forall x :: x in F - o.desc ==> x.dom == old(x.dom);
    }
  }

  // What there is to know before marshalling.
  lemma BeforeMarshalling(o: XMLObject, F: set<XMLObject>, D: set<Element>)
    requires Tree(F) == true && Cache(F, D, {}) == true && o in F
    ensures o in o.desc && o.desc <= F && (o.dom == null ==> forall x :: x in F && o in x.desc ==> x.dom == null)
    ensures AllPlain(o.desc) == true ==> Plainly(Facts(F), o.desc) == true
  {
    PlainBelow(o, F);
    if o.dom == null { o.UncachedAbove(F, D); }
    if AllPlain(o.desc) { PlainFacts(F, o.desc); }
  }

  lemma PlainBelow(o: XMLObject, F: set<XMLObject>)
    requires Tree(F) == true && o in F
    ensures o in o.desc && o.desc <= F && (AllPlain(o.desc) == true ==> Plainly(Facts(F), o.desc) == true)
  {
    assert o.TreeAt(F);
    if AllPlain(o.desc) { PlainFacts(F, o.desc); }
  }

  // Marshalling keeps namespace sets fit for their objects, and new elements carry their names.
  twostate lemma KeptAndClad(w: (set<XMLObject>, set<Element>))
    requires old(AllKept(w.0)) == true && old(Cache(w.0, w.1, {})) == true && Rest(old(Facts(w.0)), Facts(w.0), w.0) == true
    requires unchanged(w.0`attributes, w.0`idAttribute)
    ensures AllKept(w.0) == true && NewClad(w.0, w.1) == true
  {
    hide AllKept, Rest, NewClad, AllCoherent;
    KeptAfter(w.0);
    CladAfter(old(Facts(w.0)), w.0, w.1);
  }

  // A bound document has been given back exactly when nobody owns it any more.
  ghost predicate AccountedFor(F: set<XMLObject>, bound: set<Document>)
    reads F`document, bound`released
  {
    && (forall o :: o in F && o.document != null ==> o.document in bound)
    && (forall d :: d in bound ==> (d.released <==> forall o :: o in F ==> o.document != d))
  }

  // Detaching o from its parent p: p's document changes hands, the others owned in the destroyed
  // part S - o.desc are given back, and so is the one o owned if it took over another.
  twostate lemma AccountedDetached(w: (XMLObject, XMLObject, set<XMLObject>, set<XMLObject>, set<Document>))
    requires old(AccountedFor(w.2, w.4)) == true && old(OneOwner(w.2)) == true
    requires w.0 in w.0.desc && w.0.desc <= w.3 <= w.2 && w.1 in w.3 && w.1 !in w.0.desc
    requires w.0.document == if old(w.1.document) != null then old(w.1.document) else old(w.0.document)
    requires old(w.0.document) != null && w.0.document != old(w.0.document) ==> old(w.0.document).released
    requires forall x :: x in w.2 && x != w.0 && x != w.1 ==> x.document == old(x.document)
    requires forall x :: x in w.3 && x !in w.0.desc && x.document != null ==> x.document.released
    requires forall d :: d in w.4 && (forall x :: x in w.3 ==> old(x.document) != d) ==> d.released == old(d.released)
    requires OwnedLive(w.2 - w.3 + w.0.desc) == true
    ensures AccountedFor(w.2 - w.3 + w.0.desc, w.4) == true
  {
  }

  // o may have come to own another document, giving back the one it had.
  twostate lemma AccountedRebound(w: (XMLObject, set<XMLObject>, set<Document>))
    requires old(AccountedFor(w.1, w.2)) == true && OwnedLive(w.1) == true && old(OneOwner(w.1)) == true && w.0 in w.1
    requires forall x :: x in w.1 && x != w.0 ==> x.document == old(x.document)
    requires w.0.document != old(w.0.document) ==> w.0.document != null && w.0.document !in w.2
    requires w.0.document != old(w.0.document) && old(w.0.document) != null ==> old(w.0.document).released
    requires forall d :: d in w.2 && d != old(w.0.document) ==> d.released == old(d.released)
    ensures AccountedFor(w.1, w.2 + w.0.Owned()) == true
  {
  }

  lemma PartOwners(root: XMLObject, F: set<XMLObject>)
    requires OneOwner(F) == true && OwnedLive(F) == true && root.desc <= F
    ensures OneOwner(root.desc) == true && OwnedLive(root.desc) == true
    ensures forall x :: x in F && x !in root.desc && x.document != null ==> x.document !in root.Docs()
  {
  }

  twostate lemma OwnersDetached(w: (XMLObject, XMLObject, set<XMLObject>, set<XMLObject>, set<Document>))
    requires old(OneOwner(w.2)) == true && old(OwnedLive(w.2)) == true
    requires w.0 in w.0.desc && w.0.desc <= w.3 <= w.2 && w.1 in w.3 && w.1 !in w.0.desc
    requires w.0.document == if old(w.1.document) != null then old(w.1.document) else old(w.0.document)
    requires forall x :: x in w.2 && x != w.0 && x != w.1 ==> x.document == old(x.document)
    requires OwnedLive(w.0.desc) == true
    requires forall x :: x in w.2 && x !in w.3 && x.document != null ==> x.document.released == old(x.document.released)
    ensures OneOwner(w.2 - w.3 + w.0.desc) == true && OwnedLive(w.2 - w.3 + w.0.desc) == true
  {
  }

  // A part of the forest was destroyed, and the documents owned in it were given back.
  twostate lemma PartDestroyed(w: (set<XMLObject>, set<XMLObject>, set<Document>))
    requires old(OneOwner(w.0)) == true && old(OwnedLive(w.0)) == true && old(AccountedFor(w.0, w.2)) == true
    requires w.1 <= w.0 && forall x :: x in w.0 ==> x.document == old(x.document)
    requires forall x :: x in w.1 && x.document != null ==> x.document.released
    requires forall d :: d in w.2 && (forall x :: x in w.1 ==> old(x.document) != d) ==> d.released == old(d.released)
    ensures OneOwner(w.0 - w.1) == true && OwnedLive(w.0 - w.1) == true
    ensures AccountedFor(w.0 - w.1, w.2) == true
  {
  }

  // A root's tree and the rest of the forest are forests of their own.
  lemma RootApart(root: XMLObject, F: set<XMLObject>)
    requires Tree(F) && root in F && root.parent == null
    ensures root in root.desc && root.desc <= F && Tree(root.desc) && Tree(F - root.desc)
  {
    assert root.TreeAt(F);
    root.Subtree(F);
    forall o | o in F - root.desc ensures o.TreeAt(F - root.desc) {
      OutsideRoot(root, F, o);
    }
  }

  lemma OutsideRoot(root: XMLObject, F: set<XMLObject>, o: XMLObject)
    requires Tree(F) && root in F && root.parent == null && o in F && o !in root.desc
    ensures o.desc !! root.desc && (o.parent != null ==> o.parent !in root.desc)
  {
    root.TreeApart(F);
    assert o.TreeAt(F) && root.TreeAt(F);
  }

  lemma PartKept(root: XMLObject, F: set<XMLObject>, D: set<Element>)
    requires Tree(F) == true && Cache(F, D, {}) == true && root in F && root.parent == null
    ensures root in root.desc && root.desc <= F && Tree(root.desc) == true && Tree(F - root.desc) == true
    ensures AllCoherent(root.desc, D, {}) == true && AllCoherent(F - root.desc, D, {}) == true
  {
    RootApart(root, F);
    ClosedDown(root.desc);
    ClosedDown(F - root.desc);
  }

  lemma JoinParts(A: set<XMLObject>, B: set<XMLObject>, D: set<Element>)
    requires Tree(A) == true && Tree(B) == true && AllCoherent(A, D, {}) == true && AllCoherent(B, D, {}) == true
    ensures Tree(A + B) == true && AllCoherent(A + B, D, {}) == true
  {
    forall x | x in A + B ensures x.TreeAt(A + B) {
      assert x.TreeAt(if x in A then A else B);
    }
  }

  // A new single object joins the forest.
  lemma AddTree(o: XMLObject, F: set<XMLObject>, D: set<Element>)
    requires Tree(F) == true && Cache(F, D, {}) == true
    requires o.desc == {o} && o.children == [] && o.parent == null && o.dom == null
    ensures Tree(F + {o}) == true && Cache(F + {o}, D, {}) == true
  {
    forall x | x in F + {o} ensures x.TreeAt(F + {o}) {
      if x in F { assert x.TreeAt(F); }
    }
    forall x | x in F + {o} ensures x.Coherent(D) {
      if x in F { assert x.Coherent(D); }
    }
  }

  lemma AddOther(o: XMLObject, F: set<XMLObject>, bound: set<Document>)
    requires OneOwner(F) == true && OwnedLive(F) == true && AccountedFor(F, bound) == true && AllKept(F) == true
    requires o.dom == null && o.document == null && o.Kept()
    ensures OneOwner(F + {o}) == true && OwnedLive(F + {o}) == true && AccountedFor(F + {o}, bound) == true
    ensures AllKept(F + {o}) == true && (CachedLive(F) ==> CachedLive(F + {o}))
  {
    hide XMLObject.Kept;
  }

  lemma ParentUncached(o: XMLObject, F: set<XMLObject>, D: set<Element>)
    requires Tree(F) == true && Cache(F, D, {}) == true && o in F && o.parent != null && o.parent.dom == null
    ensures o.parent.Uncached(F) == true
  {
    assert o.TreeAt(F);
    o.parent.UncachedAbove(F, D);
  }

  // More elements than anyone caches do no harm.
  lemma CacheGrows(F: set<XMLObject>, D: set<Element>, D': set<Element>)
    requires Cache(F, D, {}) == true && D <= D'
    ensures Cache(F, D', {}) == true
  {
    forall x | x in F ensures x.Coherent(D') {
      assert x.Coherent(D);
    }
    forall x | x in F && x.dom != null ensures Hung(x.dom, D') {
      assert Hung(x.dom, D);
    }
  }

  // A built tree joins the forest, in step but for xsi:nil.
  lemma JoinForest(o: XMLObject, sh: Shape, F: set<XMLObject>, D: set<Element>)
    requires Tree(F) == true && Cache(F, D, {}) == true
    requires Built(o, sh, D) == true && F !! o.desc && forall x :: x in F && x.dom != null ==> x.dom !in sh.below
    ensures Tree(F + o.desc) == true && o in o.desc && o.parent == null && o.dom == sh.elem
    ensures Cache(F + o.desc, D, Misread(o.desc)) == true
    ensures Cache(F + o.desc, D, {}) == true <==> NilsWritable(sh.below)
  {
    hide Tree, Cache, Young, Misread, SameNils, NilsWritable;
    TreesJoin(F, o.desc);
    YoungIn(o.desc, sh.below, sh.below);
    CachesJoin(F, o.desc, D, Misread(o.desc));
    MisreadOnly(o.desc, o.desc, D, sh.below, sh.below);
  }

  lemma JoinYoung(o: XMLObject, sh: Shape, F: set<XMLObject>, D: set<Element>)
    requires Built(o, sh, D) == true && IsShape(sh, D) == true
    requires OneOwner(F) == true && OwnedLive(F) == true && AllKept(F) == true
    ensures OneOwner(F + o.desc) == true && OwnedLive(F + o.desc) == true && AllKept(F + o.desc) == true
    ensures forall x :: x in o.desc ==>
              x.document == null && x.dom != null && x.dom in sh.below && x.dom.doc == sh.elem.doc && Matches(x) == true && NilRead(x) == true
  {
    hide Tree, Cache, XMLObject.Kept, Matches, NilRead;
    assert forall x :: x in o.desc ==> Young(x, sh.below);
  }

  lemma AccountedJoined(F: set<XMLObject>, T: set<XMLObject>, bound: set<Document>)
    requires AccountedFor(F, bound) == true && forall x :: x in T ==> x.document == null
    ensures AccountedFor(F + T, bound) == true
  {
  }

  lemma AliveJoined(F: set<XMLObject>, T: set<XMLObject>, doc: Document)
    requires forall x :: x in T ==> x.dom != null && x.dom.doc == doc
    ensures CachedLive(F) && !doc.released ==> CachedLive(F + T)
  {
  }

  lemma SaysContent(o: XMLObject, F: set<XMLObject>, sh: Shape, D: set<Element>)
    requires Tree(F) == true && Cache(F, D, Misread(o.desc)) == true && o in F && Built(o, sh, D) == true
    ensures forall c :: DomSays(sh.elem, c, D) ==> (ContentOf(o, F) == c <==> NilsWritable(sh.below))
  {
    hide Tree, Cache, Young, Misread, SameNils, NilsWritable, ContentOf, DomSays;
    CacheAll(F, D, Misread(o.desc));
    forall c | DomSays(sh.elem, c, D) ensures ContentOf(o, F) == c <==> NilsWritable(sh.below) {
      BuiltSays(o, F, D, sh.below, c);
    }
  }

  // Putting a root's tree below an object leaves the root's own part as it was.
  lemma AppendApart(o: XMLObject, child: XMLObject, F: set<XMLObject>)
    requires Tree(F) == true && o in F && child in F && child.parent == null && o !in child.desc
    ensures child in child.desc && forall x :: x in child.desc ==> x in F && o !in x.desc
    ensures forall x :: x in F && x !in child.desc ==> x.desc !! child.desc
  {
    assert child.TreeAt(F);
    forall x | x in child.desc ensures o !in x.desc {
      assert x.TreeAt(F);
    }
    forall x | x in F && x !in child.desc ensures x.desc !! child.desc {
      OutsideRoot(child, F, x);
    }
  }

  // A root's tree by itself, before something is read into it.
  lemma RootPart(o: XMLObject, F: set<XMLObject>, D: set<Element>)
    requires Tree(F) == true && Cache(F, D, {}) == true && AllKept(F) == true && o in F
    ensures o in o.desc && o.desc <= F && o.Kept() == true
    ensures o.parent == null ==> Tree(o.desc) == true && Cache(o.desc, D, {}) == true && Tree(F - o.desc) == true
  {
    assert o.TreeAt(F);
    if o.parent == null {
      PartKept(o, F, D);
    }
  }

  // A tree was read into a root: what was and what is new are one forest.
  twostate lemma RootRead(w: (XMLObject, set<XMLObject>, set<XMLObject>, Shape, set<Element>))
    requires w.0 in w.2 && w.2 == old(w.0.desc) && w.2 <= w.1 && w.2 <= w.0.desc && old(Tree(w.1 - w.2)) == true
    requires old(Cache(w.1, w.4, {})) == true && Tree(w.0.desc) == true && Cache(w.0.desc, w.4, Misread(w.0.desc - w.2) + {w.0}) == true
    requires w.3.elem in w.3.below && forall x :: x in w.1 && old(x.dom) != null ==> old(x.dom) !in w.3.below
    requires forall x :: x in w.0.desc && x !in w.2 ==> x !in w.1 && Young(x, w.3.below) == true
    requires w.0.dom == old(w.0.dom) || w.0.dom == w.3.elem
    requires forall x :: x in w.2 && x != w.0 ==> x.dom == old(x.dom)
    requires forall x :: x in w.1 && x !in w.2 ==> unchanged(x)
    requires forall e :: e in w.4 ==> unchanged(e)
    ensures Tree(w.1 - w.2 + w.0.desc) == true
    ensures Cache(w.1 - w.2 + w.0.desc, w.4, {}) == true <==> Cache(w.0.desc, w.4, {}) == true
  {
    RestSteady((w.1, w.1 - w.2, w.4));
    ReadApart(w);
    hide Tree, Cache, Young, Misread;
    TreesJoin(w.1 - w.2, w.0.desc);
    CachesJoin(w.1 - w.2, w.0.desc, w.4, Misread(w.0.desc - w.2) + {w.0});
  }

  lemma LeftPart(o: XMLObject, F: set<XMLObject>)
    requires o.parent != null && o.desc <= o.parent.desc <= F
    ensures F - LeftBehind(o) == F - o.parent.desc + o.desc
  {
  }

  lemma RootGivesNothing(o: XMLObject, F: set<XMLObject>)
    ensures o.parent == null ==> GivenUp(o) == {} && !Uses(F - LeftBehind(o), GivenUp(o))
  {
  }

  // What is owned as before and not given back was not given back before.
  twostate lemma StillOwned(F: set<XMLObject>)
    requires old(OwnedLive(F)) == true && OwnedLive(F) == true && unchanged(F`document)
    ensures forall x :: x in F && x.document != null ==> x.document.released == old(x.document.released)
  {
  }

  // Nothing happened to the objects.
  twostate lemma Untouched(w: (XMLObject, set<XMLObject>, set<Document>, set<Element>))
    requires old(Tree(w.1)) == true && old(Cache(w.1, w.3, {})) == true && old(AllKept(w.1)) == true
    requires old(OneOwner(w.1)) == true && old(OwnedLive(w.1)) == true && old(AccountedFor(w.1, w.2)) == true
    requires forall x :: x in w.1 ==> unchanged(x) && (x.document != null ==> x.document.released == old(x.document.released))
    requires (forall e :: e in w.3 ==> unchanged(e)) && forall d :: d in w.2 ==> d.released == old(d.released)
    ensures Tree(w.1) == true && Cache(w.1, w.3, {}) == true && AllKept(w.1) == true
    ensures OneOwner(w.1) == true && OwnedLive(w.1) == true && AccountedFor(w.1, w.2) == true
  {
  }

  // A live document nobody owns was never bound.
  lemma NotBound(F: set<XMLObject>, bound: set<Document>, d: Document)
    requires AccountedFor(F, bound) == true && !d.released && forall x :: x in F ==> x.document != d
    ensures d !in bound
  {
  }

  lemma YoungCached(T: set<XMLObject>, sh: Shape)
    requires forall x :: x in T ==> Young(x, sh.below) == true
    ensures forall x :: x in T ==> x.dom != null && x.dom in sh.below && x.document == null
  {
  }

  // The part nothing was read into.
  twostate lemma RestSteady(w: (set<XMLObject>, set<XMLObject>, set<Element>))
    requires w.1 <= w.0 && old(Tree(w.1)) == true && old(Cache(w.0, w.2, {})) == true
    requires forall x :: x in w.1 ==> unchanged(x)
    requires forall e :: e in w.2 ==> unchanged(e)
    ensures Tree(w.1) == true && Cache(w.1, w.2, {}) == true
  {
    var (F, R, D) := w;
    assert Tree(R);
    ClosedDown(R);
    forall x | x in R ensures x.Coherent(D) {
      assert old(x.Coherent(D));
    }
    forall x | x in R && x.dom != null ensures x.dom in D && Hung(x.dom, D) {
      assert old(Hung(x.dom, D));
    }
  }

  twostate lemma ReadApart(w: (XMLObject, set<XMLObject>, set<XMLObject>, Shape, set<Element>))
    requires old(Cache(w.1, w.4, {})) == true && w.0 in w.2 && w.2 <= w.1
    requires w.3.elem in w.3.below && forall x :: x in w.1 && old(x.dom) != null ==> old(x.dom) !in w.3.below
    requires forall x :: x in w.0.desc && x !in w.2 ==> x !in w.1 && Young(x, w.3.below) == true
    requires w.0.dom == old(w.0.dom) || w.0.dom == w.3.elem
    requires forall x :: x in w.2 && x != w.0 ==> x.dom == old(x.dom)
    requires forall x :: x in w.1 && x !in w.2 ==> unchanged(x)
    ensures forall x, y :: x in w.1 && x !in w.2 && y in w.0.desc && x.dom != null ==> x.dom != y.dom && x != y
  {
    var (o, F, S, sh, D) := w;
    forall x, y | x in F && x !in S && y in o.desc && x.dom != null ensures x.dom != y.dom && x != y {
      assert old(x.dom) == x.dom && x.dom !in sh.below;
      if y in S && y != o {
        assert old(y.dom) == y.dom;
      } else if y !in S {
        assert Young(y, sh.below);
      }
    }
  }

  lemma TreesJoin(A: set<XMLObject>, B: set<XMLObject>)
    requires Tree(A) == true && Tree(B) == true
    ensures Tree(A + B) == true
  {
    forall x | x in A + B ensures x.TreeAt(A + B) {
      assert x.TreeAt(if x in A then A else B);
    }
  }

  lemma CachesJoin(A: set<XMLObject>, B: set<XMLObject>, D: set<Element>, X: set<XMLObject>)
    requires Cache(A, D, {}) == true && Cache(B, D, X) == true && A !! B
    requires forall x, y :: x in A && y in B && x.dom != null ==> x.dom != y.dom
    ensures Cache(A + B, D, X) == true && (Cache(A + B, D, {}) == true <==> Cache(B, D, {}) == true)
  {
    hide XMLObject.Coherent, Hung;
  }

  twostate lemma KeptRead(w: (XMLObject, set<XMLObject>, set<XMLObject>, Shape))
    requires old(AllKept(w.1)) == true && w.0.Kept() == true && w.2 <= w.1
    requires forall x :: x in w.1 && x != w.0 ==> unchanged(x`namespaces, x`attributes, x`idAttribute)
    requires forall x :: x in w.0.desc && x !in w.2 ==> Young(x, w.3.below) == true
    ensures AllKept(w.1 - w.2 + w.0.desc) == true
  {
    hide Matches;
    var (o, F, S, sh) := w;
    forall x | x in F - S + o.desc ensures x.Kept() {
      if x !in F {
        assert Young(x, sh.below);
      } else if x != o {
        assert old(x.Kept());
      }
    }
  }

  twostate lemma OwnersRead(w: (XMLObject, set<XMLObject>, set<XMLObject>, set<Document>, Shape))
    requires old(OneOwner(w.1)) == true && old(OwnedLive(w.1)) == true && old(AccountedFor(w.1, w.3)) == true && w.2 <= w.1
    requires forall x :: x in w.1 ==> x.document == old(x.document) && (x.document != null ==> x.document.released == old(x.document.released))
    requires forall d :: d in w.3 ==> d.released == old(d.released)
    requires w.2 <= w.0.desc && forall x :: x in w.0.desc && x !in w.2 ==> Young(x, w.4.below) == true
    ensures var F' := w.1 - w.2 + w.0.desc; OneOwner(F') == true && OwnedLive(F') == true && AccountedFor(F', w.3) == true
  {
    hide Matches;
    var (o, F, S, bound, sh) := w;
    assert forall x :: x in F - S + o.desc && x !in F ==> Young(x, sh.below);
    assert forall x :: x in F ==> x in F - S + o.desc;
  }

  // Only the root and what is new cache anything else than before.
  twostate lemma AliveRead(w: (XMLObject, set<XMLObject>, Shape, set<Element>, set<Document>), new F': set<XMLObject>)
    requires w.0 in w.1 && w.1 <= F' && IsShape(w.2, w.3) == true && !w.2.elem.doc.released
    requires forall x :: x in w.1 && x != w.0 ==> x.dom == old(x.dom)
    requires w.0.dom == w.2.elem || (w.0.dom == old(w.0.dom) && w.4 == {})
    requires forall x :: x in F' && x !in w.1 ==> x.dom != null && x.dom in w.2.below
    requires forall x :: x in w.1 && old(x.dom) != null ==>
               (old(x.dom).doc.released <==> old(x.dom.doc.released) || old(x.dom).doc in w.4)
    ensures old(CachedLive(w.1)) ==> (CachedLive(F') <==> !old(Uses(w.1 - {w.0}, w.4)))
  {
    var (o, F, sh, D, R) := w;
    assert forall x :: x in F && x != o ==> x in F' && old(x.dom) == x.dom;
    assert forall d :: d in sh.below ==> d.doc == sh.elem.doc;
  }

  // Detaching left everything cached as it was, and gave up these documents.
  twostate lemma AliveDetached(w: (XMLObject, XMLObject, set<XMLObject>, set<XMLObject>))
    requires w.1 == old(w.0.parent) && old(OneOwner(w.2)) == true && old(OwnedLive(w.2)) == true
    requires w.3 == old(w.1.desc) && w.0.desc == old(w.0.desc) && w.0 in w.0.desc && w.0.desc <= w.3 <= w.2 && w.1 in w.3 && w.1 !in w.0.desc
    requires w.0.document == if old(w.1.document) != null then old(w.1.document) else old(w.0.document)
    requires old(w.0.document) != null && w.0.document != old(w.0.document) ==> old(w.0.document).released
    requires forall x :: x in w.2 && x != w.0 && x != w.1 ==> x.document == old(x.document)
    requires forall x :: x in w.3 && x !in w.0.desc && x.document != null ==> x.document.released
    requires OwnedLive(w.0.desc) == true && forall x :: x in w.2 ==> x.dom == old(x.dom)
    requires forall x :: x in w.2 && x.dom != null && (forall z :: z in w.3 ==> old(z.document) != x.dom.doc) ==>
               x.dom.doc.released == old(x.dom.doc.released)
    ensures var left := w.2 - w.3 + w.0.desc;
            old(CachedLive(w.2)) ==> (CachedLive(left) <==> !old(Uses(left, GivenUp(w.0))))
  {
    var (o, p, F, S) := w;
    var left, R := F - S + o.desc, old(GivenUp(o));
    forall x | x in left && x.dom != null && !old(x.dom.doc.released) ensures x.dom.doc.released <==> x.dom.doc in R {
      DocumentGiven((o, p, F, S, x.dom.doc));
    }
    assert forall x :: x in left ==> x in F && old(x.dom) == x.dom;
  }

  twostate lemma DocumentGiven(w: (XMLObject, XMLObject, set<XMLObject>, set<XMLObject>, Document))
    requires w.1 == old(w.0.parent) && old(OneOwner(w.2)) == true && old(OwnedLive(w.2)) == true && !old(w.4.released)
    requires w.3 == old(w.1.desc) && w.0.desc == old(w.0.desc) && w.0 in w.0.desc && w.0.desc <= w.3 <= w.2 && w.1 in w.3 && w.1 !in w.0.desc
    requires w.0.document == if old(w.1.document) != null then old(w.1.document) else old(w.0.document)
    requires old(w.0.document) != null && w.0.document != old(w.0.document) ==> old(w.0.document).released
    requires forall x :: x in w.2 && x != w.0 && x != w.1 ==> x.document == old(x.document)
    requires forall x :: x in w.3 && x !in w.0.desc && x.document != null ==> x.document.released
    requires OwnedLive(w.0.desc) == true
    requires (forall z :: z in w.3 ==> old(z.document) != w.4) ==> w.4.released == old(w.4.released)
    ensures w.4.released <==> w.4 in old(GivenUp(w.0))
  {
    var (o, p, F, S, d) := w;
    if z :| z in S && old(z.document) == d {
      if z == p {
        assert o.document == d && !d.released;
      } else if z == o {
        assert old(p.document) == null ==> o.document == d;
      } else {
        assert z.document == d;
      }
    }
  }
}

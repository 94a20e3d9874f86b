// XML objects with a cached DOM element, and the operations that drop the cache.
module XmlTree {
  import opened Names
  import opened MixedContent
  import opened Dom

  // The five states of the xsi:nil property.
  datatype Nil = NilNull | NilTrue | NilOne | NilFalse | NilZero

  // ---------------------------------------------------------------- content of attributes

  function NilText(n: Nil): string
    requires !n.NilNull?
  {
    match n
    case NilTrue => "true"
    case NilOne => "1"
    case NilFalse => "false"
    case NilZero => "0"
  }

  // XMLObject::setNil looks at the first character only.
  function ParseNil(value: string): Nil {
    if value == "" then NilNull
    else match value[0]
      case 't' => NilTrue
      case 'f' => NilFalse
      case '1' => NilOne
      case '0' => NilZero
      case _ => NilNull
  }

  // The lexical forms of a boolean, by section 3.2.2.1 of XML Schema Part 2, each written and read as itself.
  lemma NilSpelled(n: Nil, value: string)
    requires !n.NilNull?
    ensures NilText(n) == match n case NilTrue => "true" case NilOne => "1" case NilFalse => "false" case _ => "0"
    ensures value in {"true", "1", "false", "0"} ==> (ParseNil(value) == n <==> value == NilText(n))
    ensures ParseNil("") == NilNull
  {
  }

  const NIL_NAME := Expanded(XSI_NS, "nil")
  const TYPE_NAME := Expanded(XSI_NS, "type")
  const SCHEMA_LOCATION := Expanded(XSI_NS, "schemaLocation")
  const NO_NAMESPACE_SCHEMA_LOCATION := Expanded(XSI_NS, "noNamespaceSchemaLocation")

  // What an attribute contributes to an element's content: namespace declarations, schema hints and
  // empty values contribute nothing.
  function AttrContent(name: Expanded, value: string): Option<string> {
    if name.uri == XMLNS_NS || name == SCHEMA_LOCATION || name == NO_NAMESPACE_SCHEMA_LOCATION || value == "" then None
    else Some(value)
  }

  function Canon(attrs: Attributes): map<Expanded, string> {
    map k | k in attrs && AttrContent(k, attrs[k].value).Some? :: AttrContent(k, attrs[k].value).value
  }

  function TypeText(q: QName): string {
    if q.prefix != "" then q.prefix + ":" + q.local else q.local
  }

  // The schema-instance attributes of a fresh element.
  function XsiAttributes(nil: Nil, typ: Option<QName>): Attributes {
    (if nil.NilNull? then map[] else map[NIL_NAME := AttrVal("xsi", NilText(nil))])
    + (if typ.None? then map[] else map[TYPE_NAME := AttrVal("xsi", TypeText(typ.value))])
  }

  // The namespace set the constructor builds from the element name and the schema type.
  function InitialNamespaces(name: QName, typ: Option<QName>): (r: seq<Namespace>)
    ensures UniquePrefixes(r)
    ensures |r| > 0 && r[0] == Namespace(name.prefix, name.uri, false, VisiblyUsed)
    ensures typ.Some? ==> Binds(r, typ.value.prefix)
    ensures r[1..] == if typ.Some? && typ.value.prefix != name.prefix
                      then [Namespace(typ.value.prefix, typ.value.uri, false, NonVisiblyUsed)] else []
  {
    var first := [Namespace(name.prefix, name.uri, false, VisiblyUsed)];
    if typ.None? then first
    else
      var ns := Namespace(typ.value.prefix, typ.value.uri, false, NonVisiblyUsed);
      AddedUnique(first, ns);
      AddedBinds(first, ns, ns.prefix);
      Added(first, ns)
  }

  // The attribute map after setAttribute: an empty value removes, and the first prefix given to a
  // name stays with it.
  function WithAttribute(attrs: Attributes, q: QName, value: string): Attributes {
    var k := Expanded(q.uri, q.local);
    if value == "" then map n | n in attrs && n != k :: attrs[n]
    else attrs[k := AttrVal(if k in attrs then attrs[k].prefix else q.prefix, value)]
  }

  // The ID pointer after setAttribute: it follows a value flagged as an ID and never dangles.
  function WithId(id: Option<Expanded>, q: QName, value: string, isId: bool): Option<Expanded> {
    var k := Expanded(q.uri, q.local);
    if value == "" then if id == Some(k) then None else id
    else if isId then Some(k) else id
  }

  // The last value set is the one there is, an empty one none; the prefix is the one the name came with
  // first; other attributes stay; and the ID pointer never dangles.
  lemma LastValueCounts(attrs: Attributes, id: Option<Expanded>, first: QName, v: string, last: QName, w: string, isId: bool)
    requires Expanded(first.uri, first.local) == Expanded(last.uri, last.local) && Expanded(first.uri, first.local) !in attrs
    requires v != "" && (id.Some? ==> id.value in attrs)
    ensures var k, after := Expanded(first.uri, first.local), WithAttribute(WithAttribute(attrs, first, v), last, w);
            && after == (if w == "" then attrs else attrs[k := AttrVal(first.prefix, w)])
            && var id' := WithId(WithId(id, first, v, isId), last, w, false);
               id'.Some? ==> id'.value in after
  {
    var k := Expanded(first.uri, first.local);
    assert attrs[k := AttrVal(first.prefix, v)][k := AttrVal(first.prefix, w)] == attrs[k := AttrVal(first.prefix, w)];
  }

  // One call of setAttribute.
  datatype Setting = Setting(name: QName, value: string, isId: bool)

  // The ID pointer after a run of calls on an object that had none.
  function IdAfter(settings: seq<Setting>): Option<Expanded> {
    if settings == [] then None
    else
      var last := settings[|settings| - 1];
      WithId(IdAfter(settings[..|settings| - 1]), last.name, last.value, last.isId)
  }

  // Call i gave the attribute k a value flagged as an ID, no later call gave any attribute one, and none
  // removed k.
  ghost predicate PointsTo(settings: seq<Setting>, i: nat, k: Expanded) {
    && i < |settings| && settings[i].isId && settings[i].value != "" && Expanded(settings[i].name.uri, settings[i].name.local) == k
    && forall j :: i < j < |settings| ==>
         if settings[j].value != "" then !settings[j].isId
         else Expanded(settings[j].name.uri, settings[j].name.local) != k
  }

  // Over any run the pointer is at the attribute that was last given an ID value, unless that was removed
  // since, and otherwise nowhere.
  lemma {:induction false} IdFollows(settings: seq<Setting>, k: Expanded)
    ensures IdAfter(settings) == Some(k) <==> exists i :: PointsTo(settings, i, k)
    decreases |settings|
  {
    if settings != [] {
      var n := |settings| - 1;
      var init, last := settings[..n], settings[n];
      IdFollows(init, k);
      assert PointsTo(settings, n, k) <==> last.isId && last.value != "" && Expanded(last.name.uri, last.name.local) == k;
      forall i: nat | i < n
        ensures PointsTo(settings, i, k) <==>
                  PointsTo(init, i, k) && if last.value != "" then !last.isId else Expanded(last.name.uri, last.name.local) != k
      {
        assert settings[i] == init[i];
        if PointsTo(init, i, k) {
          forall j | i < j < n ensures settings[j] == init[j] {
          }
        }
        if PointsTo(settings, i, k) {
          forall j | i < j < n ensures init[j] == settings[j] {
          }
        }
      }
      if IdAfter(init) == Some(k) {
        var i: nat :| PointsTo(init, i, k);
        assert i < n;
      }
    }
  }

  // ---------------------------------------------------------------- objects

  class XMLObject {
    const name: QName
    const typ: Option<QName>
    var parent: XMLObject?
    var children: seq<XMLObject>
    var text: seq<string>
    var attributes: Attributes
    var idAttribute: Option<Expanded>
    var namespaces: seq<Namespace>
    var nil: Nil
    var dom: Element?
    var document: Document?
    ghost var desc: set<XMLObject>  // this object and everything below it

    constructor (name: QName, typ: Option<QName>)
      ensures this.name == name && this.typ == typ
      ensures parent == null && children == [] && text == [] && attributes == map[]
      ensures idAttribute == None && nil == NilNull && dom == null && document == null
      ensures namespaces == InitialNamespaces(name, typ)
      ensures desc == {this} && Kept()
    {
      this.name, this.typ := name, typ;
      parent, children, text, attributes := null, [], [], map[];
      idAttribute, nil, dom, document, desc := None, NilNull, null, null, {this};
      namespaces := InitialNamespaces(name, typ);
    }

    // What every public operation keeps about this object alone: no two entries of the namespace set
    // share a prefix, the first is the element's own, the type's prefix is bound, every attribute has a
    // value and a bound prefix, and the ID pointer does not dangle.
    ghost predicate Kept()
      reads this`namespaces, this`attributes, this`idAttribute
    {
      KeptBut({})
    }

    // The same, but that the prefixes of some attributes may be unbound as yet.
    ghost predicate KeptBut(new': set<Expanded>)
      reads this`namespaces, this`attributes, this`idAttribute
    {
      && UniquePrefixes(namespaces)
      && namespaces != [] && namespaces[0].prefix == name.prefix && namespaces[0].uri == name.uri
      && (typ.Some? ==> Binds(namespaces, typ.value.prefix))
      && (forall k :: k in attributes ==> attributes[k].value != "" && (k in new' || Binds(namespaces, attributes[k].prefix)))
      && (idAttribute.Some? ==> idAttribute.value in attributes)
    }

    // A namespace set that only grows stays fit for the object, and for attributes just stored.
    twostate lemma StillKept(new': set<Expanded>)
      requires old(KeptBut(new')) == true && Follows(old(namespaces), namespaces) == true
      requires unchanged(this`attributes, this`idAttribute)
      requires forall k :: k in new' && k in attributes ==> Binds(namespaces, attributes[k].prefix)
      ensures Kept() == true
    {
      hide Added;
      assert Grows(old(namespaces)[0], namespaces[0]);
      if typ.Some? { FollowsBinds(old(namespaces), namespaces, typ.value.prefix); }
      forall k | k in attributes ensures Binds(namespaces, attributes[k].prefix) {
        if k !in new' { FollowsBinds(old(namespaces), namespaces, attributes[k].prefix); }
      }
    }

    // The attributes marshallInto puts on a fresh element, namespace declarations apart.
    function Emitted(): Attributes
      reads this`nil, this`attributes
    {
      XsiAttributes(nil, typ) + attributes
    }

    // The tree structure around one object of S.
    ghost predicate TreeAt(S: set<XMLObject>)
      reads this`desc, this`children, this`parent, S`desc, S`children, S`parent
    {
      && this in S && this in desc && desc <= S
      && (forall i :: 0 <= i < |children| ==>
            var c := children[i];
            c in S && c.parent == this && c.desc <= desc && this !in c.desc)
      && (forall i, j :: 0 <= i < j < |children| ==> children[i].desc !! children[j].desc)
      && (forall x :: x in desc ==> x.desc <= desc && (x == this || (x.parent != null && x.parent in desc)))
      && (parent != null ==> parent in S && this in parent.children)
    }

    ghost predicate LinkedAt(S: set<XMLObject>)
      reads this`desc, this`children, this`parent, S`desc, S`parent
    {
      && (forall i :: 0 <= i < |children| ==> children[i] in S && children[i].parent == this)
      && (parent != null ==> parent in S && desc <= parent.desc && parent !in desc)
    }

    // Element e has this object's name and attributes.
    ghost predicate SaysHead(e: Element)
      reads this`nil, this`attributes, e`attrs
    {
      e.uri == name.uri && e.local == name.local && Canon(e.attrs) == Canon(Emitted())
    }

    // Element e has this object's name, attributes and text.
    ghost predicate Says(e: Element)
      reads this`children, this`text, this`nil, this`attributes, e`attrs, e`kids
    {
      && SaysHead(e)
      && |Elems(e.kids)| == |children|
      && Texts(e.kids) == Gaps(text, |children|)
    }

    // The element children of e are the cached elements of this object's children, in one document.
    ghost predicate Wraps(e: Element)
      reads this`children, children`dom, e`kids
    {
      && |Elems(e.kids)| == |children|
      && forall i :: 0 <= i < |children| ==> children[i].dom == Elems(e.kids)[i] && Elems(e.kids)[i].doc == e.doc
    }

    // The cached element, if any, is in step with this object.
    ghost predicate Coherent(D: set<Element>)
      reads this`dom, this`children, this`text, this`nil, this`attributes, children`dom, D`attrs, D`kids
    {
      dom != null ==> dom in D && Says(dom) && Wraps(dom)
    }

    method ReleaseDOM()
      modifies this`dom
      ensures dom == null
    {
      if dom != null {
        dom := null;
      }
    }

    // The objects that may be out of step when this one is about to tell its parent to let go: those
    // known already, and the parent.
    ghost function Hole(X: set<XMLObject>): set<XMLObject>
      reads this`parent
    {
      if parent == null then X else X + {parent}
    }

    // Walks up and stops at the first ancestor without a cached element.  X holds objects whose
    // cache is known to be out of step already.
    method ReleaseParentDOM(ghost S: set<XMLObject>, ghost D: set<Element>, ghost X: set<XMLObject>)
      requires this in S && Links(S)
      requires AllCoherent(S, D, Hole(X))
      modifies S`dom
      decreases set o | o in S && o.dom != null
      ensures AllCoherent(S, D, X)
      ensures parent != null ==> parent.dom == null
      ensures forall o :: o in S && o.dom != old(o.dom) ==> o.dom == null && desc <= o.desc && o !in desc
      ensures forall o :: o in S && o.dom != old(o.dom) && o.parent != null ==> o.parent.dom == null
      ensures parent == null || old(parent.dom) == null ==> forall o :: o in S ==> o.dom == old(o.dom)
    {
      hide Says, Elems;
      if parent != null && parent.dom != null {
        ghost var cached := set o | o in S && o.dom != null;
        assert LinkedAt(S) && parent.LinkedAt(S);
        parent.ReleaseDOM();
        assert (set o | o in S && o.dom != null) < cached by { assert parent in cached; }
        assert AllCoherent(S, D, parent.Hole(X)) by {
          forall o | o in S && o != parent.parent && o !in X ensures o.Coherent(D) {
            assert o.LinkedAt(S);
          }
        }
        parent.ReleaseParentDOM(S, D, X);
      }
    }

    // releaseThisandParentDOM: what every setter calls before it changes a field.
    method ReleaseThisAndParentDOM(ghost S: set<XMLObject>, ghost D: set<Element>, ghost X: set<XMLObject>)
      requires this in S && Tree(S) == true && AllCoherent(S, D, X) == true
      modifies S`dom
      ensures AllCoherent(S, D, X) == true
      ensures dom == null && (X == {} ==> Uncached(S) == true)
      ensures forall o :: o in S ==> o.dom == old(o.dom) || o.dom == null
      ensures forall o :: o in S && !(desc <= o.desc) ==> o.dom == old(o.dom)
    {
      TreeLinks(S);
      assert LinkedAt(S);
      ReleaseDOM();
      assert AllCoherent(S, D, Hole(X)) by {
        forall o | o in S && o != parent && o !in X ensures o.Coherent(D) {
          assert o.LinkedAt(S);
        }
      }
      ReleaseParentDOM(S, D, X);
      if X == {} { UncachedAbove(S, D); }
    }

    // AbstractXMLObject::addNamespace: a scan for the prefix, then an overlay or an insertion.
    method AddNamespace(ns: Namespace)
      modifies this`namespaces
      ensures namespaces == Added(old(namespaces), ns)
    {
      var n := 0;
      while n < |namespaces|
        invariant 0 <= n <= |namespaces| && namespaces == old(namespaces)
        invariant forall j :: 0 <= j < n ==> namespaces[j].prefix != ns.prefix
      {
        var entry := namespaces[n];
        if ns.prefix == entry.prefix {
          AddedAt(namespaces, ns, n);
          if ns.uri == entry.uri {
            if ns.always {
              entry := entry.(always := true);
            }
            match ns.usage {
              case Indeterminate =>
              case VisiblyUsed => entry := entry.(usage := VisiblyUsed);
              case NonVisiblyUsed =>
                if entry.usage.Indeterminate? {
                  entry := entry.(usage := NonVisiblyUsed);
                }
            }
            namespaces := namespaces[n := entry];
          }
          return;
        }
        n := n + 1;
      }
      AddedAt(namespaces, ns, n);
      namespaces := namespaces + [ns];
    }

    // AbstractComplexElement::setTextContent.
    method SetTextContent(value: string, position: nat, ghost S: set<XMLObject>, ghost D: set<Element>, ghost X: set<XMLObject>)
      returns (ok: bool)
      requires this in S && Tree(S) == true && AllCoherent(S, D, X) == true
      modifies S`dom, this`text
      ensures ok <==> position <= |children|
      ensures text == if ok then WithText(old(text), value, position) else old(text)
      ensures AllCoherent(S, D, X) == true
      ensures ok && value != "" && X == {} ==> Uncached(S) == true
      ensures forall o :: o in S ==> o.dom == old(o.dom) || o.dom == null
      ensures forall o :: o in S && (!ok || value == "" || !(desc <= o.desc)) ==> o.dom == old(o.dom)
    {
      hide Tree, Coherent, AllCoherent, Uncached;
      if position > |children| {
        return false;
      }
      var slots := text;
      while position >= |slots|
        invariant |slots| >= |text| && text == old(text)
        invariant |slots| <= position + 1 || |slots| == |text|
        invariant slots[..|text|] == text && forall k :: |text| <= k < |slots| ==> slots[k] == ""
      {
        slots := slots + [""];
      }
      if value != "" {
        ReleaseThisAndParentDOM(S, D, X);
      }
      ChildrenThere(S, D, X);
      label Released: text := slots[position := slots[position] + value];
      assert text == WithText(old(text), value, position);
      if value == "" {
        SameGaps(old(text), position, |children|);
        Resaid((S, D, X));
      } else {
        Relisted@Released((S, D, X));
      }
      return true;
    }

    lemma ChildrenThere(S: set<XMLObject>, D: set<Element>, X: set<XMLObject>)
      requires AllCoherent(S, D, X) == true
      ensures ChildrenIn(S) == true
    {
    }

    // The slots changed and the texts around the children did not.
    twostate lemma Resaid(w: (set<XMLObject>, set<Element>, set<XMLObject>))
      requires this in w.0 && old(AllCoherent(w.0, w.1, w.2)) == true && Gaps(text, |children|) == old(Gaps(text, |children|))
      requires unchanged(w.0`dom, w.0`children, w.0`nil, w.0`attributes, w.1`attrs, w.1`kids)
      requires forall o :: o in w.0 && o != this ==> o.text == old(o.text)
      ensures AllCoherent(w.0, w.1, w.2) == true
    {
      var (S, D, X) := w;
      forall o | o in S && o !in X ensures o.Coherent(D) {
        assert old(o.Coherent(D));
      }
    }

    // AbstractXMLObject::nil.
    method SetNil(value: Nil, ghost S: set<XMLObject>, ghost D: set<Element>, ghost X: set<XMLObject>)
      requires this in S && Tree(S) && AllCoherent(S, D, X)
      modifies S`dom, this`nil
      ensures nil == value
      ensures AllCoherent(S, D, X)
      ensures value != old(nil) && X == {} ==> Uncached(S)
      ensures forall o :: o in S ==> o.dom == old(o.dom) || o.dom == null
      ensures forall o :: o in S && (value == old(nil) || !(desc <= o.desc)) ==> o.dom == old(o.dom)
    {
      if nil != value {
        ReleaseThisAndParentDOM(S, D, X);
        nil := value;
      }
    }

    // AbstractAttributeExtensibleXMLObject::setAttribute.
    method SetAttribute(q: QName, value: string, isId: bool, ghost S: set<XMLObject>, ghost D: set<Element>, ghost X: set<XMLObject>)
      requires this in S && Tree(S) && AllCoherent(S, D, X)
      modifies S`dom, this`attributes, this`idAttribute, this`namespaces
      ensures AllCoherent(S, D, X)
      ensures attributes == WithAttribute(old(attributes), q, value)
      ensures old(Kept()) ==> Kept() && idAttribute == WithId(old(idAttribute), q, value, isId)
      ensures namespaces == if value != "" && Expanded(q.uri, q.local) !in old(attributes)
                            then Added(old(namespaces), Namespace(q.prefix, q.uri, false, VisiblyUsed))
                            else old(namespaces)
      ensures attributes != old(attributes) && X == {} ==> Uncached(S)
      ensures forall o :: o in S ==> o.dom == old(o.dom) || o.dom == null
      ensures forall o :: o in S && !(desc <= o.desc) ==> o.dom == old(o.dom)
    {
      assert Kept() && idAttribute.Some? ==> idAttribute.value in attributes;
      hide Coherent, Kept;
      var k := Expanded(q.uri, q.local);
      if k in attributes || value != "" {
        ReleaseThisAndParentDOM(S, D, X);
        StoreAttribute(q, value, isId);
        forall o | o in S && o !in X ensures o.Coherent(D) {
          if o == this { Bare(D); }
        }
      }
    }

    // The part of setAttribute after the caches are dropped.
    method StoreAttribute(q: QName, value: string, isId: bool)
      requires value != "" || Expanded(q.uri, q.local) in attributes
      modifies this`attributes, this`idAttribute, this`namespaces
      ensures old(Kept()) ==> Kept()
      ensures attributes == WithAttribute(old(attributes), q, value)
      ensures idAttribute == WithId(old(idAttribute), q, value, isId)
      ensures namespaces == if Expanded(q.uri, q.local) !in old(attributes)
                            then Added(old(namespaces), Namespace(q.prefix, q.uri, false, VisiblyUsed))
                            else old(namespaces)
    {
      var k := Expanded(q.uri, q.local);
      if k in attributes {
        if value != "" {
          attributes := attributes[k := attributes[k].(value := value)];
          if isId {
            idAttribute := Some(k);
          }
        } else {
          if idAttribute == Some(k) {
            idAttribute := None;
          }
          attributes := attributes - {k};
        }
      } else {
        InsertAttribute(q, value, isId);
      }
    }

    // An attribute of a name that was not there.
    method InsertAttribute(q: QName, value: string, isId: bool)
      requires value != "" && Expanded(q.uri, q.local) !in attributes
      modifies this`attributes, this`idAttribute, this`namespaces
      ensures old(Kept()) == true ==> Kept() == true
      ensures attributes == WithAttribute(old(attributes), q, value)
      ensures idAttribute == WithId(old(idAttribute), q, value, isId)
      ensures namespaces == Added(old(namespaces), Namespace(q.prefix, q.uri, false, VisiblyUsed))
    {
      hide Kept, KeptBut, Follows, Added;
      var k := Expanded(q.uri, q.local);
      attributes := attributes[k := AttrVal(q.prefix, value)];
      if isId {
        idAttribute := Some(k);
      }
      var ns := Namespace(q.prefix, q.uri, false, VisiblyUsed);
      if old(Kept()) {
        KeptInserted(k);
      }
      label Stored: AddNamespace(ns);
      if old(Kept()) {
        AddedFollows(old(namespaces), ns);
        AddedBinds(old(namespaces), ns, q.prefix);
        StillKept@Stored({k});
      }
    }

    twostate lemma KeptInserted(k: Expanded)
      requires old(Kept()) == true && k in attributes && attributes[k].value != "" && namespaces == old(namespaces)
      requires forall n :: n in attributes && n != k ==> n in old(attributes) && attributes[n] == old(attributes)[n]
      requires forall n :: n in old(attributes) ==> n in attributes
      requires idAttribute == old(idAttribute) || idAttribute == Some(k)
      ensures KeptBut({k}) == true
    {
    }

    // Without a cached element there is nothing to be out of step with.
    lemma Bare(D: set<Element>)
      requires dom == null
      ensures Coherent(D) == true
    {
    }

    // XMLObjectChildrenList::push_back: the new child's parent is set, this object and everything
    // above it drop their caches through the child, and the child goes to the end of the list.
    method PushBack(child: XMLObject, ghost S: set<XMLObject>, ghost U: set<XMLObject>, ghost D: set<Element>, ghost X: set<XMLObject>)
      returns (ok: bool)
      requires this in S && child in U && S !! U && Tree(S) == true && Tree(U) == true
      requires AllCoherent(S, D, X) == true && AllCoherent(U, D, X) == true
      modifies (S + U)`dom, S`desc, this`children, child`parent
      ensures ok <==> old(child.parent) == null
      ensures !ok ==> children == old(children) && child.parent == old(child.parent) && Tree(S) && Tree(U)
      ensures !ok ==> forall o :: o in S ==> o.dom == old(o.dom) && o.desc == old(o.desc)
      ensures ok ==> children == old(children) + [child] && child.parent == this
      ensures ok ==> Tree(S + U) == true && AllCoherent(S + U, D, X) == true && (X == {} ==> Uncached(S + U))
      ensures ok ==> forall o :: o in S ==> o.desc == if this in old(o.desc) then old(o.desc) + old(child.desc) else old(o.desc)
      ensures forall o :: o in S + U ==> o.dom == old(o.dom) || o.dom == null
      ensures forall o :: o in S + U && (o in U || this !in old(o.desc)) ==> o.dom == old(o.dom)
    {
      hide Tree, Links, Coherent, AllCoherent, Uncached;
      if child.parent != null {
        return false;
      }
      LinkChild(child, S, U, D, X);
      child.ReleaseParentDOM(S + U, D, X);
      label Released: children := children + [child];
      assert children == old(children)[..|old(children)|] + [child] + old(children)[|old(children)|..];
      PushedTree((child, S, U, |old(children)|));
      Relisted@Released((S + U, D, X));
      if X == {} { UncachedAbove(S + U, D); }
      return true;
    }

    // The child's parent pointer; it is not listed yet.
    method LinkChild(child: XMLObject, ghost S: set<XMLObject>, ghost U: set<XMLObject>, ghost D: set<Element>, ghost X: set<XMLObject>)
      requires this in S && child in U && S !! U && Tree(S) == true && Tree(U) == true && child.parent == null
      requires AllCoherent(S, D, X) == true && AllCoherent(U, D, X) == true
      modifies S`desc, child`parent
      ensures child.parent == this && forall o :: o in U ==> o.desc == old(o.desc)
      ensures forall o :: o in S ==> o.desc == if this in old(o.desc) then old(o.desc) + old(child.desc) else old(o.desc)
      ensures Links(S + U) == true && AllCoherent(S + U, D, child.Hole(X)) == true
      ensures forall o :: o in S + U && child.desc <= o.desc && o !in child.desc ==> o in S && this in old(o.desc)
    {
      hide Tree, Links;
      RootOnTop(child, S, U);
      OldTreeAt((this, S));
      child.parent := this;
      forall o | o in S && this in o.desc {
        o.desc := o.desc + child.desc;
      }
      PushedLinks((child, S, U));
    }

    // Something changed here, where no cached element is left.
    twostate lemma Relisted(w: (set<XMLObject>, set<Element>, set<XMLObject>))
      requires this in w.0 && dom == null && ChildrenIn(w.0) == true && old(AllCoherent(w.0, w.1, w.2)) == true
      requires forall o :: o in w.0 ==> o.dom == old(o.dom)
      requires forall o :: o in w.0 && o != this ==> o.text == old(o.text) && o.nil == old(o.nil) && o.attributes == old(o.attributes)
      requires forall o :: o in w.0 && o != this ==> o.children == old(o.children)
      requires forall e :: e in w.1 ==> e.attrs == old(e.attrs) && e.kids == old(e.kids)
      ensures AllCoherent(w.0, w.1, w.2) == true
    {
      var (S, D, X) := w;
      forall o | o in S && o !in X ensures o.Coherent(D) {
        assert old(o.Coherent(D));
        if o == this { Bare(D); }
      }
    }

    twostate lemma PushedLinks(w: (XMLObject, set<XMLObject>, set<XMLObject>))
      requires this in w.1 && w.0 in w.2 && w.1 !! w.2 && old(Tree(w.1)) && old(Tree(w.2))
      requires old(w.0.parent) == null && w.0.parent == this
      requires forall o :: o in w.1 + w.2 ==> o.children == old(o.children) && (o != w.0 ==> o.parent == old(o.parent))
      requires forall o :: o in w.1 ==> o.desc == if this in old(o.desc) then old(o.desc) + old(w.0.desc) else old(o.desc)
      requires forall o :: o in w.2 ==> o.desc == old(o.desc)
      ensures Links(w.1 + w.2) == true
    {
      var (child, S, U) := w;
      forall o | o in S + U ensures o.LinkedAt(S + U) {
        assert old(o.TreeAt(if o in S then S else U));
      }
    }

    // A root took its place at an index of this object's children.
    twostate lemma PushedTree(w: (XMLObject, set<XMLObject>, set<XMLObject>, nat))
      requires this in w.1 && w.0 in w.2 && w.1 !! w.2 && old(Tree(w.1)) == true && old(Tree(w.2)) == true
      requires old(w.0.parent) == null && w.0.parent == this && w.3 <= |old(children)|
      requires children == old(children)[..w.3] + [w.0] + old(children)[w.3..]
      requires forall o :: o in w.1 + w.2 ==> (o != this ==> o.children == old(o.children)) && (o != w.0 ==> o.parent == old(o.parent))
      requires forall o :: o in w.1 ==> o.desc == if this in old(o.desc) then old(o.desc) + old(w.0.desc) else old(o.desc)
      requires forall o :: o in w.2 ==> o.desc == old(o.desc)
      ensures Tree(w.1 + w.2) == true && ChildrenIn(w.1 + w.2) == true
    {
      hide Tree;
      var (child, S, U, index) := w;
      NowParent((child, S, U, index));
      forall o | o in S + U && o != this ensures o.TreeAt(S + U) {
        OldTreeAt((o, if o in S then S else U));
        OldTreeAt((this, S));
        OldTreeAt((child, U));
        assert forall c :: c in old(children) ==> c in children;
      }
      AllTrees(S + U);
      ClosedDown(S + U);
    }

    twostate lemma OldTreeAt(w: (XMLObject, set<XMLObject>))
      requires old(Tree(w.1)) == true && w.0 in w.1
      ensures old(w.0.TreeAt(w.1))
    {
    }

    lemma AllTrees(S: set<XMLObject>)
      requires forall o :: o in S ==> o.TreeAt(S)
      ensures Tree(S) == true
    {
    }

    twostate lemma NowParent(w: (XMLObject, set<XMLObject>, set<XMLObject>, nat))
      requires this in w.1 && w.0 in w.2 && w.1 !! w.2 && old(Tree(w.1)) == true && old(Tree(w.2)) == true
      requires old(w.0.parent) == null && w.0.parent == this && w.3 <= |old(children)|
      requires children == old(children)[..w.3] + [w.0] + old(children)[w.3..]
      requires forall o :: o in w.1 + w.2 ==> (o != this ==> o.children == old(o.children)) && (o != w.0 ==> o.parent == old(o.parent))
      requires forall o :: o in w.1 ==> o.desc == if this in old(o.desc) then old(o.desc) + old(w.0.desc) else old(o.desc)
      requires forall o :: o in w.2 ==> o.desc == old(o.desc)
      ensures TreeAt(w.1 + w.2)
    {
      hide Tree;
      var (child, S, U, index) := w;
      OldTreeAt((this, S));
      OldTreeAt((child, U));
      NowApart((child, S, U, index));
    }

    // The children's subtrees are in place and apart.
    twostate lemma NowApart(w: (XMLObject, set<XMLObject>, set<XMLObject>, nat))
      requires this in w.1 && w.0 in w.2 && w.1 !! w.2 && old(Tree(w.1)) == true && old(Tree(w.2)) == true
      requires old(w.0.parent) == null && w.0.parent == this && w.3 <= |old(children)|
      requires children == old(children)[..w.3] + [w.0] + old(children)[w.3..]
      requires forall o :: o in w.1 + w.2 ==> (o != this ==> o.children == old(o.children)) && (o != w.0 ==> o.parent == old(o.parent))
      requires forall o :: o in w.1 ==> o.desc == if this in old(o.desc) then old(o.desc) + old(w.0.desc) else old(o.desc)
      requires forall o :: o in w.2 ==> o.desc == old(o.desc)
      ensures forall c :: c in old(children) ==> c in children
      ensures forall i :: 0 <= i < |children| ==>
                var c := children[i];
                c in w.1 + w.2 && c.parent == this && c.desc <= desc && this !in c.desc
      ensures forall i, j :: 0 <= i < j < |children| ==> children[i].desc !! children[j].desc
    {
      hide Tree;
      var (child, S, U, index) := w;
      OldTreeAt((this, S));
      OldTreeAt((child, U));
      ghost var was := old(children);
      forall k | 0 <= k < |was| ensures was[k] in S && was[k].parent == this && was[k].desc == old(was[k].desc) {
        assert old(children[k].parent) == this;
      }
      assert forall k :: 0 <= k < index ==> children[k] == was[k];
      assert forall k :: index <= k < |was| ==> children[k + 1] == was[k];
      forall j, k | 0 <= j < k < |was| ensures was[j].desc !! was[k].desc {
        assert old(children[j].desc !! children[k].desc);
      }
      forall k | 0 <= k < |was| ensures was[k].desc !! child.desc && was[k].desc <= desc && this !in was[k].desc {
      }
      hide TreeAt;
      forall i, j | 0 <= i < j < |children| ensures children[i].desc !! children[j].desc {
        assert i > index ==> children[i] == was[i - 1];
        assert j > index ==> children[j] == was[j - 1];
      }
    }

    // The tree step of assigning a child to a slot: a root takes its place at an index.  By then no
    // cached element is left here or above.
    method InsertChild(index: nat, child: XMLObject, ghost S: set<XMLObject>, ghost U: set<XMLObject>, ghost D: set<Element>)
      requires this in S && child in U && S !! U && Tree(S) == true && Tree(U) == true
      requires AllCoherent(S, D, {}) == true && AllCoherent(U, D, {}) == true
      requires child.parent == null && index <= |children| && dom == null
      modifies S`desc, this`children, child`parent
      ensures children == old(children)[..index] + [child] + old(children)[index..] && child.parent == this
      ensures Tree(S + U) == true && AllCoherent(S + U, D, {}) == true
    {
      hide Tree, Links, Coherent, AllCoherent;
      label Before: BothCoherent(S, U, D);
      RootOnTop(child, S, U);
      child.parent := this;
      forall o | o in S && this in o.desc {
        o.desc := o.desc + child.desc;
      }
      children := children[..index] + [child] + children[index..];
      PushedTree((child, S, U, index));
      Relisted@Before((S + U, D, {}));
    }

    // removeChild: the child at an index leaves the list and has no parent any more.  No cache is
    // dropped, so this object's is in step afterwards exactly when there was none.
    method RemoveChild(index: nat, ghost S: set<XMLObject>, ghost D: set<Element>)
      requires this in S && Tree(S) == true && AllCoherent(S, D, {}) == true
      requires index < |children|
      modifies S`desc, S`parent, this`children
      ensures children == old(children[..index] + children[index + 1..])
      ensures old(children[index]).parent == null
      ensures forall o :: o in S && o != old(children[index]) ==> o.parent == old(o.parent)
      ensures forall o :: o in S ==>
                o.desc == if this in old(o.desc) then old(o.desc) - old(children[index].desc) else old(o.desc)
      ensures Tree(S - old(children[index].desc)) == true
      ensures Tree(old(children[index].desc)) == true && old(children[index]).desc == old(children[index].desc)
      ensures AllCoherent(S, D, {this}) == true
      ensures Coherent(D) <==> dom == null
    {
      hide Tree, TreeAt, ChildrenIn, Coherent, AllCoherent, Apart, Elems;
      var child := children[index];
      ghost var below := child.desc;
      BeforeRemoval(index, S, D);
      child.parent := null;
      forall o | o in S && this in o.desc {
        o.desc := o.desc - below;
      }
      children := children[..index] + children[index + 1..];
      ErasedTree((S, index));
      RemovedTree((S, index));
      Steady((S, D));
      if dom == null { Bare(D); } else { Short(D); }
    }

    // The part of S below the child in a slot, if it holds one.
    ghost function SlotPart(index: nat, filled: bool): (r: set<XMLObject>)
      requires filled ==> index < |children|
      reads this`children, children`desc
    {
      if filled then children[index].desc else {}
    }

    // The tree steps of assigning to a child slot, at its place among the children there are: everything
    // here and above drops its cache, the old child's subtree leaves, and the new child takes its place.
    method AssignSlot(index: nat, filled: bool, child: XMLObject?, ghost S: set<XMLObject>, ghost U: set<XMLObject>, ghost D: set<Element>)
      requires this in S && S !! U && Tree(S) == true && Tree(U) == true
      requires AllCoherent(S, D, {}) == true && AllCoherent(U, D, {}) == true
      requires if filled then index < |children| else index <= |children|
      requires if child == null then U == {} else child in U && child.parent == null
      modifies S`dom, S`desc, S`parent, this`children, (if child == null then {} else {child})`parent
      ensures children == old(children)[..index] + (if child == null then [] else [child])
                          + old(children)[if filled then index + 1 else index..]
      ensures child != null ==> child.parent == this
      ensures Tree(S - old(SlotPart(index, filled)) + U) == true
      ensures AllCoherent(S - old(SlotPart(index, filled)) + U, D, {}) == true
      ensures filled || child != null ==> Uncached(S - old(SlotPart(index, filled)) + U) == true
      ensures forall o :: o in S + U ==> o.dom == old(o.dom) || o.dom == null
      ensures forall o :: o in S + U && (o in U || !(old(desc) <= old(o.desc)) || (!filled && child == null)) ==> o.dom == old(o.dom)
    {
      hide Tree, AllCoherent, Uncached, Coherent;
      ghost var rest := S - SlotPart(index, filled);
      if filled || child != null {
        ReleaseThisAndParentDOM(S, D, {});
      }
      if filled {
        InDesc(index, S);
        RemoveChild(index, S, D);
        RemainsCoherent(S, old(children[index].desc), D);
      }
      assert (!filled ==> rest == S) && (child == null ==> rest + U == rest);
      if child != null {
        InsertChild(index, child, rest, U, D);
      }
      if filled || child != null {
        UncachedAbove(rest + U, D);
      }
    }

    lemma InDesc(index: nat, S: set<XMLObject>)
      requires Tree(S) == true && this in S && index < |children|
      ensures this !in children[index].desc
    {
      assert TreeAt(S);
    }

    lemma RemainsCoherent(S: set<XMLObject>, below: set<XMLObject>, D: set<Element>)
      requires Tree(S - below) == true && AllCoherent(S, D, {this}) == true && dom == null
      ensures AllCoherent(S - below, D, {}) == true
    {
      ClosedDown(S - below);
      Bare(D);
    }

    lemma BeforeRemoval(index: nat, S: set<XMLObject>, D: set<Element>)
      requires this in S && Tree(S) == true && AllCoherent(S, D, {}) == true && index < |children|
      ensures children[index] in S && children[index].Apart(S) == true && ChildrenIn(S) == true
      ensures dom != null ==> |Elems(dom.kids)| == |children|
    {
      assert TreeAt(S) && Coherent(D);
      children[index].TreeApart(S);
      ClosedDown(S);
    }

    // XMLObjectChildrenList::erase.  The walk up starts at this object's parent, so this object's own
    // cached element is not dropped.  The child is destroyed.
    method Erase(index: nat, ghost S: set<XMLObject>, ghost D: set<Element>)
      requires this in S && Tree(S) == true && AllCoherent(S, D, {}) == true
      requires index < |children| && OneOwner(children[index].desc) == true && OwnedLive(children[index].desc) == true
      modifies S`dom, S`desc, S`parent, this`children, children[index].Docs()`released
      ensures children == old(children[..index] + children[index + 1..])
      ensures Tree(S - old(children[index].desc)) == true
      ensures AllCoherent(S - old(children[index].desc), D, {this}) == true
      ensures dom == old(dom) && forall o :: o in S ==> o.dom == old(o.dom) || o.dom == null
      ensures Coherent(D) == true <==> old(dom) == null
      ensures parent == old(parent) && (parent != null ==> parent.Uncached(S - old(children[index].desc)) == true)
      ensures forall o :: o in old(children[index].desc) && o.document != null ==> o.document.released
    {
      hide Tree, AllCoherent, OneOwner, OwnedLive, Coherent;
      StrictlyAbove(S, D);
      ReleaseParentDOM(S, D, {});
      ChildrenInTree(S);
      if parent != null {
        ParentIn(S);
        parent.UncachedAbove(S, D);
      }
      var child := children[index];
      RemoveChild(index, S, D);
      WithoutPart(S, child.desc, D);
      child.Destroy(child.desc);
    }

    lemma StrictlyAbove(S: set<XMLObject>, D: set<Element>)
      requires this in S && Tree(S) == true && AllCoherent(S, D, {}) == true
      ensures Links(S) && AllCoherent(S, D, Hole({}))
    {
      TreeLinks(S);
    }

    lemma ParentIn(S: set<XMLObject>)
      requires this in S && Tree(S) == true && parent != null
      ensures parent in S && parent !in desc
    {
      assert TreeAt(S) && parent.TreeAt(S);
    }

    lemma WithoutPart(S: set<XMLObject>, below: set<XMLObject>, D: set<Element>)
      requires Tree(S - below) == true && AllCoherent(S, D, {this}) == true
      ensures AllCoherent(S - below, D, {this}) == true
    {
      ClosedDown(S - below);
    }

    // The subtrees of the children lie strictly inside this one's and apart from each other.
    lemma ChildrenInTree(S: set<XMLObject>)
      requires Tree(S) == true && this in S
      ensures this in desc && desc <= S
      ensures forall k :: 0 <= k < |children| ==>
                var c := children[k];
                c in S && c.parent == this && c.desc < desc && c in c.desc && this !in c.desc
      ensures forall k, x :: 0 <= k < |children| && x in children[k].desc ==> x in desc
      ensures forall j, k, x :: 0 <= j < k < |children| && x in children[k].desc ==> x !in children[j].desc
    {
      assert TreeAt(S);
      forall k | 0 <= k < |children| ensures children[k] in children[k].desc {
        assert children[k].TreeAt(S);
      }
    }

    // releaseChildrenDOM(true): everything strictly below this object loses its cached element.
    method ReleaseChildrenDOM(ghost S: set<XMLObject>)
      requires this in S && Tree(S) == true
      modifies (desc - {this})`dom
      decreases desc
      ensures forall o :: o in desc && o != this ==> o.dom == null
    {
      hide Tree, TreeAt;
      ghost var under := BelowCovered(S);
      var i := 0;
      while i < |children|
        invariant 0 <= i <= |children|
        invariant forall o :: o in under && under[o] < i ==> o.dom == null
      {
        var c := children[i];
        c.ReleaseDOM();
        c.ReleaseChildrenDOM(S);
        i := i + 1;
      }
    }

    // What is strictly below an object is what is at or below its children.
    lemma BelowCovered(S: set<XMLObject>) returns (under: map<XMLObject, nat>)
      requires Tree(S) == true && this in S
      ensures this in desc && forall o :: o in desc && o != this ==> o in under
      ensures forall o :: o in under ==> under[o] < |children| && o in children[under[o]].desc
      ensures forall k :: 0 <= k < |children| ==>
                var c := children[k];
                c in S && c in under && under[c] == k && c.desc < desc && c.desc <= desc - {this}
      ensures forall k, o :: 0 <= k < |children| && o in children[k].desc ==> o in under && under[o] == k
    {
      hide Tree, TreeAt;
      ChildrenInTree(S);
      forall o | o in desc - {this} ensures exists k: nat :: k < |children| && o in children[k].desc {
        var k := BelowChild(S, o);
      }
      under := map o | o in desc - {this} :: var k: nat :| k < |children| && o in children[k].desc; k;
      forall k, o | 0 <= k < |children| && o in children[k].desc ensures o in under && under[o] == k {
        var u := under[o];
        assert u < |children| && o in children[u].desc;
      }
    }

    // Everything strictly below an object is at or below one of its children.
    lemma {:induction false} BelowChild(S: set<XMLObject>, o: XMLObject) returns (k: nat)
      requires this in S && Tree(S) == true && o in desc && o != this
      ensures k < |children| && o in children[k].desc
      decreases desc - o.desc
    {
      assert TreeAt(S) && o.TreeAt(S) && o.parent.TreeAt(S);
      if o.parent == this {
        k :| 0 <= k < |children| && children[k] == o;
      } else {
        var i :| 0 <= i < |o.parent.children| && o.parent.children[i] == o;
        assert desc - o.parent.desc < desc - o.desc by { assert o.parent in desc - o.desc; }
        k := BelowChild(S, o.parent);
        assert children[k].TreeAt(S);
      }
    }

    // setDocument: the document owned before is given back unless it is the same one.
    method SetDocument(doc: Document?)
      requires document != null && document != doc ==> !document.released
      modifies this`document, Owned()`released
      ensures document == doc
      ensures old(document) != null && old(document) != doc ==> old(document).released
    {
      if document != doc {
        if document != null {
          document.Release();
        }
        document := doc;
      }
    }

    // The document this object owns, if any.
    ghost function Owned(): set<Document>
      reads this`document
    {
      if document == null then {} else {document}
    }

    // The documents owned in this subtree.
    ghost function Docs(): set<Document>
      reads this`desc, desc`document
    {
      set o | o in desc && o.document != null :: o.document
    }

    // The destructors of a whole subtree: every document owned in it is given back, once.
    method Destroy(ghost S: set<XMLObject>)
      requires this in S && Tree(S) == true && OneOwner(desc) && OwnedLive(desc)
      modifies Docs()`released
      decreases desc
      ensures forall o :: o in desc && o.document != null ==> o.document.released
    {
      hide Tree, TreeAt;
      ghost var under := BelowCovered(S);
      if document != null {
        document.Release();
      }
      var i := 0;
      while i < |children|
        invariant 0 <= i <= |children|
        invariant forall o :: o in desc && o.document != null ==>
                    (o.document.released <==> o == this || under[o] < i)
      {
        var c := children[i];
        c.Destroy(S);
        i := i + 1;
      }
    }

    // The document step of detach: a document the parent owns changes hands.
    method TakeDocument(p: XMLObject, ghost S: set<XMLObject>)
      requires this in S && p in S && p != this && OneOwner(S) == true && OwnedLive(S) == true
      modifies this`document, p`document, Owned()`released
      ensures OneOwner(S) == true && OwnedLive(S) == true
      ensures document == if old(p.document) != null then old(p.document) else old(document)
      ensures p.document == null
      ensures old(document) != null && document != old(document) ==> old(document).released
    {
      if p.document != null {
        SetDocument(p.document);
        p.document := null;
      }
    }

    // The tree step of detach: the subtree and what is left are both well-formed trees.
    method LeaveParent(ghost S: set<XMLObject>, ghost D: set<Element>)
      requires this in S && Tree(S) == true && AllCoherent(S, D, {}) == true && parent != null
      modifies S`desc, S`parent, S`children
      ensures parent == null && desc == old(desc)
      ensures Tree(desc) == true && Tree(S - desc) == true && AllCoherent(desc, D, {}) == true
      ensures forall o :: o in desc ==> o.children == old(o.children)
      ensures old(parent).desc == old(parent.desc) - desc && old(parent) in S - desc
    {
      var p := parent;
      assert TreeAt(S) && p.TreeAt(S);
      var i :| 0 <= i < |p.children| && p.children[i] == this;
      p.RemoveChild(i, S, D);
    }

    // AbstractDOMCachingXMLObject::detach: this object takes over its parent's document and leaves,
    // and the rest of the tree is destroyed.
    method Detach(ghost S: set<XMLObject>, ghost D: set<Element>) returns (ok: bool)
      requires this in S && Tree(S) == true && AllCoherent(S, D, {}) == true && OneOwner(S) == true && OwnedLive(S) == true
      modifies S`parent, S`children, S`desc, S`document
      modifies (set o | o in S && o.document != null :: o.document)`released
      ensures ok <==> old(parent) == null || old(parent.parent) == null
      ensures ok ==> parent == null && desc == old(desc)
      ensures ok ==> Tree(desc) == true && AllCoherent(desc, D, {}) == true && OneOwner(desc) == true && OwnedLive(desc) == true
      ensures !ok || old(parent) == null ==> OwnedLive(S) == true && forall o :: o in S ==> unchanged(o)
      ensures forall o :: o in desc ==> o.children == old(o.children)
      ensures forall o :: o in S && o != this && o != old(parent) ==> o.document == old(o.document)
      ensures ok && old(parent) != null ==>
                document == if old(parent.document) != null then old(parent.document) else old(document)
      ensures old(document) != null && document != old(document) ==> old(document).released
      ensures ok && old(parent) != null ==>
                forall o :: o in old(parent.desc) && o !in desc && o.document != null ==> o.document.released
    {
      assert TreeAt(S);
      if parent == null {
        Subtree(S);
        return true;
      }
      if parent.parent != null {
        return false;
      }
      DetachFromRoot(S, D);
      return true;
    }

    method DetachFromRoot(ghost S: set<XMLObject>, ghost D: set<Element>)
      requires this in S && Tree(S) == true && AllCoherent(S, D, {}) == true
      requires OneOwner(S) == true && OwnedLive(S) == true && parent != null
      modifies S`parent, S`children, S`desc, S`document
      modifies (set o | o in S && o.document != null :: o.document)`released
      ensures parent == null && desc == old(desc)
      ensures Tree(desc) == true && AllCoherent(desc, D, {}) == true && OneOwner(desc) == true && OwnedLive(desc)
      ensures forall o :: o in desc ==> o.children == old(o.children)
      ensures forall o :: o in S && o != this && o != old(parent) ==> o.document == old(o.document)
      ensures document == if old(parent.document) != null then old(parent.document) else old(document)
      ensures old(document) != null && document != old(document) ==> old(document).released
      ensures forall o :: o in old(parent.desc) && o !in desc && o.document != null ==> o.document.released
    {
      hide Tree, TreeAt, OneOwner, AllCoherent;
      var p := parent;
      ghost var i := InParent(S);
      TakeDocument(p, S);
      LeaveParent(S, D);
      OwnersSplit(p, S);
      p.Destroy(S - desc);
    }

    // Where this object is listed.
    lemma InParent(S: set<XMLObject>) returns (i: nat)
      requires this in S && Tree(S) == true && parent != null
      ensures parent in S && parent != this && i < |parent.children| && parent.children[i] == this
      ensures this in desc && desc <= parent.desc <= S && parent !in desc
    {
      assert TreeAt(S) && parent.TreeAt(S);
      i :| 0 <= i < |parent.children| && parent.children[i] == this;
    }

    // Owners in two disjoint parts of the forest share no document.
    lemma OwnersSplit(p: XMLObject, S: set<XMLObject>)
      requires OneOwner(S) == true && OwnedLive(S) == true && desc <= S && p.desc <= S && desc !! p.desc
      ensures OneOwner(desc) == true && OneOwner(p.desc) == true && OwnedLive(p.desc) == true
      ensures forall o :: o in desc ==> o.document == null || (o.document !in p.Docs() && !o.document.released)
    {
    }

    lemma Subtree(S: set<XMLObject>)
      requires this in S && Tree(S) && parent == null
      ensures Tree(desc)
    {
      assert TreeAt(S);
      forall o | o in desc ensures o.TreeAt(desc) {
        assert o.TreeAt(S);
      }
    }

    // Coherence looks at nothing but an object's own fields, its children's caches and the elements.
    twostate lemma Steady(w: (set<XMLObject>, set<Element>))
      requires forall o :: o in w.0 && o != this ==> o.children == old(o.children) && o.text == old(o.text)
      requires forall c :: c in children ==> c in old(children)
      requires forall o :: o in w.0 && o != this ==> o.nil == old(o.nil) && o.attributes == old(o.attributes)
      requires forall o :: o in w.0 ==> o.dom == old(o.dom)
      requires old(ChildrenIn(w.0)) == true
      requires forall e :: e in w.1 ==> e.attrs == old(e.attrs) && e.kids == old(e.kids)
      requires old(AllCoherent(w.0, w.1, {})) == true
      ensures AllCoherent(w.0, w.1, {this}) == true
    {
      var (S, D) := w;
      forall o | o in S && o != this ensures o.Coherent(D) {
        assert old(o.Coherent(D));
        assert o.Emitted() == old(o.Emitted());
      }
    }

    // An element with another number of element children is out of step.
    lemma Short(D: set<Element>)
      requires dom != null && |Elems(dom.kids)| != |children|
      ensures !Coherent(D)
    {
    }

    // A subtree is below an object only through the subtree's parent.
    lemma {:induction false} Separate(S: set<XMLObject>, o: XMLObject, x: XMLObject)
      requires Tree(S) && this in S && o in S && o !in desc && x in S && x in desc
      requires parent == null || parent !in o.desc
      ensures x !in o.desc
      decreases desc - x.desc
    {
      assert TreeAt(S) && o.TreeAt(S) && x.TreeAt(S);
      if x != this && x in o.desc {
        assert x.parent.TreeAt(S);
        var i :| 0 <= i < |x.parent.children| && x.parent.children[i] == x;
        assert desc - x.parent.desc < desc - x.desc by { assert x.parent in desc - x.desc; }
        Separate(S, o, x.parent);
      }
    }

    // Subtrees are nested or disjoint.
    ghost predicate Apart(S: set<XMLObject>)
      reads this`desc, this`parent, S`desc
    {
      forall o :: o in S && o !in desc && (parent == null || parent !in o.desc) ==> o.desc !! desc
    }

    lemma TreeApart(S: set<XMLObject>)
      requires Tree(S) && this in S
      ensures Apart(S)
    {
      forall o, x | o in S && o !in desc && (parent == null || parent !in o.desc) && x in desc
        ensures x !in o.desc
      {
        assert TreeAt(S);
        Separate(S, o, x);
      }
    }

    twostate lemma ErasedTree(w: (set<XMLObject>, nat))
      requires this in w.0 && old(Tree(w.0)) == true && w.1 < |old(children)|
      requires children == old(children)[..w.1] + old(children)[w.1 + 1..]
      requires forall o :: o in w.0 ==> (o != this ==> o.children == old(o.children)) && (o != old(children)[w.1] ==> o.parent == old(o.parent))
      requires forall o :: o in w.0 ==>
                 o.desc == if this in old(o.desc) then old(o.desc) - old(children[w.1].desc) else old(o.desc)
      requires old(children[w.1].Apart(w.0)) == true
      ensures Tree(w.0 - old(children[w.1].desc)) == true
    {
      hide Tree;
      var (S, index) := w;
      var child := old(children)[index];
      OldTreeAt((this, S));
      OldTreeAt((child, S));
      forall c | c in children ensures old(c in c.desc) {
        OldTreeAt((c, S));
      }
      forall x | x in S && old(x.parent) != null && old(x.parent) in old(child.desc) ensures x in old(child.desc) {
        OldTreeAt((x, S));
        OldTreeAt((old(x.parent), S));
      }
      forall o | o in S - old(child.desc) ensures o.TreeAt(S - old(child.desc)) {
        OldTreeAt((o, S));
      }
      AllTrees(S - old(child.desc));
    }

    twostate lemma RemovedTree(w: (set<XMLObject>, nat))
      requires this in w.0 && old(Tree(w.0)) == true && w.1 < |old(children)| && old(children)[w.1].parent == null
      requires forall o :: o in w.0 ==> (o != this ==> o.children == old(o.children)) && (o != old(children)[w.1] ==> o.parent == old(o.parent))
      requires forall o :: o in w.0 ==>
                 o.desc == if this in old(o.desc) then old(o.desc) - old(children[w.1].desc) else old(o.desc)
      ensures Tree(old(children[w.1].desc)) == true && old(children)[w.1].desc == old(children[w.1].desc)
    {
      var (S, index) := w;
      var child := old(children)[index];
      assert old(TreeAt(S)) && old(child.TreeAt(S));
      forall o | o in old(child.desc) ensures o.TreeAt(old(child.desc)) {
        assert old(o.TreeAt(S));
      }
    }

    // Neither this object nor any object above it, at any height, holds a cached element.
    ghost predicate Uncached(S: set<XMLObject>)
      reads S`desc, S`dom
    {
      forall o :: o in S && this in o.desc ==> o.dom == null
    }

    // Why stopping early is enough: in a coherent tree a missing cache is missing all the way up.
    lemma UncachedAbove(S: set<XMLObject>, D: set<Element>)
      requires this in S && Tree(S) == true && AllCoherent(S, D, {}) == true && dom == null
      ensures Uncached(S) == true
    {
      forall o | o in S && this in o.desc ensures o.dom == null {
        UncachedAt(S, D, o);
      }
    }

    lemma {:induction false} UncachedAt(S: set<XMLObject>, D: set<Element>, o: XMLObject)
      requires this in S && o in S && Tree(S) && AllCoherent(S, D, {}) && dom == null && this in o.desc
      ensures o.dom == null
      decreases o.desc - desc
    {
      assert TreeAt(S) && o.TreeAt(S);
      if o != this {
        var i :| 0 <= i < |parent.children| && parent.children[i] == this;
        assert parent.TreeAt(S) && parent.Coherent(D);
        assert parent.dom == null;
        assert o.desc - parent.desc < o.desc - desc by { assert parent in o.desc - desc; }
        parent.UncachedAt(S, D, o);
      }
    }
  }

  // What Added does once the scan has reached position n.
  lemma {:induction false} AddedAt(nss: seq<Namespace>, ns: Namespace, n: nat)
    requires n <= |nss| && forall j :: 0 <= j < n ==> nss[j].prefix != ns.prefix
    requires n < |nss| ==> nss[n].prefix == ns.prefix
    ensures Added(nss, ns) == if n == |nss| then nss + [ns]
                              else if nss[n].uri == ns.uri then nss[n := Overlay(nss[n], ns)]
                              else nss
  {
    if n > 0 {
      AddedAt(nss[1..], ns, n - 1);
    }
  }

  // A root's subtree is below nothing else, in its own tree or in a separate one.
  lemma RootOnTop(root: XMLObject, S: set<XMLObject>, U: set<XMLObject>)
    requires Tree(S) && Tree(U) && S !! U && root in U && root.parent == null
    ensures root in root.desc
    ensures forall o :: o in S ==> root !in o.desc
    ensures forall o :: o in U && root in o.desc ==> o == root
  {
    assert root.TreeAt(U);
    forall o | o in S ensures root !in o.desc {
      assert o.TreeAt(S);
    }
    forall o | o in U && root in o.desc ensures o == root {
      assert o.TreeAt(U);
    }
  }

  // No document has two owners.
  ghost predicate OneOwner(S: set<XMLObject>)
    reads S`document
  {
    forall o, p :: o in S && p in S && o.document != null && o.document == p.document ==> o == p
  }

  // No owned document has been given back.
  ghost predicate OwnedLive(S: set<XMLObject>)
    reads S`document, (set o | o in S && o.document != null :: o.document)`released
  {
    forall o :: o in S && o.document != null ==> !o.document.released
  }

  ghost predicate ChildrenIn(S: set<XMLObject>)
    reads S`children
  {
    forall o, c :: o in S && c in o.children ==> c in S
  }

  lemma BothCoherent(S: set<XMLObject>, U: set<XMLObject>, D: set<Element>)
    requires AllCoherent(S, D, {}) == true && AllCoherent(U, D, {}) == true
    ensures AllCoherent(S + U, D, {}) == true
  {
  }

  lemma ClosedDown(S: set<XMLObject>)
    requires Tree(S) == true
    ensures ChildrenIn(S) == true
  {
    forall o, c | o in S && c in o.children ensures c in S {
      assert o.TreeAt(S);
    }
  }

  // Parent and child pointers of S agree, except that a child may not be listed yet.
  ghost predicate Links(S: set<XMLObject>)
    reads S`desc, S`children, S`parent
  {
    forall o :: o in S ==> o.LinkedAt(S)
  }

  lemma TreeLinks(S: set<XMLObject>)
    requires Tree(S)
    ensures Links(S)
  {
    forall o | o in S ensures o.LinkedAt(S) {
      assert o.TreeAt(S);
      if o.parent != null {
        assert o.parent.TreeAt(S);
        var i :| 0 <= i < |o.parent.children| && o.parent.children[i] == o;
      }
    }
  }

  ghost predicate Tree(S: set<XMLObject>)
    reads S`desc, S`children, S`parent
  {
    forall o :: o in S ==> o.TreeAt(S)
  }

  // Every object of S outside X has a cache in step with it.
  ghost predicate AllCoherent(S: set<XMLObject>, D: set<Element>, X: set<XMLObject>)
    reads S`dom, S`children, S`text, S`nil, S`attributes, D`attrs, D`kids
  {
    ChildrenIn(S) && forall o :: o in S && o !in X ==> o.Coherent(D)
  }
}

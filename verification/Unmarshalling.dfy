// Building objects from DOM: attributes, mixed content by position, and the cache over the source tree.
module Unmarshalling {
  import opened Names
  import opened MixedContent
  import opened Dom
  import opened XmlTree
  import opened Declarations
  import opened Snapshots
  import opened Contents
  import Marshalling

  // ---------------------------------------------------------------- DOM trees

  // The elements at and below one, as a finite tree.
  datatype Shape = Shape(elem: Element, below: set<Element>, kids: seq<Shape>)

  ghost predicate IsShape(sh: Shape, D: set<Element>)
    reads D`kids, D`parent
    decreases sh
  {
    && sh.elem in D && sh.below == {sh.elem} + Used(sh, |sh.kids|) && sh.below <= D && |Elems(sh.elem.kids)| == |sh.kids|
    && (forall d :: d in sh.below ==> d.doc == sh.elem.doc)
    && (forall k :: 0 <= k < |sh.kids| ==>
          && IsShape(sh.kids[k], D) && sh.kids[k].elem == Elems(sh.elem.kids)[k]
          && sh.kids[k].elem in D && sh.kids[k].elem.parent == sh.elem && sh.kids[k].elem.doc == sh.elem.doc
          && sh.kids[k].below <= sh.below && sh.elem !in sh.kids[k].below)
    && (forall j, k :: 0 <= j < k < |sh.kids| ==> sh.kids[j].below !! sh.kids[k].below)
  }

  // The elements below the first n children of a tree.
  ghost function Used(sh: Shape, n: nat): set<Element> {
    set i, x | 0 <= i < n && i < |sh.kids| && x in sh.kids[i].below :: x
  }

  // No node in the tree is of a type the unmarshaller rejects.
  ghost predicate Supported(sh: Shape, D: set<Element>)
    reads D`kids
    decreases sh
  {
    sh.elem in D && OtherNode !in sh.elem.kids && forall k :: 0 <= k < |sh.kids| ==> Supported(sh.kids[k], D)
  }

  // It is the tree in which no element has such a node as a child.
  lemma {:induction false} SupportedExactly(sh: Shape, D: set<Element>)
    requires IsShape(sh, D)
    ensures Supported(sh, D) <==> forall d :: d in sh.below ==> OtherNode !in d.kids
    decreases sh
  {
    forall k | 0 <= k < |sh.kids|
      ensures Supported(sh.kids[k], D) <==> forall d :: d in sh.kids[k].below ==> OtherNode !in d.kids
      ensures sh.kids[k].below <= sh.below
    {
      SupportedExactly(sh.kids[k], D);
    }
    hide IsShape;
    if Supported(sh, D) {
      forall d | d in sh.below ensures OtherNode !in d.kids {
        if d != sh.elem {
          var k := BelowKid(sh, D, d);
          assert Supported(sh.kids[k], D);
        }
      }
    }
    ShapeTop(sh, D);
  }

  lemma BelowKid(sh: Shape, D: set<Element>, d: Element) returns (k: nat)
    requires IsShape(sh, D) == true && d in sh.below && d != sh.elem
    ensures k < |sh.kids| && d in sh.kids[k].below
  {
    k :| k < |sh.kids| && d in sh.kids[k].below;
  }

  lemma ShapeTop(sh: Shape, D: set<Element>)
    requires IsShape(sh, D) == true
    ensures sh.elem in sh.below && sh.below <= D
  {
  }

  // ---------------------------------------------------------------- xsi:type

  function IndexOf(s: string, c: char): (i: int)
    ensures -1 <= i < |s|
    ensures i >= 0 ==> s[i] == c
    ensures c !in s[..if i < 0 then |s| else i]
  {
    if s == "" then -1
    else if s[0] == c then 0
    else
      var rest := IndexOf(s[1..], c);
      if rest < 0 then -1 else rest + 1
  }

  // XMLHelper::getXSIType: a prefix counts only when something precedes the first colon.
  function SchemaType(attrs: Attributes, lookup: string -> string): Option<QName> {
    if TYPE_NAME !in attrs || attrs[TYPE_NAME].value == "" then None
    else
      var value := attrs[TYPE_NAME].value;
      var i := IndexOf(value, ':');
      if i > 0 then Some(QName(lookup(value[..i]), value[i + 1..], value[..i]))
      else Some(QName(lookup(""), value, ""))
  }

  // The type is written back the way it was read.
  lemma TypeRoundTrip(attrs: Attributes, lookup: string -> string)
    ensures SchemaType(attrs, lookup).Some? <==> TYPE_NAME in attrs && attrs[TYPE_NAME].value != ""
    ensures SchemaType(attrs, lookup).Some? ==>
              var q := SchemaType(attrs, lookup).value;
              && TypeText(q) == attrs[TYPE_NAME].value && q.uri == lookup(q.prefix) && ':' !in q.prefix
              && (q.prefix == "" ==> attrs[TYPE_NAME].value[0] == ':' || ':' !in attrs[TYPE_NAME].value)
  {
    if TYPE_NAME in attrs && attrs[TYPE_NAME].value != "" {
      var value := attrs[TYPE_NAME].value;
      var i := IndexOf(value, ':');
      if i > 0 {
        assert value == value[..i] + [value[i]] + value[i + 1..];
      }
    }
  }

  // Whether the type an element names can be written back: QName text that ends right after its first
  // colon gives an empty local part, which marshalling refuses.
  predicate WritableType(attrs: Attributes) {
    TYPE_NAME in attrs ==>
      var value := attrs[TYPE_NAME].value;
      IndexOf(value, ':') <= 0 || IndexOf(value, ':') + 1 < |value|
  }

  lemma TypeWritable(attrs: Attributes, lookup: string -> string)
    ensures WritableType(attrs) <==> (SchemaType(attrs, lookup).Some? ==> SchemaType(attrs, lookup).value.local != "")
  {
  }

  // For instance `p:` is read as a type and cannot be written.
  lemma UnwritableType(lookup: string -> string)
    ensures var attrs: Attributes := map[TYPE_NAME := AttrVal("xsi", "p:")];
            !WritableType(attrs) && SchemaType(attrs, lookup) == Some(QName(lookup("p"), "", "p"))
  {
    assert "p:"[1..] == ":" && "p:"[..1] == "p" && "p:"[2..] == "";
    assert IndexOf(":", ':') == 0 && IndexOf("p:", ':') == 1;
  }

  // ---------------------------------------------------------------- xsi:nil

  // Whether the xsi:nil of an element is written back as it was read.  The value is read by its first
  // character, so any other than these comes back as one of them or not at all.
  predicate WritableNil(attrs: Attributes) {
    NIL_NAME in attrs ==> attrs[NIL_NAME].value in {"", "true", "false", "1", "0"}
  }

  lemma NilWritable(attrs: Attributes)
    ensures WritableNil(attrs) <==>
              ContentAt(XsiAttributes(OverlaidNil(NilNull, attrs, {}), None), NIL_NAME) == ContentAt(attrs, NIL_NAME)
  {
  }

  // For instance `yes` is lost and `tomato` comes back as `true`.
  lemma UnwritableNil(value: string)
    requires value in {"yes", "tomato"}
    ensures var attrs: Attributes := map[NIL_NAME := AttrVal("xsi", value)];
            && !WritableNil(attrs)
            && ContentAt(XsiAttributes(OverlaidNil(NilNull, attrs, {}), None), NIL_NAME) == if value == "yes" then None else Some("true")
  {
  }

  // The objects whose element has an xsi:nil they would write otherwise, or not at all.
  ghost function Misread(T: set<XMLObject>): (r: set<XMLObject>)
    reads T`dom, (set x | x in T && x.dom != null :: x.dom)`attrs
    ensures r <= T
  {
    set x | x in T && x.dom != null && !WritableNil(x.dom.attrs)
  }

  ghost predicate NilsWritable(ds: set<Element>)
    reads ds`attrs
  {
    forall d :: d in ds ==> WritableNil(d.attrs)
  }

  // An object of T misread its element exactly if one of the elements has such an xsi:nil.
  ghost predicate SameNils(T: set<XMLObject>, ds: set<Element>)
    reads T`dom, (set x | x in T && x.dom != null :: x.dom)`attrs, ds`attrs
  {
    Misread(T) == {} <==> NilsWritable(ds)
  }

  // The object has its nil property from its element.
  ghost predicate NilRead(x: XMLObject)
    reads x`dom, x`nil, x`attributes, (if x.dom == null then {} else {x.dom})`attrs
  {
    x.dom != null ==> NIL_NAME !in x.attributes && x.nil == OverlaidNil(NilNull, x.dom.attrs, {})
  }

  lemma MisreadSum(A: set<XMLObject>, B: set<XMLObject>)
    ensures Misread(A + B) == Misread(A) + Misread(B)
  {
  }

  lemma SameNilsSum(A: set<XMLObject>, B: set<XMLObject>, ds: set<Element>, es: set<Element>)
    requires SameNils(A, ds) == true && SameNils(B, es) == true
    ensures SameNils(A + B, ds + es) == true
  {
    MisreadSum(A, B);
    hide Misread;
    if NilsWritable(ds + es) {
      assert forall d :: d in ds ==> d in ds + es;
      assert forall d :: d in es ==> d in ds + es;
    }
  }

  // An object that misread its element is out of step with it.
  lemma MisreadSays(x: XMLObject)
    requires NilRead(x) && x.dom != null && x.SaysHead(x.dom)
    ensures WritableNil(x.dom.attrs)
  {
    CanonAt(x.Emitted(), x.dom.attrs);
    NilWritable(x.dom.attrs);
    assert ContentAt(x.Emitted(), NIL_NAME) == ContentAt(x.dom.attrs, NIL_NAME);
  }

  lemma InStepRead(S: set<XMLObject>, T: set<XMLObject>, D: set<Element>)
    requires Cache(S, D, {}) == true && T <= S && forall x :: x in T ==> NilRead(x) == true
    ensures Misread(T) == {}
  {
    hide NilRead, WritableNil;
    forall x | x in T && x.dom != null ensures WritableNil(x.dom.attrs) {
      assert x.Coherent(D);
      MisreadSays(x);
    }
  }

  // No name in the element uses the prefix reserved for declarations.
  predicate NamesPlain(prefix: string, attrs: Attributes) {
    && prefix != "xmlns" && (forall k :: k in attrs && k.uri != XMLNS_NS ==> attrs[k].prefix != "xmlns")
    && (TYPE_NAME in attrs ==>
          var value := attrs[TYPE_NAME].value;
          IndexOf(value, ':') > 0 ==> value[..IndexOf(value, ':')] != "xmlns")
  }

  // An attribute names the namespace by declaring it, unless that is xml's own, or by its own prefix; one that is
  // in no namespace, or in xml's, only if it has a value.
  predicate NamedBy(ns: Namespace, k: Expanded, v: AttrVal) {
    if k.uri == XMLNS_NS then
      ns.prefix == (if k.local == "xmlns" then "" else k.local) && ns.uri == v.value && !(k.local == "xml" && v.value == XML_NS)
    else ns.prefix == v.prefix && ns.uri == k.uri && (k.uri in {"", XML_NS} ==> v.value != "")
  }

  ghost predicate Named(ns: Namespace, attrs: Attributes) {
    exists k :: k in attrs && NamedBy(ns, k, attrs[k])
  }

  // By a declaration.
  ghost predicate Announced(ns: Namespace, attrs: Attributes) {
    exists k :: k in attrs && k.uri == XMLNS_NS && NamedBy(ns, k, attrs[k])
  }

  // By a prefix.
  ghost predicate Mentioned(ns: Namespace, attrs: Attributes) {
    exists k :: k in attrs && k.uri != XMLNS_NS && NamedBy(ns, k, attrs[k])
  }

  predicate SameName(ns: Namespace, prefix: string, uri: string) {
    ns.prefix == prefix && ns.uri == uri
  }

  // The entry was there before or is named by an attribute; if it is pinned, it was, or a declaration names it;
  // if it is visibly used, it was, or a prefix names it.
  ghost predicate NameFrom(ns: Namespace, base: seq<Namespace>, attrs: Attributes) {
    && (Named(ns, attrs) || exists m :: m in base && SameName(ns, m.prefix, m.uri))
    && (ns.always ==> Announced(ns, attrs) || exists m :: m in base && SameName(ns, m.prefix, m.uri) && m.always)
    && (ns.usage.VisiblyUsed? ==>
          Mentioned(ns, attrs) || exists m :: m in base && SameName(ns, m.prefix, m.uri) && m.usage.VisiblyUsed?)
  }

  ghost predicate NamesFrom(nss: seq<Namespace>, base: seq<Namespace>, attrs: Attributes) {
    forall ns :: ns in nss ==> NameFrom(ns, base, attrs)
  }

  // Each of these attributes is heeded: a declaration, but for xml's own, leaves an entry for its prefix, pinned
  // if it is for the declared URI, and a qualified name one for its prefix, visibly used if it is for its own.
  ghost predicate Heeds(nss: seq<Namespace>, attrs: Attributes, todo: set<Expanded>) {
    forall k :: k in attrs && k !in todo ==> HeedsOne(nss, k, attrs[k])
  }

  ghost predicate HeedsOne(nss: seq<Namespace>, k: Expanded, v: AttrVal) {
    && (k.uri == XMLNS_NS && !(k.local == "xml" && v.value == XML_NS) ==>
          Has(nss, if k.local == "xmlns" then "" else k.local, v.value, true))
    && (k.uri !in {XMLNS_NS, XML_NS, ""} && !(k.uri == XSI_NS && k.local in {"type", "nil", "schemaLocation", "noNamespaceSchemaLocation"}) ==>
          Has(nss, v.prefix, k.uri, false))
  }

  lemma HeedsMore(before: seq<Namespace>, after: seq<Namespace>, attrs: Attributes, todo: set<Expanded>, k: Expanded)
    requires Heeds(before, attrs, todo) == true && Follows(before, after) == true && k in attrs && HeedsOne(after, k, attrs[k]) == true
    ensures Heeds(after, attrs, todo - {k}) == true
  {
    hide Follows, Has;
    forall j | j in attrs && j !in todo - {k} ensures HeedsOne(after, j, attrs[j]) {
      if j != k {
        HeedsLater(before, after, j, attrs[j]);
      }
    }
  }

  lemma HeedsLater(before: seq<Namespace>, after: seq<Namespace>, k: Expanded, v: AttrVal)
    requires HeedsOne(before, k, v) && Follows(before, after) == true
    ensures HeedsOne(after, k, v) == true
  {
    hide Follows, Has;
    var declared := if k.local == "xmlns" then "" else k.local;
    if Has(before, declared, v.value, true) { FollowsHas(before, after, declared, v.value, true); }
    if Has(before, v.prefix, k.uri, false) { FollowsHas(before, after, v.prefix, k.uri, false); }
  }

  // Every entry is that of the element's name, of its type, or named by one of its attributes; just those that a
  // declaration names are pinned, and just that of the element's name and those a prefix names visibly used.
  ghost predicate Sourced(nss: seq<Namespace>, name: QName, typ: Option<QName>, attrs: Attributes) {
    forall ns :: ns in nss ==>
      && (SameName(ns, name.prefix, name.uri) || (typ.Some? && SameName(ns, typ.value.prefix, typ.value.uri)) || Named(ns, attrs))
      && (ns.always ==> Announced(ns, attrs))
      && (ns.usage.VisiblyUsed? ==> SameName(ns, name.prefix, name.uri) || Mentioned(ns, attrs))
  }

  lemma NamesAdded(nss: seq<Namespace>, ns: Namespace, base: seq<Namespace>, attrs: Attributes)
    requires NamesFrom(nss, base, attrs) == true && Named(ns, attrs)
    requires (ns.always ==> Announced(ns, attrs)) && (ns.usage.VisiblyUsed? ==> Mentioned(ns, attrs))
    ensures NamesFrom(Added(nss, ns), base, attrs) == true
  {
    AddedGrows(nss, ns);
    AddedPins(nss, ns);
    hide Added, Named, Announced, Mentioned;
    forall m | m in Added(nss, ns) ensures NameFrom(m, base, attrs) {
      var i :| 0 <= i < |Added(nss, ns)| && Added(nss, ns)[i] == m;
      SameNamed(ns, m, attrs);
      if i < |nss| {
        assert nss[i] in nss && Grows(nss[i], m) && NameFrom(nss[i], base, attrs);
        SameNamed(nss[i], m, attrs);
      } else {
        assert m == ns;
      }
    }
  }

  lemma SameNamed(a: Namespace, b: Namespace, attrs: Attributes)
    ensures SameName(a, b.prefix, b.uri) && Named(a, attrs) ==> Named(b, attrs)
    ensures SameName(a, b.prefix, b.uri) && Announced(a, attrs) ==> Announced(b, attrs)
    ensures SameName(a, b.prefix, b.uri) && Mentioned(a, attrs) ==> Mentioned(b, attrs)
  {
    if k :| SameName(a, b.prefix, b.uri) && k in attrs && NamedBy(a, k, attrs[k]) {
      assert NamedBy(b, k, attrs[k]);
    }
    if k :| SameName(a, b.prefix, b.uri) && k in attrs && k.uri == XMLNS_NS && NamedBy(a, k, attrs[k]) {
      assert NamedBy(b, k, attrs[k]);
    }
    if k :| SameName(a, b.prefix, b.uri) && k in attrs && k.uri != XMLNS_NS && NamedBy(a, k, attrs[k]) {
      assert NamedBy(b, k, attrs[k]);
    }
  }

  // An object built from an element has its name, a type that can be written exactly when the element's
  // can, namespaces that all come from the element and for all its names, and can be declared if the
  // element's names are plain.
  ghost predicate Matches(x: XMLObject)
    reads x`dom, x`namespaces, x`attributes
    reads (if x.dom == null then {} else {x.dom})`attrs, (if x.dom == null then {} else {x.dom})`prefix
  {
    x.dom != null ==>
      && x.name.prefix == x.dom.prefix
      && (WritableType(x.dom.attrs) <==> (x.typ.Some? ==> x.typ.value.local != ""))
      && (NamesPlain(x.dom.prefix, x.dom.attrs) ==> Plain(x))
      && Sourced(x.namespaces, x.name, x.typ, x.dom.attrs) && Heeds(x.namespaces, x.dom.attrs, {})
  }

  // ---------------------------------------------------------------- attributes

  // Attributes handed to processAttribute: no declarations and none of the four xsi ones.
  predicate Generic(k: Expanded) {
    k.uri != XMLNS_NS && k != TYPE_NAME && k != NIL_NAME && k != SCHEMA_LOCATION && k != NO_NAMESPACE_SCHEMA_LOCATION
  }

  // The extension attributes after the names outside `todo` were handled: the element's value takes the
  // place of the object's, an empty one removes it, and the first prefix stays.
  ghost function Overlaid(base: Attributes, attrs: Attributes, todo: set<Expanded>): Attributes {
    map k | k in base.Keys + attrs.Keys && (if Taken(attrs, todo, k) then attrs[k].value != "" else k in base) ::
      if Taken(attrs, todo, k) then AttrVal(if k in base then base[k].prefix else attrs[k].prefix, attrs[k].value)
      else base[k]
  }

  predicate Taken(attrs: Attributes, todo: set<Expanded>, k: Expanded) {
    k in attrs && k !in todo && Generic(k)
  }

  // The attribute was handled, has a value, and is of type ID.
  predicate Identifies(attrs: Attributes, todo: set<Expanded>, isId: Expanded -> bool, k: Expanded) {
    Taken(attrs, todo, k) && attrs[k].value != "" && isId(k)
  }

  // The ID pointer is at one of the ID attributes handled so far; if there are none it is where it was, unless
  // the attribute it was at was removed.
  ghost predicate IdRead(id: Option<Expanded>, was: Option<Expanded>, attrs: Attributes, todo: set<Expanded>, isId: Expanded -> bool) {
    if exists k :: Identifies(attrs, todo, isId, k) then id.Some? && Identifies(attrs, todo, isId, id.value)
    else id == if was.Some? && Taken(attrs, todo, was.value) && attrs[was.value].value == "" then None else was
  }

  lemma NoIdRead(id: Option<Expanded>, attrs: Attributes, isId: Expanded -> bool)
    ensures IdRead(id, id, attrs, attrs.Keys, isId) == true
  {
  }

  lemma OneIdRead(id: Option<Expanded>, was: Option<Expanded>, attrs: Attributes, todo: set<Expanded>, isId: Expanded -> bool, k: Expanded)
    requires IdRead(id, was, attrs, todo, isId) == true && k in todo && todo <= attrs.Keys
    ensures var after := if Generic(k) then WithId(id, QName(k.uri, k.local, attrs[k].prefix), attrs[k].value, isId(k)) else id;
            IdRead(after, was, attrs, todo - {k}, isId) == true
  {
    hide Generic;
    assert Expanded(k.uri, k.local) == k;
    var now := todo - {k};
    forall j ensures Identifies(attrs, now, isId, j) <==>
                       Identifies(attrs, todo, isId, j) || (j == k && Generic(k) && attrs[k].value != "" && isId(k)) {
    }
    if Generic(k) && attrs[k].value != "" && isId(k) {
      assert Identifies(attrs, now, isId, k);
    } else if exists j :: Identifies(attrs, todo, isId, j) {
      assert Identifies(attrs, todo, isId, id.value) && id.value != k;
      assert Identifies(attrs, now, isId, id.value);
    } else {
      assert forall j :: !Identifies(attrs, now, isId, j);
    }
  }

  ghost function OverlaidNil(base: Nil, attrs: Attributes, todo: set<Expanded>): Nil {
    if NIL_NAME in attrs && NIL_NAME !in todo then ParseNil(attrs[NIL_NAME].value) else base
  }

  // What one attribute of a list contributes to content.
  function ContentAt(attrs: Attributes, k: Expanded): Option<string> {
    if k in attrs then AttrContent(k, attrs[k].value) else None
  }

  lemma CanonAt(a: Attributes, b: Attributes)
    ensures Canon(a) == Canon(b) <==> forall k :: ContentAt(a, k) == ContentAt(b, k)
  {
    assert forall k :: (k in Canon(a) <==> ContentAt(a, k).Some?) && (k in Canon(a) ==> Canon(a)[k] == ContentAt(a, k).value);
    assert forall k :: (k in Canon(b) <==> ContentAt(b, k).Some?) && (k in Canon(b) ==> Canon(b)[k] == ContentAt(b, k).value);
    if Canon(a) == Canon(b) {
      forall k ensures ContentAt(a, k) == ContentAt(b, k) {
        assert k in Canon(a) <==> k in Canon(b);
      }
    }
  }

  // What an object's attributes, nil property and type were before adds nothing to the element's: each
  // attribute is overwritten or says what the element says, and so do nil and the type, unless an
  // attribute of the same name hides them.
  ghost predicate HeadAddsNothing(base: Attributes, nil: Nil, typ: Option<QName>, attrs: Attributes) {
    && (forall k :: k in base ==> (Generic(k) && k in attrs) || ContentAt(base, k) == ContentAt(attrs, k))
    && (NIL_NAME in base || if NIL_NAME in attrs then WritableNil(attrs) else nil.NilNull?)
    && (TYPE_NAME in base || ContentAt(XsiAttributes(NilNull, typ), TYPE_NAME) == ContentAt(attrs, TYPE_NAME))
  }

  // The attributes of the object say what those of the element say exactly when what was there before
  // adds nothing.
  lemma OverlayExactly(base: Attributes, nil: Nil, typ: Option<QName>, attrs: Attributes)
    requires forall k :: k in base ==> base[k].value != ""
    ensures Canon(XsiAttributes(OverlaidNil(nil, attrs, {}), typ) + Overlaid(base, attrs, {})) == Canon(attrs)
            <==> HeadAddsNothing(base, nil, typ, attrs)
  {
    var again := XsiAttributes(OverlaidNil(nil, attrs, {}), typ) + Overlaid(base, attrs, {});
    CanonAt(again, attrs);
    hide ContentAt, Overlaid, XsiAttributes, Canon;
    forall k ensures ContentAt(again, k) == ContentAt(attrs, k) <==> AgreesAt(base, nil, typ, attrs, k) {
      OverlayAt(base, nil, typ, attrs, k);
    }
    if HeadAddsNothing(base, nil, typ, attrs) {
      assert forall k :: AgreesAt(base, nil, typ, attrs, k);
    }
    if forall k :: AgreesAt(base, nil, typ, attrs, k) {
      assert AgreesAt(base, nil, typ, attrs, NIL_NAME) && AgreesAt(base, nil, typ, attrs, TYPE_NAME);
    }
  }

  predicate AgreesAt(base: Attributes, nil: Nil, typ: Option<QName>, attrs: Attributes, k: Expanded) {
    if k in base then (Generic(k) && k in attrs) || ContentAt(base, k) == ContentAt(attrs, k)
    else if k == NIL_NAME then if NIL_NAME in attrs then WritableNil(attrs) else nil.NilNull?
    else if k == TYPE_NAME then ContentAt(XsiAttributes(NilNull, typ), TYPE_NAME) == ContentAt(attrs, TYPE_NAME)
    else true
  }

  lemma OverlayAt(base: Attributes, nil: Nil, typ: Option<QName>, attrs: Attributes, k: Expanded)
    requires forall k :: k in base ==> base[k].value != ""
    ensures ContentAt(XsiAttributes(OverlaidNil(nil, attrs, {}), typ) + Overlaid(base, attrs, {}), k) == ContentAt(attrs, k)
            <==> AgreesAt(base, nil, typ, attrs, k)
  {
    var xsi, own := XsiAttributes(OverlaidNil(nil, attrs, {}), typ), Overlaid(base, attrs, {});
    assert ContentAt(xsi + own, k) == if k in own then ContentAt(own, k) else ContentAt(xsi, k);
    XsiContent(OverlaidNil(nil, attrs, {}), typ, k);
    XsiContent(NilNull, typ, k);
    OwnContent(base, attrs, k);
    hide Overlaid, XsiAttributes;
  }

  lemma XsiContent(nil: Nil, typ: Option<QName>, k: Expanded)
    ensures ContentAt(XsiAttributes(nil, typ), k) ==
            if k == NIL_NAME then (if nil.NilNull? then None else Some(NilText(nil)))
            else if k == TYPE_NAME && typ.Some? && TypeText(typ.value) != "" then Some(TypeText(typ.value))
            else None
  {
    hide TypeText;
    assert NIL_NAME != TYPE_NAME;
  }

  lemma OwnContent(base: Attributes, attrs: Attributes, k: Expanded)
    requires forall k :: k in base ==> base[k].value != ""
    ensures ContentAt(Overlaid(base, attrs, {}), k) == if Generic(k) && k in attrs then ContentAt(attrs, k) else ContentAt(base, k)
    ensures k in Overlaid(base, attrs, {}) ==> if Generic(k) && k in attrs then attrs[k].value != "" else k in base
    ensures k !in Overlaid(base, attrs, {}) ==> if Generic(k) && k in attrs then attrs[k].value == "" else k !in base
  {
  }

  // A new object's attributes come out as those of the element exactly if xsi:nil does.
  lemma AttributesRoundTrip(attrs: Attributes, lookup: string -> string)
    ensures HeadAddsNothing(map[], NilNull, SchemaType(attrs, lookup), attrs) <==> WritableNil(attrs)
  {
    TypeRoundTrip(attrs, lookup);
  }

  // unmarshallAttributes, in any order of the attributes.
  method UnmarshallAttributes(o: XMLObject, e: Element, isId: Expanded -> bool, ghost D: set<Element>)
    requires Tree(o.desc) == true && AllCoherent(o.desc, D, {}) == true && o in o.desc && o.parent == null
    requires o.dom == null && o.Kept() == true
    modifies o`attributes, o`idAttribute, o`namespaces, o`nil, o.desc`dom
    ensures AllCoherent(o.desc, D, {}) == true && o.Kept() == true && forall x :: x in o.desc ==> x.dom == old(x.dom)
    ensures o.attributes == Overlaid(old(o.attributes), e.attrs, {}) && o.nil == OverlaidNil(old(o.nil), e.attrs, {})
    ensures IdRead(o.idAttribute, old(o.idAttribute), e.attrs, {}, isId) == true
    ensures old(Plain(o)) && NamesPlain("", e.attrs) ==> Plain(o)
    ensures NamesFrom(o.namespaces, old(o.namespaces), e.attrs) == true && Heeds(o.namespaces, e.attrs, {}) == true
    ensures Follows(old(o.namespaces), o.namespaces) == true
  {
    hide Tree, AllCoherent, Overlaid, OverlaidNil, XMLObject.Kept, NamesPlain, Plain, NamesFrom, Heeds, HeedsOne, Follows, IdRead;
    var todo := e.attrs.Keys;
    NoneOverlaid(o.attributes, o.nil, e.attrs);
    NamesThere(o.namespaces, e.attrs);
    NoneHeeded(o.namespaces, e.attrs);
    FollowsSelf(o.namespaces);
    NoIdRead(o.idAttribute, e.attrs, isId);
    while todo != {}
      invariant todo <= e.attrs.Keys && o.dom == null && o.Kept() == true && AllCoherent(o.desc, D, {}) == true
      invariant forall x :: x in o.desc ==> x.dom == old(x.dom)
      invariant o.attributes == Overlaid(old(o.attributes), e.attrs, todo) && o.nil == OverlaidNil(old(o.nil), e.attrs, todo)
      invariant IdRead(o.idAttribute, old(o.idAttribute), e.attrs, todo, isId) == true
      invariant old(Plain(o)) && NamesPlain("", e.attrs) ==> Plain(o)
      invariant NamesFrom(o.namespaces, old(o.namespaces), e.attrs) == true && Heeds(o.namespaces, e.attrs, todo) == true
      invariant Follows(old(o.namespaces), o.namespaces) == true
      decreases todo
    {
      var k :| k in todo;
      PlainName(e.attrs, k);
      OneOverlaid(old(o.attributes), old(o.nil), e.attrs, todo, k);
      OneIdRead(o.idAttribute, old(o.idAttribute), e.attrs, todo, isId, k);
      ghost var before := o.namespaces;
      UnmarshallAttribute(o, k, e.attrs[k], isId, D, old(o.namespaces), e.attrs);
      HeedsMore(before, o.namespaces, e.attrs, todo, k);
      FollowsTrans(old(o.namespaces), before, o.namespaces);
      todo := todo - {k};
    }
  }

  lemma NoneHeeded(nss: seq<Namespace>, attrs: Attributes)
    ensures Heeds(nss, attrs, attrs.Keys) == true
  {
  }

  lemma NamesThere(nss: seq<Namespace>, attrs: Attributes)
    ensures NamesFrom(nss, nss, attrs) == true
  {
    forall ns | ns in nss ensures NameFrom(ns, nss, attrs) {
      assert SameName(ns, ns.prefix, ns.uri);
    }
  }

  lemma PlainName(attrs: Attributes, k: Expanded)
    requires k in attrs
    ensures NamesPlain("", attrs) ==> k.uri == XMLNS_NS || attrs[k].prefix != "xmlns"
  {
  }

  lemma NoneOverlaid(base: Attributes, nil: Nil, attrs: Attributes)
    ensures Overlaid(base, attrs, attrs.Keys) == base && OverlaidNil(nil, attrs, attrs.Keys) == nil
  {
  }

  lemma OneOverlaid(base: Attributes, nil: Nil, attrs: Attributes, todo: set<Expanded>, k: Expanded)
    requires k in todo && todo <= attrs.Keys
    ensures var v := attrs[k];
            && Overlaid(base, attrs, todo - {k}) ==
                 (if Generic(k) then WithAttribute(Overlaid(base, attrs, todo), QName(k.uri, k.local, v.prefix), v.value)
                  else Overlaid(base, attrs, todo))
            && OverlaidNil(nil, attrs, todo - {k}) == if k == NIL_NAME then ParseNil(v.value) else OverlaidNil(nil, attrs, todo)
  {
  }

  // One turn of the loop over the attributes.
  method UnmarshallAttribute(o: XMLObject, k: Expanded, v: AttrVal, isId: Expanded -> bool, ghost D: set<Element>,
                             ghost base: seq<Namespace>, ghost attrs: Attributes)
    requires Tree(o.desc) == true && AllCoherent(o.desc, D, {}) == true && o in o.desc && o.parent == null
    requires o.dom == null && o.Kept() == true
    requires k in attrs && attrs[k] == v && NamesFrom(o.namespaces, base, attrs) == true
    modifies o`attributes, o`idAttribute, o`namespaces, o`nil, o.desc`dom
    ensures AllCoherent(o.desc, D, {}) == true && o.Kept() == true && forall x :: x in o.desc ==> x.dom == old(x.dom)
    ensures NamesFrom(o.namespaces, base, attrs) == true
    ensures HeedsOne(o.namespaces, k, v) == true && Follows(old(o.namespaces), o.namespaces) == true
    ensures o.attributes == if Generic(k) then WithAttribute(old(o.attributes), QName(k.uri, k.local, v.prefix), v.value) else old(o.attributes)
    ensures o.nil == if k == NIL_NAME then ParseNil(v.value) else old(o.nil)
    ensures o.idAttribute ==
            if Generic(k) then WithId(old(o.idAttribute), QName(k.uri, k.local, v.prefix), v.value, isId(k)) else old(o.idAttribute)
    ensures old(Plain(o)) && (k.uri == XMLNS_NS || v.prefix != "xmlns") ==> Plain(o)
  {
    hide Tree, AllCoherent, XMLObject.Kept, XMLObject.KeptBut, WithAttribute, WithId, Added, Declarable, Follows, XMLObject.Uncached;
    hide NamesFrom, Has;
    FollowsSelf(o.namespaces);
    RootOnTop(o, {}, o.desc);
    if k.uri == XMLNS_NS {
      if k.local == "xmlns" {
        DeclareNamespace(o, Namespace("", v.value, true, Indeterminate), k, base, attrs);
      } else if !(k.local == "xml" && v.value == XML_NS) {
        DeclareNamespace(o, Namespace(k.local, v.value, true, Indeterminate), k, base, attrs);
      }
      return;
    }
    if k.uri == XSI_NS {
      if k.local == "type" || k.local == "schemaLocation" || k.local == "noNamespaceSchemaLocation" {
        return;
      }
      if k.local == "nil" {
        o.SetNil(ParseNil(v.value), o.desc, D, {});
        return;
      }
    }
    if k.uri != "" && k.uri != XML_NS {
      DeclareNamespace(o, Namespace(v.prefix, k.uri, false, VisiblyUsed), k, base, attrs);
    }
    ghost var nss := o.namespaces;
    AddedFollows(nss, Namespace(v.prefix, k.uri, false, VisiblyUsed));
    FollowsSelf(nss);
    FollowsTrans(old(o.namespaces), nss, nss);
    FollowsTrans(old(o.namespaces), nss, Added(nss, Namespace(v.prefix, k.uri, false, VisiblyUsed)));
    if Has(nss, v.prefix, k.uri, false) {
      FollowsHas(nss, Added(nss, Namespace(v.prefix, k.uri, false, VisiblyUsed)), v.prefix, k.uri, false);
    }
    assert v.value != "" ==> NamedBy(Namespace(v.prefix, k.uri, false, VisiblyUsed), k, v);
    NamesAfter(o.attributes, QName(k.uri, k.local, v.prefix), v.value);
    o.SetAttribute(QName(k.uri, k.local, v.prefix), v.value, isId(k), o.desc, D, {});
    if v.value != "" { NamesAdded(nss, Namespace(v.prefix, k.uri, false, VisiblyUsed), base, attrs); }
    if Declarable(nss) && v.prefix != "xmlns" {
      AddedDeclarable(nss, Namespace(v.prefix, k.uri, false, VisiblyUsed));
    }
  }

  lemma NamesAfter(attrs: Attributes, q: QName, value: string)
    ensures forall n :: n in WithAttribute(attrs, q, value) ==> n in attrs || n == Expanded(q.uri, q.local)
  {
  }

  // addNamespace, as far as the unmarshaller relies on it.
  method DeclareNamespace(o: XMLObject, ns: Namespace, ghost k: Expanded, ghost base: seq<Namespace>, ghost attrs: Attributes)
    requires o.Kept() == true && NamesFrom(o.namespaces, base, attrs) == true && k in attrs && NamedBy(ns, k, attrs[k])
    requires (ns.always ==> k.uri == XMLNS_NS) && (ns.usage.VisiblyUsed? ==> k.uri != XMLNS_NS)
    modifies o`namespaces
    ensures o.Kept() == true && NamesFrom(o.namespaces, base, attrs) == true && Follows(old(o.namespaces), o.namespaces) == true
    ensures ns.always ==> Has(o.namespaces, ns.prefix, ns.uri, true)
    ensures ns.usage.VisiblyUsed? ==> Has(o.namespaces, ns.prefix, ns.uri, false)
    ensures old(Declarable(o.namespaces)) && ns.prefix != "xmlns" ==> Declarable(o.namespaces)
  {
    hide NamesFrom;
    NamesAdded(o.namespaces, ns, base, attrs);
    AddedHas(o.namespaces, ns);
    label Before: o.AddNamespace(ns);
    AddedFollows(old(o.namespaces), ns);
    o.StillKept@Before({});
    if old(Declarable(o.namespaces)) && ns.prefix != "xmlns" {
      AddedDeclarable(old(o.namespaces), ns);
    }
  }

  // ---------------------------------------------------------------- content

  lemma {:induction false} ElemsPrefix<E>(nodes: seq<Node<E>>, j: nat)
    requires j <= |nodes|
    ensures |Elems(nodes[..j])| <= |Elems(nodes)| && Elems(nodes[..j]) == Elems(nodes)[..|Elems(nodes[..j])|]
    ensures j < |nodes| && nodes[j].ElementNode? ==>
              |Elems(nodes[..j])| < |Elems(nodes)| && Elems(nodes)[|Elems(nodes[..j])|] == nodes[j].elem
    decreases |nodes| - j
  {
    if j < |nodes| {
      ElemsPrefix(nodes, j + 1);
      assert nodes[..j + 1][..j] == nodes[..j];
    } else {
      assert nodes[..j] == nodes;
    }
  }

  // The text read at a position among the first j nodes.
  function TextRead(nodes: seq<Node<Element>>, j: nat, k: nat): string
    requires j <= |nodes|
  {
    if k <= |Elems(nodes[..j])| then Texts(nodes[..j])[k] else ""
  }

  // The slots hold what they held before, followed by what was read at their positions.
  ghost predicate Slotted(slots: seq<string>, was: seq<string>, nodes: seq<Node<Element>>, j: nat)
    requires j <= |nodes|
  {
    forall k: nat :: TextAt(slots, k) == TextAt(was, k) + TextRead(nodes, j, k)
  }

  // A text node at position n is added to slot n.
  lemma TextStep(nodes: seq<Node<Element>>, j: nat, slots: seq<string>, was: seq<string>)
    requires j < |nodes| && nodes[j].TextNode? && Slotted(slots, was, nodes, j)
    ensures Elems(nodes[..j + 1]) == Elems(nodes[..j])
    ensures Slotted(WithText(slots, nodes[j].text, |Elems(nodes[..j])|), was, nodes, j + 1)
  {
    assert nodes[..j + 1] == nodes[..j] + [nodes[j]];
    MixedContent.AppendText(nodes[..j], nodes[j].text);
    var n := |Elems(nodes[..j])|;
    var after := WithText(slots, nodes[j].text, n);
    forall k: nat ensures TextAt(after, k) == TextAt(was, k) + TextRead(nodes, j + 1, k) {
      assert TextAt(slots, k) == TextAt(was, k) + TextRead(nodes, j, k);
      assert TextAt(slots, k) + "" == TextAt(slots, k);
      assert (TextAt(was, k) + TextRead(nodes, j, k)) + nodes[j].text == TextAt(was, k) + (TextRead(nodes, j, k) + nodes[j].text);
    }
  }

  // An element starts a new position.
  lemma ElementStep(nodes: seq<Node<Element>>, j: nat, slots: seq<string>, was: seq<string>)
    requires j < |nodes| && nodes[j].ElementNode? && Slotted(slots, was, nodes, j)
    ensures Elems(nodes[..j + 1]) == Elems(nodes[..j]) + [nodes[j].elem]
    ensures Slotted(slots, was, nodes, j + 1)
  {
    assert nodes[..j + 1] == nodes[..j] + [nodes[j]];
    AppendElement(nodes[..j], nodes[j].elem);
    forall k: nat ensures TextAt(slots, k) == TextAt(was, k) + TextRead(nodes, j + 1, k) {
      assert TextAt(slots, k) == TextAt(was, k) + TextRead(nodes, j, k);
    }
  }

  // What an object was before it was unmarshalled: everything at and below it, its children, its text.
  datatype Base = Base(objects: set<XMLObject>, children: seq<XMLObject>, text: seq<string>)

  // A built object: cached over one of the given elements, owning nothing.
  ghost predicate Young(x: XMLObject, used: set<Element>)
    reads x`dom, x`document, x`namespaces, x`attributes, x`idAttribute, x`nil
    reads (if x.dom == null then {} else {x.dom})`attrs, (if x.dom == null then {} else {x.dom})`prefix
  {
    x.dom != null && x.dom in used && x.Kept() && x.document == null && Matches(x) && NilRead(x)
  }

  // The children of each object are those of its element, in order.
  ghost predicate Mirrored(T: set<XMLObject>)
    reads T`dom, T`children, (set x, i | x in T && 0 <= i < |x.children| :: x.children[i])`dom
    reads (set x | x in T && x.dom != null :: x.dom)`kids
  {
    forall x :: x in T && x.dom != null ==> x.Wraps(x.dom)
  }

  lemma NoneMirrored(T: set<XMLObject>)
    requires T == {}
    ensures Mirrored(T) == true
  {
  }

  twostate lemma SameMirrored(w: (set<XMLObject>, set<XMLObject>, set<Element>))
    requires w.0 <= w.1 && old(Mirrored(w.0)) == true && old(ChildrenIn(w.1)) == true
    requires forall x :: x in w.1 ==> x.dom == old(x.dom) && (x.dom != null ==> x.dom in w.2)
    requires forall x :: x in w.0 ==> x.children == old(x.children)
    requires forall e :: e in w.2 ==> unchanged(e)
    ensures Mirrored(w.0) == true
  {
    forall x | x in w.0 && x.dom != null ensures x.Wraps(x.dom) {
      assert old(x.Wraps(x.dom));
    }
  }

  // What is at and below an object under construction: what there was, caching none of the elements of
  // the tree that is read, and built objects, one for each element used, in step but for xsi:nil.
  ghost predicate Grown(o: XMLObject, D: set<Element>, base: set<XMLObject>, used: set<Element>, all: set<Element>)
    reads o`parent, o`desc, o.desc, set x | x in o.desc && x.dom != null :: x.dom
    reads D`attrs, D`kids, D`parent, base`dom
  {
    && o.parent == null && o in base && base <= o.desc && Tree(o.desc) && Cache(o.desc, D, Misread(o.desc - base))
    && used <= all <= D && SameNils(o.desc - base, used) && Mirrored(o.desc - base)
    && (forall x :: x in o.desc && x !in base ==> Young(x, used))
    && (forall x :: x in base && x != o && x.dom != null ==> x.dom !in all)
  }

  // The part of Partial that is about the object itself and its list of children.
  ghost predicate Holds(o: XMLObject, sh: Shape, D: set<Element>, j: nat, b: Base)
    reads o`dom, o`children, o`text, o`desc, o.children`dom, D`kids
  {
    && sh.elem in D && j <= |sh.elem.kids| && o.dom == null && Slotted(o.text, b.text, sh.elem.kids, j)
    && var n, m := |b.children|, |Elems(sh.elem.kids[..j])|;
       && |o.children| == n + m && o.children[..n] == b.children
       && (forall i :: n <= i < n + m ==> o.children[i] in o.desc && o.children[i].dom == Elems(sh.elem.kids[..j])[i - n])
  }

  // The first j child nodes are in the object.
  ghost predicate Partial(o: XMLObject, sh: Shape, D: set<Element>, j: nat, b: Base)
    reads o, o.desc, o.children`dom, D`attrs, D`kids, D`parent, b.objects`dom
    reads set x | x in o.desc && x.dom != null :: x.dom
  {
    Holds(o, sh, D, j, b) && Grown(o, D, b.objects, Used(sh, |Elems(sh.elem.kids[..j])|), sh.below)
  }

  // The result of building a whole tree: one object for each element, in step but for xsi:nil.
  ghost predicate Built(o: XMLObject, sh: Shape, D: set<Element>)
    reads o, o.desc, D`attrs, D`kids, D`parent, set x | x in o.desc && x.dom != null :: x.dom
  {
    && o.parent == null && o in o.desc && Tree(o.desc) && Cache(o.desc, D, Misread(o.desc)) && o.dom == sh.elem
    && sh.below <= D && SameNils(o.desc, sh.below) && Mirrored(o.desc)
    && forall x :: x in o.desc ==> Young(x, sh.below)
  }

  // A text or CDATA node.
  method UnmarshallText(o: XMLObject, position: nat, value: string, ghost sh: Shape, ghost D: set<Element>, ghost j: nat, ghost b: Base)
    requires Partial(o, sh, D, j, b) == true && j < |sh.elem.kids| && sh.elem.kids[j] == TextNode(value)
    requires position == |Elems(sh.elem.kids[..j])|
    modifies o.desc`dom, o`text
    ensures Partial(o, sh, D, j + 1, b) == true && forall x :: x in o.desc ==> x.dom == old(x.dom)
    ensures |Elems(sh.elem.kids[..j + 1])| == position
  {
    hide Grown, XMLObject.Uncached;
    TextStep(sh.elem.kids, j, o.text, b.text);
    GrownTop(o, D, b.objects, Used(sh, position), sh.below);
    var ok := o.SetTextContent(value, position, o.desc, D, Misread(o.desc - b.objects));
    KeptGrown((o, D, b.objects, Used(sh, position), sh.below));
  }

  lemma GrownTop(o: XMLObject, D: set<Element>, base: set<XMLObject>, used: set<Element>, all: set<Element>)
    requires Grown(o, D, base, used, all) == true
    ensures Tree(o.desc) == true && Cache(o.desc, D, Misread(o.desc - base)) == true && AllCoherent(o.desc, D, Misread(o.desc - base)) == true
    ensures o in o.desc && o in base && base <= o.desc && o.parent == null && used <= all
    ensures forall x :: x in o.desc && x != o ==> o !in x.desc
    ensures forall x :: x in o.desc && x !in base ==> Young(x, used)
  {
    RootOnTop(o, {}, o.desc);
  }

  twostate lemma KeptGrown(w: (XMLObject, set<Element>, set<XMLObject>, set<Element>, set<Element>))
    requires old(Grown(w.0, w.1, w.2, w.3, w.4)) == true && w.0.desc == old(w.0.desc)
    requires AllCoherent(w.0.desc, w.1, old(Misread(w.0.desc - w.2))) == true
    requires unchanged(w.0.desc`desc, w.0.desc`children, w.0.desc`parent, w.0.desc`document)
    requires unchanged(w.0.desc`namespaces, w.0.desc`attributes, w.0.desc`idAttribute, w.0.desc`nil)
    requires forall x :: x in w.0.desc ==> x.dom == old(x.dom)
    requires forall e :: e in w.1 ==> unchanged(e)
    ensures Grown(w.0, w.1, w.2, w.3, w.4) == true
  {
    hide Cache, Tree, AllCoherent, Misread, SameNils, Mirrored, Matches, NilRead, XMLObject.Kept;
    CacheSteady((w.0.desc, w.1, old(Misread(w.0.desc - w.2))));
    SameMisread((w.0.desc - w.2, w.1, w.3));
    OldClosed(w.0.desc);
    SameMirrored((w.0.desc - w.2, w.0.desc, w.1));
    var (o, D, base, used, all) := w;
    forall x | x in o.desc && x !in base ensures Young(x, used) {
      assert old(Young(x, used));
      assert x.dom in D;
    }
  }

  lemma BothMirrored(A: set<XMLObject>, B: set<XMLObject>)
    requires Mirrored(A) == true && Mirrored(B) == true
    ensures Mirrored(A + B) == true
  {
  }

  twostate lemma OldClosed(S: set<XMLObject>)
    requires old(Tree(S)) == true
    ensures old(ChildrenIn(S)) == true
  {
    forall o, c | o in S && c in old(o.children) ensures c in S {
      assert old(o.TreeAt(S));
    }
  }

  twostate lemma CacheSteady(w: (set<XMLObject>, set<Element>, set<XMLObject>))
    requires old(Cache(w.0, w.1, w.2)) == true && AllCoherent(w.0, w.1, w.2) == true
    requires forall x :: x in w.0 ==> x.dom == old(x.dom)
    requires forall e :: e in w.1 ==> unchanged(e)
    ensures Cache(w.0, w.1, w.2) == true
    ensures forall x :: x in w.0 && x.dom != null ==> x.dom in w.1
  {
    forall x | x in w.0 && x.dom != null ensures x.dom in w.1 && Hung(x.dom, w.1) {
      assert old(Hung(x.dom, w.1));
    }
  }

  twostate lemma SameMisread(w: (set<XMLObject>, set<Element>, set<Element>))
    requires forall x :: x in w.0 ==> x.dom == old(x.dom) && (x.dom != null ==> x.dom in w.1)
    requires w.2 <= w.1 && forall e :: e in w.1 ==> unchanged(e)
    ensures Misread(w.0) == old(Misread(w.0)) && (old(SameNils(w.0, w.2)) ==> SameNils(w.0, w.2) == true)
  {
  }

  // The j-th child node is the n-th child element, whose tree is apart from those before it.
  ghost predicate ChildAt(sh: Shape, D: set<Element>, j: nat, n: nat)
    reads D`kids
  {
    && sh.elem in D && j < |sh.elem.kids| && sh.elem.kids[j].ElementNode? && n == |Elems(sh.elem.kids[..j])|
    && n < |sh.kids| && sh.kids[n].elem == sh.elem.kids[j].elem
    && Used(sh, n) !! sh.kids[n].below && sh.kids[n].below <= sh.below
  }

  // processChildElement: the built child goes to the end of the list.
  method AddChild(o: XMLObject, child: XMLObject, ghost sh: Shape, ghost D: set<Element>, ghost j: nat, ghost n: nat, ghost b: Base)
    requires n < |sh.kids| && ChildAt(sh, D, j, n) == true && Partial(o, sh, D, j, b) == true && Built(child, sh.kids[n], D) == true
    requires o.desc !! child.desc
    modifies (o.desc + child.desc)`dom, o.desc`desc, o`children, child`parent
    ensures Partial(o, sh, D, j + 1, b) == true && o.desc == old(o.desc) + old(child.desc)
    ensures forall x :: x in o.desc ==> x.dom == old(x.dom)
    ensures forall x :: x in old(o.desc) && x != o ==> x.desc == old(x.desc)
  {
    hide Partial, Built, Grown, Used, Tree, Cache, AllCoherent, Young, Slotted, XMLObject.Uncached, Misread, SameNils, Mirrored;
    ghost var S, U := o.desc, child.desc;
    BeforeAdd(o, child, sh, D, j, n, b);
    var ok := o.PushBack(child, S, U, D, Misread(S - b.objects) + Misread(U));
    JoinedGrown((o, child, S, U, D, b.objects, Used(sh, n), sh.kids[n].below, sh.below));
    assert forall i :: 0 <= i < |old(o.children)| ==> o.children[i] == old(o.children[i]) && o.children[i].dom == old(o.children[i].dom);
    AfterAdd(o, child, sh, D, j, n, b);
  }

  lemma BeforeAdd(o: XMLObject, child: XMLObject, sh: Shape, D: set<Element>, j: nat, n: nat, b: Base)
    requires ChildAt(sh, D, j, n) == true && Partial(o, sh, D, j, b) == true && Built(child, sh.kids[n], D) == true
    ensures Grown(o, D, b.objects, Used(sh, n), sh.below) == true && Used(sh, n) !! sh.kids[n].below && sh.kids[n].below <= sh.below
    ensures n == |Elems(sh.elem.kids[..j])| && Holds(o, sh, D, j, b) && child.dom == sh.elem.kids[j].elem
    ensures forall x :: x in child.desc ==> Young(x, sh.kids[n].below) == true
    ensures Tree(o.desc) == true && o in o.desc && o.parent == null && b.objects <= o.desc
    ensures Tree(child.desc) == true && child in child.desc && child.parent == null
    ensures var X := Misread(o.desc - b.objects) + Misread(child.desc);
            AllCoherent(o.desc, D, X) == true && AllCoherent(child.desc, D, X) == true
    ensures Cache(child.desc, D, Misread(child.desc)) == true && SameNils(child.desc, sh.kids[n].below) == true && Mirrored(child.desc) == true
    ensures forall x :: x in o.desc && x != o ==> o !in x.desc
  {
    hide XMLObject.Coherent, Misread, Young, Mirrored;
    RootOnTop(o, {}, o.desc);
  }

  lemma AfterAdd(o: XMLObject, child: XMLObject, sh: Shape, D: set<Element>, j: nat, n: nat, b: Base)
    requires ChildAt(sh, D, j, n) == true && o.dom == null && Slotted(o.text, b.text, sh.elem.kids, j) == true
    requires Grown(o, D, b.objects, Used(sh, n) + sh.kids[n].below, sh.below) == true
    requires var m := |b.children|;
             && |o.children| == m + n + 1 && o.children[..m] == b.children && o.children[m + n] == child
             && child in o.desc && child.dom == sh.elem.kids[j].elem
             && (forall i :: m <= i < m + n ==> o.children[i] in o.desc && o.children[i].dom == Elems(sh.elem.kids[..j])[i - m])
    ensures Partial(o, sh, D, j + 1, b) == true
  {
    hide Grown, Used, Tree, Texts, Gaps, Slotted;
    ElementSlot(sh.elem.kids, j, o.text, b.text);
    UsedStep(sh, n);
  }

  lemma ElementSlot(nodes: seq<Node<Element>>, j: nat, slots: seq<string>, was: seq<string>)
    requires j < |nodes| && nodes[j].ElementNode? && Slotted(slots, was, nodes, j) == true
    ensures Elems(nodes[..j + 1]) == Elems(nodes[..j]) + [nodes[j].elem]
    ensures Slotted(slots, was, nodes, j + 1) == true
  {
    ElementStep(nodes, j, slots, was);
  }

  lemma UsedStep(sh: Shape, n: nat)
    requires n < |sh.kids|
    ensures Used(sh, n + 1) == Used(sh, n) + sh.kids[n].below
  {
  }

  twostate lemma JoinedGrown(w: (XMLObject, XMLObject, set<XMLObject>, set<XMLObject>, set<Element>, set<XMLObject>,
                                 set<Element>, set<Element>, set<Element>))
    requires old(Grown(w.0, w.4, w.5, w.6, w.8)) == true && old(Cache(w.3, w.4, Misread(w.3))) == true && w.6 !! w.7 && w.7 <= w.8
    requires old(SameNils(w.3, w.7)) == true && old(Mirrored(w.3)) == true && old(Tree(w.3)) == true
    requires forall x :: x in w.2 + w.3 && x != w.0 ==> x.children == old(x.children)
    requires forall x :: x in w.3 ==> old(Young(x, w.7)) == true
    requires w.2 == old(w.0.desc) && w.3 == old(w.1.desc) && w.2 !! w.3 && w.0.desc == w.2 + w.3
    requires w.0.parent == null && w.0.dom == null
    requires Tree(w.0.desc) == true && AllCoherent(w.0.desc, w.4, old(Misread(w.2 - w.5) + Misread(w.3))) == true
    requires unchanged(w.0.desc`document, w.0.desc`namespaces, w.0.desc`attributes, w.0.desc`idAttribute, w.0.desc`nil)
    requires forall x :: x in w.0.desc ==> x.dom == old(x.dom)
    requires forall e :: e in w.4 ==> unchanged(e)
    ensures Grown(w.0, w.4, w.5, w.6 + w.7, w.8) == true
  {
    hide Tree, XMLObject.Kept, Hung, Matches, NilRead, AllCoherent, Misread, SameNils, Mirrored;
    var (o, child, S, U, D, base, used, below, all) := w;
    assert o.desc - base == (S - base) + U;
    SameMisread((S - base, D, used));
    SameMisread((U, D, below));
    MisreadSum(S - base, U);
    SameNilsSum(S - base, U, used, below);
    OldClosed(S);
    OldClosed(U);
    SameMirrored((S - base, S, D));
    SameMirrored((U, U, D));
    BothMirrored(S - base, U);
    forall x | x in o.desc && x !in base ensures Young(x, used + below) {
      if x in S {
        assert old(Young(x, used));
      } else {
        assert old(Young(x, below));
      }
      SameYoung((x, if x in S then used else below, D));
    }
    forall x | x in o.desc && x.dom != null ensures x.dom in D && Hung(x.dom, D) {
      SameHung((x, if x in S then S else U, D, if x in S then old(Misread(S - base)) else old(Misread(U))));
    }
  }

  twostate lemma SameHung(w: (XMLObject, set<XMLObject>, set<Element>, set<XMLObject>))
    requires old(Cache(w.1, w.2, w.3)) && w.0 in w.1 && w.0.dom == old(w.0.dom) && w.0.dom != null
    requires forall e :: e in w.2 ==> unchanged(e)
    ensures w.0.dom in w.2 && Hung(w.0.dom, w.2)
  {
    assert old(Hung(w.0.dom, w.2));
  }

  twostate lemma SameYoung(w: (XMLObject, set<Element>, set<Element>))
    requires old(Young(w.0, w.1)) && w.0.dom == old(w.0.dom) && old(w.0.dom) in w.2
    requires unchanged(w.0`document, w.0`namespaces, w.0`attributes, w.0`idAttribute, w.0`nil)
    requires forall e :: e in w.2 ==> unchanged(e)
    ensures Young(w.0, w.1)
  {
  }

  // ---------------------------------------------------------------- the unmarshaller

  // Everything up to the j-th child node is of a supported type.
  ghost predicate Clear(sh: Shape, D: set<Element>, j: nat)
    reads D`kids
  {
    && sh.elem in D && j <= |sh.elem.kids| && OtherNode !in sh.elem.kids[..j]
    && forall k :: 0 <= k < |Elems(sh.elem.kids[..j])| && k < |sh.kids| ==> Supported(sh.kids[k], D)
  }

  // The elements of the child trees that are read before a node of an unsupported type stops it.
  ghost function Read(sh: Shape, D: set<Element>): set<Element>
    reads D`kids
  {
    set i, x | 0 <= i < |sh.kids| && Reached(sh, D, i) && x in sh.kids[i].below :: x
  }

  ghost predicate Reached(sh: Shape, D: set<Element>, i: nat)
    reads D`kids
  {
    exists j: nat :: Clear(sh, D, j) && i < |Elems(sh.elem.kids[..j])|
  }

  // Reading stops at the first node that is not supported.
  lemma ReadUpTo(sh: Shape, D: set<Element>, j: nat)
    requires IsShape(sh, D) == true && Clear(sh, D, j) == true && j <= |sh.elem.kids| && (j == |sh.elem.kids| || !Clear(sh, D, j + 1))
    ensures Read(sh, D) == Used(sh, |Elems(sh.elem.kids[..j])|)
    ensures Supported(sh, D) <==> j == |sh.elem.kids|
  {
    hide IsShape, Supported, Clear, Reached;
    ClearEnds(sh, D);
    if j < |sh.elem.kids| && Clear(sh, D, |sh.elem.kids|) {
      ClearBefore(sh, D, j + 1, |sh.elem.kids|);
    }
    forall i: nat ensures Reached(sh, D, i) <==> i < |Elems(sh.elem.kids[..j])| {
      ReachedUpTo(sh, D, j, i);
    }
  }

  lemma ReachedUpTo(sh: Shape, D: set<Element>, j: nat, i: nat)
    requires Clear(sh, D, j) == true && (j == |sh.elem.kids| || !Clear(sh, D, j + 1))
    ensures j <= |sh.elem.kids| && (Reached(sh, D, i) <==> i < |Elems(sh.elem.kids[..j])|)
  {
    if Reached(sh, D, i) {
      var j': nat :| Clear(sh, D, j') && i < |Elems(sh.elem.kids[..j'])|;
      if j' > j {
        ClearBefore(sh, D, j + 1, j');
      }
      ElemsPrefix(sh.elem.kids[..j], j');
      assert sh.elem.kids[..j][..j'] == sh.elem.kids[..j'];
    }
  }

  lemma ClearBefore(sh: Shape, D: set<Element>, j: nat, j': nat)
    requires Clear(sh, D, j') == true && j <= j'
    ensures Clear(sh, D, j) == true
  {
    hide Supported;
    ElemsPrefix(sh.elem.kids[..j'], j);
    assert sh.elem.kids[..j'][..j] == sh.elem.kids[..j];
  }

  // Which child of the tree the j-th child node is.
  lemma ChildShape(sh: Shape, D: set<Element>, j: nat, n: nat)
    requires IsShape(sh, D) == true && j < |sh.elem.kids| && sh.elem.kids[j].ElementNode? && n == |Elems(sh.elem.kids[..j])|
    ensures ChildAt(sh, D, j, n) == true && n < |sh.kids| && sh.kids[n].elem == sh.elem.kids[j].elem
    ensures IsShape(sh.kids[n], D) == true && Hung(sh.kids[n].elem, D) && |Elems(sh.elem.kids[..j + 1])| == n + 1
  {
    ElemsPrefix(sh.elem.kids, j);
    assert sh.elem.kids[..j + 1] == sh.elem.kids[..j] + [sh.elem.kids[j]];
    AppendElement(sh.elem.kids[..j], sh.elem.kids[j].elem);
  }

  lemma ChildClear(sh: Shape, D: set<Element>, j: nat, n: nat)
    requires ChildAt(sh, D, j, n) == true && Clear(sh, D, j) == true && |Elems(sh.elem.kids[..j + 1])| == n + 1
    ensures Clear(sh, D, j + 1) == true <==> Supported(sh.kids[n], D)
  {
    hide Supported, Used;
    assert sh.elem.kids[..j + 1] == sh.elem.kids[..j] + [sh.elem.kids[j]];
  }

  lemma TextClear(sh: Shape, D: set<Element>, j: nat)
    requires Clear(sh, D, j) == true && j < |sh.elem.kids| && sh.elem.kids[j].TextNode?
    ensures Clear(sh, D, j + 1) == true
  {
    assert sh.elem.kids[..j + 1] == sh.elem.kids[..j] + [sh.elem.kids[j]];
    MixedContent.AppendText(sh.elem.kids[..j], sh.elem.kids[j].text);
  }

  lemma PartialTop(o: XMLObject, sh: Shape, D: set<Element>, j: nat, b: Base)
    requires Partial(o, sh, D, j, b) == true
    ensures o in o.desc && o in b.objects && b.objects <= o.desc && o.dom == null && o.parent == null
    ensures Tree(o.desc) == true && Cache(o.desc, D, Misread(o.desc - b.objects)) == true
    ensures SameNils(o.desc - b.objects, Used(sh, |Elems(sh.elem.kids[..j])|)) == true && Used(sh, |Elems(sh.elem.kids[..j])|) <= sh.below <= D
    ensures Mirrored(o.desc - b.objects) == true
    ensures forall x :: x in o.desc && x !in b.objects ==> Young(x, sh.below)
  {
    hide Tree, Cache, Matches, Misread, SameNils, Mirrored;
  }

  lemma ClearEnds(sh: Shape, D: set<Element>)
    requires IsShape(sh, D) == true
    ensures Clear(sh, D, 0) == true && sh.elem in D
    ensures Clear(sh, D, |sh.elem.kids|) <==> Supported(sh, D)
    ensures forall j :: 0 <= j < |sh.elem.kids| && sh.elem.kids[j].OtherNode? ==> !Clear(sh, D, j + 1)
  {
    assert sh.elem.kids[..|sh.elem.kids|] == sh.elem.kids;
  }

  // An element node: a child is built and added.
  method ReadChild(o: XMLObject, ce: Element, lookup: (Element, string) -> string, isId: Expanded -> bool,
                   ghost sh: Shape, ghost D: set<Element>, ghost j: nat, ghost b: Base)
    returns (ok: bool)
    requires IsShape(sh, D) == true && Partial(o, sh, D, j, b) == true && Clear(sh, D, j) == true
    requires j < |sh.elem.kids| && sh.elem.kids[j] == ElementNode(ce) && o in o.desc
    modifies o.desc`dom, o.desc`desc, o`children
    decreases sh, 0
    ensures ok ==> Partial(o, sh, D, j + 1, b) == true && Clear(sh, D, j + 1) == true
    ensures |Elems(sh.elem.kids[..j + 1])| == |Elems(sh.elem.kids[..j])| + 1
    ensures !ok ==> !Clear(sh, D, j + 1) && Partial(o, sh, D, j, b) == true
    ensures old(o.desc) <= o.desc && forall x :: x in o.desc && x !in old(o.desc) ==> fresh(x)
    ensures forall x :: x in old(o.desc) ==> x.dom == old(x.dom) && (x != o ==> x.desc == old(x.desc))
  {
    hide IsShape, ChildAt, Supported, Clear, Partial, Built;
    ghost var n := |Elems(sh.elem.kids[..j])|;
    ChildShape(sh, D, j, n);
    ChildClear(sh, D, j, n);
    var child := BuildFromElement(ce, lookup, isId, sh.kids[n], D);
    ok := child != null;
    if ok {
      AddChild(o, child, sh, D, j, n, b);
    }
  }

  // unmarshallContent: every child node in order, text slots counted by the elements passed.
  method UnmarshallContent(o: XMLObject, e: Element, lookup: (Element, string) -> string, isId: Expanded -> bool,
                           ghost sh: Shape, ghost D: set<Element>, ghost b: Base)
    returns (ok: bool)
    requires IsShape(sh, D) == true && sh.elem == e && Partial(o, sh, D, 0, b) == true && b.objects == o.desc
    modifies o.desc`dom, o.desc`desc, o`dom, o`desc, o`children, o`text
    decreases sh, 1
    ensures ok <==> Supported(sh, D)
    ensures ok ==> Partial(o, sh, D, |e.kids|, b) == true
    ensures o in o.desc && o.dom == null && o.parent == null && b.objects <= o.desc
    ensures Tree(o.desc) == true && Cache(o.desc, D, Misread(o.desc - b.objects)) == true
    ensures SameNils(o.desc - b.objects, Read(sh, D)) == true && Mirrored(o.desc - b.objects) == true
    ensures forall x :: x in o.desc && x !in b.objects ==> fresh(x) && Young(x, sh.below)
    ensures forall x :: x in b.objects ==> x.dom == old(x.dom) && (x != o ==> x.desc == old(x.desc))
  {
    hide IsShape, Supported, Clear, Partial, Built, Tree, Cache, Young, Read, Used, Misread, SameNils, Mirrored;
    ClearEnds(sh, D);
    PartialTop(o, sh, D, 0, b);
    var j, position := 0, 0;
    while j < |e.kids|
      invariant j <= |e.kids| && Clear(sh, D, j) == true && Partial(o, sh, D, j, b) == true
      invariant position == |Elems(e.kids[..j])| && o in o.desc && b.objects <= o.desc
      invariant forall x :: x in o.desc && x !in b.objects ==> fresh(x)
      invariant forall x :: x in b.objects ==> x.dom == old(x.dom) && (x != o ==> x.desc == old(x.desc))
      decreases |e.kids| - j
    {
      PartialTop(o, sh, D, j, b);
      match e.kids[j] {
        case TextNode(value) =>
          TextClear(sh, D, j);
          UnmarshallText(o, position, value, sh, D, j, b);
        case ElementNode(ce) =>
          ok := ReadChild(o, ce, lookup, isId, sh, D, j, b);
          if !ok {
            PartialTop(o, sh, D, j, b);
            ReadUpTo(sh, D, j);
            return;
          }
          position := position + 1;
        case OtherNode =>
          ReadUpTo(sh, D, j);
          return false;
      }
      PartialTop(o, sh, D, j + 1, b);
      j := j + 1;
    }
    PartialTop(o, sh, D, j, b);
    ReadUpTo(sh, D, j);
    ok := true;
  }

  // What the object was before adds nothing to what the element says: it had no children and no text at
  // the positions the element has, and its attributes, nil property and type are overwritten or agree.
  ghost predicate AddsNothing(o: XMLObject, e: Element)
    reads o`children, o`text, o`attributes, o`nil, e`attrs, e`kids
  {
    && o.children == [] && (forall k :: 0 <= k <= |Elems(e.kids)| ==> TextAt(o.text, k) == "")
    && HeadAddsNothing(o.attributes, o.nil, o.typ, e.attrs)
  }

  // unmarshall: refused on an object that has an element or a parent, or another name.  What the object
  // was before is added to, not replaced.  Everything is in step afterwards exactly if every xsi:nil read
  // below is written back as it was and, the element being cached, the object before adds nothing to it.
  method Unmarshall(o: XMLObject, e: Element, lookup: (Element, string) -> string, isId: Expanded -> bool,
                    ghost sh: Shape, ghost D: set<Element>)
    returns (ok: bool)
    requires IsShape(sh, D) == true && sh.elem == e && Hung(e, D) == true && o.Kept() == true
    requires o in o.desc && (o.parent == null ==> Tree(o.desc) == true && Cache(o.desc, D, {}) == true)
    requires forall x :: x in o.desc && x.dom != null ==> x.dom !in sh.below
    modifies o.desc`dom, o.desc`desc, o`children, o`text, o`attributes, o`idAttribute, o`namespaces, o`nil
    decreases sh, 2
    ensures ok <==> old(Accepts(o, e)) && Supported(sh, D)
    ensures old(Accepts(o, e)) <==> old(o.dom) == null && old(o.parent) == null && Expanded(e.uri, e.local) == Expanded(o.name.uri, o.name.local)
    ensures !old(Accepts(o, e)) ==> unchanged(o) && forall x :: x in o.desc ==> unchanged(x`dom, x`desc)
    ensures o in o.desc && old(o.desc) <= o.desc && o.Kept() == true && o.parent == old(o.parent)
    ensures o.dom == if ok then e else old(o.dom)
    ensures o.parent == null ==> Tree(o.desc) == true && Cache(o.desc, D, Misread(o.desc - old(o.desc)) + {o}) == true
    ensures ok && old(AddsNothing(o, e)) ==> Cache(o.desc, D, Misread(o.desc - old(o.desc))) == true
    ensures o.parent == null ==> (Cache(o.desc, D, {}) == true <==>
              (old(Accepts(o, e)) ==> NilsWritable(Read(sh, D)) && (ok ==> old(AddsNothing(o, e)))))
    ensures old(Accepts(o, e)) ==> SameNils(o.desc - old(o.desc), Read(sh, D)) == true
    ensures ok ==> o.attributes == Overlaid(old(o.attributes), e.attrs, {}) && o.nil == OverlaidNil(old(o.nil), e.attrs, {})
    ensures ok ==> IdRead(o.idAttribute, old(o.idAttribute), e.attrs, {}, isId) == true
    ensures ok ==> |o.children| == |old(o.children)| + |Elems(e.kids)| && o.children[..|old(o.children)|] == old(o.children)
    ensures ok ==> forall k: nat :: TextAt(o.text, k) == TextAt(old(o.text), k) + TextRead(e.kids, |e.kids|, k)
    ensures ok && old(Plain(o)) && NamesPlain("", e.attrs) ==> Plain(o)
    ensures ok ==> NamesFrom(o.namespaces, old(o.namespaces), e.attrs) == true && Heeds(o.namespaces, e.attrs, {}) == true
    ensures Follows(old(o.namespaces), o.namespaces) == true
    ensures o.parent == null ==> Mirrored(o.desc - old(o.desc)) == true && (ok && old(o.children) == [] ==> o.Wraps(e) == true)
    ensures forall x :: x in o.desc && x !in old(o.desc) ==> fresh(x) && Young(x, sh.below)
    ensures forall x :: x in old(o.desc) && x != o ==> x.dom == old(x.dom) && x.desc == old(x.desc)
  {
    hide Partial, Built, Overlaid, OverlaidNil, Canon, Supported, IsShape, AddsNothing, HeadAddsNothing, NamesPlain, Plain, Read, NilsWritable;
    hide Tree, Cache, Hung, Used, Grown, Young, Matches, XMLObject.Says, XMLObject.Wraps, XMLObject.Kept, AllCoherent, Misread, SameNils, NamesFrom;
    hide Heeds, Follows, Mirrored, IdRead, TextRead, Elems;
    FollowsSelf(o.namespaces);
    if o.dom != null || o.parent != null || e.uri != o.name.uri || e.local != o.name.local {
      if o.parent == null {
        OutOfStep(o, o.desc, D, {});
        NothingRead(o);
        NoneMirrored(o.desc - o.desc);
      }
      return false;
    }
    ghost var b := Base(o.desc, o.children, o.text);
    CacheAll(o.desc, D, {});
    ghost var adds := AddsNothing(o, e);
    AddsParts(o, e);
    label Before: UnmarshallAttributes(o, e, isId, D);
    CacheSteady@Before((o.desc, D, {}));
    StartPartial(o, sh, D, b);
    ok := UnmarshallContent(o, e, lookup, isId, sh, D, b);
    if ok {
      OverlayExactly(old(o.attributes), old(o.nil), o.typ, e.attrs);
      CacheElement(o, e, sh, D, b, adds);
    } else {
      OutOfStep(o, o.desc, D, Misread(o.desc - b.objects));
      MisreadOnly(o.desc, o.desc - b.objects, D, sh.below, Read(sh, D));
    }
  }

  lemma NothingRead(o: XMLObject)
    ensures Misread(o.desc - o.desc) == {} && {} + {o} == {o}
  {
  }

  // The element becomes the object's own.
  method CacheElement(o: XMLObject, e: Element, ghost sh: Shape, ghost D: set<Element>, ghost b: Base, ghost adds: bool)
    requires IsShape(sh, D) == true && Supported(sh, D) == true && sh.elem == e && Hung(e, D) == true
    requires Partial(o, sh, D, |e.kids|, b) == true && e.uri == o.name.uri && e.local == o.name.local
    requires adds <==> b.children == [] && (forall k :: 0 <= k <= |Elems(e.kids)| ==> TextAt(b.text, k) == "")
                       && Canon(o.Emitted()) == Canon(e.attrs)
    modifies o`dom
    ensures o.dom == e && o in o.desc && b.objects <= o.desc && o.parent == null && Tree(o.desc) == true
    ensures Cache(o.desc, D, Misread(o.desc - b.objects) + {o}) == true
    ensures adds ==> Cache(o.desc, D, Misread(o.desc - b.objects)) == true
    ensures Cache(o.desc, D, {}) == true <==> adds && NilsWritable(Read(sh, D))
    ensures SameNils(o.desc - b.objects, Read(sh, D)) == true && Mirrored(o.desc - b.objects) == true
    ensures b.children == [] ==> o.Wraps(e) == true
    ensures |o.children| == |b.children| + |Elems(e.kids)| && o.children[..|b.children|] == b.children
    ensures forall k: nat :: TextAt(o.text, k) == TextAt(b.text, k) + TextRead(e.kids, |e.kids|, k)
    ensures forall x :: x in o.desc && x !in b.objects ==> Young(x, sh.below)
  {
    hide Partial, Supported, IsShape, Read, NilsWritable, Tree, Cache, Hung;
    hide Young, XMLObject.Says, XMLObject.Wraps, Misread, SameNils, Mirrored, Canon, Used;
    PartialTop(o, sh, D, |e.kids|, b);
    ReadWhole(sh, D);
    ReadAll(o, sh, D, b);
    ghost var T := o.desc - b.objects;
    ghost var X := Misread(T);
    OutOfStep(o, o.desc, D, X);
    YoungIn(T, sh.below, D);
    PartialClosed(o);
    label Filled: o.dom := e;
    SameMisread@Filled((T, D, Read(sh, D)));
    StillMirrored@Filled((o, T, e));
    Marshalling.CacheFinished@Filled((o, e, o.desc, D, X + {o}));
    if adds {
      Marshalling.CacheFinished@Filled((o, e, o.desc, D, X));
    }
    InStepExactly(o, o.desc, T, D, sh.below, Read(sh, D), adds);
  }

  // Only o's own element changed, and o is no child of any of these.
  twostate lemma StillMirrored(w: (XMLObject, set<XMLObject>, Element))
    requires old(Mirrored(w.1)) == true && w.0 !in w.1 && forall x :: x in w.1 + {w.0} ==> w.0 !in x.children
    requires unchanged(w.0`children) && unchanged(w.2) && forall c :: c in w.0.children ==> c.dom == old(c.dom)
    requires forall x :: x in w.1 ==> unchanged(x) && (x.dom != null ==> unchanged(x.dom)) && forall c :: c in x.children ==> c.dom == old(c.dom)
    ensures Mirrored(w.1) == true && (old(w.0.Wraps(w.2)) ==> w.0.Wraps(w.2) == true)
  {
    forall x | x in w.1 && x.dom != null ensures x.Wraps(x.dom) {
      assert old(x.Wraps(x.dom));
    }
  }

  lemma PartialClosed(o: XMLObject)
    requires Tree(o.desc) == true && o in o.desc && o.parent == null
    ensures forall x, c :: x in o.desc && c in x.children ==> c != o
  {
    forall x, c | x in o.desc && c in x.children ensures c != o {
      assert x.TreeAt(o.desc);
    }
  }

  lemma ReadWhole(sh: Shape, D: set<Element>)
    requires IsShape(sh, D) == true && Supported(sh, D) == true
    ensures Read(sh, D) == Used(sh, |Elems(sh.elem.kids[..|sh.elem.kids|])|)
  {
    hide IsShape, Supported, Clear;
    ClearEnds(sh, D);
    ReadUpTo(sh, D, |sh.elem.kids|);
  }

  lemma YoungIn(T: set<XMLObject>, used: set<Element>, D: set<Element>)
    requires used <= D && forall x :: x in T ==> Young(x, used) == true
    ensures forall x :: x in T ==> x.dom != null && x.dom in D
  {
  }

  // Objects in step but for those that misread their element are in step exactly if none did.
  lemma MisreadOnly(S: set<XMLObject>, T: set<XMLObject>, D: set<Element>, used: set<Element>, read: set<Element>)
    requires Cache(S, D, Misread(T)) == true && T <= S && forall x :: x in T ==> Young(x, used) == true
    requires SameNils(T, read) == true
    ensures Cache(S, D, {}) == true <==> NilsWritable(read)
  {
    hide Cache, Misread, NilsWritable;
    if Cache(S, D, {}) == true {
      YoungRead(T, used);
      InStepRead(S, T, D);
    }
  }

  lemma YoungRead(T: set<XMLObject>, used: set<Element>)
    requires forall x :: x in T ==> Young(x, used) == true
    ensures forall x :: x in T ==> NilRead(x) == true
  {
  }

  lemma InStepExactly(o: XMLObject, S: set<XMLObject>, T: set<XMLObject>, D: set<Element>, used: set<Element>, read: set<Element>, adds: bool)
    requires o in S && T <= S && o.dom != null && (o.Says(o.dom) <==> adds) && forall x :: x in T ==> Young(x, used) == true
    requires SameNils(T, read) == true && (adds ==> Cache(S, D, Misread(T)) == true)
    ensures Cache(S, D, {}) == true <==> adds && NilsWritable(read)
  {
    hide Cache, Misread, NilsWritable, XMLObject.Says;
    if adds {
      MisreadOnly(S, T, D, used, read);
    } else if Cache(S, D, {}) == true {
      InStepSays(o, S, D);
    }
  }

  lemma AddsParts(o: XMLObject, e: Element)
    requires o.Kept() == true
    ensures AddsNothing(o, e) <==>
              o.children == [] && (forall k :: 0 <= k <= |Elems(e.kids)| ==> TextAt(o.text, k) == "")
              && HeadAddsNothing(o.attributes, o.nil, o.typ, e.attrs)
    ensures forall k :: k in o.attributes ==> o.attributes[k].value != ""
  {
  }

  lemma OutOfStep(o: XMLObject, S: set<XMLObject>, D: set<Element>, X: set<XMLObject>)
    requires Cache(S, D, X) == true
    ensures Cache(S, D, X + {o}) == true
  {
  }

  lemma InStepSays(o: XMLObject, S: set<XMLObject>, D: set<Element>)
    requires Cache(S, D, {}) == true && o in S && o.dom != null
    ensures o.Says(o.dom)
  {
    assert o.Coherent(D);
  }

  lemma StartPartial(o: XMLObject, sh: Shape, D: set<Element>, b: Base)
    requires IsShape(sh, D) == true && Tree(o.desc) == true && Cache(o.desc, D, {}) == true && o in o.desc
    requires o.dom == null && o.parent == null && b == Base(o.desc, o.children, o.text)
    requires forall x :: x in o.desc && x.dom != null ==> x.dom !in sh.below
    ensures Partial(o, sh, D, 0, b) == true
  {
    hide Tree, Cache;
    NothingRead(o);
    forall k: nat ensures TextAt(o.text, k) == TextAt(b.text, k) + TextRead(sh.elem.kids, 0, k) {
      assert TextAt(o.text, k) + "" == TextAt(o.text, k);
    }
  }

  // Once every child node is in: the object says what the element says exactly if it had no children and
  // no text there before, and the attributes agree.
  lemma ReadAll(o: XMLObject, sh: Shape, D: set<Element>, b: Base)
    requires Partial(o, sh, D, |sh.elem.kids|, b) == true && IsShape(sh, D) == true
    requires sh.elem.uri == o.name.uri && sh.elem.local == o.name.local
    ensures o.Says(sh.elem) <==>
              b.children == [] && (forall k :: 0 <= k <= |Elems(sh.elem.kids)| ==> TextAt(b.text, k) == "")
              && Canon(o.Emitted()) == Canon(sh.elem.attrs)
    ensures b.children == [] ==> o.Wraps(sh.elem) == true
    ensures forall x :: x in o.desc ==> x.dom != sh.elem
    ensures |o.children| == |b.children| + |Elems(sh.elem.kids)| && o.children[..|b.children|] == b.children
    ensures forall k: nat :: TextAt(o.text, k) == TextAt(b.text, k) + TextRead(sh.elem.kids, |sh.elem.kids|, k)
  {
    hide Canon, XMLObject.Emitted, XMLObject.Wraps, Partial, IsShape, Gaps, TextRead;
    HeldWhole(o, sh, D, b);
    TextsAgree(o.text, b.text, sh.elem.kids);
    NotBelow(o, sh, D, b);
  }

  // All the child nodes are in.
  lemma HeldWhole(o: XMLObject, sh: Shape, D: set<Element>, b: Base)
    requires Partial(o, sh, D, |sh.elem.kids|, b) == true && IsShape(sh, D) == true
    ensures Slotted(o.text, b.text, sh.elem.kids, |sh.elem.kids|)
    ensures |o.children| == |b.children| + |Elems(sh.elem.kids)| && o.children[..|b.children|] == b.children
    ensures b.children == [] ==> o.Wraps(sh.elem) == true
  {
    hide Tree, Cache, Grown;
    var nodes := sh.elem.kids;
    assert nodes[..|nodes|] == nodes;
    assert forall k :: 0 <= k < |sh.kids| ==> Elems(nodes)[k].doc == sh.elem.doc;
  }

  lemma NotBelow(o: XMLObject, sh: Shape, D: set<Element>, b: Base)
    requires Partial(o, sh, D, |sh.elem.kids|, b) == true && IsShape(sh, D) == true
    ensures forall x :: x in o.desc ==> x.dom != sh.elem
  {
    hide Tree, Cache;
    forall x | x in o.desc ensures x.dom != sh.elem {
      if x !in b.objects { assert Young(x, Used(sh, |Elems(sh.elem.kids[..|sh.elem.kids|])|)); }
    }
  }

  lemma TextsAgree(slots: seq<string>, was: seq<string>, nodes: seq<Node<Element>>)
    requires Slotted(slots, was, nodes, |nodes|)
    ensures Texts(nodes) == Gaps(slots, |Elems(nodes)|) <==> forall k :: 0 <= k <= |Elems(nodes)| ==> TextAt(was, k) == ""
  {
    assert nodes[..|nodes|] == nodes;
    var n := |Elems(nodes)|;
    forall k | 0 <= k <= n ensures Gaps(slots, n)[k] == TextAt(was, k) + Texts(nodes)[k] {
      assert TextAt(slots, k) == TextAt(was, k) + TextRead(nodes, |nodes|, k);
    }
    if Texts(nodes) == Gaps(slots, n) {
      forall k | 0 <= k <= n ensures TextAt(was, k) == "" {
        assert Texts(nodes)[k] == TextAt(was, k) + Texts(nodes)[k];
      }
    }
    if forall k :: 0 <= k <= n ==> TextAt(was, k) == "" {
      forall k | 0 <= k <= n ensures Gaps(slots, n)[k] == Texts(nodes)[k] {
        assert TextAt(was, k) == "";
        assert "" + Texts(nodes)[k] == Texts(nodes)[k];
      }
    }
  }

  ghost predicate Accepts(o: XMLObject, e: Element)
    reads o`dom, o`parent
  {
    o.dom == null && o.parent == null && e.uri == o.name.uri && e.local == o.name.local
  }

  lemma CacheAll(S: set<XMLObject>, D: set<Element>, X: set<XMLObject>)
    requires Cache(S, D, X) == true
    ensures AllCoherent(S, D, X) == true
  {
  }

  // XMLObjectBuilder::buildFromElement with the default builder; null stands for the exception.
  method BuildFromElement(e: Element, lookup: (Element, string) -> string, isId: Expanded -> bool,
                          ghost sh: Shape, ghost D: set<Element>)
    returns (o: XMLObject?)
    requires IsShape(sh, D) == true && sh.elem == e && Hung(e, D) == true
    decreases sh, 3
    ensures o != null <==> Supported(sh, D)
    ensures o != null ==> Built(o, sh, D) == true && o in o.desc && forall x :: x in o.desc ==> fresh(x)
    ensures o != null ==> o.name == QName(e.uri, e.local, e.prefix)
  {
    hide IsShape, Supported, Built, Hung, Tree, Cache, AddsNothing, XMLObject.Kept, NamesPlain, Plain, Read;
    hide NilsWritable, WritableNil, Misread, SameNils, Overlaid, OverlaidNil, NamesFrom, Sourced, InitialNamespaces;
    hide Heeds, Mirrored, Follows, XMLObject.Wraps;
    o := new XMLObject(QName(e.uri, e.local, e.prefix), SchemaType(e.attrs, s => lookup(e, s)));
    NewBuilt(o, e, D, s => lookup(e, s));
    var ok := Unmarshall(o, e, lookup, isId, sh, D);
    if ok {
      RootNil(o, e.attrs);
      RootNames(o, e.attrs);
      ReadWhole(sh, D);
      AllYoung(o, sh, D);
    } else {
      o := null;
    }
  }

  lemma RootNil(o: XMLObject, attrs: Attributes)
    ensures NIL_NAME !in Overlaid(map[], attrs, {})
  {
  }

  lemma RootNames(o: XMLObject, attrs: Attributes)
    requires NamesFrom(o.namespaces, InitialNamespaces(o.name, o.typ), attrs) == true
    ensures Sourced(o.namespaces, o.name, o.typ, attrs) == true
  {
    InitialNames(o.name, o.typ);
    hide InitialNamespaces;
    var base := InitialNamespaces(o.name, o.typ);
    forall ns | ns in o.namespaces && !Named(ns, attrs)
      ensures SameName(ns, o.name.prefix, o.name.uri) || (o.typ.Some? && SameName(ns, o.typ.value.prefix, o.typ.value.uri))
    {
      var m :| m in base && SameName(ns, m.prefix, m.uri);
    }
  }

  lemma InitialNames(name: QName, typ: Option<QName>)
    ensures forall m :: m in InitialNamespaces(name, typ) ==>
              SameName(m, name.prefix, name.uri) || (typ.Some? && SameName(m, typ.value.prefix, typ.value.uri))
  {
    if typ.Some? {
      var first := [Namespace(name.prefix, name.uri, false, VisiblyUsed)];
      var ns := Namespace(typ.value.prefix, typ.value.uri, false, NonVisiblyUsed);
      AddedGrows(first, ns);
      forall m | m in Added(first, ns)
        ensures SameName(m, name.prefix, name.uri) || SameName(m, typ.value.prefix, typ.value.uri)
      {
        var i :| 0 <= i < |Added(first, ns)| && Added(first, ns)[i] == m;
        if i == 0 { assert Grows(first[0], m); }
      }
    }
  }

  lemma NewBuilt(o: XMLObject, e: Element, D: set<Element>, lookup: string -> string)
    requires o.name == QName(e.uri, e.local, e.prefix) && o.typ == SchemaType(e.attrs, lookup) && o.desc == {o}
    requires o.parent == null && o.children == [] && o.text == [] && o.attributes == map[] && o.nil == NilNull && o.dom == null
    requires o.namespaces == InitialNamespaces(o.name, o.typ)
    ensures Tree(o.desc) == true && Cache(o.desc, D, {}) == true && (AddsNothing(o, e) == true <==> WritableNil(e.attrs))
    ensures NamesPlain(e.prefix, e.attrs) ==> Plain(o) && NamesPlain("", e.attrs)
    ensures WritableType(e.attrs) <==> (o.typ.Some? ==> o.typ.value.local != "")
  {
    AttributesRoundTrip(e.attrs, lookup);
    TypeWritable(e.attrs, lookup);
    if NamesPlain(e.prefix, e.attrs) && o.typ.Some? {
      AddedDeclarable([Namespace(o.name.prefix, o.name.uri, false, VisiblyUsed)],
                      Namespace(o.typ.value.prefix, o.typ.value.uri, false, NonVisiblyUsed));
    }
  }

  lemma AllYoung(o: XMLObject, sh: Shape, D: set<Element>)
    requires IsShape(sh, D) == true && o.dom == sh.elem && o.parent == null && o in o.desc && o.Kept() == true && o.document == null
    requires Tree(o.desc) == true && Cache(o.desc, D, Misread(o.desc - {o}) + {o}) == true
    requires WritableNil(sh.elem.attrs) ==> Cache(o.desc, D, Misread(o.desc - {o})) == true
    requires SameNils(o.desc - {o}, Used(sh, |Elems(sh.elem.kids[..|sh.elem.kids|])|)) == true
    requires Mirrored(o.desc - {o}) == true && o.Wraps(sh.elem) == true
    requires NIL_NAME !in o.attributes && o.nil == OverlaidNil(NilNull, sh.elem.attrs, {})
    requires Sourced(o.namespaces, o.name, o.typ, sh.elem.attrs) == true && Heeds(o.namespaces, sh.elem.attrs, {}) == true
    requires o.name.prefix == sh.elem.prefix && (NamesPlain(sh.elem.prefix, sh.elem.attrs) ==> Plain(o))
    requires WritableType(sh.elem.attrs) <==> (o.typ.Some? ==> o.typ.value.local != "")
    requires forall x :: x in o.desc && x != o ==> Young(x, sh.below) == true
    ensures Built(o, sh, D) == true
  {
    hide Tree, Cache, Plain, NamesPlain, WritableType, WritableNil, OverlaidNil, Misread, SameNils, XMLObject.Kept, Sourced, Heeds;
    NilsJoined(o, sh, D);
    OneMirrored(o);
    if WritableNil(sh.elem.attrs) { assert Misread(o.desc) == Misread(o.desc - {o}); }
    assert Cache(o.desc, D, Misread(o.desc));
    forall x | x in o.desc ensures Young(x, sh.below) {
    }
  }

  lemma OneMirrored(o: XMLObject)
    requires o in o.desc && Mirrored(o.desc - {o}) == true && o.dom != null && o.Wraps(o.dom) == true
    ensures Mirrored(o.desc) == true
  {
    assert Mirrored({o});
    BothMirrored(o.desc - {o}, {o});
    assert o.desc - {o} + {o} == o.desc;
  }

  lemma NilsJoined(o: XMLObject, sh: Shape, D: set<Element>)
    requires IsShape(sh, D) == true && o.dom == sh.elem && o in o.desc
    requires SameNils(o.desc - {o}, Used(sh, |Elems(sh.elem.kids[..|sh.elem.kids|])|)) == true
    ensures Misread(o.desc) == Misread(o.desc - {o}) + if WritableNil(sh.elem.attrs) then {} else {o}
    ensures SameNils(o.desc, sh.below) == true
  {
    hide WritableNil;
    assert sh.elem.kids[..|sh.elem.kids|] == sh.elem.kids;
    assert o.desc == (o.desc - {o}) + {o};
    MisreadSum(o.desc - {o}, {o});
    assert Misread({o}) == (if WritableNil(sh.elem.attrs) then {} else {o}) && SameNils({o}, {sh.elem});
    SameNilsSum(o.desc - {o}, {o}, Used(sh, |sh.kids|), {sh.elem});
  }

  // If an object in step but for xsi:nil says what its element says, nothing below misread its element.
  lemma {:induction false} ReadBack(o: XMLObject, S: set<XMLObject>, T: set<XMLObject>, D: set<Element>, used: set<Element>)
    requires Tree(S) == true && AllCoherent(S, D, Misread(T)) == true && o in S && o.desc <= T && o.dom != null
    requires DomSays(o.dom, ContentOf(o, S), D) && forall x :: x in T ==> Young(x, used) == true
    ensures Misread(o.desc) == {}
    decreases o.desc
  {
    hide Young, NilRead, WritableNil, XMLObject.Emitted;
    o.ChildrenInTree(S);
    YoungRead(T, used);
    assert o.SaysHead(o.dom);
    MisreadSays(o);
    assert o.Coherent(D);
    forall k | 0 <= k < |o.children| ensures Misread(o.children[k].desc) == {} {
      KidAt(o, |o.children|, S, k);
      ReadBack(o.children[k], S, T, D, used);
    }
    forall x | x in o.desc && x.dom != null ensures WritableNil(x.dom.attrs) {
      if x != o {
        var k := o.BelowChild(S, x);
        assert x !in Misread(o.children[k].desc);
      }
    }
  }

  // What an object built from an element says is what the element says exactly if every xsi:nil is
  // written back as it was.
  lemma BuiltSays(o: XMLObject, S: set<XMLObject>, D: set<Element>, used: set<Element>, c: Content)
    requires Tree(S) == true && AllCoherent(S, D, Misread(o.desc)) == true && o in S && SameNils(o.desc, used) == true
    requires o.dom != null && DomSays(o.dom, c, D) && forall x :: x in o.desc ==> Young(x, used) == true
    ensures ContentOf(o, S) == c <==> NilsWritable(used)
  {
    if NilsWritable(used) {
      CacheSays(o, S, D, {});
      SaysOne(o.dom, ContentOf(o, S), c, D);
    }
    if ContentOf(o, S) == c {
      ReadBack(o, S, o.desc, D, used);
    }
  }

  // ---------------------------------------------------------------- prefixes of what was built

  // The names of an element mean what they are resolved to: its own, its type, its qualified attributes.
  ghost predicate NamesResolve(x: XMLObject, scopes: seq<Attributes>)
    reads x`dom, (if x.dom == null then {} else {x.dom})`attrs
  {
    && x.dom != null && Meaning(scopes, x.name.prefix) == Some(x.name.uri)
    && (x.typ.Some? ==> Meaning(scopes, x.typ.value.prefix) == Some(x.typ.value.uri))
    && forall k :: k in x.dom.attrs ==>
         var v := x.dom.attrs[k];
         if k.uri == XMLNS_NS then k.local != ""
         else if k.uri == "" then v.prefix == ""
         else Meaning(scopes, v.prefix) == Some(k.uri) || (v.prefix == "xml" && k.uri == XML_NS)
  }

  // Where the names of the source element resolve, every entry of the object built from it does, but one
  // that comes from an unqualified attribute under a default namespace.
  lemma BuiltResolves(x: XMLObject, above: seq<Attributes>, ns: Namespace)
    requires Matches(x) && x.dom != null && NamesResolve(x, [x.dom.attrs] + above) && ns in x.namespaces && !IsXml(ns)
    ensures var scopes := [x.dom.attrs] + above;
            Meaning(scopes, ns.prefix) == Some(ns.uri) <==> (ns.prefix == "" && ns.uri == "" ==> Meaning(scopes, "") == Some(""))
  {
    var scopes := [x.dom.attrs] + above;
    if Named(ns, x.dom.attrs) {
      var k :| k in x.dom.attrs && NamedBy(ns, k, x.dom.attrs[k]);
      if k.uri == XMLNS_NS {
        assert DeclName(ns.prefix) == k;
      }
    }
  }

  // So the set as a whole resolves exactly if no such entry is there.
  lemma BuiltResolvesExactly(x: XMLObject, above: seq<Attributes>)
    requires Matches(x) && x.dom != null && NamesResolve(x, [x.dom.attrs] + above)
    ensures Resolved(x.namespaces, [x.dom.attrs] + above) <==>
              Meaning([x.dom.attrs] + above, "") == Some("") || forall ns :: ns in x.namespaces ==> !SameName(ns, "", "")
  {
    hide Matches, NamesResolve, Meaning;
    forall i | 0 <= i < |x.namespaces| && !IsXml(x.namespaces[i])
      ensures Meaning([x.dom.attrs] + above, x.namespaces[i].prefix) == Some(x.namespaces[i].uri) <==>
                (SameName(x.namespaces[i], "", "") ==> Meaning([x.dom.attrs] + above, "") == Some(""))
    {
      BuiltResolves(x, above, x.namespaces[i]);
    }
    if ns :| ns in x.namespaces && SameName(ns, "", "") {
      var i :| 0 <= i < |x.namespaces| && x.namespaces[i] == ns;
    }
  }

  // The attribute declares a prefix, and is not the one declaration that goes without saying.
  predicate Declaring(k: Expanded, v: AttrVal) {
    k.uri == XMLNS_NS && !(k.local == "xml" && v.value == XML_NS)
  }

  // No name of the object or of these attributes, and no other declaration, has the prefix for another URI.
  ghost predicate Unclashing(x: XMLObject, attrs: Attributes, prefix: string, uri: string) {
    && (x.name.prefix == prefix ==> x.name.uri == uri)
    && (x.typ.Some? && x.typ.value.prefix == prefix ==> x.typ.value.uri == uri)
    && forall k :: k in attrs ==>
         if k.uri == XMLNS_NS then PrefixOf(k) == prefix ==> attrs[k].value == uri
         else attrs[k].prefix == prefix ==> k.uri == uri
  }

  // Every declaration of the source element is an entry of the object built from it, for the same URI and
  // pinned, as long as no name clashes with it.
  lemma DeclarationRead(x: XMLObject, k: Expanded) returns (i: nat)
    requires Matches(x) && x.dom != null && k in x.dom.attrs && Declaring(k, x.dom.attrs[k])
    requires Unclashing(x, x.dom.attrs, PrefixOf(k), x.dom.attrs[k].value)
    ensures i < |x.namespaces| && x.namespaces[i].prefix == PrefixOf(k) && x.namespaces[i].uri == x.dom.attrs[k].value
    ensures x.namespaces[i].always
  {
    var attrs, prefix := x.dom.attrs, PrefixOf(k);
    assert HeedsOne(x.namespaces, k, attrs[k]);
    i :| 0 <= i < |x.namespaces| && Serves(x.namespaces[i], prefix, attrs[k].value, true);
    var ns := x.namespaces[i];
    assert ns in x.namespaces;
    if Named(ns, attrs) {
      var j :| j in attrs && NamedBy(ns, j, attrs[j]);
      assert j.uri == XMLNS_NS ==> PrefixOf(j) == prefix;
    }
  }

  // Every element of the tree was read into some object.
  lemma {:induction false} ElementRead(o: XMLObject, S: set<XMLObject>, sh: Shape, D: set<Element>, d: Element) returns (x: XMLObject)
    requires Tree(S) == true && o in S && Mirrored(S) == true && IsShape(sh, D) == true && o.dom == sh.elem && d in sh.below
    ensures x in o.desc && x.dom == d
    decreases sh
  {
    hide Tree;
    o.ChildrenInTree(S);
    if d == sh.elem {
      x := o;
    } else {
      var k :| 0 <= k < |sh.kids| && d in sh.kids[k].below;
      assert o.Wraps(o.dom);
      x := ElementRead(o.children[k], S, sh.kids[k], D, d);
    }
  }
}

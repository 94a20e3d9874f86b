// Unrecognized content: kept as a DOM element, or as text while there is none.
module UnknownElements {
  import opened Names
  import opened Contents

  // Serializing and parsing, as far as this class relies on them.
  datatype Codec = Codec(serialize: Content -> string, parse: string -> Option<Content>)

  // Parsing undoes serializing, and no content serializes to nothing.
  ghost predicate Faithful(codec: Codec) {
    forall c :: codec.serialize(c) != "" && codec.parse(codec.serialize(c)) == Some(c)
  }

  // An element: what it says, the document it belongs to, the element it hangs under, if any, and which one
  // it is.
  datatype DomNode = DomNode(content: Content, doc: nat, under: Option<nat>, id: nat)

  // The documents there are and how many there have been, and how many elements were made.
  class Documents {
    var live: set<nat>
    var next: nat
    var elements: nat

    ghost predicate Valid()
      reads this
    {
      forall d :: d in live ==> d < next
    }

    constructor ()
      ensures Valid() && live == {}
    {
      live, next, elements := {}, 0, 0;
    }

    // Parsing text builds a document of its own.
    method Parse(text: string, codec: Codec) returns (root: Option<DomNode>)
      requires Valid()
      modifies this
      ensures Valid() && next >= old(next) && elements >= old(elements)
      ensures root.Some? <==> codec.parse(text).Some?
      ensures root.Some? ==> root.value == DomNode(codec.parse(text).value, old(next), None, old(elements))
      ensures root.Some? ==> live == old(live) + {old(next)} && elements > old(elements)
      ensures root.None? ==> live == old(live)
    {
      match codec.parse(text) {
        case None => return None;
        case Some(c) =>
          root := Some(DomNode(c, next, None, elements));
          live, next, elements := live + {next}, next + 1, elements + 1;
      }
    }

    // Importing makes a copy that belongs to another document.
    method Import(node: DomNode, doc: nat, under: Option<nat>) returns (copy: DomNode)
      modifies this`elements
      ensures copy == DomNode(node.content, doc, under, old(elements)) && elements == old(elements) + 1
    {
      copy := DomNode(node.content, doc, under, elements);
      elements := elements + 1;
    }

    method Release(doc: nat)
      requires Valid() && doc in live
      modifies this`live
      ensures Valid() && live == old(live) - {doc}
    {
      live := live - {doc};
    }
  }

  class UnknownElement {
    const name: Option<QName>  // clones have none
    var xml: string
    var dom: Option<DomNode>
    var document: Option<nat>  // owned

    constructor (name: Option<QName>)
      ensures this.name == name && xml == "" && dom == None && document == None
    {
      this.name, xml, dom, document := name, "", None, None;
    }

    // What the object stands for: what its element says, or what its text parses to.
    ghost predicate Denotes(c: Content, codec: Codec)
      reads this
    {
      match dom
      case Some(n) => n.content == c
      case None => codec.parse(xml) == Some(c)
    }

    // Text left over from before would be out of date; there is none beside an element.
    ghost predicate Fresh()
      reads this
    {
      dom.Some? ==> xml == ""
    }

    ghost predicate Owns(docs: Documents)
      reads this, docs
    {
      docs.Valid() && (document.Some? ==> document.value in docs.live) && (dom.Some? ==> dom.value.id < docs.elements)
    }

    method SetDocument(doc: nat, docs: Documents)
      requires Owns(docs)
      modifies this`document, docs`live
      ensures document == Some(doc) && docs.Valid()
      ensures docs.live == old(docs.live) - if old(document).Some? && old(document).value != doc then {old(document).value} else {}
    {
      if document != Some(doc) {
        if document.Some? {
          docs.Release(document.value);
        }
        document := Some(doc);
      }
    }

    method Unmarshall(element: DomNode, bind: bool, docs: Documents)
      requires Owns(docs) && element.doc in docs.live && element.id < docs.elements
      modifies this`dom, this`document, docs`live
      ensures dom == Some(element) && Owns(docs) && xml == old(xml)
      ensures document == if bind then Some(element.doc) else old(document)
      ensures docs.live == old(docs.live)
                - (if bind && old(document).Some? && old(document).value != element.doc then {old(document).value} else {})
    {
      dom := Some(element);
      if bind {
        SetDocument(element.doc, docs);
      }
    }

    // The element goes, but not before it is written down.
    method ReleaseDOM(codec: Codec)
      modifies this`dom, this`xml
      ensures dom == None
      ensures xml == if old(dom).Some? then codec.serialize(old(dom).value.content) else old(xml)
    {
      if dom.Some? {
        xml := codec.serialize(dom.value.content);
      }
      dom := None;
    }

    // marshall(document): reuse, import into the other document, or parse the text again.  Without
    // content there is nothing to parse.
    method MarshallInDocument(target: Option<nat>, docs: Documents, codec: Codec) returns (r: Option<DomNode>)
      requires Owns(docs) && (target.Some? ==> target.value in docs.live)
      modifies this`dom, this`document, this`xml, docs
      ensures Owns(docs) && dom == if r.Some? then r else old(dom)
      ensures r.None? <==> old(dom).None? && codec.parse(old(xml)).None?
      ensures old(dom).Some? && (target.None? || target.value == old(dom).value.doc) ==> r.Some? && r.value.id == old(dom).value.id
      ensures r.Some? && !(old(dom).Some? && (target.None? || target.value == old(dom).value.doc)) ==> r.value.id >= old(docs.elements)
      ensures r.Some? ==> r.value.under == (if old(dom).Some? && target.None? then old(dom).value.under else None)
      ensures r.Some? && target.Some? ==> r.value.doc == target.value
      ensures old(dom).Some? && target.None? ==> r == old(dom)
      ensures xml == if old(dom).None? && r.Some? then "" else old(xml)
      ensures r.Some? && old(dom).Some? ==> r.value.content == old(dom).value.content
      ensures r.Some? && old(dom).None? ==> Some(r.value.content) == codec.parse(old(xml))
      ensures r.Some? && old(dom).None? && target.None? ==>
                document == Some(r.value.doc) && r.value.doc !in old(docs.live)
                && docs.live == old(docs.live) + {r.value.doc} - (if old(document).Some? then {old(document).value} else {})
      ensures old(dom).Some? || target.Some? || r.None? ==> document == old(document) && docs.live == old(docs.live)
    {
      if dom.Some? {
        if target.None? || target.value == dom.value.doc {
          if target.Some? {
            dom := Some(dom.value.(under := None));
          }
          return dom;
        }
        var copy := docs.Import(dom.value, target.value, None);
        dom := Some(copy);
        return dom;
      }
      var internal := docs.Parse(xml, codec);
      if internal.None? {
        return None;
      }
      if target.Some? {
        var copy := docs.Import(internal.value, target.value, None);
        r := Some(copy);
        docs.Release(internal.value.doc);
        dom := r;
      } else {
        r := internal;
        dom := r;
        SetDocument(internal.value.doc, docs);
      }
      xml := "";
    }

    // marshall(parentElement).
    method MarshallInElement(parentDoc: nat, parentElement: nat, docs: Documents, codec: Codec) returns (r: Option<DomNode>)
      requires Owns(docs) && parentDoc in docs.live
      modifies this`dom, this`xml, docs
      ensures Owns(docs) && document == old(document) && docs.live == old(docs.live) && dom == if r.Some? then r else old(dom)
      ensures r.None? <==> old(dom).None? && codec.parse(old(xml)).None?
      ensures old(dom).Some? && parentDoc == old(dom).value.doc ==> r.Some? && r.value.id == old(dom).value.id
      ensures r.Some? && !(old(dom).Some? && parentDoc == old(dom).value.doc) ==> r.value.id >= old(docs.elements)
      ensures r.Some? ==> r.value.doc == parentDoc && r.value.under == Some(parentElement)
      ensures xml == if old(dom).None? && r.Some? then "" else old(xml)
      ensures r.Some? && old(dom).Some? ==> r.value.content == old(dom).value.content
      ensures r.Some? && old(dom).None? ==> Some(r.value.content) == codec.parse(old(xml))
    {
      if dom.Some? {
        if parentDoc == dom.value.doc {
          dom := Some(dom.value.(under := Some(parentElement)));
          return dom;
        }
        var copy := docs.Import(dom.value, parentDoc, Some(parentElement));
        dom := Some(copy);
        return dom;
      }
      var internal := docs.Parse(xml, codec);
      if internal.None? {
        return None;
      }
      var copy := docs.Import(internal.value, parentDoc, Some(parentElement));
      r := Some(copy);
      docs.Release(internal.value.doc);
      dom := r;
      xml := "";
    }

    // Text is copied, or made from the element when there is none; the name is not copied.
    method Clone(codec: Codec) returns (copy: UnknownElement)
      ensures fresh(copy) && copy.dom == None && copy.document == None && copy.name == None
      ensures copy.xml == if xml != "" then xml else if dom.Some? then codec.serialize(dom.value.content) else ""
    {
      copy := new UnknownElement(None);
      if xml == "" {
        if dom.Some? {
          copy.xml := codec.serialize(dom.value.content);
        }
      } else {
        copy.xml := xml;
      }
    }
  }

  // A clone stands for the same content exactly when any text beside the element is up to date.
  method CloneExactly(e: UnknownElement, c: Content, codec: Codec) returns (copy: UnknownElement, ghost same: bool)
    requires Faithful(codec) && e.Denotes(c, codec)
    ensures fresh(copy) && same == copy.Denotes(c, codec)
    ensures same <==> e.xml == "" || codec.parse(e.xml) == Some(c)
    ensures e.Fresh() ==> same && copy.Fresh()
  {
    copy := e.Clone(codec);
    same := copy.Denotes(c, codec);
  }

  // Text left from an earlier life of the object makes the clone say something else.
  method StaleClone(first: DomNode, second: DomNode, docs: Documents, codec: Codec)
    returns (e: UnknownElement, copy: UnknownElement)
    requires Faithful(codec) && first.content != second.content
    requires docs.Valid() && first.doc in docs.live && second.doc in docs.live
    requires first.id < docs.elements && second.id < docs.elements
    modifies docs
    ensures e.Denotes(second.content, codec) && copy.Denotes(first.content, codec) && !copy.Denotes(second.content, codec)
  {
    e := new UnknownElement(None);
    e.Unmarshall(first, false, docs);
    e.ReleaseDOM(codec);
    e.Unmarshall(second, false, docs);
    copy := e.Clone(codec);
  }

  // ---------------------------------------------------------------- whole runs

  datatype Use = Release | InDocument(target: Option<nat>) | InElement(parentDoc: nat, parentElement: nat) | Copy

  // How often an element is asked for in whatever document.
  function Requests(uses: seq<Use>): nat {
    if uses == [] then 0
    else Requests(uses[..|uses| - 1]) + if uses[|uses| - 1] == InDocument(None) then 1 else 0
  }

  // Whatever is done with unknown content after it was read, and on whichever of its copies, the content
  // is never lost: every element marshalled on the way and the object at the end say what was read.
  method NeverLost(element: DomNode, bind: bool, uses: seq<Use>, docs: Documents, codec: Codec)
    returns (e: UnknownElement, made: seq<DomNode>)
    requires Faithful(codec) && docs.Valid() && element.doc in docs.live && element.id < docs.elements
    modifies docs
    ensures e.Denotes(element.content, codec) && e.Fresh()
    ensures e.Owns(docs) && (e.dom.Some? ==> e.dom.value.doc in docs.live)
    ensures |made| >= Requests(uses) && forall n :: n in made ==> n.content == element.content
  {
    e := new UnknownElement(None);
    e.Unmarshall(element, bind, docs);
    made := [];
    var i := 0;
    while i < |uses|
      invariant 0 <= i <= |uses| && e.Denotes(element.content, codec) && e.Fresh() && e.Owns(docs) && fresh(e)
      invariant e.dom.Some? ==> e.dom.value.doc in docs.live
      invariant |made| >= Requests(uses[..i]) && forall n :: n in made ==> n.content == element.content
    {
      assert uses[..i + 1][..i] == uses[..i];
      match uses[i] {
        case Release => e.ReleaseDOM(codec);
        case InDocument(target) =>
          if target.None? || target.value in docs.live {
            var r := e.MarshallInDocument(target, docs, codec);
            made := made + [r.value];
          }
        case InElement(parentDoc, parentElement) =>
          if parentDoc in docs.live {
            var r := e.MarshallInElement(parentDoc, parentElement, docs, codec);
            made := made + [r.value];
          }
        case Copy => e := e.Clone(codec);
      }
      i := i + 1;
    }
    assert uses[..i] == uses;
  }
}

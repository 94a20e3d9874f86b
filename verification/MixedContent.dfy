// Mixed content: a list of DOM child nodes seen as element children with text in the gaps.
module MixedContent {

  // A DOM child node.  CDATA sections count as text; OtherNode is a node type the
  // unmarshaller does not support (comments, processing instructions, entity references).
  datatype Node<+E> = TextNode(text: string) | ElementNode(elem: E) | OtherNode

  // The element children, in order.
  function Elems<E>(nodes: seq<Node<E>>): (r: seq<E>)
    ensures |r| <= |nodes|
  {
    if nodes == [] then []
    else
      var last := nodes[|nodes| - 1];
      Elems(nodes[..|nodes| - 1]) + if last.ElementNode? then [last.elem] else []
  }

  // The text before the first element child, between each two, and after the last one,
  // with adjacent text nodes joined and missing text shown as "".
  function Texts<E>(nodes: seq<Node<E>>): (r: seq<string>)
    ensures |r| == |Elems(nodes)| + 1
  {
    if nodes == [] then [""]
    else
      var init := Texts(nodes[..|nodes| - 1]);
      match nodes[|nodes| - 1]
      case TextNode(s) => init[|init| - 1 := init[|init| - 1] + s]
      case ElementNode(_) => init + [""]
      case OtherNode => init
  }

  // The text an object's slot vector holds at a position; slots past the end read as "".
  function TextAt(slots: seq<string>, position: nat): string {
    if position < |slots| then slots[position] else ""
  }

  // The n + 1 texts around n children.
  function Gaps(slots: seq<string>, n: nat): (r: seq<string>)
    ensures |r| == n + 1
    ensures forall k :: 0 <= k <= n ==> r[k] == TextAt(slots, k)
  {
    seq(n + 1, k requires 0 <= k => TextAt(slots, k))
  }

  // The slot vector after setTextContent: grown to reach `position`, the value merged in.
  function WithText(slots: seq<string>, value: string, position: nat): (r: seq<string>)
    ensures |r| > position && |r| >= |slots|
    ensures forall k: nat :: TextAt(r, k) == TextAt(slots, k) + if k == position then value else ""
  {
    var grown := if position < |slots| then slots else slots + seq(position + 1 - |slots|, _ => "");
    grown[position := grown[position] + value]
  }

  // Setting an empty value may lengthen the slot vector but changes no text.
  lemma SameGaps(slots: seq<string>, position: nat, n: nat)
    ensures Gaps(WithText(slots, "", position), n) == Gaps(slots, n)
  {
    var after := Gaps(WithText(slots, "", position), n);
    forall k | 0 <= k <= n ensures after[k] == Gaps(slots, n)[k] {
      assert TextAt(slots, k) + "" == TextAt(slots, k);
    }
  }

  lemma AppendElement<E>(nodes: seq<Node<E>>, e: E)
    ensures Elems(nodes + [ElementNode(e)]) == Elems(nodes) + [e]
    ensures Texts(nodes + [ElementNode(e)]) == Texts(nodes) + [""]
  {
    assert (nodes + [ElementNode(e)])[..|nodes|] == nodes;
  }

  lemma AppendText<E>(nodes: seq<Node<E>>, s: string)
    ensures Elems(nodes + [TextNode(s)]) == Elems(nodes)
    ensures Texts(nodes + [TextNode(s)]) ==
            Texts(nodes)[|Elems(nodes)| := Texts(nodes)[|Elems(nodes)|] + s]
  {
    assert (nodes + [TextNode(s)])[..|nodes|] == nodes;
  }

  // An element is among the children exactly when its node is.
  lemma {:induction false} ElemsMember<E>(nodes: seq<Node<E>>, e: E)
    ensures e in Elems(nodes) <==> ElementNode(e) in nodes
  {
    if nodes == [] {
    } else {
      var init := nodes[..|nodes| - 1];
      ElemsMember(init, e);
      assert nodes == init + [nodes[|nodes| - 1]];
    }
  }
}

// Names, reserved namespaces and the namespace entries an object carries.
module Names {

  const XML_NS := "http://www.w3.org/XML/1998/namespace"
  const XMLNS_NS := "http://www.w3.org/2000/xmlns/"
  const XSI_NS := "http://www.w3.org/2001/XMLSchema-instance"

  datatype Option<+T> = None | Some(value: T)

  // A null string and an empty one are the same name part.
  datatype QName = QName(uri: string, local: string, prefix: string)

  // QNames compare by namespace and local part; the prefix is not part of the name.
  datatype Expanded = Expanded(uri: string, local: string)

  // What an attribute slot holds beside its expanded name.
  datatype AttrVal = AttrVal(prefix: string, value: string)

  type Attributes = map<Expanded, AttrVal>

  // A map after pairs of a name and a value were put into it, one after the other.
  function Overwritten(base: map<string, string>, pairs: seq<(string, string)>): map<string, string> {
    if pairs == [] then base
    else
      var n := |pairs| - 1;
      Overwritten(base, pairs[..n])[pairs[n].0 := pairs[n].1]
  }

  // A name that is in no pair keeps what it had.
  lemma {:induction false} NotPaired(base: map<string, string>, pairs: seq<(string, string)>, name: string)
    requires forall i :: 0 <= i < |pairs| ==> pairs[i].0 != name
    ensures name in Overwritten(base, pairs) <==> name in base
    ensures name in base ==> Overwritten(base, pairs)[name] == base[name]
    decreases |pairs|
  {
    if pairs != [] {
      NotPaired(base, pairs[..|pairs| - 1], name);
    }
  }

  // Any other has the value of the last pair that begins with it.
  lemma {:induction false} LastPairCounts(base: map<string, string>, pairs: seq<(string, string)>, i: nat)
    requires i < |pairs| && forall j :: i < j < |pairs| ==> pairs[j].0 != pairs[i].0
    ensures pairs[i].0 in Overwritten(base, pairs) && Overwritten(base, pairs)[pairs[i].0] == pairs[i].1
    decreases |pairs|
  {
    if i < |pairs| - 1 {
      LastPairCounts(base, pairs[..|pairs| - 1], i);
    }
  }

  datatype Usage = Indeterminate | NonVisiblyUsed | VisiblyUsed {
    function Rank(): nat {
      match this
      case Indeterminate => 0
      case NonVisiblyUsed => 1
      case VisiblyUsed => 2
    }
  }

  datatype Namespace = Namespace(prefix: string, uri: string, always: bool, usage: Usage)

  // No two entries share a prefix.
  ghost predicate UniquePrefixes(nss: seq<Namespace>) {
    forall i, j :: 0 <= i < j < |nss| ==> nss[i].prefix != nss[j].prefix
  }

  // One entry may take the place of another: same binding, at least as pinned, at least as used.
  predicate Grows(before: Namespace, after: Namespace) {
    && before.prefix == after.prefix
    && before.uri == after.uri
    && (before.always ==> after.always)
    && before.usage.Rank() <= after.usage.Rank()
  }

  // The value overlaid on an entry that already declares the same prefix and URI.
  function Overlay(entry: Namespace, ns: Namespace): Namespace {
    var pinned := if ns.always then entry.(always := true) else entry;
    match ns.usage
    case Indeterminate => pinned
    case VisiblyUsed => pinned.(usage := VisiblyUsed)
    case NonVisiblyUsed => if pinned.usage.Indeterminate? then pinned.(usage := NonVisiblyUsed) else pinned
  }

  // The namespace set after ns is added: the first entry with its prefix decides.
  function Added(nss: seq<Namespace>, ns: Namespace): seq<Namespace> {
    if nss == [] then [ns]
    else if nss[0].prefix == ns.prefix then
      if nss[0].uri == ns.uri then [Overlay(nss[0], ns)] + nss[1..] else nss
    else [nss[0]] + Added(nss[1..], ns)
  }

  // Adding keeps every earlier entry in its place, only growing, and leaves the prefix bound.
  lemma {:induction false} AddedGrows(nss: seq<Namespace>, ns: Namespace)
    ensures |nss| <= |Added(nss, ns)| <= |nss| + 1
    ensures forall i :: 0 <= i < |nss| ==> Grows(nss[i], Added(nss, ns)[i])
    ensures |Added(nss, ns)| == |nss| + 1 ==>
              Added(nss, ns)[|nss|] == ns && forall i :: 0 <= i < |nss| ==> nss[i].prefix != ns.prefix
    ensures exists i :: 0 <= i < |Added(nss, ns)| && Added(nss, ns)[i].prefix == ns.prefix
  {
    if nss == [] {
      assert Added(nss, ns)[0].prefix == ns.prefix;
    } else if nss[0].prefix == ns.prefix {
      assert Added(nss, ns)[0].prefix == ns.prefix;
    } else {
      AddedGrows(nss[1..], ns);
      GrowsFurther(nss[0], nss[1..], Added(nss[1..], ns), ns);
      assert nss == [nss[0]] + nss[1..] && Added(nss, ns) == [nss[0]] + Added(nss[1..], ns);
    }
  }

  lemma GrowsFurther(first: Namespace, nss: seq<Namespace>, after: seq<Namespace>, ns: Namespace)
    requires first.prefix != ns.prefix && |nss| <= |after| <= |nss| + 1
    requires forall i :: 0 <= i < |nss| ==> Grows(nss[i], after[i])
    requires |after| == |nss| + 1 ==> after[|nss|] == ns && forall i :: 0 <= i < |nss| ==> nss[i].prefix != ns.prefix
    requires exists i :: 0 <= i < |after| && after[i].prefix == ns.prefix
    ensures forall i :: 0 <= i < |[first] + nss| ==> Grows(([first] + nss)[i], ([first] + after)[i])
    ensures |after| == |nss| + 1 ==>
              && ([first] + after)[|nss| + 1] == ns
              && forall i :: 0 <= i < |[first] + nss| ==> ([first] + nss)[i].prefix != ns.prefix
    ensures exists i :: 0 <= i < |[first] + after| && ([first] + after)[i].prefix == ns.prefix
  {
    var i :| 0 <= i < |after| && after[i].prefix == ns.prefix;
    assert ([first] + after)[i + 1] == after[i];
  }

  lemma AddedUnique(nss: seq<Namespace>, ns: Namespace)
    requires UniquePrefixes(nss)
    ensures UniquePrefixes(Added(nss, ns))
  {
    AddedGrows(nss, ns);
    var after := Added(nss, ns);
    forall i, j | 0 <= i < j < |after| ensures after[i].prefix != after[j].prefix {
      assert Grows(nss[i], after[i]);
      if j < |nss| { assert Grows(nss[j], after[j]); }
    }
  }

  // What becomes of each entry: one that declares the same prefix and URI ends up as pinned and as used
  // as the stronger of the two, any other stays as it is.
  lemma {:induction false} AddedExactly(nss: seq<Namespace>, ns: Namespace, i: nat)
    requires UniquePrefixes(nss) && i < |nss|
    ensures |nss| <= |Added(nss, ns)|
    ensures nss[i].prefix != ns.prefix || nss[i].uri != ns.uri ==> Added(nss, ns)[i] == nss[i]
    ensures nss[i].prefix == ns.prefix && nss[i].uri == ns.uri ==>
              var after := Added(nss, ns)[i];
              && after.always == (nss[i].always || ns.always)
              && (after.usage.VisiblyUsed? <==> nss[i].usage.VisiblyUsed? || ns.usage.VisiblyUsed?)
              && (after.usage.Indeterminate? <==> nss[i].usage.Indeterminate? && ns.usage.Indeterminate?)
  {
    if nss[0].prefix == ns.prefix {
      assert i > 0 ==> nss[i].prefix != ns.prefix;
    } else if i > 0 {
      AddedExactly(nss[1..], ns, i - 1);
      assert nss[i] == nss[1..][i - 1] && Added(nss, ns)[i] == Added(nss[1..], ns)[i - 1];
    } else {
      AddedGrows(nss[1..], ns);
    }
  }

  // The set has an entry for the prefix, which is pinned, or visibly used, if its URI is this one.
  ghost predicate Has(nss: seq<Namespace>, prefix: string, uri: string, pinned: bool) {
    exists i :: 0 <= i < |nss| && Serves(nss[i], prefix, uri, pinned)
  }

  predicate Serves(ns: Namespace, prefix: string, uri: string, pinned: bool) {
    ns.prefix == prefix && (ns.uri == uri ==> if pinned then ns.always else ns.usage.VisiblyUsed?)
  }

  lemma {:induction false} AddedHas(nss: seq<Namespace>, ns: Namespace)
    ensures ns.always ==> Has(Added(nss, ns), ns.prefix, ns.uri, true)
    ensures ns.usage.VisiblyUsed? ==> Has(Added(nss, ns), ns.prefix, ns.uri, false)
  {
    var after := Added(nss, ns);
    if nss == [] || nss[0].prefix == ns.prefix {
      assert ns.always ==> Serves(after[0], ns.prefix, ns.uri, true);
      assert ns.usage.VisiblyUsed? ==> Serves(after[0], ns.prefix, ns.uri, false);
    } else {
      AddedHas(nss[1..], ns);
      assert after[1..] == Added(nss[1..], ns);
      HasMore(nss[0], Added(nss[1..], ns), ns, true);
      HasMore(nss[0], Added(nss[1..], ns), ns, false);
    }
  }

  lemma HasMore(first: Namespace, rest: seq<Namespace>, ns: Namespace, pinned: bool)
    ensures Has(rest, ns.prefix, ns.uri, pinned) ==> Has([first] + rest, ns.prefix, ns.uri, pinned)
  {
    if i :| 0 <= i < |rest| && Serves(rest[i], ns.prefix, ns.uri, pinned) {
      assert ([first] + rest)[i + 1] == rest[i];
    }
  }

  // Nothing comes to be pinned, or visibly used, but by such an addition of the same name.
  lemma {:induction false} AddedPins(nss: seq<Namespace>, ns: Namespace)
    ensures |nss| <= |Added(nss, ns)|
    ensures forall i :: 0 <= i < |nss| && Added(nss, ns)[i].always && !nss[i].always ==>
              ns.always && nss[i].prefix == ns.prefix && nss[i].uri == ns.uri
    ensures forall i :: 0 <= i < |nss| && Added(nss, ns)[i].usage.VisiblyUsed? && !nss[i].usage.VisiblyUsed? ==>
              ns.usage.VisiblyUsed? && nss[i].prefix == ns.prefix && nss[i].uri == ns.uri
  {
    AddedGrows(nss, ns);
    if nss != [] && nss[0].prefix != ns.prefix {
      AddedPins(nss[1..], ns);
      forall i | 0 < i < |nss| ensures nss[i] == nss[1..][i - 1] && Added(nss, ns)[i] == Added(nss[1..], ns)[i - 1] {
      }
    }
  }

  function AddedAll(nss: seq<Namespace>, more: seq<Namespace>): seq<Namespace> {
    if more == [] then nss else Added(AddedAll(nss, more[..|more| - 1]), more[|more| - 1])
  }

  // Over any run of additions: prefixes stay unique, the first URI bound to a prefix stays bound to
  // it, the always-declare flag never falls and usage only rises.
  lemma {:induction false} NamespaceSetInvariant(nss: seq<Namespace>, more: seq<Namespace>)
    requires UniquePrefixes(nss)
    ensures UniquePrefixes(AddedAll(nss, more))
    ensures |nss| <= |AddedAll(nss, more)|
    ensures forall i :: 0 <= i < |nss| ==> Grows(nss[i], AddedAll(nss, more)[i])
  {
    hide Added;
    if more == [] {
    } else {
      var init, last := more[..|more| - 1], more[|more| - 1];
      NamespaceSetInvariant(nss, init);
      var before, after := AddedAll(nss, init), AddedAll(nss, more);
      AddedGrows(before, last);
      AddedUnique(before, last);
      forall i | 0 <= i < |nss| ensures Grows(nss[i], after[i]) {
        assert Grows(nss[i], before[i]) && Grows(before[i], after[i]);
      }
    }
  }

  // A later state of a namespace set: every entry in its place and only grown, prefixes still unique.
  ghost predicate Follows(before: seq<Namespace>, after: seq<Namespace>) {
    && |before| <= |after| && (forall i :: 0 <= i < |before| ==> Grows(before[i], after[i]))
    && (UniquePrefixes(before) ==> UniquePrefixes(after))
  }

  lemma AddedFollows(nss: seq<Namespace>, ns: Namespace)
    ensures Follows(nss, Added(nss, ns)) == true
  {
    AddedGrows(nss, ns);
    if UniquePrefixes(nss) { AddedUnique(nss, ns); }
  }

  lemma FollowsTrans(a: seq<Namespace>, b: seq<Namespace>, c: seq<Namespace>)
    requires Follows(a, b) == true && Follows(b, c) == true
    ensures Follows(a, c) == true
  {
    forall i | 0 <= i < |a| ensures Grows(a[i], c[i]) {
      assert Grows(a[i], b[i]) && Grows(b[i], c[i]);
    }
  }

  lemma FollowsSelf(nss: seq<Namespace>)
    ensures Follows(nss, nss) == true
  {
  }

  ghost predicate Binds(nss: seq<Namespace>, prefix: string) {
    exists i :: 0 <= i < |nss| && nss[i].prefix == prefix
  }

  lemma FollowsBinds(before: seq<Namespace>, after: seq<Namespace>, prefix: string)
    requires Follows(before, after) == true && Binds(before, prefix)
    ensures Binds(after, prefix)
  {
    var i :| 0 <= i < |before| && before[i].prefix == prefix;
    assert Grows(before[i], after[i]);
  }

  lemma FollowsHas(before: seq<Namespace>, after: seq<Namespace>, prefix: string, uri: string, pinned: bool)
    requires Follows(before, after) == true && Has(before, prefix, uri, pinned)
    ensures Has(after, prefix, uri, pinned)
  {
    var i :| 0 <= i < |before| && Serves(before[i], prefix, uri, pinned);
    assert Grows(before[i], after[i]);
    assert Serves(after[i], prefix, uri, pinned);
  }

  // Every added prefix ends up bound, and stays so.
  lemma {:induction false} AddedAllBinds(nss: seq<Namespace>, more: seq<Namespace>, prefix: string)
    ensures Binds(AddedAll(nss, more), prefix) <==> Binds(nss, prefix) || Binds(more, prefix)
  {
    hide Added;
    if more == [] {
    } else {
      var init, last := more[..|more| - 1], more[|more| - 1];
      AddedAllBinds(nss, init, prefix);
      AddedBinds(AddedAll(nss, init), last, prefix);
      assert more == init + [last];
      if i :| 0 <= i < |init| && init[i].prefix == prefix { assert more[i].prefix == prefix; }
      if last.prefix == prefix { assert more[|init|].prefix == prefix; }
    }
  }

  lemma AddedBinds(nss: seq<Namespace>, ns: Namespace, prefix: string)
    ensures Binds(Added(nss, ns), prefix) <==> Binds(nss, prefix) || prefix == ns.prefix
  {
    AddedGrows(nss, ns);
    hide Added;
    var after := Added(nss, ns);
    if i :| 0 <= i < |nss| && nss[i].prefix == prefix { assert Grows(nss[i], after[i]); }
    if j :| 0 <= j < |after| && after[j].prefix == prefix {
      if j < |nss| { assert Grows(nss[j], after[j]); }
    }
  }
}

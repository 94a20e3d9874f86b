// Exception messages: $name parameters expanded on demand, with a memo.
module ExceptionMessage {
  import opened Names
  import opened Numbers

  type Params = map<string, string>

  predicate Legal(c: char) {
    'A' <= c <= 'Z' || 'a' <= c <= 'z' || '0' <= c <= '9' || c == '_'
  }

  // The longest run of legal characters at the start.
  function NameAt(s: string): (r: string)
    ensures r <= s && forall c :: c in r ==> Legal(c)
    ensures |r| < |s| ==> !Legal(s[|r|])
  {
    if s != "" && Legal(s[0]) then [s[0]] + NameAt(s[1..]) else ""
  }

  // The expansion in one pass from the left.  Values go in as they are; an unknown name loses only its
  // dollar sign; a dollar sign before another character keeps that character; one at the very end is
  // the parameter with the empty name, or nothing.
  function Expand(m: string, params: Params): string
    decreases |m|
  {
    if m == "" then ""
    else if m[0] != '$' then [m[0]] + Expand(m[1..], params)
    else
      var name := NameAt(m[1..]);
      if name == "" && |m| > 1 then [m[1]] + Expand(m[2..], params)
      else if name in params then params[name] + Expand(m[1 + |name|..], params)
      else Expand(m[1..], params)
  }

  // ---------------------------------------------------------------- the string searches of the scanner

  const NPOS := -1

  // find: the first position of c from `start` on.
  function Find(s: string, c: char, start: nat): (i: int)
    ensures i == NPOS || start <= i < |s|
    ensures i == NPOS ==> forall k :: start <= k < |s| ==> s[k] != c
    ensures i != NPOS ==> s[i] == c && forall k :: start <= k < i ==> s[k] != c
    decreases |s| - start
  {
    if start >= |s| then NPOS
    else if s[start] == c then start
    else Find(s, c, start + 1)
  }

  // find_first_not_of the legal characters.
  function FirstIllegal(s: string, start: nat): (i: int)
    requires start <= |s|
    ensures i == NPOS || start <= i < |s|
    ensures i == NPOS ==> s[start..] == NameAt(s[start..])
    ensures i != NPOS ==> !Legal(s[i]) && s[start..i] == NameAt(s[start..])
    decreases |s| - start
  {
    if start == |s| then NPOS
    else if !Legal(s[start]) then start
    else
      assert s[start..] == [s[start]] + s[start + 1..];
      FirstIllegal(s, start + 1)
  }

  // Text without a dollar sign comes out as it is, wherever the scanner picks it up.
  lemma {:induction false} PlainPrefix(m: string, start: nat, i: nat, params: Params)
    requires start <= i <= |m| && forall k :: start <= k < i ==> m[k] != '$'
    ensures Expand(m[start..], params) == m[start..i] + Expand(m[i..], params)
    decreases i - start
  {
    if start < i {
      PlainPrefix(m, start + 1, i, params);
      assert m[start..][1..] == m[start + 1..];
    }
  }

  // At a dollar sign: a character that cannot start a name is kept.
  lemma KeepsCharacter(m: string, i: nat, params: Params)
    requires i + 1 < |m| && m[i] == '$' && !Legal(m[i + 1])
    ensures Expand(m[i..], params) == [m[i + 1]] + Expand(m[i + 2..], params)
  {
    assert m[i..][1..] == m[i + 1..] && m[i..][2..] == m[i + 2..];
  }

  // At a dollar sign before a name, or at the very end.
  lemma AtName(m: string, i: nat, name: string, params: Params)
    requires i < |m| && m[i] == '$' && name == NameAt(m[i + 1..]) && (name == "" ==> i + 1 == |m|)
    ensures Expand(m[i..], params) ==
            if name in params then params[name] + Expand(m[i + 1 + |name|..], params) else Expand(m[i + 1..], params)
  {
    assert m[i..][1..] == m[i + 1..] && m[i..][1 + |name|..] == m[i + 1 + |name|..];
  }

  // ---------------------------------------------------------------- the exception object

  class XMLToolingException {
    var msg: string
    var params: Params
    var processed: string

    // The memo, when there is one, is the expansion of the current message and parameters.
    ghost predicate Valid()
      reads this
    {
      processed != "" ==> params != map[] && processed == Expand(msg, params)
    }

    constructor (msg: Option<string>)
      ensures Valid() && params == map[] && this.msg == if msg.Some? then msg.value else ""
    {
      this.msg := if msg.Some? then msg.value else "";
      params, processed := map[], "";
    }

    method SetMessage(text: Option<string>)
      modifies this
      ensures Valid() && params == old(params) && msg == if text.Some? then text.value else ""
    {
      if text.Some? {
        msg := text.value;
      } else {
        msg := "";
      }
      processed := "";
    }

    // Positional properties: numbered on from the number of parameters there are.
    method AddProperties(values: seq<string>)
      modifies this
      ensures Valid() && msg == old(msg) && params == Numbered(old(params), |old(params)| + 1, values)
    {
      processed := "";
      var i := |params| + 1;
      var j := 0;
      while j < |values|
        invariant 0 <= j <= |values| && i == |old(params)| + 1 + j && msg == old(msg) && processed == ""
        invariant params == Numbered(old(params), |old(params)| + 1, values[..j])
      {
        params := params[Decimal(i) := values[j]];
        assert values[..j + 1][..j] == values[..j];
        i, j := i + 1, j + 1;
      }
      assert values[..j] == values;
    }

    method AddNamedProperties(pairs: seq<(string, string)>)
      modifies this
      ensures Valid() && msg == old(msg) && params == Overwritten(old(params), pairs)
    {
      processed := "";
      var j := 0;
      while j < |pairs|
        invariant 0 <= j <= |pairs| && msg == old(msg) && processed == ""
        invariant params == Overwritten(old(params), pairs[..j])
      {
        ghost var before := params;
        params := params - {pairs[j].0};
        params := params[pairs[j].0 := pairs[j].1];
        assert params == before[pairs[j].0 := pairs[j].1];
        assert pairs[..j + 1][..j] == pairs[..j];
        j := j + 1;
      }
      assert pairs[..j] == pairs;
    }

    // getMessage: the memo, the bare message, or the scan.
    method GetMessage() returns (text: string)
      requires Valid()
      modifies this`processed
      ensures Valid()
      ensures text == if params == map[] then msg else Expand(msg, params)
    {
      if processed != "" {
        return processed;
      } else if params == map[] {
        return msg;
      }
      hide Expand, NameAt, Legal;
      var start := 0;
      assert msg[0..] == msg;
      while start != NPOS && start < |msg| && Find(msg, '$', start) != NPOS
        invariant start == NPOS || 0 <= start <= |msg|
        invariant processed + Rest(start) == Expand(msg, params)
        decreases if start == NPOS then 0 else |msg| - start + 1
      {
        start := Scan(start);
      }
      NothingLeft(params);
      if start != NPOS && start < |msg| {
        PlainPrefix(msg, start, |msg|, params);
        processed := processed + msg[start..];
      }
      return processed;
    }

    // One turn of the loop: the text up to the next dollar sign, and what that sign stands for.
    method Scan(from: nat) returns (start: int)
      requires from < |msg| && Find(msg, '$', from) != NPOS
      modifies this`processed
      ensures start == NPOS || from < start <= |msg|
      ensures processed + Rest(start) == old(processed) + Rest(from)
    {
      hide Expand, NameAt, Legal;
      var i := Find(msg, '$', from);
      PlainPrefix(msg, from, i, params);
      if i > from {
        processed := processed + msg[from..i];
      }
      assert processed + Rest(i) == old(processed) + Rest(from) by {
        Assoc(old(processed), msg[from..i], Rest(i));
      }
      start := i + 1;
      ghost var dollar, before := i, processed;
      i := FirstIllegal(msg, start);
      if i == start {
        KeepsCharacter(msg, dollar, params);
        processed := processed + [msg[start]];
        start := start + 1;
        Assoc(before, [msg[start - 1]], Rest(start));
        return;
      }
      var name := if i == NPOS then msg[start..] else msg[start..i];
      AtName(msg, dollar, name, params);
      if name in params {
        processed := processed + params[name];
        start := i;
        assert msg[dollar + 1 + |name|..] == if i == NPOS then "" else msg[i..];
        Assoc(before, params[name], Rest(start));
      }
    }

    // What is still to come when the scanner stands at a position, NPOS being past the end.
    ghost function Rest(start: int): string
      requires start <= |msg|
      reads this`msg, this`params
    {
      if start < 0 then Expand("", params) else Expand(msg[start..], params)
    }
  }

  lemma NothingLeft(params: Params)
    ensures Expand("", params) == ""
  {
  }

  function Numbered(params: Params, first: nat, values: seq<string>): Params {
    if values == [] then params
    else
      var n := |values| - 1;
      Numbered(params, first, values[..n])[Decimal(first + n) := values[n]]
  }

  // ---------------------------------------------------------------- what the expansion means

  lemma {:induction false} NumberedAt(params: Params, first: nat, values: seq<string>, j: nat)
    requires j < |values|
    ensures Decimal(first + j) in Numbered(params, first, values)
    ensures Numbered(params, first, values)[Decimal(first + j)] == values[j]
  {
    hide Decimal;
    var n := |values| - 1;
    if j < n {
      NumberedAt(params, first, values[..n], j);
      if Decimal(first + j) == Decimal(first + n) {
        DecimalInjective(first + j, first + n);
      }
    }
  }

  lemma {:induction false} NameOf(name: string, rest: string)
    requires (forall c :: c in name ==> Legal(c)) && (rest == "" || !Legal(rest[0]))
    ensures NameAt(name + rest) == name
  {
    if name == "" {
      assert name + rest == rest;
    } else {
      NameOf(name[1..], rest);
      assert (name + rest)[1..] == name[1..] + rest;
    }
  }

  lemma LegalReference(before: string, name: string, rest: string, params: Params)
    requires '$' !in before && name != "" && (forall c :: c in name ==> Legal(c)) && (rest == "" || !Legal(rest[0]))
    ensures Expand(before + "$" + name + rest, params) ==
            before + (if name in params then params[name] else name) + Expand(rest, params)
  {
    hide Expand, NameAt, Legal;
    var m := before + "$" + name + rest;
    var i := |before|;
    Pieces(before, name, rest);
    PlainPrefix(m, 0, i, params);
    NameOf(name, rest);
    AtName(m, i, name, params);
    if name !in params {
      NoDollar(name);
      PlainPrefix(m, i + 1, i + 1 + |name|, params);
    }
  }

  // A reference anywhere in a message: the text before it stays, the value goes in and is not looked at
  // again, the rest is expanded by itself.  An unknown name loses its dollar sign and nothing else.  A name
  // is a run of ASCII letters, digits and underscores, as long as there are any.
  lemma Reference(before: string, name: string, rest: string, params: Params)
    requires '$' !in before && name != ""
    requires forall c :: c in name ==> 'A' <= c <= 'Z' || 'a' <= c <= 'z' || '0' <= c <= '9' || c == '_'
    requires rest != "" ==> var c := rest[0]; !('A' <= c <= 'Z' || 'a' <= c <= 'z' || '0' <= c <= '9' || c == '_')
    ensures Expand(before + "$" + name + rest, params) ==
            before + (if name in params then params[name] else name) + Expand(rest, params)
  {
    hide Expand;
    LegalReference(before, name, rest, params);
  }

  lemma Pieces(before: string, name: string, rest: string)
    ensures var m, i := before + "$" + name + rest, |before|;
            && m[0..] == m && m[0..i] == before && m[i] == '$' && m[i + 1..] == name + rest
            && m[i + 1 + |name|..] == rest && m[i + 1..i + 1 + |name|] == name
  {
  }

  lemma NoDollar(name: string)
    requires forall c :: c in name ==> Legal(c)
    ensures forall k :: 0 <= k < |name| ==> name[k] != '$'
  {
    forall k | 0 <= k < |name| ensures name[k] != '$' {
      assert name[k] in name;
    }
  }

  lemma Assoc(a: string, b: string, c: string)
    ensures (a + b) + c == a + (b + c)
  {
  }

  // The k-th positional property of a fresh exception answers to $k.
  lemma PositionalReference(values: seq<string>, j: nat, before: string, rest: string)
    requires j < |values| && '$' !in before
    requires rest != "" ==> var c := rest[0]; !('A' <= c <= 'Z' || 'a' <= c <= 'z' || '0' <= c <= '9' || c == '_')
    ensures var params := Numbered(map[], 1, values);
            Expand(before + "$" + Decimal(j + 1) + rest, params) == before + values[j] + Expand(rest, params)
  {
    NumberedAt(map[], 1, values, j);
    Reference(before, Decimal(j + 1), rest, Numbered(map[], 1, values));
  }

  // The corner cases.
  lemma Corners(c: char, rest: string, params: Params)
    ensures !('A' <= c <= 'Z' || 'a' <= c <= 'z' || '0' <= c <= '9' || c == '_') ==> Expand("$" + [c] + rest, params) == [c] + Expand(rest, params)
    ensures Expand("$", params) == if "" in params then params[""] else ""
  {
    var m := "$" + [c] + rest;
    assert m[2..] == rest && m[1] == c;
    assert NameAt("$"[1..]) == "";
  }
}

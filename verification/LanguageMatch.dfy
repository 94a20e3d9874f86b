// Language matching by the lookup scheme of section 3.4 of RFC 4647.
module LanguageMatch {
  import opened Names

  // A language range, as its subtags.
  type Range = seq<string>

  function Hyphenated(r: Range): string {
    if r == [] then ""
    else if |r| == 1 then r[0]
    else Hyphenated(r[..|r| - 1]) + "-" + r[|r| - 1]
  }

  function Upper(c: char): char {
    if 'a' <= c <= 'z' then (c as int - 32) as char else c
  }

  predicate SameIgnoringCase(a: string, b: string) {
    |a| == |b| && forall i :: 0 <= i < |a| ==> Upper(a[i]) == Upper(b[i])
  }

  // A range without the single-character subtags at its end.
  function Trimmed(r: Range): (t: Range)
    ensures t <= r && (t != [] ==> |t[|t| - 1]| > 1)
  {
    if r != [] && |r[|r| - 1]| <= 1 then Trimmed(r[..|r| - 1]) else r
  }

  // The ranges lookup tries: each is the one before without its last subtag, and without any
  // single-character subtag that then comes last.
  function Fallback(r: Range): seq<Range>
    decreases |r|
  {
    if r == [] then [] else [r] + Fallback(Trimmed(r[..|r| - 1]))
  }

  predicate Hits(tag: string, r: Range) {
    |Hyphenated(r)| > 1 && SameIgnoringCase(Hyphenated(r), tag)
  }

  // The tag is one of the ranges tried, of more than one character.
  ghost predicate Looked(tag: string, ranges: seq<Range>) {
    exists i :: 0 <= i < |ranges| && Hits(tag, ranges[i])
  }

  lemma LookedStep(tag: string, r: Range)
    requires r != []
    ensures Looked(tag, Fallback(r)) <==> Hits(tag, r) || Looked(tag, Fallback(Trimmed(r[..|r| - 1])))
  {
    hide Hits;
    var rest := Fallback(Trimmed(r[..|r| - 1]));
    assert Fallback(r) == [r] + rest;
    if Looked(tag, rest) {
      var i :| 0 <= i < |rest| && Hits(tag, rest[i]);
      assert Fallback(r)[i + 1] == rest[i];
    }
    if Hits(tag, r) { assert Fallback(r)[0] == r; }
  }

  // ---------------------------------------------------------------- the answer over characters

  // The same character, or the two cases of one ASCII letter.
  predicate OneLetter(c: char, d: char) {
    || c == d
    || ('a' <= c <= 'z' && d as int == c as int - 32)
    || ('A' <= c <= 'Z' && d as int == c as int + 32)
  }

  predicate SameButCase(a: string, b: string) {
    |a| == |b| && forall i :: 0 <= i < |a| ==> OneLetter(a[i], b[i])
  }

  // Some of the first subtags, the last of them of more than one character, joined by hyphens are the tag.
  ghost predicate PrefixMatches(r: Range, tag: string) {
    exists n :: 0 < n <= |r| && |r[n - 1]| > 1 && SameButCase(Hyphenated(r[..n]), tag)
  }

  lemma SameExactly(a: string, b: string)
    ensures SameIgnoringCase(a, b) <==> SameButCase(a, b)
  {
    forall c: char, d: char ensures Upper(c) == Upper(d) <==> OneLetter(c, d) {
    }
    if SameButCase(a, b) {
      forall i | 0 <= i < |a| ensures Upper(a[i]) == Upper(b[i]) {
        assert OneLetter(a[i], b[i]);
      }
    }
  }

  lemma LongText(r: Range)
    requires r != [] && |r[|r| - 1]| > 1
    ensures |Hyphenated(r)| > 1
  {
  }

  // The fallback comes down to this: it is the prefixes that end in a subtag of more than one character.
  lemma {:induction false} LookedExactly(tag: string, r: Range)
    ensures Looked(tag, Fallback(Trimmed(r))) <==> PrefixMatches(r, tag)
    decreases |r|
  {
    hide Hits, Looked, Fallback, SameIgnoringCase, SameButCase, Hyphenated;
    if r == [] {
      NothingLeft(tag);
    } else {
      var last := |r| - 1;
      LookedExactly(tag, r[..last]);
      PrefixStep(r, tag);
      if |r[last]| > 1 {
        LookedStep(tag, r);
        WholeRange(tag, r);
      }
    }
  }

  lemma WholeRange(tag: string, r: Range)
    requires r != [] && |r[|r| - 1]| > 1
    ensures Hits(tag, r) <==> SameButCase(Hyphenated(r), tag)
  {
    hide SameIgnoringCase, SameButCase, Hyphenated;
    LongText(r);
    SameExactly(Hyphenated(r), tag);
  }

  lemma PrefixStep(r: Range, tag: string)
    requires r != []
    ensures PrefixMatches(r, tag) <==>
              PrefixMatches(r[..|r| - 1], tag) || (|r[|r| - 1]| > 1 && SameButCase(Hyphenated(r), tag))
  {
    hide SameButCase, Hyphenated;
    var init := r[..|r| - 1];
    assert r[..|r|] == r;
    forall n | 0 < n < |r| ensures init[..n] == r[..n] && init[n - 1] == r[n - 1] {
    }
    if PrefixMatches(init, tag) {
      var n :| 0 < n <= |init| && |init[n - 1]| > 1 && SameButCase(Hyphenated(init[..n]), tag);
      assert init[..n] == r[..n];
    }
    if PrefixMatches(r, tag) {
      var n :| 0 < n <= |r| && |r[n - 1]| > 1 && SameButCase(Hyphenated(r[..n]), tag);
      assert n < |r| ==> init[..n] == r[..n];
    }
  }

  // The case of ASCII letters makes no difference, in the range or in the tag.
  lemma CaseMakesNoDifference(r: Range, r': Range, tag: string, tag': string)
    requires SameButCase(tag, tag') && |r| == |r'| && forall i :: 0 <= i < |r| ==> SameButCase(r[i], r'[i])
    ensures PrefixMatches(r, tag) <==> PrefixMatches(r', tag')
  {
    hide SameButCase, Hyphenated;
    if PrefixMatches(r, tag) {
      var n :| 0 < n <= |r| && |r[n - 1]| > 1 && SameButCase(Hyphenated(r[..n]), tag);
      VariantMatches(r, r', tag, tag', n);
    }
    if PrefixMatches(r', tag') {
      var n :| 0 < n <= |r'| && |r'[n - 1]| > 1 && SameButCase(Hyphenated(r'[..n]), tag');
      Flipped(tag, tag');
      forall i | 0 <= i < |r| ensures SameButCase(r'[i], r[i]) {
        Flipped(r[i], r'[i]);
      }
      VariantMatches(r', r, tag', tag, n);
    }
  }

  lemma VariantMatches(r: Range, r': Range, tag: string, tag': string, n: nat)
    requires SameButCase(tag, tag') && |r| == |r'| && forall i :: 0 <= i < |r| ==> SameButCase(r[i], r'[i])
    requires 0 < n <= |r| && |r[n - 1]| > 1 && SameButCase(Hyphenated(r[..n]), tag)
    ensures |r'[n - 1]| > 1 && SameButCase(Hyphenated(r'[..n]), tag')
  {
    JoinedVariant(r[..n], r'[..n]);
    assert SameButCase(r[n - 1], r'[n - 1]);
    hide Hyphenated;
    Flipped(Hyphenated(r[..n]), Hyphenated(r'[..n]));
    Chained(Hyphenated(r'[..n]), Hyphenated(r[..n]), tag);
    Chained(Hyphenated(r'[..n]), tag, tag');
  }

  lemma Flipped(a: string, b: string)
    requires SameButCase(a, b)
    ensures SameButCase(b, a)
  {
    forall i | 0 <= i < |b| ensures OneLetter(b[i], a[i]) {
      assert OneLetter(a[i], b[i]);
    }
  }

  lemma Chained(a: string, b: string, c: string)
    requires SameButCase(a, b) && SameButCase(b, c)
    ensures SameButCase(a, c)
  {
    forall i | 0 <= i < |a| ensures OneLetter(a[i], c[i]) {
      assert OneLetter(a[i], b[i]) && OneLetter(b[i], c[i]);
    }
  }

  lemma {:induction false} JoinedVariant(r: Range, r': Range)
    requires |r| == |r'| && forall i :: 0 <= i < |r| ==> SameButCase(r[i], r'[i])
    ensures SameButCase(Hyphenated(r), Hyphenated(r'))
    decreases |r|
  {
    if |r| > 1 {
      var n := |r| - 1;
      JoinedVariant(r[..n], r'[..n]);
      assert SameButCase(r[n], r'[n]);
    } else if |r| == 1 {
      assert SameButCase(r[0], r'[0]);
    }
  }

  // For instance the range en-us is matched by en-US and by EN, and not by en-u5.
  lemma Instances()
    ensures PrefixMatches(["en", "us"], "en-US") && PrefixMatches(["en", "us"], "EN") && !PrefixMatches(["en", "us"], "en-u5")
  {
    var r: Range := ["en", "us"];
    assert r[..1] == ["en"] && r[..2] == r && r[0] == "en" && r[1] == "us";
    assert Hyphenated(r[..2]) == "en-us" && Hyphenated(r[..1]) == "en";
    assert SameButCase(Hyphenated(r[..2]), "en-US") && SameButCase(Hyphenated(r[..1]), "EN");
    forall n | 0 < n <= |r| ensures !SameButCase(Hyphenated(r[..n]), "en-u5") {
      assert !OneLetter('s', '5') && "en-us"[4] == 's' && "en-u5"[4] == '5';
      assert n == 1 || n == 2;
    }
  }

  // ---------------------------------------------------------------- the loops

  // matchLang: rebuild the range up to a fence and compare, moving the fence back.
  method MatchLang(range: Option<Range>, tag: string) returns (found: bool)
    requires range.Some? ==> range.value != []
    ensures found <==> range.Some? && Looked(tag, Fallback(Trimmed(range.value)))
    ensures found <==> range.Some? && PrefixMatches(range.value, tag)
  {
    if range.None? {
      return false;
    }
    hide Looked, Hits, Fallback, Trimmed;
    hide PrefixMatches;
    var r := range.value;
    LookedExactly(tag, r);
    found := false;
    var end := |r|;
    assert r[..end] == r;
    while !found && end > 0
      invariant 0 <= end <= |r|
      invariant if found then Looked(tag, Fallback(Trimmed(r)))
                else Looked(tag, Fallback(Trimmed(r))) <==> Looked(tag, Fallback(Trimmed(r[..end])))
      decreases end, !found
    {
      end := SkipSingles(r, end);
      found := Compare(r, end, tag);
      Fence(tag, r, end);
      if !found {
        end := end - 1;
      }
    }
    NothingLeft(tag);
  }

  lemma NothingLeft(tag: string)
    ensures !Looked(tag, Fallback(Trimmed([])))
  {
  }

  // Builds the range from the first subtags and compares it with the tag.
  method Compare(r: Range, end: nat, tag: string) returns (same: bool)
    requires 0 < end <= |r|
    ensures same <==> Hits(tag, r[..end])
  {
    var compareTo := r[0];
    var ix := 1;
    while ix <= end - 1
      invariant 1 <= ix <= end && compareTo == Hyphenated(r[..ix])
    {
      assert r[..ix + 1][..ix] == r[..ix];
      compareTo := compareTo + "-" + r[ix];
      ix := ix + 1;
    }
    same := |compareTo| > 1 && SameIgnoringCase(compareTo, tag);
  }

  // The inner loop: the fence never passes the first subtag.
  method SkipSingles(r: Range, fence: nat) returns (end: nat)
    requires 0 < fence <= |r|
    ensures 0 < end <= fence && Trimmed(r[..end]) == Trimmed(r[..fence])
    ensures end > 1 ==> |r[end - 1]| > 1
  {
    end := fence;
    while end > 1 && |r[end - 1]| <= 1
      invariant 0 < end <= fence && Trimmed(r[..end]) == Trimmed(r[..fence])
    {
      assert r[..end][..end - 1] == r[..end - 1];
      end := end - 1;
    }
  }

  // A first subtag of at most one character never matches, here or when it is left out.
  lemma Short(tag: string, t: Range)
    requires |t| == 1 && |t[0]| <= 1
    ensures !Hits(tag, t) && Trimmed(t) == []
  {
    hide SameIgnoringCase;
  }

  // Comparing at the fence and moving it back by one is one step of the fallback.
  lemma Fence(tag: string, r: Range, end: nat)
    requires 0 < end <= |r| && (end > 1 ==> |r[end - 1]| > 1)
    ensures Looked(tag, Fallback(Trimmed(r[..end]))) <==>
              Hits(tag, r[..end]) || Looked(tag, Fallback(Trimmed(r[..end - 1])))
  {
    hide Hits, SameIgnoringCase, Looked, Fallback;
    var t := r[..end];
    assert t[..end - 1] == r[..end - 1];
    if |t[end - 1]| > 1 {
      LookedStep(tag, t);
    } else {
      Short(tag, t);
    }
  }

  // ---------------------------------------------------------------- against the standard

  lemma {:induction false} FallbackShorter(r: Range, i: nat)
    requires i < |Fallback(r)|
    ensures Fallback(r)[i] <= r && Fallback(r)[i] != [] && (i > 0 ==> |Fallback(r)[i]| < |r|)
    decreases |r|
  {
    if i > 0 {
      FallbackShorter(Trimmed(r[..|r| - 1]), i - 1);
    }
  }

  lemma {:induction false} ShorterText(r: Range, n: nat)
    requires 0 < n < |r|
    ensures |Hyphenated(r[..n])| < |Hyphenated(r)|
    decreases |r|
  {
    if n < |r| - 1 {
      assert r[..|r| - 1][..n] == r[..n];
      ShorterText(r[..|r| - 1], n);
    }
  }

  // matchLang is the lookup of the standard for every tag exactly when the range does not end in a
  // single-character subtag after others: such a range is itself in the standard's sequence, but is
  // trimmed here before it is ever compared.  (The tokens that make up a range are never empty.)
  lemma StandardExactly(r: Range)
    requires r != [] && "" !in r
    ensures (forall tag :: Looked(tag, Fallback(Trimmed(r))) <==> Looked(tag, Fallback(r)))
            <==> (|r| == 1 || |r[|r| - 1]| > 1)
  {
    if |r| == 1 || |r[|r| - 1]| > 1 {
      forall tag ensures Looked(tag, Fallback(Trimmed(r))) <==> Looked(tag, Fallback(r)) {
        LookedStep(tag, r);
      }
    } else {
      OwnTextMissed(r);
    }
  }

  lemma OwnTextMissed(r: Range)
    requires |r| > 1 && |r[|r| - 1]| <= 1 && "" !in r
    ensures Looked(Hyphenated(r), Fallback(r)) && !Looked(Hyphenated(r), Fallback(Trimmed(r)))
  {
    hide Hits, Hyphenated, Fallback;
    LookedStep(Hyphenated(r), r);
    OwnText(r);
    var t := Trimmed(r);
    assert |t| < |r|;
    forall i | 0 <= i < |Fallback(t)| ensures !Hits(Hyphenated(r), Fallback(t)[i]) {
      FallbackShorter(t, i);
      PrefixMisses(r, |Fallback(t)[i]|);
      assert Fallback(t)[i] == r[..|Fallback(t)[i]|];
    }
  }

  lemma OwnText(r: Range)
    requires |r| > 1 && "" !in r
    ensures Hits(Hyphenated(r), r)
  {
    assert r[|r| - 1] in r;
  }

  lemma PrefixMisses(r: Range, n: nat)
    requires 0 < n < |r|
    ensures !Hits(Hyphenated(r), r[..n])
  {
    hide Hyphenated;
    ShorterText(r, n);
  }

  // For instance "en-x" itself is not matched by the range en-x.
  lemma PrivateUseSuffix()
    ensures Looked("en-x", Fallback(["en", "x"])) && !Looked("en-x", Fallback(Trimmed(["en", "x"])))
  {
    var r: Range := ["en", "x"];
    assert r[..1] == ["en"] && Trimmed(r) == ["en"];
    LookedStep("en-x", r);
    LookedStep("en-x", ["en"]);
    assert ["en"][..0] == [];
  }
}

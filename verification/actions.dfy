/** The fixed catalogue of query rewrites, referred to everywhere by its
    position in the catalogue. */
module Actions {
  import opened Text

  datatype Action = AddDomainTerms | AddGuidelineTerms | ExpandAcronyms | NoOp

  /** The words the two suffix rewrites append. */
  const DomainTerms: seq<string> := ["type", "2", "metformin", "first", "line", "treatment"]
  const GuidelineTerms: seq<string> := ["clinical", "guideline", "recommended", "therapy"]
  /** " type 2 metformin first line treatment" */
  const DomainSuffix: string := Spaced(DomainTerms)
  /** " clinical guideline recommended therapy" */
  const GuidelineSuffix: string := Spaced(GuidelineTerms)
  const Acronym: string := "dm"
  const Expansion: string := "diabetes mellitus"

  /** `ACTIONS`, in order. */
  function Catalogue(): (c: seq<Action>)
    ensures |c| == 4 && c[3] == NoOp
    ensures forall i, j :: 0 <= i < j < |c| ==> c[i] != c[j]
  {
    [AddDomainTerms, AddGuidelineTerms, ExpandAcronyms, NoOp]
  }

  /** `ACTIONS.index(a)` */
  function IndexOf(a: Action): (i: nat)
    ensures i < |Catalogue()| && Catalogue()[i] == a
  {
    match a
    case AddDomainTerms => 0
    case AddGuidelineTerms => 1
    case ExpandAcronyms => 2
    case NoOp => 3
  }

  /** `s.replace(pattern, replacement)` for a non-empty pattern: occurrences
      are found left to right and do not overlap. */
  function Replace(s: string, pattern: string, replacement: string): (r: string)
    requires pattern != []
    ensures !Occurs(pattern, s) ==> r == s
    ensures |s| < |pattern| ==> r == s
    decreases |s|
  {
    if |s| < |pattern| then s
    else if s[..|pattern|] == pattern then replacement + Replace(s[|pattern|..], pattern, replacement)
    else [s[0]] + Replace(s[1..], pattern, replacement)
  }

  /** `pattern in s` */
  predicate Occurs(pattern: string, s: string)
    decreases |s|
  {
    |s| >= |pattern| && (s[..|pattern|] == pattern || (s != [] && Occurs(pattern, s[1..])))
  }

  /** `pattern` starts at position `i` of `s`. */
  predicate OccursAt(pattern: string, s: string, i: nat) {
    i + |pattern| <= |s| && s[i..i + |pattern|] == pattern
  }

  /** `Occurs` is Python's substring test: the pattern occurs exactly when it
      starts at some position of the text. */
  lemma {:induction false} OccursIffSomewhere(pattern: string, s: string)
    ensures Occurs(pattern, s) <==> exists i: nat :: OccursAt(pattern, s, i)
    decreases |s|
  {
    if |s| >= |pattern| && s[..|pattern|] == pattern {
      assert OccursAt(pattern, s, 0);
    } else if |s| >= |pattern| && s != [] {
      OccursIffSomewhere(pattern, s[1..]);
      if Occurs(pattern, s[1..]) {
        var i: nat :| OccursAt(pattern, s[1..], i);
        assert s[1..][i..i + |pattern|] == s[i + 1..i + 1 + |pattern|];
        assert OccursAt(pattern, s, i + 1);
      } else {
        forall i: nat | OccursAt(pattern, s, i) ensures false {
          if i > 0 {
            assert s[1..][i - 1..i - 1 + |pattern|] == s[i..i + |pattern|];
            assert OccursAt(pattern, s[1..], i - 1);
          }
        }
      }
    }
  }

  /** Runs one rewrite on a query. */
  function Apply(a: Action, query: string): (r: string)
    ensures a != ExpandAcronyms ==> query <= r
    ensures a == ExpandAcronyms && !Occurs(Acronym, query) ==> r == query
    ensures a == NoOp ==> r == query
  {
    match a
    case AddDomainTerms => query + DomainSuffix
    case AddGuidelineTerms => query + GuidelineSuffix
    case ExpandAcronyms => Replace(query, Acronym, Expansion)
    case NoOp => query
  }

  /** `no_op` returns its input, and it sits at index 3. */
  lemma NoOpIsIdentity(query: string)
    ensures Catalogue()[3] == NoOp
    ensures Apply(NoOp, query) == query
  {
  }

  /** None of the domain terms contains a separator. */
  lemma DomainTermsAreWords()
    ensures forall w :: w in DomainTerms ==> IsWord(w)
  {
    assert IsWord("type") && IsWord("2") && IsWord("metformin");
    assert IsWord("first") && IsWord("line") && IsWord("treatment");
  }

  /** None of the guideline terms contains a separator. */
  lemma GuidelineTermsAreWords()
    ensures forall w :: w in GuidelineTerms ==> IsWord(w)
  {
    assert IsWord("clinical") && IsWord("guideline");
    assert IsWord("recommended") && IsWord("therapy");
  }

  /** `add_domain_terms` keeps the query as a prefix and adds exactly the six
      domain terms as words. */
  lemma DomainTermsAppended(query: string)
    ensures query <= Apply(AddDomainTerms, query)
    ensures Words(Apply(AddDomainTerms, query)) == Words(query) + DomainTerms
    ensures WordCount(Apply(AddDomainTerms, query)) == WordCount(query) + 6
  {
    DomainTermsAreWords();
    WordsAppendSpaced(query, DomainTerms);
  }

  /** `add_guideline_terms` keeps the query as a prefix and adds exactly the
      four guideline terms as words. */
  lemma GuidelineTermsAppended(query: string)
    ensures query <= Apply(AddGuidelineTerms, query)
    ensures Words(Apply(AddGuidelineTerms, query)) == Words(query) + GuidelineTerms
    ensures WordCount(Apply(AddGuidelineTerms, query)) == WordCount(query) + 4
  {
    GuidelineTermsAreWords();
    WordsAppendSpaced(query, GuidelineTerms);
  }

  /** A query without "dm" is returned unchanged by `expand_acronyms`. */
  lemma {:induction false} ExpandWithoutAcronym(s: string)
    requires !Occurs(Acronym, s)
    ensures Apply(ExpandAcronyms, s) == s
    decreases |s|
  {
    if |s| >= 2 {
      ExpandWithoutAcronym(s[1..]);
    }
  }

  /** Text in which no 'd' is directly followed by an 'm' has no "dm". */
  lemma {:induction false} NoAcronymWithoutPair(s: string)
    requires forall i :: 0 <= i < |s| - 1 ==> !(s[i] == 'd' && s[i + 1] == 'm')
    ensures !Occurs(Acronym, s)
    decreases |s|
  {
    if |s| >= 2 {
      assert s[..2] == [s[0], s[1]];
      NoAcronymWithoutPair(s[1..]);
    }
  }

  /** `expand_acronyms` never changes the first character of a query: the
      expansion starts with the same 'd' the acronym did. */
  lemma {:induction false} ExpandKeepsFirst(s: string)
    requires s != []
    ensures Apply(ExpandAcronyms, s) != [] && Apply(ExpandAcronyms, s)[0] == s[0]
  {
  }

  /** Text that contains no "dm" and does not end in 'd' cannot form one with
      what follows it. */
  lemma {:induction false} NoAcronymAcross(a: string, t: string)
    requires !Occurs(Acronym, a)
    requires a != [] && a[|a| - 1] != 'd'
    ensures Occurs(Acronym, a + t) == Occurs(Acronym, t)
    decreases |a|
  {
    var s := a + t;
    assert s[1..] == a[1..] + t;
    if |a| == 1 {
      assert s[1..] == t;
      assert s[0] != 'd';
    } else {
      assert s[..2] == a[..2];
      NoAcronymAcross(a[1..], t);
    }
  }

  /** The output of `expand_acronyms` contains no "dm". */
  lemma {:induction false} ExpandLeavesNoAcronym(s: string)
    ensures !Occurs(Acronym, Apply(ExpandAcronyms, s))
    decreases |s|
  {
    var r := Apply(ExpandAcronyms, s);
    if |s| < 2 {
      assert r == s;
    } else if s[..2] == Acronym {
      var rest := Apply(ExpandAcronyms, s[2..]);
      ExpandLeavesNoAcronym(s[2..]);
      NoAcronymWithoutPair(Expansion);
      NoAcronymAcross(Expansion, rest);
    } else {
      var rest := Apply(ExpandAcronyms, s[1..]);
      ExpandLeavesNoAcronym(s[1..]);
      ExpandKeepsFirst(s[1..]);
      assert r == [s[0]] + rest;
      assert r[1..] == rest;
      assert r[..2] == [s[0], s[1]];
    }
  }

  /** `expand_acronyms` is idempotent. */
  lemma ExpandIdempotent(s: string)
    ensures Apply(ExpandAcronyms, Apply(ExpandAcronyms, s)) == Apply(ExpandAcronyms, s)
  {
    ExpandLeavesNoAcronym(s);
    ExpandWithoutAcronym(Apply(ExpandAcronyms, s));
  }

  /** Matching is case-sensitive: an upper-case acronym is left alone. */
  lemma ExpandIsCaseSensitive()
    ensures Apply(ExpandAcronyms, "DM") == "DM"
  {
  }

  /** Matching also fires inside a word. */
  lemma ExpandFiresInsideWords()
    ensures Apply(ExpandAcronyms, "admin") == "a" + Expansion + "in"
  {
    assert "admin"[1..] == "dmin" && "dmin"[2..] == "in";
    assert Replace("in", Acronym, Expansion) == "in";
    assert Replace("dmin", Acronym, Expansion) == Expansion + "in";
  }
}

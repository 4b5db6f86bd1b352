/**
 * The two filters the callback applies to the extracted class names:
 * `filterNonCamelCaseNames` keeps names that can be ReasonML record fields,
 * `filterKeywords` splits off the names that are ReasonML keywords.
 */
module Names {
  import opened Text
  import opened Seqs

  /** `/^[A-Za-z0-9]+$/i`: one or more ASCII letters or digits. */
  predicate IsCamelCaseName(name: string) {
    name != [] && forall i :: 0 <= i < |name| ==> IsAsciiAlnum(name[i])
  }

  /**
   * `filterNonCamelCaseNames`: the names made only of ASCII letters and digits,
   * in input order, each as often as in the input.
   */
  function FilterNonCamelCaseNames(classNames: seq<string>): (r: seq<string>)
    ensures IsSubseq(r, classNames)
    ensures forall i :: 0 <= i < |r| ==> IsCamelCaseName(r[i])
    ensures forall i :: 0 <= i < |classNames| && IsCamelCaseName(classNames[i]) ==> classNames[i] in r
    ensures forall n :: multiset(r)[n] == if IsCamelCaseName(n) then multiset(classNames)[n] else 0
  {
    FilterMultiset(classNames, IsCamelCaseName);
    FilterIsSubseq(classNames, IsCamelCaseName);
    Filter(classNames, IsCamelCaseName)
  }

  /** The ReasonML keyword table: its 49 entries in the order the loader lists them. */
  const Keywords: seq<string> :=
    [ "and", "as", "assert", "begin", "class", "constraint", "do", "done", "downto",
      "else", "end", "exception", "external", "false", "for", "fun", "function",
      "functor", "if", "in", "include", "inherit", "initializer", "lazy", "let" ] +
    [ "method", "module", "mutable", "new", "nonrec", "object", "of", "open", "or",
      "private", "rec", "sig", "struct", "switch", "then", "to", "true", "try", "type",
      "val", "virtual", "when", "while", "with" ]

  /** `keywords.includes(name)`: exact, case-sensitive membership. */
  predicate IsKeyword(name: string) {
    name in Keywords
  }

  predicate IsNotKeyword(name: string) {
    name !in Keywords
  }

  /**
   * `filterKeywords`: one pass over the names that pushes each one onto
   * `keywordNames` or `validNames`. The two results split the input: each is an
   * order-preserving subsequence of it, the keyword side holds exactly the table
   * entries, and together they hold every input name as often as the input does.
   */
  method FilterKeywords(classNames: seq<string>) returns (validNames: seq<string>, keywordNames: seq<string>)
    ensures validNames == Filter(classNames, IsNotKeyword)
    ensures keywordNames == Filter(classNames, IsKeyword)
    ensures forall n :: n in keywordNames ==> n in Keywords
    ensures forall n :: n in validNames ==> n !in Keywords
    ensures IsSubseq(validNames, classNames) && IsSubseq(keywordNames, classNames)
    ensures |validNames| + |keywordNames| == |classNames|
    ensures multiset(validNames) + multiset(keywordNames) == multiset(classNames)
  {
    validNames, keywordNames := [], [];
    for i := 0 to |classNames|
      invariant validNames == Filter(classNames[..i], IsNotKeyword)
      invariant keywordNames == Filter(classNames[..i], IsKeyword)
    {
      var className := classNames[i];
      assert classNames[..i + 1] == classNames[..i] + [className];
      FilterAppend(classNames[..i], className, IsNotKeyword);
      FilterAppend(classNames[..i], className, IsKeyword);
      if className in Keywords {
        keywordNames := keywordNames + [className];
      } else {
        validNames := validNames + [className];
      }
    }
    assert classNames[..|classNames|] == classNames;
    KeywordSplit(classNames);
  }

  /** The keyword and non-keyword filters partition any list of names. */
  lemma KeywordSplit(names: seq<string>)
    ensures IsSubseq(Filter(names, IsNotKeyword), names) && IsSubseq(Filter(names, IsKeyword), names)
    ensures |Filter(names, IsNotKeyword)| + |Filter(names, IsKeyword)| == |names|
    ensures multiset(Filter(names, IsNotKeyword)) + multiset(Filter(names, IsKeyword)) == multiset(names)
    ensures forall n :: n in Filter(names, IsKeyword) ==> n in Keywords
    ensures forall n :: n in Filter(names, IsNotKeyword) ==> n !in Keywords
  {
    KeywordPartition(names);
    FilterIsSubseq(names, IsNotKeyword);
    FilterIsSubseq(names, IsKeyword);
    FilterMembership(names, IsKeyword);
    FilterMembership(names, IsNotKeyword);
  }

  lemma KeywordPartition(names: seq<string>)
    ensures |Filter(names, IsNotKeyword)| + |Filter(names, IsKeyword)| == |names|
    ensures multiset(Filter(names, IsNotKeyword)) + multiset(Filter(names, IsKeyword)) == multiset(names)
  {
    assert forall n :: IsKeyword(n) == !IsNotKeyword(n);
    FilterPartition(names, IsNotKeyword, IsKeyword);
  }

  // Proof helpers for the examples below: one fact each about a test name and
  // the keyword table, kept apart so that no example has to search all 49
  // entries for several names at once.
  lemma RedIsNotKeyword() ensures "red" !in Keywords {}
  lemma ForYouIsNotKeyword() ensures "forYou" !in Keywords {}
  lemma IncludeNextIsNotKeyword() ensures "includeNext" !in Keywords {}
  lemma CapitalLetIsNotKeyword() ensures "Let" !in Keywords {}
  lemma CapitalAndIsNotKeyword() ensures "AND" !in Keywords {}
  lemma AndLetAreKeywords() ensures "and" in Keywords && "let" in Keywords {}

  /** Which of the test names are camel case. */
  lemma TestNameVerdicts()
    ensures IsCamelCaseName("red") && IsCamelCaseName("blue") && IsCamelCaseName("isRead") && IsCamelCaseName("titleBox")
    ensures !IsCamelCaseName("is-read") && !IsCamelCaseName("is_read") && !IsCamelCaseName("title-box")
  {
    var c, d, f := "is-read", "is_read", "title-box";
    assert c[2] == '-' && d[2] == '_' && f[5] == '-';
  }

  lemma CamelCaseFilterExample()
    ensures Filter(["red", "blue", "is-read", "is_read", "isRead", "title-box", "titleBox"], IsCamelCaseName)
         == ["red", "blue", "isRead", "titleBox"]
  {
    TestNameVerdicts();
    var s3, s5 := ["red", "blue", "is-read"], ["red", "blue", "is-read", "is_read", "isRead"];
    FilterThree("red", "blue", "is-read", IsCamelCaseName);
    FilterMore(s3, "is_read", "isRead", IsCamelCaseName);
    FilterMore(s5, "title-box", "titleBox", IsCamelCaseName);
    assert s3 + ["is_read", "isRead"] == s5;
    assert s5 + ["title-box", "titleBox"] == ["red", "blue", "is-read", "is_read", "isRead", "title-box", "titleBox"];
  }

  /** The example the loader's tests pin for `filterNonCamelCaseNames`. */
  lemma FilterNonCamelCaseNamesExample()
    ensures FilterNonCamelCaseNames(["red", "blue", "is-read", "is_read", "isRead", "title-box", "titleBox"])
         == ["red", "blue", "isRead", "titleBox"]
  {
    CamelCaseFilterExample();
  }

  lemma ValidNamesExample()
    ensures Filter(["red", "and", "forYou", "includeNext", "let"], IsNotKeyword) == ["red", "forYou", "includeNext"]
  {
    RedIsNotKeyword();
    AndLetAreKeywords();
    ForYouIsNotKeyword();
    IncludeNextIsNotKeyword();
    var s3 := ["red", "and", "forYou"];
    assert s3 + ["includeNext", "let"] == ["red", "and", "forYou", "includeNext", "let"];
    FilterThree("red", "and", "forYou", IsNotKeyword);
    FilterMore(s3, "includeNext", "let", IsNotKeyword);
  }

  lemma KeywordNamesExample()
    ensures Filter(["red", "and", "forYou", "includeNext", "let"], IsKeyword) == ["and", "let"]
  {
    RedIsNotKeyword();
    AndLetAreKeywords();
    ForYouIsNotKeyword();
    IncludeNextIsNotKeyword();
    var s3 := ["red", "and", "forYou"];
    assert s3 + ["includeNext", "let"] == ["red", "and", "forYou", "includeNext", "let"];
    FilterThree("red", "and", "forYou", IsKeyword);
    FilterMore(s3, "includeNext", "let", IsKeyword);
  }

  /** The example the loader's tests pin for `filterKeywords`. */
  lemma FilterKeywordsExample()
    ensures Filter(["red", "and", "forYou", "includeNext", "let"], IsNotKeyword) == ["red", "forYou", "includeNext"]
    ensures Filter(["red", "and", "forYou", "includeNext", "let"], IsKeyword) == ["and", "let"]
  {
    ValidNamesExample();
    KeywordNamesExample();
  }

  /** Keyword matching is exact and case-sensitive: capitalised keywords are valid names. */
  lemma KeywordMatchIsCaseSensitive()
    ensures Filter(["Let", "AND", "let"], IsKeyword) == ["let"]
  {
    CapitalLetIsNotKeyword();
    CapitalAndIsNotKeyword();
    AndLetAreKeywords();
    FilterThree("Let", "AND", "let", IsKeyword);
  }
}

/**
 * The callback the loader hands to css-loader. It passes css-loader's error
 * on. When css-loader produced no `exports.locals` block, it passes the
 * content on untouched. Otherwise it collects the class names of the block,
 * keeps the camel-case, non-keyword ones, renders the ReasonML stub, and saves
 * it next to the stylesheet or in the configured directory. In every case the
 * content reaches webpack unchanged.
 */
module Loader {
  import opened Text
  import opened Seqs
  import opened Extract
  import opened Names
  import opened Stub
  import opened Paths
  import opened Store

  /** What the callback passes to webpack's: `callback(err)` or `callback(null, content)`. */
  datatype Reply = Failure(err: string) | Success(content: string)

  /** The callback either calls webpack's callback or throws before doing so. */
  datatype Outcome = Replied(reply: Reply) | Threw

  /** The `saveFileIfChanged` call the callback makes. */
  datatype Save = Save(destDir: string, filename: string, reasonType: string)

  /** One run of the callback: the save it performs, if any, and how it ends. */
  datatype Step = Step(save: Option<Save>, outcome: Outcome)

  /**
   * The names that become fields of the stub: the class names of the locals
   * block that are camel case and not keywords, each once, in first-seen order.
   */
  function ValidClassNames(localsContent: string): (r: seq<string>)
    ensures NoDup(r)
    ensures IsSubseq(r, ClassNames(localsContent))
    ensures forall n :: n in r <==> n in AllKeys(localsContent, 0) && IsCamelCaseName(n) && n !in Keywords
  {
    var classNames := ClassNames(localsContent);
    var camel := FilterNonCamelCaseNames(classNames);
    ClassNamesWellFormed(localsContent);
    FilterNoDup(classNames, IsCamelCaseName);
    FilterNoDup(camel, IsNotKeyword);
    FilterMembership(classNames, IsCamelCaseName);
    FilterMembership(camel, IsNotKeyword);
    FilterIsSubseq(camel, IsNotKeyword);
    SubseqTransitive(Filter(camel, IsNotKeyword), camel, classNames);
    Filter(camel, IsNotKeyword)
  }

  /** The camel-case class names of the locals block that are keywords. */
  function KeywordClassNames(localsContent: string): (r: seq<string>)
    ensures forall n :: n in r <==> n in AllKeys(localsContent, 0) && IsCamelCaseName(n) && n in Keywords
  {
    var classNames := ClassNames(localsContent);
    var camel := FilterNonCamelCaseNames(classNames);
    ClassNamesWellFormed(localsContent);
    FilterMembership(classNames, IsCamelCaseName);
    FilterMembership(camel, IsKeyword);
    Filter(camel, IsKeyword)
  }

  /** The stub the callback saves, and where. */
  function SaveFor(localsContent: string, resourcePath: string, queryDestDir: Option<string>): (s: Save)
    ensures ParseStub(s.reasonType) == Some(ValidClassNames(localsContent))
    ensures s.filename == PathAndFilename(resourcePath).destFilename
    ensures s.destDir == FinalDestDir(queryDestDir, PathAndFilename(resourcePath).currentDir)
  {
    var validNames := ValidClassNames(localsContent);
    var location := PathAndFilename(resourcePath);
    ParseStubRoundTrip(validNames);
    Save(FinalDestDir(queryDestDir, location.currentDir), location.destFilename, MakeCssModuleType(validNames))
  }

  /**
   * The callback with keyword collisions handled as the surrounding code means
   * them to be: the keywords are left out of the stub and the stub is saved.
   * Errors are passed on and nothing is saved; without a locals block nothing is
   * saved; otherwise the stub is saved; and the content is passed on unchanged.
   */
  function Respond(err: Option<string>, content: string, resourcePath: string, queryDestDir: Option<string>): (r: Step)
    ensures err.Some? ==> r == Step(None, Replied(Failure(err.value)))
    ensures err.None? ==> r.outcome == Replied(Success(content))
    ensures r.save.Some? <==> err.None? && LocalsContent(content).Some?
    ensures r.save.Some? ==> ParseStub(r.save.value.reasonType) == Some(ValidClassNames(LocalsContent(content).value))
  {
    if err.Some? then Step(None, Replied(Failure(err.value)))
    else match LocalsContent(content)
      case None => Step(None, Replied(Success(content)))
      case Some(localsContent) => Step(Some(SaveFor(localsContent, resourcePath, queryDestDir)), Replied(Success(content)))
  }

  /**
   * The callback as written: when a class name is a keyword, the log block reads
   * `filepath` before its `const` declaration has run, which throws: the
   * callback throws before it saves the stub or calls webpack's callback. What
   * css-loader does with the exception is not modelled. Otherwise it is `Respond`.
   */
  function RespondAsWritten(err: Option<string>, content: string, resourcePath: string, queryDestDir: Option<string>): (r: Step)
    ensures r.outcome == Threw <==> err.None? && LocalsContent(content).Some? && KeywordClassNames(LocalsContent(content).value) != []
    ensures r.outcome == Threw ==> r.save.None?
    ensures r.outcome != Threw ==> r == Respond(err, content, resourcePath, queryDestDir)
  {
    if err.None? && LocalsContent(content).Some? && KeywordClassNames(LocalsContent(content).value) != [] then
      Step(None, Threw)
    else
      Respond(err, content, resourcePath, queryDestDir)
  }

  /**
   * The callback, step by step, with keyword collisions handled as `Respond`
   * says: the reply it sends, and the save it makes through `store`.
   */
  method OnCssLoaderResult(store: FileStore, err: Option<string>, content: string, resourcePath: string, queryDestDir: Option<string>)
    returns (reply: Reply)
    modifies store
    ensures Replied(reply) == Respond(err, content, resourcePath, queryDestDir).outcome
    ensures Respond(err, content, resourcePath, queryDestDir).save.None? ==>
              store.files == old(store.files) && store.dirs == old(store.dirs) && store.writes == old(store.writes)
    ensures Respond(err, content, resourcePath, queryDestDir).save.Some? ==>
              var s := Respond(err, content, resourcePath, queryDestDir).save.value;
              && store.files == AfterSave(old(store.files), JoinPath(s.destDir, s.filename), s.reasonType)
              && store.dirs == old(store.dirs) + {s.destDir}
              && store.writes == old(store.writes) + if NeedsWrite(old(store.files), JoinPath(s.destDir, s.filename), s.reasonType) then 1 else 0
  {
    if err.Some? {
      return Failure(err.value);
    }
    var matchLocals := LocalsContent(content);
    if matchLocals.None? {
      return Success(content);
    }
    var localsContent := matchLocals.value;
    var classNames := ExtractClassNames(localsContent);
    classNames := FilterNonCamelCaseNames(classNames);
    var validNames, keywordNames := FilterKeywords(classNames);
    var reasonType := MakeCssModuleType(validNames);
    var location := PathAndFilename(resourcePath);
    var destDir := FinalDestDir(queryDestDir, location.currentDir);
    store.SaveFileIfChanged(destDir, location.destFilename, reasonType);
    return Success(content);
  }

  /**
   * The saved stub lists exactly the camel-case, non-keyword keys of the locals
   * block: every field parses back to one of them, and every one of them is a
   * field.
   */
  lemma StubFieldsAreValidClassNames(content: string, resourcePath: string, queryDestDir: Option<string>, n: string)
    requires LocalsContent(content).Some?
    ensures Respond(None, content, resourcePath, queryDestDir).save.Some?
    ensures n in ParseStub(Respond(None, content, resourcePath, queryDestDir).save.value.reasonType).value
        <==> n in AllKeys(LocalsContent(content).value, 0) && IsCamelCaseName(n) && n !in Keywords
  {
  }

  /** The locals regex applied to a whole `exports.locals = {…};` text captures what is between the braces. */
  lemma LocalsOfBlock(body: string)
    ensures LocalsContent(LocalsOpen + body + LocalsClose) == Some(body)
  {
    var content := LocalsOpen + body + LocalsClose;
    var j := |content| - |LocalsClose|;
    assert OccursAt(content, 0, LocalsOpen) by {
      assert content[..|LocalsOpen|] == LocalsOpen;
    }
    assert OccursAt(content, j, LocalsClose) by {
      assert content[j..] == LocalsClose;
    }
    assert LocalsMatch(content, 0, j);
    var m := FindLocals(content).value;
    assert m == (0, j);
    assert content[|LocalsOpen|..j] == body;
  }

  /** A locals block that starts with the key `"k":` yields the class name `k`. */
  lemma LeadingKeyIsClassName(k: string, rest: string)
    requires IsKey(k)
    ensures k in AllKeys("\"" + k + "\":" + rest, 0)
  {
    var s := "\"" + k + "\":" + rest;
    assert s[1..1 + |k|] == k;
    assert s[0] == '"' && s[1 + |k|] == '"' && s[2 + |k|] == ':';
    assert KeyPatternAt(s, 0, |k|);
    var m := MatchKeyAt(s, 0).value;
    assert NextKey(s, 0) == Some(m);
    AllKeysStep(s, 0);
  }

  /**
   * A stylesheet with a class named after a keyword: as written the callback
   * throws and saves nothing, while the intended callback saves the stub and
   * passes the content on.
   */
  lemma KeywordClassThrowsAsWritten(k: string, rest: string, resourcePath: string, queryDestDir: Option<string>)
    requires k in Keywords && IsCamelCaseName(k)
    ensures RespondAsWritten(None, LocalsOpen + ("\"" + k + "\":" + rest) + LocalsClose, resourcePath, queryDestDir) == Step(None, Threw)
    ensures Respond(None, LocalsOpen + ("\"" + k + "\":" + rest) + LocalsClose, resourcePath, queryDestDir).save.Some?
    ensures Respond(None, LocalsOpen + ("\"" + k + "\":" + rest) + LocalsClose, resourcePath, queryDestDir).outcome
         == Replied(Success(LocalsOpen + ("\"" + k + "\":" + rest) + LocalsClose))
  {
    var body := "\"" + k + "\":" + rest;
    LocalsOfBlock(body);
    assert IsKey(k) by {
      forall i | 0 <= i < |k| ensures IsKeyChar(k[i]) {
        assert IsAsciiAlnum(k[i]);
      }
    }
    LeadingKeyIsClassName(k, rest);
    assert k in KeywordClassNames(body);
  }

  /** The concrete case: a stylesheet with a class `.let`, whatever follows its key. */
  lemma LetClassThrowsAsWritten(k: string, rest: string, resourcePath: string, queryDestDir: Option<string>)
    requires k == "let"
    ensures RespondAsWritten(None, LocalsOpen + ("\"" + k + "\":" + rest) + LocalsClose, resourcePath, queryDestDir) == Step(None, Threw)
    ensures Respond(None, LocalsOpen + ("\"" + k + "\":" + rest) + LocalsClose, resourcePath, queryDestDir).save.Some?
  {
    AndLetAreKeywords();
    assert IsCamelCaseName(k);
    KeywordClassThrowsAsWritten(k, rest, resourcePath, queryDestDir);
  }
}

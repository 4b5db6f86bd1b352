/**
 * `makeCssModuleType`: the ReasonML source the loader writes for a
 * stylesheet, a `Js.t` object type with one `string` field per valid class
 * name. `ParseStub` reads the field names back out of such a text; the two
 * are inverse on camel-case names.
 */
module Stub {
  import opened Text
  import opened Seqs
  import opened Names

  const Header: string := "type definition = Js.t({."
  const Footer: string := "})"
  const FieldIndent: string := "    "
  const FieldType: string := ": string,"

  /** The line the template produces for one name. */
  function FieldLine(name: string): string {
    FieldIndent + name + FieldType
  }

  /** A field line is the indentation, the name and the type annotation, each recoverable. */
  lemma FieldLineParts(name: string)
    ensures |FieldLine(name)| == |FieldIndent| + |name| + |FieldType|
    ensures FieldLine(name)[..|FieldIndent|] == FieldIndent
    ensures FieldLine(name)[|FieldIndent| + |name|..] == FieldType
    ensures FieldLine(name)[|FieldIndent|..|FieldIndent| + |name|] == name
  {
    SliceParts(FieldIndent, name, FieldType);
  }

  /** `validNames.map(name => "    " + name + ": string,")`. */
  function FieldLines(names: seq<string>): (lines: seq<string>)
    ensures |lines| == |names|
    ensures forall i :: 0 <= i < |names| ==> lines[i] == FieldLine(names[i])
  {
    if names == [] then [] else [FieldLine(names[0])] + FieldLines(names[1..])
  }

  /** The header line, the field lines as given, and the closing line. */
  function Definition(fields: string): string {
    (Header + "\n") + fields + ("\n" + Footer)
  }

  lemma DefinitionParts(fields: string)
    ensures |Definition(fields)| == |Header| + 1 + |fields| + 1 + |Footer|
    ensures Definition(fields)[..|Header| + 1] == Header + "\n"
    ensures Definition(fields)[|Header| + 1..|Header| + 1 + |fields|] == fields
    ensures Definition(fields)[|Header| + 1 + |fields|..] == "\n" + Footer
  {
    SliceParts(Header + "\n", fields, "\n" + Footer);
  }

  /**
   * The template literal after `trim()`: trimming removes exactly the template's
   * leading newline and trailing indentation, whatever the names are, because
   * the definition starts with `t` and ends with `)`.
   */
  function MakeCssModuleType(validNames: seq<string>): (r: string)
    ensures r == Definition(Join(FieldLines(validNames), "\n"))
  {
    var fields := Join(FieldLines(validNames), "\n");
    TrimTemplate(fields);
    Trim("\n" + Definition(fields) + "\n    ")
  }

  lemma TrimTemplate(fields: string)
    ensures Trim("\n" + Definition(fields) + "\n    ") == Definition(fields)
  {
    var d := Definition(fields);
    DefinitionParts(fields);
    assert d[0] == (Header + "\n")[0] == 't';
    assert d[|d| - 1] == ("\n" + Footer)[|Footer|] == ')';
    TrimSurrounded("\n", d, "\n    ");
  }

  /** Splits a text at each newline (`text.split("\n")`). */
  function SplitLines(text: string): (lines: seq<string>)
    ensures |lines| >= 1
    decreases |text|
  {
    var k := IndexOf(text, '\n');
    if k < 0 then [text] else [text[..k]] + SplitLines(text[k + 1..])
  }

  /** The name declared by one field line, if it is a field line of a camel-case name. */
  function ParseField(line: string): (r: Option<string>)
    ensures r.Some? ==> IsCamelCaseName(r.value) && FieldLine(r.value) == line
  {
    if |line| >= |FieldIndent| + |FieldType|
       && line[..|FieldIndent|] == FieldIndent && line[|line| - |FieldType|..] == FieldType
    then
      var name := line[|FieldIndent|..|line| - |FieldType|];
      if IsCamelCaseName(name) then
        JoinSlices(line, |FieldIndent|, |line| - |FieldType|);
        Some(name)
      else None
    else None
  }

  function ParseFields(lines: seq<string>): (r: Option<seq<string>>)
    ensures r.Some? ==> FieldLines(r.value) == lines
    ensures r.Some? ==> forall i :: 0 <= i < |r.value| ==> IsCamelCaseName(r.value[i])
  {
    if lines == [] then Some([])
    else
      match ParseField(lines[0])
      case None => None
      case Some(name) =>
        match ParseFields(lines[1..])
        case None => None
        case Some(rest) =>
          assert ([name] + rest)[1..] == rest;
          Some([name] + rest)
  }

  /**
   * Reads the field names back out of a generated type definition: the header
   * line, then one field line per name (or one empty line), then the closing line.
   */
  function ParseStub(text: string): (r: Option<seq<string>>)
    ensures r.Some? ==> MakeCssModuleType(r.value) == text
    ensures r.Some? ==> forall i :: 0 <= i < |r.value| ==> IsCamelCaseName(r.value[i])
  {
    var h, f := |Header| + 1, |Footer| + 1;
    if |text| >= h + f && text[..h] == Header + "\n" && text[|text| - f..] == "\n" + Footer then
      var fields := text[h..|text| - f];
      JoinSlices(text, h, |text| - f);
      assert text == Definition(fields);
      if fields == "" then Some([])
      else
        match ParseFields(SplitLines(fields))
        case None => None
        case Some(names) =>
          JoinSplitLines(fields);
          Some(names)
    else None
  }

  /** Joining the lines of a non-empty text gives the text back. */
  lemma {:induction false} JoinSplitLines(text: string)
    requires text != ""
    ensures Join(SplitLines(text), "\n") == text
    decreases |text|
  {
    var k := IndexOf(text, '\n');
    if k >= 0 {
      var rest := text[k + 1..];
      assert text == text[..k] + "\n" + rest;
      if rest == "" {
        assert SplitLines(rest) == [""];
      } else {
        JoinSplitLines(rest);
      }
    }
  }

  /** Splitting the newline-joined lines gives them back when no line holds a newline. */
  lemma {:induction false} SplitJoinLines(lines: seq<string>)
    requires lines != []
    requires forall i :: 0 <= i < |lines| ==> '\n' !in lines[i]
    ensures SplitLines(Join(lines, "\n")) == lines
  {
    if |lines| > 1 {
      var rest := Join(lines[1..], "\n");
      SliceParts(lines[0], "\n", rest);
      AppendAssoc(lines[0], "\n", rest);
      IndexOfAppendRight(lines[0], "\n" + rest, '\n');
      SplitJoinLines(lines[1..]);
    }
  }

  /** The generated field lines hold no newline. */
  lemma FieldLinesHaveNoNewline(names: seq<string>)
    requires forall i :: 0 <= i < |names| ==> IsCamelCaseName(names[i])
    ensures forall i :: 0 <= i < |names| ==> '\n' !in FieldLine(names[i])
  {
    forall i | 0 <= i < |names| ensures '\n' !in FieldLine(names[i]) {
      var n := names[i];
      assert forall j :: 0 <= j < |n| ==> IsAsciiAlnum(n[j]);
      assert FieldLine(n) == FieldIndent + n + FieldType;
    }
  }

  lemma HeadTail<T>(head: seq<T>, tail: seq<T>)
    requires |head| == 1
    ensures (head + tail)[0] == head[0] && (head + tail)[1..] == tail
  {
  }

  lemma Recompose<T>(s: seq<T>)
    requires s != []
    ensures [s[0]] + s[1..] == s
  {
  }

  /** The field line of a camel-case name parses back to the name. */
  lemma ParseFieldLine(name: string)
    requires IsCamelCaseName(name)
    ensures ParseField(FieldLine(name)) == Some(name)
  {
    var line := FieldLine(name);
    FieldLineParts(name);
    assert |line| - |FieldType| == |FieldIndent| + |name|;
  }

  /** The field lines of camel-case names parse back to the names. */
  lemma {:induction false} ParseFieldsRoundTrip(names: seq<string>)
    requires forall i :: 0 <= i < |names| ==> IsCamelCaseName(names[i])
    ensures ParseFields(FieldLines(names)) == Some(names)
  {
    if names != [] {
      var lines := FieldLines(names);
      ParseFieldLine(names[0]);
      ParseFieldsRoundTrip(names[1..]);
      HeadTail([FieldLine(names[0])], FieldLines(names[1..]));
      HeadTail([names[0]], names[1..]);
      Recompose(names);
    }
  }

  /**
   * The generated definition declares exactly the given names, in order: parsing
   * it back yields the list the loader passed in.
   */
  lemma ParseStubRoundTrip(validNames: seq<string>)
    requires forall i :: 0 <= i < |validNames| ==> IsCamelCaseName(validNames[i])
    ensures ParseStub(MakeCssModuleType(validNames)) == Some(validNames)
  {
    var fields := Join(FieldLines(validNames), "\n");
    DefinitionParts(fields);
    ParseFieldsRoundTrip(validNames);
    if validNames != [] {
      FieldLinesHaveNoNewline(validNames);
      SplitJoinLines(FieldLines(validNames));
      assert |fields| >= |FieldLines(validNames)[0]| > 0;
    }
  }

  /** Joining two non-empty runs of lines puts one separator between them. */
  lemma {:induction false} JoinConcat(a: seq<string>, b: seq<string>, sep: string)
    requires a != [] && b != []
    ensures Join(a + b, sep) == Join(a, sep) + sep + Join(b, sep)
  {
    assert (a + b)[0] == a[0] && (a + b)[1..] == a[1..] + b;
    if |a| > 1 {
      JoinConcat(a[1..], b, sep);
      AppendAssoc(a[0] + sep, Join(a[1..], sep), sep + Join(b, sep));
      AppendAssoc(a[0] + sep + Join(a[1..], sep), sep, Join(b, sep));
    }
  }

  /** The lines between the header and the closing line: one per name, or one empty line. */
  function BodyLines(validNames: seq<string>): seq<string> {
    if validNames == [] then [""] else FieldLines(validNames)
  }

  /** The generated file is its lines joined by newlines. */
  lemma StubJoinsLines(validNames: seq<string>)
    ensures Join([Header] + BodyLines(validNames) + [Footer], "\n") == MakeCssModuleType(validNames)
  {
    var body := BodyLines(validNames);
    var fields := Join(body, "\n");
    assert fields == Join(FieldLines(validNames), "\n");
    JoinConcat([Header], body, "\n");
    JoinConcat([Header] + body, [Footer], "\n");
    AppendAssoc(Header + "\n" + fields, "\n", Footer);
  }

  /** No line of the generated file holds a newline. */
  lemma StubLinesHaveNoNewline(validNames: seq<string>)
    requires forall i :: 0 <= i < |validNames| ==> IsCamelCaseName(validNames[i])
    ensures forall i :: 0 <= i < |[Header] + BodyLines(validNames) + [Footer]| ==>
              '\n' !in ([Header] + BodyLines(validNames) + [Footer])[i]
  {
    var body := BodyLines(validNames);
    var lines := [Header] + body + [Footer];
    FieldLinesHaveNoNewline(validNames);
    assert '\n' !in Header && '\n' !in Footer;
    forall i | 0 <= i < |lines| ensures '\n' !in lines[i] {
      if 0 < i < |lines| - 1 {
        assert lines[i] == body[i - 1];
      }
    }
  }

  /**
   * The generated file is the header line, one field line per name (an empty
   * line when there are none) and the closing line, joined by newlines.
   */
  lemma StubLines(validNames: seq<string>)
    requires forall i :: 0 <= i < |validNames| ==> IsCamelCaseName(validNames[i])
    ensures SplitLines(MakeCssModuleType(validNames)) == [Header] + BodyLines(validNames) + [Footer]
  {
    StubJoinsLines(validNames);
    StubLinesHaveNoNewline(validNames);
    SplitJoinLines([Header] + BodyLines(validNames) + [Footer]);
  }

  lemma FieldLinesOfThree(a: string, b: string, c: string)
    ensures FieldLines([a, b, c]) == [FieldLine(a), FieldLine(b), FieldLine(c)]
  {
  }

  lemma Enclose<T>(first: T, middle: seq<T>, x: T, y: T, z: T, last: T)
    requires middle == [x, y, z]
    ensures [first] + middle + [last] == [first, x, y, z, last]
  {
  }

  /** The definition for three camel-case names: header, their three field lines, closing line. */
  lemma StubOfThree(a: string, b: string, c: string)
    requires IsCamelCaseName(a) && IsCamelCaseName(b) && IsCamelCaseName(c)
    ensures SplitLines(MakeCssModuleType([a, b, c])) == [Header, FieldLine(a), FieldLine(b), FieldLine(c), Footer]
  {
    StubLines([a, b, c]);
    FieldLinesOfThree(a, b, c);
    Enclose(Header, BodyLines([a, b, c]), FieldLine(a), FieldLine(b), FieldLine(c), Footer);
  }

  // Proof helpers for the examples below: the field line of each test name,
  // one literal at a time.
  lemma RedFieldLine(a: string)
    requires a == "red"
    ensures IsCamelCaseName(a) && FieldLine(a) == "    red: string,"
  {
  }

  lemma ForYouFieldLine(b: string)
    requires b == "forYou"
    ensures IsCamelCaseName(b) && FieldLine(b) == "    forYou: string,"
  {
  }

  lemma IncludeNextFieldLine(c: string)
    requires c == "includeNext"
    ensures IsCamelCaseName(c) && FieldLine(c) == "    includeNext: string,"
  {
  }

  /** Five lines joined by one separator. */
  lemma JoinFive(l0: string, l1: string, l2: string, l3: string, l4: string, sep: string)
    ensures Join([l0, l1, l2, l3, l4], sep) == l0 + sep + l1 + sep + l2 + sep + l3 + sep + l4
  {
    assert [l0, l1] + [l2] == [l0, l1, l2];
    assert [l0, l1, l2] + [l3] == [l0, l1, l2, l3];
    assert [l0, l1, l2, l3] + [l4] == [l0, l1, l2, l3, l4];
    JoinConcat([l0, l1], [l2], sep);
    JoinConcat([l0, l1, l2], [l3], sep);
    JoinConcat([l0, l1, l2, l3], [l4], sep);
  }

  /** The example the loader's tests pin for `makeCssModuleType`. */
  lemma MakeCssModuleTypeExample(a: string, b: string, c: string)
    requires a == "red" && b == "forYou" && c == "includeNext"
    ensures MakeCssModuleType([a, b, c])
         == "type definition = Js.t({." + "\n" + "    red: string," + "\n" + "    forYou: string," + "\n"
          + "    includeNext: string," + "\n" + "})"
  {
    RedFieldLine(a);
    ForYouFieldLine(b);
    IncludeNextFieldLine(c);
    StubJoinsLines([a, b, c]);
    FieldLinesOfThree(a, b, c);
    Enclose(Header, BodyLines([a, b, c]), FieldLine(a), FieldLine(b), FieldLine(c), Footer);
    JoinFive(Header, FieldLine(a), FieldLine(b), FieldLine(c), Footer, "\n");
  }

  /** The same example, line by line: what the loader's tests compare. */
  lemma MakeCssModuleTypeExampleLines(a: string, b: string, c: string)
    requires a == "red" && b == "forYou" && c == "includeNext"
    ensures SplitLines(MakeCssModuleType([a, b, c]))
         == [Header, "    red: string,", "    forYou: string,", "    includeNext: string,", Footer]
  {
    RedFieldLine(a);
    ForYouFieldLine(b);
    IncludeNextFieldLine(c);
    StubOfThree(a, b, c);
  }

  /** With no valid names the definition is an empty object type. */
  lemma MakeCssModuleTypeEmpty(validNames: seq<string>)
    requires |validNames| == 0
    ensures MakeCssModuleType(validNames) == "type definition = Js.t({." + "\n" + "\n" + "})"
  {
    assert Join(FieldLines(validNames), "\n") == "";
    assert Header + "\n" + "" == Header + "\n";
    AppendAssoc(Header + "\n", "\n", Footer);
  }

  /** The same, line by line: the header, one empty line and the closing line. */
  lemma MakeCssModuleTypeEmptyLines(validNames: seq<string>)
    requires |validNames| == 0
    ensures SplitLines(MakeCssModuleType(validNames)) == [Header, "", Footer]
  {
    StubLines(validNames);
  }
}

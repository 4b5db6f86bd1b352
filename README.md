# reason-css-modules-loader, modelled in Dafny

This is a model of the webpack loader in `src/index.js`. The loader runs css-loader on a stylesheet. When css-loader's callback fires, it turns the `exports.locals = {…};` block of css-loader's output into a ReasonML type stub, `type definition = Js.t({. name: string, … })`, with one `string` field per usable class name. It writes the stub to `<Name>Styles.re`, but only when the file's content changes. It then hands css-loader's output to webpack unchanged.

The modules follow the stages of that callback:

- `Text`: the JavaScript string operations the loader relies on.
  - `String.prototype.trim` with ECMAScript's whitespace set.
  - `Array.prototype.join`.
  - The search for a fixed literal.
- `Seqs`: the array operations the loader relies on.
  - `indexOf`.
  - `filter`, with its subsequence, multiset and membership facts.
  - The "push unless `indexOf` finds it" de-duplication, `FirstOccurrences`.
- `Extract`: the two regular expressions of the callback, written out as the search a backtracking engine performs.
  - The locals block runs from the first `exports.locals = {` to the last `};` after it, because `[\s\S]*` is greedy.
  - The key scan tries each position in turn and resumes after each match's colon.
  - `ExtractClassNames` is the `while` loop that collects the keys.
- `Names`:
  - `filterNonCamelCaseNames`.
  - The 49-entry ReasonML keyword table.
  - `filterKeywords`, as the loop that pushes each name onto one of two lists.
- `Stub`:
  - `makeCssModuleType`.
  - A reader, `ParseStub`, that recovers the names from a generated stub. The two are inverse on camel-case names.
- `Paths`:
  - POSIX `path.parse`, as Node's backward scan computes it.
  - `pathAndFilename` and `finalDestDir`.
  - The `path.join` that names the written file.
- `Store`:
  - `saveFileIfChanged`, as a method of a class `FileStore`.
  - The class holds the files as a map from path to content, the directories made sure of, and a write counter.
- `Loader`: the callback.
  - `Respond` is the pure specification of one run.
  - `OnCssLoaderResult` is the step-by-step method that calls the operations above and is proved against `Respond`.
  - `RespondAsWritten` is the callback as the code reads today; see "Findings".

The keyword table has 49 entries (src/index.js:113-161).

## Model

| member | source | states |
|---|---|---|
| Extract.FindLocals | src/index.js:31-32 | the match found is the leftmost `exports.locals = {`, paired with the last `};` at or after its end, and no other pairing beats it; no result means no pairing exists at all |
| Extract.LocalsContent | src/index.js:30-40 | the captured block is the text between the braces of the leftmost-longest match: the first `exports.locals = {`, paired with the last `};` after it, so that every other match starts later or, starting at the same place, ends no later; the block is missing exactly when the regex cannot match |
| Loader.LocalsOfBlock | src/index.js:31-35 | for a whole text `exports.locals = {` + body + `};`, the capture is exactly the body, whatever the body holds |
| Extract.KeyCharRun | src/index.js:43 | the count of characters from a position on that are neither `"` nor `\`, stopping at the first one that is or at the end: exactly the run the greedy `[^\\"]+` consumes |
| Extract.MatchKeyAt | src/index.js:43 | `"([^\\"]+)":` matches at a position with at most one key length, and the reported key is the greedy run of characters other than `"` and `\`, followed by `":` |
| Extract.KeyPatternIsGreedyRun | src/index.js:43 | any key length that matches equals the greedy run, so backtracking cannot produce a second match at the same position |
| Extract.NextKey | src/index.js:43-48 | `exec` from `lastIndex` reports the first position at or after it where the pattern matches, and no earlier one |
| Extract.AllKeys | src/index.js:43-48 | the definition of the repeated `exec` calls of the global regex: the key of each match, each call resuming from the end of the previous match, until a call finds none; `Extract.AllKeysStep`, `Extract.AllKeysSound` and `Extract.AllKeysAreKeys` characterise it |
| Extract.AllKeysStep | src/index.js:47 | one turn of the `while` condition: the keys are the first match's key followed by the keys found from that match's end |
| Extract.AllKeysSound | src/index.js:43-48 | every key the repeated `exec` calls report is captured by a match of the key pattern in the block |
| Extract.AllKeysAreKeys | src/index.js:43-48 | every reported key is non-empty and holds no `"` and no `\` |
| Extract.ClassNames | src/index.js:44-51 | the definition of the collected class names: the scanned keys, each kept at its first occurrence; `Extract.ClassNamesWellFormed` and `Seqs.FirstOccurrencesOrder` characterise it, and `Extract.ExtractClassNames` proves the loop computes it |
| Extract.ClassNamesWellFormed | src/index.js:43-51 | the collected class names have no repeats and are exactly the keys scanned, each a well-formed key |
| Extract.ExtractClassNames | src/index.js:43-51 | the `while` loop with the `indexOf` check returns the scanned keys in first-seen order without repeats, and only well-formed keys |
| Loader.LeadingKeyIsClassName | src/index.js:43-51 | a block that starts with `"k":` for a well-formed key `k` yields `k` among its keys |
| Seqs.IndexOf | src/index.js:48 | `indexOf` gives the first index holding the value, or -1 exactly when it is absent |
| Seqs.FirstOccurrencesNoDup | src/index.js:47-51 | the de-duplicated list has no repeats |
| Seqs.FirstOccurrencesElements | src/index.js:47-51 | the de-duplicated list holds exactly the scanned values |
| Seqs.FirstOccurrencesOrder | src/index.js:47-51 | two names appear in the de-duplicated list in the order of their first occurrence in the scan |
| Seqs.Filter | src/index.js:109 | `filter` keeps only elements that pass the test and keeps every element that does |
| Seqs.FilterIsSubseq | src/index.js:109 | the filter result is an order-preserving subsequence of its input |
| Seqs.FilterMultiset | src/index.js:109 | the filter keeps each passing element exactly as often as the input holds it, and no other element |
| Seqs.FilterPartition | src/index.js:164-180 | two filters with complementary tests split the input: lengths add up and the multisets add up to the input's |
| Names.IsCamelCaseName | src/index.js:109 | the definition of the test `/^[A-Za-z0-9]+$/i`: one or more ASCII letters or digits (the `i` flag changes nothing, as the class already holds both cases); `Names.TestNameVerdicts` pins it on the test's names |
| Names.TestNameVerdicts | test/index.test.js:23-40 | `red`, `blue`, `isRead` and `titleBox` pass the camel-case test; `is-read`, `is_read` and `title-box` fail it |
| Names.FilterNonCamelCaseNames | src/index.js:108-110 | the result is the order-preserving subsequence of names made only of `[A-Za-z0-9]` (one or more): each such name is kept as often as it occurs, and nothing else is kept |
| Names.FilterNonCamelCaseNamesExample | test/index.test.js:23-40 | `['red','blue','is-read','is_read','isRead','title-box','titleBox']` gives `['red','blue','isRead','titleBox']` |
| Names.IsKeyword | src/index.js:169 | the definition of `keywords.includes(name)`: exact membership in the 49-entry table; `Names.KeywordMatchIsCaseSensitive` and `Names.AndLetAreKeywords` pin it on concrete names |
| Names.FilterKeywords | src/index.js:164-180 | the `forEach` loop puts every table entry in `keywordNames` and every other name in `validNames`; each list is an order-preserving subsequence of the input, the lengths add up to the input's, and the multisets add up to the input's |
| Names.KeywordSplit | src/index.js:164-180 | the keyword and non-keyword filters partition any list of names, and each side lies entirely inside or entirely outside the table |
| Names.AndLetAreKeywords | src/index.js:113-161 | `and` and `let` are entries of the keyword table |
| Names.KeywordMatchIsCaseSensitive | src/index.js:169 | `includes` matches exactly: `Let` and `AND` are not keywords, `let` is |
| Names.FilterKeywordsExample | test/index.test.js:42-62 | `['red','and','forYou','includeNext','let']` splits into valid `['red','forYou','includeNext']` and keywords `['and','let']` |
| Text.TrimStart | src/index.js:187 | what is left is a suffix of the input, every character removed is ECMAScript whitespace or a line terminator, and what is left does not start with one |
| Text.TrimEnd | src/index.js:187 | what is left is a prefix of the input, every character removed is whitespace or a line terminator, and what is left does not end with one |
| Text.Trim | src/index.js:187 | the definition of `trim()`: leading, then trailing whitespace removed; `Text.TrimResult` characterises it |
| Text.TrimResult | src/index.js:187 | `trim()` leaves a slice of the input with only whitespace before and after it, which neither starts nor ends with whitespace; this determines the result |
| Text.Join | src/index.js:185 | the definition of `join(sep)`: empty for no parts, the part itself for one, otherwise the parts with `sep` between each two; `Stub.JoinConcat` and `Stub.SplitJoinLines` characterise it |
| Stub.JoinConcat | src/index.js:185 | joining two non-empty lists joins each and puts one separator between them |
| Stub.SplitJoinLines | src/index.js:182-188 | splitting newline-joined lines at newlines gives back the lines, when none of them holds a newline |
| Stub.JoinSplitLines | src/index.js:182-188 | joining the newline-split lines of a text with newlines gives back the text |
| Stub.FieldLines | src/index.js:185 | one line per name, in order, the i-th being `    <name i>: string,` |
| Stub.TrimTemplate | src/index.js:183-187 | `trim()` removes exactly the template's leading newline and trailing indentation, for any names |
| Stub.MakeCssModuleType | src/index.js:182-188 | the stub is `type definition = Js.t({.` + newline + the field lines joined by newlines + newline + `})` |
| Stub.ParseStub | src/index.js:182-188 | any text the reader accepts is exactly the stub of the names it returns, and those names are camel case |
| Stub.ParseStubRoundTrip | src/index.js:182-188 | reading back the stub of camel-case names gives the same names, in order, with none dropped or duplicated |
| Stub.StubLines | src/index.js:182-188 | the stub's lines are the header, one field line per name (one empty line when there are none) and `})` |
| Stub.MakeCssModuleTypeExample | test/index.test.js:64-78 | for `['red','forYou','includeNext']` the stub is exactly `type definition = Js.t({.\n    red: string,\n    forYou: string,\n    includeNext: string,\n})` |
| Stub.MakeCssModuleTypeExampleLines | test/index.test.js:64-78 | for the same names the stub's lines are the header, the three field lines and `})` |
| Stub.MakeCssModuleTypeEmpty | src/index.js:182-188 | with no names the stub is exactly `type definition = Js.t({.\n\n})` |
| Stub.MakeCssModuleTypeEmptyLines | src/index.js:182-188 | with no names the stub's lines are the header, an empty line, and `})` |
| Paths.LastSlash | src/index.js:100 | the index of the last `/` of the path: that character is a slash and none after it is; -1 exactly when the path holds no slash |
| Paths.ScanPath | src/index.js:100 | the backward scan of `path.parse`: the last component lies between `baseStart` and `end`, holds no slash, and follows a slash whenever `startPart` is positive |
| Paths.ScanWithoutTrailingSlash | src/index.js:100 | for a path that does not end in a slash, the scan's last component starts right after the last slash and runs to the end |
| Paths.SplitExt | src/index.js:100 | name and extension put together give the last component; the extension is empty or a dot followed by no further dot |
| Paths.ParsePath | src/index.js:100 | `path.parse` splits the last component into name and extension, where the extension is empty or one dot with no further dot; the component holds no slash; the root is `/` exactly for absolute paths |
| Paths.ParsePathWithoutTrailingSlash | src/index.js:100 | for a path that does not end in a slash, the last component is everything after the last slash; the directory is everything before that slash, `/` when that slash is the leading one, and empty when there is no slash; name and extension are the split of that component |
| Paths.ParseDirBase | src/index.js:100 | for `dir/base`, with a non-empty `dir` and a slash-free `base`, the directory is `dir` and the last component is `base` |
| Paths.SplitStemExt | src/index.js:100 | a stem followed by an extension splits back into the two |
| Paths.StripModuleSuffix | src/index.js:101 | one trailing `.module` is removed when present, and otherwise the name is kept |
| Paths.PathAndFilename | src/index.js:99-106 | the file name always ends in `Styles.re`; for a path that does not end in a slash, the directory is everything before the last slash (`/` for a file at the root, empty for a bare file name), and the file name is the last component without its extension and without one trailing `.module`, followed by `Styles.re` |
| Paths.PathAndFilenameOfStem | src/index.js:99-106 | `dir/stem.ext` gives the directory `dir` and the file `stemStyles.re`, less a trailing `.module` of the stem |
| Paths.PathAndFilenameIgnoresModuleInfix | src/index.js:99-106 | `dir/stem.ext` and `dir/stem.module.ext` both give `(dir, stemStyles.re)` |
| Paths.PathAndFilenameExamples | test/index.test.js:9-21 | `/app/File.css` and `/app/File.module.css` both give `("/app", "FileStyles.re")` |
| Paths.FinalDestDir | src/index.js:190-198 | `"current"` gives the stylesheet's directory, any other non-empty value is used verbatim, and an unset or empty option gives `./src/styles`; the result is empty only when `"current"` meets an empty directory |
| Paths.FinalDestDirExamples | test/index.test.js:80-98 | `"/app/"` is kept, an unset option gives `./src/styles`, and `"current"` gives the directory passed in |
| Paths.JoinPath | src/index.js:203 | an empty directory gives the file name alone; otherwise the joined path starts with the directory and ends with the file name, and the character right after a directory that does not end in `/` is a `/`, with nothing else between them |
| Paths.JoinPathBase | src/index.js:203 | the last component of the joined path is the file name that was joined |
| Store.NeedsWrite | src/index.js:204-212 | the definition of the write test: the file does not exist, or its content is not the stub; `Store.AfterSave` and `Store.FileStore.SaveFileIfChanged` show that a write happens exactly then |
| Store.AfterSave | src/index.js:200-213 | after a save, the path holds the new content and no other path changes; when no write is needed, the files are as before |
| Store.SaveIsIdempotent | src/index.js:200-213 | a second save of the same content finds nothing to write and changes nothing |
| Store.SavesCompose | src/index.js:200-213 | of two saves to the same path the later wins; saves to different paths commute |
| Store.FileStore.SaveFileIfChanged | src/index.js:200-213 | the directory is recorded; the file at `destDir/filename` then holds the stub, and nothing else changes; the write counter goes up by one exactly when the file was absent or held different content |
| Loader.ValidClassNames | src/index.js:53-54 | the stub's names are the scanned keys that are camel case and not keywords, each once, in first-seen order |
| Loader.KeywordClassNames | src/index.js:53-54 | the names split off as keywords are the scanned keys that are camel case and in the table |
| Loader.SaveFor | src/index.js:64-72 | the saved stub reads back as the valid class names; the file name and directory are those of `pathAndFilename` and `finalDestDir` |
| Loader.Respond | src/index.js:25-76 | an error is passed on and nothing is saved; without a locals block the content is passed on and nothing is saved; otherwise the stub of the valid class names is saved and the content is passed on unchanged |
| Loader.RespondAsWritten | src/index.js:25-76 | as written, the callback throws exactly when there is no error, a locals block exists and a class name is a keyword, and then it saves nothing; otherwise it behaves as `Respond` |
| Loader.OnCssLoaderResult | src/index.js:25-76 | the callback, run step by step through the extraction loop, the filters, the stub, the path helpers and `saveFileIfChanged`, replies as `Respond` says; it leaves the store untouched when `Respond` saves nothing, and otherwise saves exactly `Respond`'s stub |
| Loader.StubFieldsAreValidClassNames | src/index.js:30-72 | a name is a field of the saved stub exactly when it is a key of the locals block, camel case and not a keyword |
| Loader.KeywordClassThrowsAsWritten | src/index.js:56-68 | for a locals block starting with a keyword class name, the as-written callback throws and saves nothing, while `Respond` saves the stub and passes the content on |
| Loader.LetClassThrowsAsWritten | src/index.js:56-68 | the same for a stylesheet with the class `.let` |

## Left out

- Webpack and css-loader plumbing (src/index.js:6-24, 78-88) is not modelled: `this.cacheable`, `getOptions`, the copying of options and `delete query.destDir`, `this.async`, and `callCssLoader`. css-loader appears only as the callback's input: an optional error message and the generated module text.
- `makeLogger` (src/index.js:90-97) returns a factory: `log` takes an argument and returns a logging function without calling it, so `log(...)` prints nothing. The log block (src/index.js:56-62) therefore has no effect of its own. Its only effect is the exception under "Findings". `Respond` treats the block as having no effect.
- File-system effects are abstract. The model does not cover:
  - failures of `ensureDirSync`, `existsSync`, `readFileSync` or `writeFileSync`;
  - permissions;
  - byte encodings.

  Directories are recorded as a set of names, and a file path is not checked to lie in an existing directory.
- Paths.JoinPath does not model `path.join`'s normalisation. It keeps `.` and `..` segments and repeated slashes, and a default directory of `./src/styles` stays as written. The store is keyed by the joined string as it is.
- Paths.ParsePath covers POSIX `/`-separated paths only. It does not cover Windows separators or drive roots.
- Paths.FinalDestDir takes the `destDir` option as an optional string. It does not model other option values (numbers, objects, `null`) or the coercions of the loose `==` comparison.
- Regular expressions are modelled only for the two patterns the callback uses. There is no general regex engine.
- `lib/index.js` is the compiled copy of `src/index.js`. The model follows `src/index.js`.
- Concurrent builds that write to the same destination are not modelled.
- Strings are sequences of characters. UTF-16 surrogate pairs are not told apart from other characters, which matches how the two regexes and `trim` treat code units.

## Findings

| source | as written | input that shows it | evidently intended | confidence | as-written member | corrected member |
|---|---|---|---|---|---|---|
| src/index.js:56-68 | when a class name is a ReasonML keyword, the log block calls `path.basename(filepath)` before the `const filepath` declaration at line 68 has run, which throws; the callback throws before it saves the stub or calls webpack's callback (what css-loader then does with the exception is not modelled) | css-loader output `exports.locals = {"let":"x"};`, for a stylesheet with a class `.let` | leave the keywords out of the stub, save the stub of the remaining names, and pass the content on | not executed | Loader.RespondAsWritten, Loader.LetClassThrowsAsWritten | Loader.Respond, Loader.OnCssLoaderResult |

/**
 * The path handling of the loader: `pathAndFilename` (built on POSIX
 * `path.parse`), `finalDestDir`, and the `path.join` that names the file
 * written.
 */
module Paths {
  import opened Text

  /**
   * The last index in `[lo, hi)` whose character is `c` (when `equal`) or is
   * not `c` (when `!equal`), or -1: the backwards scans of `path.parse`.
   */
  function LastMatch(s: string, lo: nat, hi: nat, c: char, equal: bool): (r: int)
    requires lo <= hi <= |s|
    ensures r == -1 || lo <= r < hi
    ensures r >= 0 ==> (s[r] == c) == equal
    ensures forall k :: (if r < 0 then lo else r + 1) <= k < hi ==> (s[k] == c) != equal
    decreases hi - lo
  {
    if lo == hi then -1
    else if (s[hi - 1] == c) == equal then hi - 1
    else LastMatch(s, lo, hi - 1, c, equal)
  }

  /** The fields of the object `path.parse` returns. */
  datatype ParsedPath = ParsedPath(root: string, dir: string, base: string, ext: string, name: string)

  /**
   * Where the last path component (trailing slashes ignored) starts and ends.
   * `startPart` is just after the slash before it, or 0 when the scan, which
   * stops short of a leading root slash, finds none; `baseStart` skips that root.
   */
  datatype Scan = Scan(startPart: nat, baseStart: nat, end: nat)

  /** The scan `path.parse` performs; None when nothing but slashes follows the root. */
  function ScanPath(p: string): (r: Option<Scan>)
    requires p != ""
    ensures r.Some? ==> && r.value.baseStart <= r.value.end <= |p|
                        && r.value.startPart <= r.value.baseStart
                        && (r.value.startPart > 0 ==> p[r.value.startPart - 1] == '/')
                        && '/' !in p[r.value.baseStart..r.value.end]
  {
    var start := if p[0] == '/' then 1 else 0;
    var lastNonSlash := LastMatch(p, start, |p|, '/', false);
    if lastNonSlash < 0 then None
    else
      var end := lastNonSlash + 1;
      var slash := LastMatch(p, start, end, '/', true);
      var startPart := if slash < 0 then 0 else slash + 1;
      var baseStart := if startPart == 0 && p[0] == '/' then 1 else startPart;
      assert '/' !in p[baseStart..end] by {
        forall k | baseStart <= k < end ensures p[k] != '/' {}
        forall k | 0 <= k < end - baseStart ensures p[baseStart..end][k] != '/' {
          assert p[baseStart..end][k] == p[baseStart + k];
        }
      }
      Some(Scan(startPart, baseStart, end))
  }

  /**
   * The split of a last component at its last dot into name and extension. A
   * dot that starts the component gives no extension, and neither does the
   * component `..` after a slash; right after the root (`/..`) the scan
   * compares against the root's position and splits it as `.` and `.`.
   */
  function SplitExt(base: string, afterRoot: bool): (r: (string, string))
    ensures r.0 + r.1 == base
    ensures r.1 == "" || (r.1[0] == '.' && '.' !in r.1[1..])
  {
    var dot := LastMatch(base, 0, |base|, '.', true);
    if dot <= 0 || (base == ".." && !afterRoot) then (base, "")
    else
      var name, ext := base[..dot], base[dot..];
      assert base == name + ext;
      assert '.' !in ext[1..] by {
        forall k | 1 <= k < |ext| ensures ext[k] != '.' {
          assert ext[k] == base[dot + k];
        }
      }
      (name, ext)
  }

  /** The index of the last slash of `p`, or -1. */
  function LastSlash(p: string): (k: int)
    ensures -1 <= k < |p|
    ensures k >= 0 ==> p[k] == '/'
    ensures forall i :: k < i < |p| ==> p[i] != '/'
  {
    LastMatch(p, 0, |p|, '/', true)
  }

  /** The directory `path.parse` reports for a path whose last slash is at `k`. */
  function DirBefore(p: string, k: int): string
    requires k < |p|
  {
    if k < 0 then "" else if k == 0 then "/" else p[..k]
  }

  /**
   * For a path that does not end in a slash, the scan's last component starts
   * right after the last slash, and it follows a slash of its own unless that
   * slash is the root (or there is none).
   */
  lemma ScanWithoutTrailingSlash(p: string)
    requires p != "" && p[|p| - 1] != '/'
    ensures ScanPath(p) == Some(Scan(if LastSlash(p) <= 0 then 0 else LastSlash(p) + 1, LastSlash(p) + 1, |p|))
  {
    var k := LastSlash(p);
    var start := if p[0] == '/' then 1 else 0;
    assert LastMatch(p, start, |p|, '/', false) == |p| - 1;
    var slash := LastMatch(p, start, |p|, '/', true);
    if k >= start {
      assert slash == k;
    } else {
      assert slash == -1;
    }
  }

  /**
   * POSIX `path.parse`: the root, the directory (everything before the slash
   * that precedes the last component), the last component, and its split into
   * name and extension.
   */
  function ParsePath(p: string): (r: ParsedPath)
    ensures r.base == r.name + r.ext
    ensures r.ext == "" || (r.ext[0] == '.' && '.' !in r.ext[1..])
    ensures '/' !in r.base
    ensures r.root == (if p != "" && p[0] == '/' then "/" else "")
  {
    if p == "" then ParsedPath("", "", "", "", "")
    else
      var root := if p[0] == '/' then "/" else "";
      match ScanPath(p)
      case None => ParsedPath(root, root, "", "", "")
      case Some(Scan(startPart, baseStart, end)) =>
        var dir := if startPart > 0 then p[..startPart - 1] else root;
        var base := p[baseStart..end];
        var split := SplitExt(base, baseStart != startPart);
        ParsedPath(root, dir, base, split.1, split.0)
  }

  /**
   * For a path that does not end in a slash, `path.parse` takes as the last
   * component everything after the last slash, and as the directory everything
   * before that slash (`/` when that slash is the root, empty when there is
   * none); the extension is looked for in the last component.
   */
  lemma ParsePathWithoutTrailingSlash(p: string)
    requires p != "" && p[|p| - 1] != '/'
    ensures ParsePath(p).base == p[LastSlash(p) + 1..]
    ensures ParsePath(p).dir == DirBefore(p, LastSlash(p))
    ensures (ParsePath(p).name, ParsePath(p).ext) == SplitExt(p[LastSlash(p) + 1..], LastSlash(p) == 0)
  {
    var k := LastSlash(p);
    ScanWithoutTrailingSlash(p);
    if k < 0 {
      assert p[0] != '/';
    }
  }

  /** The scan of `dir/base` finds `base` right after the slash that follows `dir`. */
  lemma ScanDirBase(dir: string, base: string)
    requires dir != "" && base != "" && '/' !in base
    ensures ScanPath(dir + "/" + base) == Some(Scan(|dir| + 1, |dir| + 1, |dir| + 1 + |base|))
  {
    var p := dir + "/" + base;
    var n := |dir|;
    assert p[n] == '/';
    assert p[0] == dir[0];
    forall k | n + 1 <= k < |p| ensures p[k] != '/' {
      assert p[k] == base[k - n - 1];
    }
  }

  /** How `path.parse` splits `dir/base`, for a last component without slashes. */
  lemma ParseDirBase(dir: string, base: string)
    requires dir != "" && base != "" && '/' !in base
    ensures ParsePath(dir + "/" + base).dir == dir
    ensures ParsePath(dir + "/" + base).base == base
    ensures (ParsePath(dir + "/" + base).name, ParsePath(dir + "/" + base).ext) == SplitExt(base, false)
  {
    var p := dir + "/" + base;
    ScanDirBase(dir, base);
    SliceParts(dir, "/", base);
  }

  /** `stem` plus an extension splits back into the two. */
  lemma SplitStemExt(stem: string, ext: string)
    requires stem != "" && stem[0] != '.' && IsExtension(ext) && (ext == "" ==> '.' !in stem)
    ensures SplitExt(stem + ext, false) == (stem, ext)
  {
    var base := stem + ext;
    var dot := LastMatch(base, 0, |base|, '.', true);
    assert base[0] == stem[0];
    if ext == "" {
      assert base == stem;
      assert dot < 0;
    } else {
      assert base[|stem|] == '.';
      forall k | |stem| < k < |base| ensures base[k] != '.' {
        assert base[k] == ext[1..][k - |stem| - 1];
      }
      assert dot == |stem|;
      assert base[..dot] == stem && base[dot..] == ext;
    }
  }

  /** `name.replace(/\.module$/, "")`: drops one trailing `.module`. */
  function StripModuleSuffix(name: string): (r: string)
    ensures EndsWith(name, ".module") ==> name == r + ".module"
    ensures !EndsWith(name, ".module") ==> r == name
  {
    if EndsWith(name, ".module") then
      var r := name[..|name| - 7];
      assert name == r + name[|name| - 7..];
      r
    else name
  }

  datatype PathAndName = PathAndName(currentDir: string, destFilename: string)

  /**
   * `pathAndFilename`: the directory of the stylesheet, and the name of the
   * ReasonML file for it, `<name>Styles.re`, where a `.module` ending of the
   * name is dropped. The first and third clauses are the link to `ParsePath`
   * that the lemmas about `dir/stem.ext` paths build on; the last one states
   * the result in terms of the path itself.
   */
  function PathAndFilename(filepath: string): (r: PathAndName)
    ensures r.currentDir == ParsePath(filepath).dir
    ensures EndsWith(r.destFilename, "Styles.re")
    ensures StripModuleSuffix(ParsePath(filepath).name) + "Styles.re" == r.destFilename
    ensures filepath != "" && filepath[|filepath| - 1] != '/' ==>
              && r.currentDir == DirBefore(filepath, LastSlash(filepath))
              && r.destFilename
                 == StripModuleSuffix(SplitExt(filepath[LastSlash(filepath) + 1..], LastSlash(filepath) == 0).0) + "Styles.re"
  {
    var parsed := ParsePath(filepath);
    var destFilename := StripModuleSuffix(parsed.name) + "Styles.re";
    assert destFilename[|destFilename| - 9..] == "Styles.re";
    if filepath != "" && filepath[|filepath| - 1] != '/' then
      ParsePathWithoutTrailingSlash(filepath);
      PathAndName(parsed.dir, destFilename)
    else
      PathAndName(parsed.dir, destFilename)
  }

  /** A file name stem: non-empty, and without dots or slashes. */
  predicate IsStem(s: string) {
    s != [] && '.' !in s && '/' !in s
  }

  /** An extension: empty, or a dot followed by no dots or slashes. */
  predicate IsExtension(e: string) {
    e == [] || (e[0] == '.' && '.' !in e[1..] && '/' !in e)
  }

  /** `stem + ".module"` is a slash-free component that starts like `stem` and ends in `.module`. */
  lemma ModuleStem(stem: string)
    requires IsStem(stem)
    ensures '/' !in stem + ".module" && (stem + ".module")[0] == stem[0]
    ensures EndsWith(stem + ".module", ".module") && !EndsWith(stem, ".module")
    ensures StripModuleSuffix(stem + ".module") == stem
  {
    var m := stem + ".module";
    forall k | 0 <= k < |m| ensures m[k] != '/' {
      if k >= |stem| {
        assert m[k] == ".module"[k - |stem|];
      }
    }
    assert m[|m| - 7..] == ".module";
    if |stem| >= 7 {
      assert stem[|stem| - 7..][0] == stem[|stem| - 7] != '.';
    }
    assert m[..|m| - 7] == stem;
  }

  /** `stem + ext` is a slash-free component when both parts are. */
  lemma StemExtHasNoSlash(stem: string, ext: string)
    requires '/' !in stem && IsExtension(ext)
    ensures '/' !in stem + ext
  {
    forall k | 0 <= k < |stem + ext| ensures (stem + ext)[k] != '/' {
      if k >= |stem| {
        assert (stem + ext)[k] == ext[k - |stem|];
      }
    }
  }

  /** The directory and ReasonML file name of `dir/stem.ext`. */
  lemma PathAndFilenameOfStem(dir: string, stem: string, ext: string)
    requires dir != "" && stem != "" && stem[0] != '.' && '/' !in stem
    requires IsExtension(ext) && (ext == "" ==> '.' !in stem)
    ensures PathAndFilename(dir + "/" + (stem + ext)) == PathAndName(dir, StripModuleSuffix(stem) + "Styles.re")
  {
    StemExtHasNoSlash(stem, ext);
    ParseDirBase(dir, stem + ext);
    SplitStemExt(stem, ext);
  }

  /**
   * The stylesheet `dir/stem.ext` and the CSS module `dir/stem.module.ext` get
   * the same directory and the same ReasonML file, `stemStyles.re`.
   */
  lemma PathAndFilenameIgnoresModuleInfix(dir: string, stem: string, ext: string)
    requires dir != "" && IsStem(stem) && IsExtension(ext) && ext != ""
    ensures PathAndFilename(dir + "/" + stem + ext) == PathAndName(dir, stem + "Styles.re")
    ensures PathAndFilename(dir + "/" + stem + ".module" + ext) == PathAndName(dir, stem + "Styles.re")
  {
    var m := stem + ".module";
    ModuleStem(stem);
    PathAndFilenameOfStem(dir, stem, ext);
    PathAndFilenameOfStem(dir, m, ext);
    AppendAssoc(dir + "/", stem, ext);
    AppendAssoc(dir + "/", m, ext);
    AppendAssoc(dir + "/", stem, ".module");
  }

  // Proof helper for `PathAndFilenameExamples`: the test paths assembled from
  // their directory, stem and extension, so the example reasons about the parts
  // rather than about the literals.
  lemma TestPathParts(dir: string, stem: string, ext: string, plain: string, module_: string)
    requires dir == "/app" && stem == "File" && ext == ".css"
    requires plain == "/app/File.css" && module_ == "/app/File.module.css"
    ensures dir + "/" + stem + ext == plain
    ensures dir + "/" + stem + ".module" + ext == module_
    ensures IsStem(stem) && IsExtension(ext)
    ensures stem + "Styles.re" == "FileStyles.re"
  {
    var slashStem := dir + "/" + stem;
    assert slashStem == "/app/File";
    assert slashStem + ".module" == "/app/File.module";
  }

  /** The examples the loader's tests pin for `pathAndFilename`. */
  lemma PathAndFilenameExamples(plain: string, module_: string)
    requires plain == "/app/File.css" && module_ == "/app/File.module.css"
    ensures PathAndFilename(plain) == PathAndName("/app", "FileStyles.re")
    ensures PathAndFilename(module_) == PathAndName("/app", "FileStyles.re")
  {
    var dir, stem, ext := "/app", "File", ".css";
    TestPathParts(dir, stem, ext, plain, module_);
    PathAndFilenameIgnoresModuleInfix(dir, stem, ext);
  }

  /** The default output directory. */
  const DefaultDestDir: string := "./src/styles"

  /**
   * `finalDestDir`: the `destDir` option (`None` when it is not set). The value
   * `"current"` means the stylesheet's own directory; any other non-empty value
   * is used as given; an unset or empty option means `./src/styles`.
   */
  function FinalDestDir(queryDestDir: Option<string>, currentDir: string): (r: string)
    ensures queryDestDir == Some("current") ==> r == currentDir
    ensures queryDestDir.Some? && queryDestDir.value != "current" && queryDestDir.value != "" ==> r == queryDestDir.value
    ensures queryDestDir.None? || queryDestDir == Some("") ==> r == DefaultDestDir
    ensures r == "" ==> queryDestDir == Some("current") && currentDir == ""
  {
    match queryDestDir
    case Some(d) =>
      if d == "current" then currentDir
      else if d != "" then d
      else DefaultDestDir
    case None => DefaultDestDir
  }

  /** The examples the loader's tests pin for `finalDestDir`. */
  lemma FinalDestDirExamples()
    ensures FinalDestDir(Some("/app/"), "/src/") == "/app/"
    ensures FinalDestDir(None, "/src/") == "./src/styles"
    ensures FinalDestDir(Some("current"), "/src/") == "/src/"
  {
  }

  /**
   * `path.join(dir, file)` for a file name without slashes: the two joined by
   * one separator (none is added after a directory that already ends in one).
   */
  function JoinPath(dir: string, file: string): (r: string)
    ensures dir == "" ==> r == file
    ensures dir != "" ==> |r| == |dir| + |file| + (if dir[|dir| - 1] == '/' then 0 else 1)
    ensures dir != "" ==> r[..|dir|] == dir && r[|r| - |file|..] == file
    ensures dir != "" && dir[|dir| - 1] != '/' ==> r[|dir|] == '/'
  {
    if dir == "" then file
    else if dir[|dir| - 1] == '/' then dir + file
    else dir + "/" + file
  }

  /** The last component of a joined path is the file that was joined. */
  lemma JoinPathBase(dir: string, file: string)
    requires file != "" && '/' !in file
    ensures ParsePath(JoinPath(dir, file)).base == file
  {
    var p := JoinPath(dir, file);
    var f := |p| - |file|;
    assert p[f..] == file;
    forall k | f <= k < |p| ensures p[k] != '/' {
      assert p[k] == file[k - f];
    }
    assert p[|p| - 1] != '/';
    if dir != "" {
      assert p[f - 1] == '/';
    }
    var scan := ScanPath(p).value;
    assert scan.end == |p|;
    assert scan.baseStart == f;
    assert p[f..|p|] == file;
  }
}

/**
 * `saveFileIfChanged` over an abstract file system: the files as a map from
 * path to content, the directories made sure of, and a count of the writes
 * performed. A write happens only when the file is missing or its content
 * differs, so a build that produces the same stub again does not touch it.
 */
module Store {
  import opened Paths

  /** The file must be written: it does not exist, or its current content differs. */
  predicate NeedsWrite(files: map<string, string>, filePath: string, content: string) {
    filePath !in files || files[filePath] != content
  }

  /** The files after saving `content` at `filePath`, written or not. */
  function AfterSave(files: map<string, string>, filePath: string, content: string): (r: map<string, string>)
    ensures filePath in r && r[filePath] == content
    ensures forall p :: p != filePath ==> (p in r <==> p in files) && (p in files ==> r[p] == files[p])
    ensures !NeedsWrite(files, filePath, content) ==> r == files
  {
    files[filePath := content]
  }

  /** Saving the same content twice: the second save writes nothing and changes nothing. */
  lemma SaveIsIdempotent(files: map<string, string>, filePath: string, content: string)
    ensures !NeedsWrite(AfterSave(files, filePath, content), filePath, content)
    ensures AfterSave(AfterSave(files, filePath, content), filePath, content) == AfterSave(files, filePath, content)
  {
    var once := AfterSave(files, filePath, content);
    assert once[filePath] == content;
  }

  /** A later save of the same file wins; saves of different files commute. */
  lemma SavesCompose(files: map<string, string>, p: string, a: string, q: string, b: string)
    ensures p == q ==> AfterSave(AfterSave(files, p, a), q, b) == AfterSave(files, q, b)
    ensures p != q ==> AfterSave(AfterSave(files, p, a), q, b) == AfterSave(AfterSave(files, q, b), p, a)
  {
    var ab, ba := AfterSave(AfterSave(files, p, a), q, b), AfterSave(AfterSave(files, q, b), p, a);
    if p != q {
      assert forall k :: k in ab <==> k in ba;
      assert forall k | k in ab :: ab[k] == ba[k];
    } else {
      assert forall k :: k in ab <==> k in AfterSave(files, q, b);
    }
  }

  /** The file system the loader writes its stubs to. */
  class FileStore {
    /** Every file, by path. */
    var files: map<string, string>
    /** The directories `ensureDirSync` was called for. */
    var dirs: set<string>
    /** How many times a file was written. */
    var writes: nat

    constructor (initial: map<string, string>)
      ensures files == initial && dirs == {} && writes == 0
    {
      files := initial;
      dirs := {};
      writes := 0;
    }

    /**
     * `saveFileIfChanged`: makes sure of `destDir`, then writes `reasonType` to
     * `destDir/filename` unless the file already holds exactly that.
     */
    method SaveFileIfChanged(destDir: string, filename: string, reasonType: string)
      modifies this
      ensures dirs == old(dirs) + {destDir}
      ensures files == AfterSave(old(files), JoinPath(destDir, filename), reasonType)
      ensures writes == old(writes) + if NeedsWrite(old(files), JoinPath(destDir, filename), reasonType) then 1 else 0
    {
      dirs := dirs + {destDir};
      var filePath := JoinPath(destDir, filename);
      if filePath in files {
        var currentContent := files[filePath];
        if currentContent != reasonType {
          files := files[filePath := reasonType];
          writes := writes + 1;
        }
      } else {
        files := files[filePath := reasonType];
        writes := writes + 1;
      }
    }
  }
}

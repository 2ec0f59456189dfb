/**
 * The local disk as the bot sees it through `os.path.exists` and `os.remove`:
 * the set of paths that exist, and the paths whose removal raises an `OSError`
 * (permission denied, a busy file), each with the text of that error.
 */
module FileStore {
  import opened Wrappers
  import opened Strings

  class FileSystem {
    /** The paths that currently exist. */
    var files: set<string>
    /** Paths whose `os.remove` raises, mapped to the error's text. */
    const failures: map<string, string>

    /** `os.path.exists("")` is False: the empty path never names a file. */
    ghost predicate Valid()
      reads this
    {
      "" !in files
    }

    constructor (files: set<string>, failures: map<string, string>)
      requires "" !in files
      ensures Valid()
      ensures this.files == files && this.failures == failures
    {
      this.files := files;
      this.failures := failures;
    }

    /** `os.path.exists(path)`. */
    method Exists(path: string) returns (b: bool)
      ensures b <==> path in files
    {
      b := path in files;
    }

    /**
     * `os.remove(path)` on an existing path: `None` when the file is gone,
     * otherwise the text of the error it raised, with the file left in place.
     */
    method Remove(path: string) returns (error: Option<string>)
      requires Valid()
      requires path in files
      modifies this
      ensures Valid()
      ensures error == if path in failures then Some(failures[path]) else None
      ensures files == if path in failures then old(files) else old(files) - {path}
    {
      if path in failures {
        error := Some(failures[path]);
      } else {
        files := files - {path};
        error := None;
      }
    }

    /** The extractor writing its output files. */
    method Write(paths: set<string>)
      requires Valid()
      requires "" !in paths
      modifies this
      ensures Valid()
      ensures files == old(files) + paths
    {
      files := files + paths;
    }
  }

  /** The text CPython gives a `FileNotFoundError` raised by `open(path)`: the path is shown by `repr`. */
  function NoSuchFileMessage(path: string): string {
    "[Errno 2] No such file or directory: " + Repr(path)
  }

  /**
   * A name with an apostrophe and no double quote, such as `Don't Stop.mp4`, is
   * shown between double quotes; a name of plain characters without an
   * apostrophe is shown between single quotes.
   */
  lemma QuotedName(path: string)
    requires forall i :: 0 <= i < |path| ==> path[i] != '"' && path[i] != '\\' && 32 <= path[i] as int && path[i] as int != 127
    ensures '\'' in path ==> NoSuchFileMessage(path) == "[Errno 2] No such file or directory: \"" + path + "\""
    ensures '\'' !in path ==> NoSuchFileMessage(path) == "[Errno 2] No such file or directory: '" + path + "'"
  {
  }
}

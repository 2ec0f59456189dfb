/**
 * `media_processor.py`: embedding the thumbnail as cover art and best-effort
 * removal of a job's files. The ID3 writing itself is foreign code and is
 * reduced to one flag saying whether it completed or raised.
 */
module MediaProcessor {
  import opened Wrappers
  import opened FileStore

  /** When `add_thumbnail_to_audio` returns True. */
  predicate TagSucceeds(files: set<string>, failures: map<string, string>,
                        mp3Path: string, thumbnailPath: string, mutagenOk: bool)
  {
    mp3Path in files && thumbnailPath in files && mutagenOk && thumbnailPath !in failures
  }

  /**
   * `add_thumbnail_to_audio(mp3_path, thumbnail_path)`. `mutagenOk` says whether
   * opening the MP3, adding the picture frame and saving completed without raising.
   * Every exception is caught, so the outcome is a boolean and never an error.
   */
  method AddThumbnailToAudio(fs: FileSystem, mp3Path: string, thumbnailPath: string, mutagenOk: bool)
    returns (ok: bool)
    requires fs.Valid()
    modifies fs
    ensures fs.Valid()
    ensures ok == TagSucceeds(old(fs.files), fs.failures, mp3Path, thumbnailPath, mutagenOk)
    ensures fs.files == if ok then old(fs.files) - {thumbnailPath} else old(fs.files)
    ensures ok ==> (mp3Path in fs.files <==> mp3Path != thumbnailPath)
  {
    var mp3Exists := fs.Exists(mp3Path);
    if !mp3Exists {
      return false;
    }
    var thumbnailExists := fs.Exists(thumbnailPath);
    if !thumbnailExists {
      return false;
    }
    if !mutagenOk {
      // MP3(), tags.add or save raised: caught, logged, thumbnail kept
      return false;
    }
    var error := fs.Remove(thumbnailPath);
    ok := error == None;
  }

  /** The paths of a `clean_files` list that it tries to remove: those neither `None` nor empty. */
  function Named(paths: seq<Option<string>>): set<string> {
    set i | 0 <= i < |paths| && paths[i].Some? && paths[i].value != "" :: paths[i].value
  }

  lemma NamedSnoc(paths: seq<Option<string>>, p: Option<string>)
    ensures Named(paths + [p]) == Named(paths) + (if p.Some? && p.value != "" then {p.value} else {})
  {
    var ps := paths + [p];
    forall x | x in Named(ps)
      ensures x in Named(paths) || (p.Some? && p.value != "" && x == p.value)
    {
      var i :| 0 <= i < |ps| && ps[i].Some? && ps[i].value != "" && ps[i].value == x;
      if i < |paths| {
        assert paths[i] == ps[i];
      }
    }
    forall x | x in Named(paths)
      ensures x in Named(ps)
    {
      var i :| 0 <= i < |paths| && paths[i].Some? && paths[i].value != "" && paths[i].value == x;
      assert ps[i] == paths[i];
    }
    if p.Some? && p.value != "" {
      assert ps[|paths|] == p;
    }
  }

  /**
   * What the disk holds after `clean_files(paths)`, computed path by path as the
   * loop does: each named path that exists is removed unless its removal raises,
   * and a failed removal does not stop the loop.
   */
  function AfterClean(files: set<string>, failures: map<string, string>, paths: seq<Option<string>>)
    : (r: set<string>)
    ensures r == files - (Named(paths) - failures.Keys)
    decreases |paths|
  {
    if paths == [] then files
    else
      var init, last := paths[..|paths| - 1], paths[|paths| - 1];
      var before := AfterClean(files, failures, init);
      assert paths == init + [last];
      NamedSnoc(init, last);
      if last.Some? && last.value != "" && last.value in before && last.value !in failures
      then before - {last.value}
      else before
  }

  /** Cleaning the same list twice leaves the disk as cleaning it once. */
  lemma CleanFilesIdempotent(files: set<string>, failures: map<string, string>, paths: seq<Option<string>>)
    ensures AfterClean(AfterClean(files, failures, paths), failures, paths) == AfterClean(files, failures, paths)
  {
  }

  /** `clean_files(file_paths)`: never raises; removal errors are logged and skipped. */
  method CleanFiles(fs: FileSystem, paths: seq<Option<string>>)
    requires fs.Valid()
    modifies fs
    ensures fs.Valid()
    ensures fs.files == AfterClean(old(fs.files), fs.failures, paths)
  {
    var i := 0;
    while i < |paths|
      invariant 0 <= i <= |paths|
      invariant fs.Valid()
      invariant fs.files == AfterClean(old(fs.files), fs.failures, paths[..i])
    {
      var p := paths[i];
      if p.Some? && p.value != "" {
        var present := fs.Exists(p.value);
        if present {
          var _ := fs.Remove(p.value);
        }
      }
      assert paths[..i + 1][..i] == paths[..i];
      i := i + 1;
    }
    assert paths[..|paths|] == paths;
  }
}

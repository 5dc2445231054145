/** Where uploaded files live and how they are addressed. The environment
    variable `FILES_DIR` and the process working directory are parameters,
    and so is `path.join`. Creating the directory is left out. */
module UploadsConfig {
  import opened Wrappers
  import opened NodePath

  const DefaultDir: string := "uploads"
  const UrlPrefix: string := "/uploads"

  /** `process.env.FILES_DIR ?? 'uploads'`: only a missing variable falls back. */
  function ConfiguredDir(filesDir: Option<string>): (dir: string)
    ensures filesDir.None? ==> dir == DefaultDir
    ensures filesDir.Some? ==> dir == filesDir.value
  {
    filesDir.GetOr(DefaultDir)
  }

  /** `UPLOADS_RELATIVE_PATH`: the configured directory without its leading
      slashes and backslashes. */
  function UploadsRelativePath(dir: string): (rel: string)
    ensures rel == [] || !IsSeparator(rel[0])
    ensures |rel| <= |dir| && rel == dir[|dir| - |rel|..]
    ensures forall i :: 0 <= i < |dir| - |rel| ==> IsSeparator(dir[i])
  {
    StripLeadingSeparators(dir)
  }

  /** The relative path is already stripped: stripping it again changes nothing. */
  lemma RelativePathStable(dir: string)
    ensures UploadsRelativePath(UploadsRelativePath(dir)) == UploadsRelativePath(dir)
  {
    StripIdempotent(dir);
  }

  /** A directory given without leading separators is its own relative path. */
  lemma RelativePathKeepsPlainDir(dir: string)
    requires dir == [] || !IsSeparator(dir[0])
    ensures UploadsRelativePath(dir) == dir
  {
  }

  /** `UPLOADS_DIR`: an absolute configured directory is used as is, any other
      is resolved against the working directory after stripping. */
  function UploadsDir(dir: string, cwd: string, join: (string, string) -> string): (abs: string)
    ensures IsAbsolute(dir) ==> abs == dir
    ensures !IsAbsolute(dir) ==> abs == join(cwd, UploadsRelativePath(dir))
  {
    if IsAbsolute(dir) then dir else join(cwd, UploadsRelativePath(dir))
  }

  /** Leading backslashes of a relative directory make no difference: both
      spellings end up in the same place. */
  lemma BackslashPrefixIgnored(dir: string, cwd: string, join: (string, string) -> string)
    requires !IsAbsolute(dir)
    ensures UploadsDir("\\" + dir, cwd, join) == UploadsDir(dir, cwd, join)
  {
    assert ("\\" + dir)[1..] == dir;
  }

  /** The default configuration puts uploads under `<cwd>/uploads`. */
  lemma DefaultUploadsDir(cwd: string, join: (string, string) -> string)
    ensures UploadsDir(ConfiguredDir(None), cwd, join) == join(cwd, "uploads")
  {
  }

  /** `buildStoredFilePath(filename)`: the public path saved in the database. */
  function BuildStoredFilePath(filename: string): (url: string)
    ensures |url| == |UrlPrefix| + 1 + |filename|
    ensures url[..|UrlPrefix| + 1] == "/uploads/" && url[|UrlPrefix| + 1..] == filename
  {
    UrlPrefix + "/" + filename
  }

  /** Different file names are stored under different paths, and the name can
      be read back from the path. */
  lemma StoredPathInjective(f1: string, f2: string)
    requires BuildStoredFilePath(f1) == BuildStoredFilePath(f2)
    ensures f1 == f2
  {
    assert f1 == BuildStoredFilePath(f1)[|UrlPrefix| + 1..];
  }

  /** The stored path is absolute in the POSIX sense, so a resolver that keeps
      absolute paths unchanged looks for it at the file-system root, not under
      the uploads directory. */
  lemma StoredPathIsAbsolute(filename: string)
    ensures IsAbsolute(BuildStoredFilePath(filename))
  {
  }
}

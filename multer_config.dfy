/** The upload rules: which MIME types may be uploaded, how an uploaded file
    is renamed on disk, and the public URL of a stored file. The random UUID
    of each upload is a parameter. */
module MulterConfig {
  import opened Wrappers
  import opened JsStrings
  import opened NodePath
  import UploadsConfig
  import TextExtraction

  /** `ALLOWED_MIME_TYPES`. */
  const AllowedMimeTypes: set<string> := {
    "application/pdf",
    "application/msword",
    "application/vnd.openxmlformats-officedocument.wordprocessingml.document",
    "text/plain",
    "image/jpeg",
    "image/png",
    "image/jpg"
  }

  const UnsupportedFileType: string := "Unsupported file type"

  /** `fileFilter`: accepts a file exactly when its type is allowed, and
      otherwise fails with a bad-request error. */
  function FileFilter(mimeType: string): (r: Result<bool>)
    ensures r.Ok? <==> mimeType in AllowedMimeTypes
    ensures r.Ok? ==> r.value
    ensures r.Err? ==> r.error == BadRequest(UnsupportedFileType)
  {
    if mimeType in AllowedMimeTypes then Ok(true) else Err(BadRequest(UnsupportedFileType))
  }

  /** Everything the extractor reads may be uploaded; `application/msword`
      and `image/jpg` may be uploaded but are then refused by the extractor,
      and they are the only such types. */
  lemma AllowListCoversExtractor(mimeType: string)
    ensures TextExtraction.IsSupportedMimeType(mimeType) ==> FileFilter(mimeType).Ok?
    ensures FileFilter(mimeType).Ok? && !TextExtraction.IsSupportedMimeType(mimeType) <==>
      mimeType == "application/msword" || mimeType == "image/jpg"
  {
  }

  /** `[a-z0-9_-]`. */
  predicate IsSafeChar(c: char) {
    ('a' <= c <= 'z') || ('0' <= c <= '9') || c == '_' || c == '-'
  }

  ghost predicate AllSafe(s: string) {
    forall i :: 0 <= i < |s| ==> IsSafeChar(s[i])
  }

  /** `s.replace(/[^a-z0-9_-]/g, '')`. */
  function KeepSafe(s: string): (r: string)
    ensures |r| <= |s|
    ensures AllSafe(r)
    ensures AllSafe(s) ==> r == s
  {
    if s == [] then []
    else if IsSafeChar(s[0]) then [s[0]] + KeepSafe(s[1..])
    else KeepSafe(s[1..])
  }

  /** The chain applied to the name without extension: lower-case, each
      whitespace run to one `-`, then every character outside `[a-z0-9_-]` dropped. */
  function SanitizeStem(stem: string): (base: string)
    ensures AllSafe(base)
    ensures |base| <= |stem|
  {
    KeepSafe(Collapse(ToLower(stem), '-'))
  }

  /** `safeBase`: the sanitised base name, or `file` when nothing survives. */
  function SafeBase(originalName: string): (base: string)
    ensures base != [] && AllSafe(base)
    ensures SanitizeStem(BasenameWithoutExt(originalName)) != [] ==>
      base == SanitizeStem(BasenameWithoutExt(originalName))
  {
    var b := SanitizeStem(BasenameWithoutExt(originalName));
    if |b| > 0 then b else "file"
  }

  /** A name made only of characters outside the safe set becomes `file`. */
  lemma UnsafeNameFallsBack(originalName: string)
    requires forall i :: 0 <= i < |originalName| ==> !IsSafeChar(LowerChar(originalName[i]))
    requires forall i :: 0 <= i < |originalName| ==> !IsWhitespace(originalName[i])
    requires '/' !in originalName && '.' !in originalName
    ensures SafeBase(originalName) == "file"
  {
    NoDotNoExtension(originalName);
    var low := ToLower(originalName);
    assert forall i :: 0 <= i < |low| ==> !IsWhitespace(low[i]) by {
      forall i | 0 <= i < |low| ensures !IsWhitespace(low[i]) {
        assert low[i] == LowerChar(originalName[i]);
      }
    }
    CollapseWordPrefix(low, [], '-');
    assert low + [] == low;
    NothingSafeKept(low);
  }

  lemma {:induction false} NothingSafeKept(s: string)
    requires forall i :: 0 <= i < |s| ==> !IsSafeChar(s[i])
    ensures KeepSafe(s) == []
  {
    if s != [] {
      NothingSafeKept(s[1..]);
    }
  }

  lemma SafeCharNotWhitespace(c: char)
    requires IsSafeChar(c)
    ensures !IsWhitespace(c) && LowerChar(c) == c
  {
  }

  /** Lower-casing leaves whitespace and characters that are already safe alone. */
  lemma LowerKeeps(s: string)
    requires forall i :: 0 <= i < |s| ==> IsSafeChar(s[i]) || IsWhitespace(s[i])
    ensures ToLower(s) == s
  {
    forall i | 0 <= i < |s| ensures ToLower(s)[i] == s[i] {
      if IsSafeChar(s[i]) { SafeCharNotWhitespace(s[i]); }
    }
  }

  lemma SafeWordNoWhitespace(u: string)
    requires AllSafe(u)
    ensures forall i :: 0 <= i < |u| ==> !IsWhitespace(u[i])
  {
    forall i | 0 <= i < |u| ensures !IsWhitespace(u[i]) { SafeCharNotWhitespace(u[i]); }
  }

  /** Collapsing `u + w + v` with a whitespace run `w` between safe words. */
  lemma CollapseBetweenWords(u: string, w: string, v: string)
    requires AllSafe(u) && AllSafe(v)
    requires w != [] && forall i :: 0 <= i < |w| ==> IsWhitespace(w[i])
    ensures Collapse(u + w + v, '-') == u + "-" + v
  {
    SafeWordNoWhitespace(u);
    SafeWordNoWhitespace(v);
    CollapseAroundRun(u, w, v, '-');
  }

  lemma SafeOrWhitespace(u: string, w: string, v: string)
    requires AllSafe(u) && AllSafe(v)
    requires forall i :: 0 <= i < |w| ==> IsWhitespace(w[i])
    ensures var s := u + w + v; forall i :: 0 <= i < |s| ==> IsSafeChar(s[i]) || IsWhitespace(s[i])
  {
    var s := u + w + v;
    forall i | 0 <= i < |s| ensures IsSafeChar(s[i]) || IsWhitespace(s[i]) {
      if i < |u| { assert s[i] == u[i]; }
      else if i < |u| + |w| { assert s[i] == w[i - |u|]; }
      else { assert s[i] == v[i - |u| - |w|]; }
    }
  }

  lemma SafeJoin(u: string, v: string)
    requires AllSafe(u) && AllSafe(v)
    ensures AllSafe(u + "-" + v)
  {
    var s := u + "-" + v;
    forall i | 0 <= i < |s| ensures IsSafeChar(s[i]) {
      if i < |u| { assert s[i] == u[i]; }
      else if i == |u| { assert s[i] == '-'; }
      else { assert s[i] == v[i - |u| - 1]; }
    }
  }

  /** Two safe words separated by any run of whitespace are joined by a single `-`. */
  lemma WhitespaceRunBecomesHyphen(u: string, w: string, v: string)
    requires AllSafe(u) && AllSafe(v)
    requires w != [] && forall i :: 0 <= i < |w| ==> IsWhitespace(w[i])
    ensures SanitizeStem(u + w + v) == u + "-" + v
  {
    SafeOrWhitespace(u, w, v);
    LowerKeeps(u + w + v);
    CollapseBetweenWords(u, w, v);
    SafeJoin(u, v);
  }

  /** The on-disk name of an upload: safe base, `-`, the UUID, then the
      original extension lower-cased. */
  function GeneratedName(originalName: string, uuid: string): (name: string)
    ensures var ext := ToLower(Extname(originalName));
      |name| == |SafeBase(originalName)| + 1 + |uuid| + |ext|
    ensures name[..|SafeBase(originalName)|] == SafeBase(originalName)
    ensures name[|SafeBase(originalName)|..|SafeBase(originalName)| + 1 + |uuid|] == "-" + uuid
    ensures name[|name| - |Extname(originalName)|..] == ToLower(Extname(originalName))
  {
    var base := SafeBase(originalName);
    var ext := ToLower(Extname(originalName));
    ConcatSlices(base, "-", uuid, ext);
    base + "-" + uuid + ext
  }

  /** The parts of a concatenation are its slices. */
  lemma ConcatSlices<T>(a: seq<T>, b: seq<T>, c: seq<T>, d: seq<T>)
    ensures |a + b + c + d| == |a| + |b| + |c| + |d|
    ensures (a + b + c + d)[..|a|] == a
    ensures (a + b + c + d)[|a|..|a| + |b| + |c|] == b + c
    ensures (a + b + c + d)[|a| + |b| + |c|..] == d
  {
    var s := a + b + c + d;
    assert s[..|a|] == a;
    assert s[|a|..|a| + |b| + |c|] == b + c;
  }

  lemma LowerKeepsDotAndSlash(s: string)
    ensures '/' !in s ==> '/' !in ToLower(s)
    ensures '.' !in s ==> '.' !in ToLower(s)
    ensures s != [] && s[0] == '.' ==> ToLower(s) == "." + ToLower(s[1..])
  {
    if '/' in ToLower(s) {
      var i :| 0 <= i < |s| && ToLower(s)[i] == '/';
      assert s[i] == '/';
    }
    if '.' in ToLower(s) {
      var i :| 0 <= i < |s| && ToLower(s)[i] == '.';
      assert s[i] == '.';
    }
  }

  lemma StemFree(base: string, uuid: string)
    requires AllSafe(base) && '.' !in uuid && '/' !in uuid
    ensures '/' !in base + "-" + uuid && '.' !in base + "-" + uuid
  {
    var stem := base + "-" + uuid;
    forall i | 0 <= i < |stem| ensures stem[i] != '/' && stem[i] != '.' {
      if i < |base| { assert stem[i] == base[i] && IsSafeChar(base[i]); }
      else if i == |base| { assert stem[i] == '-'; }
      else { assert stem[i] == uuid[i - |base| - 1]; }
    }
  }

  /** The generated name keeps the file's type: `path.extname` of it is the
      lower-cased original extension, and its base is `safeBase-uuid`.
      (The UUID contains neither `.` nor `/`, like those `randomUUID` produces.) */
  lemma GeneratedNameKeepsExtension(originalName: string, uuid: string)
    requires '.' !in uuid && '/' !in uuid
    ensures Extname(GeneratedName(originalName, uuid)) == ToLower(Extname(originalName))
    ensures BasenameWithoutExt(GeneratedName(originalName, uuid)) == SafeBase(originalName) + "-" + uuid
  {
    var base := SafeBase(originalName);
    assert GeneratedName(originalName, uuid) == base + "-" + uuid + ToLower(Extname(originalName));
    StemFree(base, uuid);
    StemThenExtension(base + "-" + uuid, Extname(originalName));
  }

  /** A stem without dots or slashes followed by a lower-cased extension
      splits back into the two. */
  lemma StemThenExtension(stem: string, ext: string)
    requires '/' !in stem && '.' !in stem && |stem| >= 2
    requires ext == [] || ext[0] == '.'
    requires ext != [] ==> '.' !in ext[1..]
    requires '/' !in ext
    ensures Extname(stem + ToLower(ext)) == ToLower(ext)
    ensures BasenameWithoutExt(stem + ToLower(ext)) == stem
  {
    LowerKeepsDotAndSlash(ext);
    if ext == [] {
      assert stem + ToLower(ext) == stem;
      NoDotNoExtension(stem);
    } else {
      var e := ToLower(ext[1..]);
      LowerKeepsDotAndSlash(ext[1..]);
      assert stem + ToLower(ext) == stem + "." + e;
      assert stem != ".";
      SimpleNameSplits(stem, e);
    }
  }


  /** `toPublicUrl(filename)`: the URL under which a stored file is served. */
  function ToPublicUrl(filename: string): (url: string)
    ensures |url| == |UploadsConfig.UrlPrefix| + 1 + |filename|
    ensures url[..|UploadsConfig.UrlPrefix| + 1] == "/uploads/"
    ensures url[|UploadsConfig.UrlPrefix| + 1..] == filename
  {
    UploadsConfig.UrlPrefix + "/" + filename
  }

  /** The URL a file is served under is the path stored for it. */
  lemma PublicUrlIsStoredPath(filename: string)
    ensures ToPublicUrl(filename) == UploadsConfig.BuildStoredFilePath(filename)
  {
  }
}

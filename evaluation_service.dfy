/** The evaluation service: resolving a reference and an answer to text,
    embedding both, turning their cosine similarity into a score out of 100,
    discounting late submissions and storing the automatic score.

    The feature-extraction model is the function `embed`, which either gives
    the pooled embedding of a text or fails with an HTTP exception. File
    access is the `Environment`: the working directory, `path.join`, the
    MIME lookup and the document readers. */
module EvaluationService {
  import opened Wrappers
  import opened Entities
  import opened Collections
  import opened JsStrings
  import opened NodePath
  import opened UploadsConfig
  import opened TextExtraction
  import opened Scoring
  import Subs = SubmissionsService

  /** `{ text?, filePath? }`: where a text comes from. */
  datatype TextSource = TextSource(text: Option<string>, filePath: Option<string>)

  /** Which side of the comparison a text is on; it only changes messages. */
  datatype Label = Reference | Answer

  function LabelName(which: Label): string {
    match which
    case Reference => "reference"
    case Answer => "answer"
  }

  /** What the service reads files with. */
  datatype Environment = Environment(
    cwd: string,
    join: (string, string) -> string,
    lookup: string -> Option<string>,
    read: (Reader, string) -> Option<string>)

  function NoSourceMessage(which: Label): string {
    "No " + LabelName(which) + " text or file path provided"
  }

  function UnsupportedFileTypeMessage(which: Label, detail: string): string {
    "Unsupported " + LabelName(which) + " file type: " + detail
  }

  function FailedToExtractMessage(which: Label): string {
    "Failed to extract " + LabelName(which) + " text"
  }

  const NoReferenceFile: string := "Task does not have a reference file"
  const NoFiles: string := "Submission has no files"
  const PartSeparator: string := "\n\n"

  // ------------------------------------------------------------ file paths

  /** `resolveFilePath`: an absolute path is kept, any other loses its
      leading `/` and `\` and is joined to the working directory. */
  function ResolveFilePath(path: string, cwd: string, join: (string, string) -> string): (abs: string)
    ensures IsAbsolute(path) ==> abs == path
    ensures !IsAbsolute(path) ==> abs == join(cwd, StripLeadingSeparators(path))
  {
    if IsAbsolute(path) then path else join(cwd, StripLeadingSeparators(path))
  }

  /** Stored files are found where the uploads directory is configured:
      both resolve a path the same way. */
  lemma ResolveAgreesWithUploadsDir(path: string, cwd: string, join: (string, string) -> string)
    ensures ResolveFilePath(path, cwd, join) == UploadsDir(path, cwd, join)
  {
  }

  /** A leading backslash of a relative path is ignored, so any number of
      them is. */
  lemma BackslashIgnored(path: string, cwd: string, join: (string, string) -> string)
    requires !IsAbsolute(path)
    ensures ResolveFilePath("\\" + path, cwd, join) == ResolveFilePath(path, cwd, join)
  {
    assert ("\\" + path)[1..] == path;
  }

  /** A stored public URL `/uploads/<name>` is absolute, so it is read from
      the root of the file system and not from the working directory. */
  lemma StoredUrlReadFromRoot(filename: string, cwd: string, join: (string, string) -> string)
    ensures ResolveFilePath(BuildStoredFilePath(filename), cwd, join) == "/uploads/" + filename
  {
    StoredPathIsAbsolute(filename);
    assert BuildStoredFilePath(filename) == "/uploads/" + filename;
  }

  // ----------------------------------------------------------- text sources

  /** The `catch` of `resolveTextSource` applied to `extractText`: an empty
      extraction is a failure like any other, and only an unsupported type
      is the caller's fault. */
  function FromExtraction(e: Extraction, which: Label): (r: Result<string>)
    ensures r.Ok? <==> e.Extracted? && e.text != []
    ensures r.Ok? ==> r.value == e.text
    ensures e.UnsupportedMimeType? <==> r.Err? && r.error.BadRequest?
    ensures e.UnsupportedMimeType? ==>
      r == Err(BadRequest(UnsupportedFileTypeMessage(which, UnsupportedMessage(e.mimeType))))
    ensures r.Err? && !e.UnsupportedMimeType? ==> r == Err(ServiceUnavailable(FailedToExtractMessage(which)))
  {
    match e
    case Extracted(t) =>
      if t != [] then Ok(t) else Err(ServiceUnavailable(FailedToExtractMessage(which)))
    case UnsupportedMimeType(m) =>
      Err(BadRequest(UnsupportedFileTypeMessage(which, UnsupportedMessage(m))))
    case ReadFailed =>
      Err(ServiceUnavailable(FailedToExtractMessage(which)))
  }

  /** The trimmed inline text, when it is not empty. */
  function Inline(source: TextSource): string {
    if source.text.Some? then Trim(source.text.value) else []
  }

  /** `resolveTextSource`: non-empty inline text wins; otherwise a path is
      required and the document it names is extracted. */
  function ResolveTextSource(source: TextSource, which: Label, env: Environment): (r: Result<string>)
    ensures Inline(source) != [] ==> r == Ok(Inline(source))
    ensures Inline(source) == [] && (source.filePath.None? || source.filePath.value == []) ==>
      r == Err(BadRequest(NoSourceMessage(which)))
    ensures Inline(source) == [] && source.filePath.Some? && source.filePath.value != [] ==>
      r == FromExtraction(ExtractText(ResolveFilePath(source.filePath.value, env.cwd, env.join), env.lookup, env.read), which)
    ensures r.Ok? ==> r.value != []
    ensures r.Err? ==> r.error.BadRequest? || r.error.ServiceUnavailable?
  {
    var inline := Inline(source);
    if inline != [] then Ok(inline)
    else if source.filePath.None? || source.filePath.value == [] then Err(BadRequest(NoSourceMessage(which)))
    else
      var path := ResolveFilePath(source.filePath.value, env.cwd, env.join);
      FromExtraction(ExtractText(path, env.lookup, env.read), which)
  }

  /** Inline text makes the path irrelevant, whatever it names. */
  lemma InlineTextIgnoresPath(text: string, p: Option<string>, q: Option<string>, which: Label, env: Environment)
    requires Trim(text) != []
    ensures ResolveTextSource(TextSource(Some(text), p), which, env) == ResolveTextSource(TextSource(Some(text), q), which, env)
    ensures ResolveTextSource(TextSource(Some(text), p), which, env) == Ok(Trim(text))
  {
  }

  /** Text read from a file is whitespace-normalised. */
  lemma FileTextIsNormalized(path: string, which: Label, env: Environment)
    requires path != []
    ensures var r := ResolveTextSource(TextSource(None, Some(path)), which, env);
      r.Ok? ==> Normalized(r.value)
  {
  }

  /** A file whose extension the lookup does not know is refused as a bad
      request naming the generic binary type. */
  lemma UnknownFileTypeIsBadRequest(path: string, which: Label, env: Environment)
    requires path != []
    requires env.lookup(ResolveFilePath(path, env.cwd, env.join)).None?
    ensures ResolveTextSource(TextSource(None, Some(path)), which, env) ==
      Err(BadRequest(UnsupportedFileTypeMessage(which, UnsupportedMessage(OctetStream))))
  {
    UnknownExtensionRejected(ResolveFilePath(path, env.cwd, env.join), env.lookup, env.read);
  }

  // -------------------------------------------------------- submission files

  /** The text of one stored file, read as an answer. */
  function FileText(f: SubmissionFile, env: Environment): Result<string> {
    ResolveTextSource(TextSource(None, Some(f.fileUrl)), Answer, env)
  }

  /** The text of every file, in file order, or the error of the first file
      that cannot be read. */
  function FileTexts(files: seq<SubmissionFile>, env: Environment): (r: Result<seq<string>>)
    ensures r.Ok? ==> |r.value| == |files|
    ensures r.Ok? ==> forall i :: 0 <= i < |files| ==> FileText(files[i], env) == Ok(r.value[i])
    ensures r.Err? ==> (exists i :: 0 <= i < |files| && FileText(files[i], env) == Err(r.error) &&
                          forall j :: 0 <= j < i ==> FileText(files[j], env).Ok?)
    ensures (forall i :: 0 <= i < |files| ==> FileText(files[i], env).Ok?) <==> r.Ok?
  {
    Collect(FileResults(files, env))
  }

  /** The outcome of reading each file. */
  function FileResults(files: seq<SubmissionFile>, env: Environment): (rs: seq<Result<string>>)
    ensures |rs| == |files| && forall i :: 0 <= i < |files| ==> rs[i] == FileText(files[i], env)
  {
    seq(|files|, i requires 0 <= i < |files| => FileText(files[i], env))
  }

  /** `extractSubmissionFilesText` as a value: no files is a bad request,
      otherwise the file texts joined by blank lines. */
  function FilesText(files: seq<SubmissionFile>, env: Environment): (r: Result<string>)
    ensures files == [] ==> r == Err(BadRequest(NoFiles))
    ensures files != [] && FileTexts(files, env).Ok? ==> r == Ok(JoinWith(FileTexts(files, env).value, PartSeparator))
    ensures files != [] && FileTexts(files, env).Err? ==> r == Err(FileTexts(files, env).error)
  {
    if files == [] then Err(BadRequest(NoFiles))
    else
      var texts :- FileTexts(files, env);
      Ok(JoinWith(texts, PartSeparator))
  }

  /** A submission of one file is scored on that file's text alone. */
  lemma SingleFileText(f: SubmissionFile, env: Environment)
    ensures FilesText([f], env) == FileText(f, env)
  {
    assert [f][..0] == [];
  }

  // ---------------------------------------------------------------- scores

  /** The similarity of two texts: both embeddings are needed, the
      reference's error is reported first. */
  function SimilarityOf(a: string, b: string, embed: string -> Result<seq<real>>, sqrt: real -> real): (r: Result<real>)
    ensures r.Ok? <==> embed(a).Ok? && embed(b).Ok?
    ensures r.Ok? ==> r.value == CosineOf(embed(a).value, embed(b).value, sqrt)
    ensures embed(a).Err? ==> r == Err(embed(a).error)
    ensures embed(a).Ok? && embed(b).Err? ==> r == Err(embed(b).error)
  {
    var u :- embed(a);
    var v :- embed(b);
    Ok(CosineOf(u, v, sqrt))
  }

  /** `scoreTexts`: the similarity on the 0..100 scale. */
  function ScoreOf(a: string, b: string, embed: string -> Result<seq<real>>, sqrt: real -> real): (r: Result<int>)
    ensures r.Ok? <==> SimilarityOf(a, b, embed, sqrt).Ok?
    ensures r.Ok? ==> r.value == ToScore(SimilarityOf(a, b, embed, sqrt).value) && 0 <= r.value <= 100
    ensures r.Err? ==> r.error == SimilarityOf(a, b, embed, sqrt).error
  {
    var s :- SimilarityOf(a, b, embed, sqrt);
    Ok(ToScore(s))
  }

  /** A text whose embedding is not the zero vector scores full marks
      against itself. */
  lemma SameTextFullMarks(t: string, embed: string -> Result<seq<real>>, sqrt: real -> real)
    requires IsSqrt(sqrt)
    requires embed(t).Ok? && Dot(embed(t).value, embed(t).value, |embed(t).value|) != 0.0
    ensures ScoreOf(t, t, embed, sqrt) == Ok(100)
  {
    CosineSelf(embed(t).value, sqrt);
    ToScoreValues();
  }

  /** Swapping reference and answer changes nothing when both embed. */
  lemma ScoreSymmetric(a: string, b: string, embed: string -> Result<seq<real>>, sqrt: real -> real)
    requires embed(a).Ok? && embed(b).Ok?
    ensures ScoreOf(a, b, embed, sqrt) == ScoreOf(b, a, embed, sqrt)
  {
    CosineSymmetric(embed(a).value, embed(b).value, sqrt);
  }

  /** An answer embedded as the zero vector scores 50, the image of 0. */
  lemma ZeroAnswerScoresHalf(a: string, b: string, embed: string -> Result<seq<real>>, sqrt: real -> real)
    requires IsSqrt(sqrt)
    requires embed(a).Ok? && embed(b).Ok?
    requires Dot(embed(b).value, embed(b).value, Min(|embed(a).value|, |embed(b).value|)) == 0.0
    ensures ScoreOf(a, b, embed, sqrt) == Ok(50)
  {
    CosineOfZeroVector(embed(a).value, embed(b).value, sqrt);
    ToScoreValues();
  }

  /** `score(reference, answer)`: resolve both texts, then score them. */
  function ScoreRequest(reference: TextSource, answer: TextSource, env: Environment,
                        embed: string -> Result<seq<real>>, sqrt: real -> real): (r: Result<int>)
    ensures ResolveTextSource(reference, Reference, env).Err? ==> r == Err(ResolveTextSource(reference, Reference, env).error)
    ensures ResolveTextSource(reference, Reference, env).Ok? && ResolveTextSource(answer, Answer, env).Err? ==>
      r == Err(ResolveTextSource(answer, Answer, env).error)
    ensures ResolveTextSource(reference, Reference, env).Ok? && ResolveTextSource(answer, Answer, env).Ok? ==>
      r == ScoreOf(ResolveTextSource(reference, Reference, env).value, ResolveTextSource(answer, Answer, env).value, embed, sqrt)
    ensures r.Ok? ==> 0 <= r.value <= 100
  {
    var ref :- ResolveTextSource(reference, Reference, env);
    var ans :- ResolveTextSource(answer, Answer, env);
    ScoreOf(ref, ans, embed, sqrt)
  }

  /** The reference text and the answer text of a stored submission. */
  function AutoInputs(view: SubmissionView, env: Environment): (r: Result<(string, string)>)
    ensures view.task.None? || view.task.value.referenceFileUrl == [] ==> r == Err(BadRequest(NoReferenceFile))
    ensures r.Ok? ==> view.task.Some? && view.task.value.referenceFileUrl != []
    ensures r.Ok? ==>
      && ResolveTextSource(TextSource(None, Some(view.task.value.referenceFileUrl)), Reference, env) == Ok(r.value.0)
      && FilesText(view.files, env) == Ok(r.value.1)
  {
    if view.task.None? || view.task.value.referenceFileUrl == [] then Err(BadRequest(NoReferenceFile))
    else
      var reference :- ResolveTextSource(TextSource(None, Some(view.task.value.referenceFileUrl)), Reference, env);
      var answer :- FilesText(view.files, env);
      Ok((reference, answer))
  }

  /** `autoEvaluate` as a value: the score of the submission's files against
      its task's reference file, with the late penalty applied. */
  function AutoEvaluation(found: Result<SubmissionView>, env: Environment,
                          embed: string -> Result<seq<real>>, sqrt: real -> real): (r: Result<int>)
    ensures found.Err? ==> r == Err(found.error)
    ensures found.Ok? && AutoInputs(found.value, env).Err? ==> r == Err(AutoInputs(found.value, env).error)
    ensures r.Ok? ==> found.Ok? && AutoInputs(found.value, env).Ok?
    ensures r.Ok? ==> 0 <= r.value <= 100
  {
    var view :- found;
    var inputs :- AutoInputs(view, env);
    var score :- ScoreOf(inputs.0, inputs.1, embed, sqrt);
    var task := view.task.value;
    Ok(LatePenalty(score, task.latePenaltyPercent, view.submission.submittedAt, task.deadline))
  }

  /** A submission on time, or for a task without a penalty, keeps the
      similarity score; a late one with a penalty of 100% or more gets 0. */
  lemma AutoEvaluationPenalty(view: SubmissionView, env: Environment,
                              embed: string -> Result<seq<real>>, sqrt: real -> real)
    requires AutoInputs(view, env).Ok?
    requires ScoreOf(AutoInputs(view, env).value.0, AutoInputs(view, env).value.1, embed, sqrt).Ok?
    ensures var task := view.task.value;
      var score := ScoreOf(AutoInputs(view, env).value.0, AutoInputs(view, env).value.1, embed, sqrt).value;
      && (task.latePenaltyPercent <= 0 || view.submission.submittedAt <= task.deadline ==>
            AutoEvaluation(Ok(view), env, embed, sqrt) == Ok(score))
      && (task.latePenaltyPercent >= 100 && view.submission.submittedAt > task.deadline ==>
            AutoEvaluation(Ok(view), env, embed, sqrt) == Ok(0))
      && AutoEvaluation(Ok(view), env, embed, sqrt).Ok?
      && AutoEvaluation(Ok(view), env, embed, sqrt).value <= score
  {
  }

  /** The late-submission step of `autoEvaluate`, reassigning the score. */
  method DiscountLate(score: int, penaltyPercent: int, submitted: int, due: int) returns (discounted: int)
    ensures discounted == LatePenalty(score, penaltyPercent, submitted, due)
  {
    discounted := score;
    if penaltyPercent > 0 {
      if submitted > due {
        var factor := PenaltyFactor(penaltyPercent);
        discounted := Round(discounted as real * factor);
      }
    }
  }

  // ------------------------------------------------------- reference cache

  /** The cache after asking for the reference embedding of `text`: a cached
      text leaves it unchanged, a new one is added when embedding succeeds. */
  function Remember(cache: map<string, seq<real>>, text: string, embed: string -> Result<seq<real>>): (r: map<string, seq<real>>)
    ensures text in cache ==> r == cache
    ensures text !in cache && embed(text).Ok? ==> r == cache[text := embed(text).value]
    ensures text !in cache && embed(text).Err? ==> r == cache
  {
    if text in cache then cache
    else match embed(text)
      case Ok(v) => cache[text := v]
      case Err(_) => cache
  }

  /** Every cached vector is what `embed` gives for its key. */
  ghost predicate Coherent(cache: map<string, seq<real>>, embed: string -> Result<seq<real>>) {
    forall k :: k in cache ==> embed(k) == Ok(cache[k])
  }

  /** The cache only grows: no entry is changed or removed, and a coherent
      cache stays coherent. */
  lemma RememberGrows(cache: map<string, seq<real>>, text: string, embed: string -> Result<seq<real>>)
    ensures forall k :: k in cache ==> k in Remember(cache, text, embed) && Remember(cache, text, embed)[k] == cache[k]
    ensures forall k :: k in Remember(cache, text, embed) ==> k in cache || k == text
    ensures Coherent(cache, embed) ==> Coherent(Remember(cache, text, embed), embed)
  {
  }

  /** Asking twice for the same text is asking once. */
  lemma RememberIdempotent(cache: map<string, seq<real>>, text: string, embed: string -> Result<seq<real>>)
    ensures Remember(Remember(cache, text, embed), text, embed) == Remember(cache, text, embed)
  {
  }

  /** The texts handed to `embed` by `similarity(a, b)` with cache `cache`. */
  function SimilarityCalls(cache: map<string, seq<real>>, a: string, b: string,
                           embed: string -> Result<seq<real>>): (calls: seq<string>)
    ensures a in cache ==> calls == [b]
    ensures a !in cache ==> calls == (if embed(a).Ok? then [a, b] else [a])
  {
    (if a in cache then [] else [a]) + (if a in cache || embed(a).Ok? then [b] else [])
  }

  class EvaluationService {
    /** The reference embeddings computed so far, keyed by reference text. */
    var referenceCache: map<string, seq<real>>
    /** Every text handed to the model, in order. */
    ghost var embedCalls: seq<string>
    const submissions: Subs.SubmissionsService
    const embed: string -> Result<seq<real>>
    const sqrt: real -> real
    const env: Environment

    constructor(submissions: Subs.SubmissionsService, embed: string -> Result<seq<real>>,
                sqrt: real -> real, env: Environment)
      ensures this.submissions == submissions && this.embed == embed && this.sqrt == sqrt && this.env == env
      ensures referenceCache == map[] && embedCalls == []
      ensures Valid()
    {
      this.submissions := submissions;
      this.embed := embed;
      this.sqrt := sqrt;
      this.env := env;
      referenceCache := map[];
      embedCalls := [];
    }

    ghost predicate Valid()
      reads this
    {
      Coherent(referenceCache, embed)
    }

    /** `embed`: one call to the model. */
    method Embed(text: string) returns (r: Result<seq<real>>)
      modifies this
      ensures r == embed(text)
      ensures embedCalls == old(embedCalls) + [text]
      ensures referenceCache == old(referenceCache)
    {
      embedCalls := embedCalls + [text];
      r := embed(text);
    }

    /** `getReferenceEmbedding`: a cached vector is returned without asking
        the model; otherwise the model is asked once and a success is
        cached under the text. Either way the caller sees what `embed`
        gives. */
    method GetReferenceEmbedding(text: string) returns (r: Result<seq<real>>)
      requires Valid()
      modifies this
      ensures Valid()
      ensures r == embed(text)
      ensures referenceCache == Remember(old(referenceCache), text, embed)
      ensures text in old(referenceCache) ==> embedCalls == old(embedCalls)
      ensures text !in old(referenceCache) ==> embedCalls == old(embedCalls) + [text]
    {
      if text in referenceCache {
        return Ok(referenceCache[text]);
      }
      r := Embed(text);
      if r.Ok? {
        referenceCache := referenceCache[text := r.value];
      }
    }

    /** `similarity`: the reference embedding (through the cache), then the
        answer embedding, then their cosine. */
    method Similarity(a: string, b: string) returns (r: Result<real>)
      requires Valid()
      modifies this
      ensures Valid()
      ensures r == SimilarityOf(a, b, embed, sqrt)
      ensures referenceCache == Remember(old(referenceCache), a, embed)
      ensures embedCalls == old(embedCalls) + SimilarityCalls(old(referenceCache), a, b, embed)
    {
      var refEmb :- GetReferenceEmbedding(a);
      var ansEmb :- Embed(b);
      var c := Cosine(refEmb, ansEmb, sqrt);
      r := Ok(c);
    }

    /** `scoreTexts`. */
    method ScoreTexts(reference: string, answer: string) returns (r: Result<int>)
      requires Valid()
      modifies this
      ensures Valid()
      ensures r == ScoreOf(reference, answer, embed, sqrt)
      ensures referenceCache == Remember(old(referenceCache), reference, embed)
      ensures embedCalls == old(embedCalls) + SimilarityCalls(old(referenceCache), reference, answer, embed)
    {
      var similarity :- Similarity(reference, answer);
      r := Ok(ToScore(similarity));
    }

    /** `score(reference, answer)`. */
    method Score(reference: TextSource, answer: TextSource) returns (r: Result<int>)
      requires Valid()
      modifies this
      ensures Valid()
      ensures r == ScoreRequest(reference, answer, env, embed, sqrt)
      ensures var ref := ResolveTextSource(reference, Reference, env);
        var ans := ResolveTextSource(answer, Answer, env);
        if ref.Ok? && ans.Ok? then
          && referenceCache == Remember(old(referenceCache), ref.value, embed)
          && embedCalls == old(embedCalls) + SimilarityCalls(old(referenceCache), ref.value, ans.value, embed)
        else
          referenceCache == old(referenceCache) && embedCalls == old(embedCalls)
    {
      var ref :- ResolveSource(reference, Reference);
      var ans :- ResolveSource(answer, Answer);
      r := ScoreTexts(ref, ans);
    }

    /** `resolveTextSource`, as the service calls it. */
    method ResolveSource(source: TextSource, which: Label) returns (r: Result<string>)
      ensures r == ResolveTextSource(source, which, env)
    {
      r := ResolveTextSource(source, which, env);
    }

    /** `extractSubmissionFilesText`: reads the files one by one, in order,
        and joins their texts with blank lines. */
    method ExtractSubmissionFilesText(submission: SubmissionView) returns (r: Result<string>)
      ensures r == FilesText(submission.files, env)
    {
      var files := submission.files;
      if |files| == 0 {
        return Err(BadRequest(NoFiles));
      }
      var parts: seq<string> := [];
      ghost var results := FileResults(files, env);
      var i := 0;
      while i < |files|
        invariant 0 <= i <= |files|
        invariant Collect(results[..i]) == Ok(parts)
      {
        var part := ResolveSource(TextSource(None, Some(files[i].fileUrl)), Answer);
        assert part == results[i];
        CollectStep(results, i);
        if part.Err? {
          CollectFailsAt(results, i);
          return Err(part.error);
        }
        parts := parts + [part.value];
        i := i + 1;
      }
      assert results[..i] == results;
      r := Ok(JoinWith(parts, PartSeparator));
    }

    /** `autoEvaluate(submissionId)`: loads the submission, scores its files
        against the task's reference file, applies the late penalty and
        stores the result as the automatic score. */
    method AutoEvaluate(submissionId: string) returns (r: Result<int>)
      requires Valid() && submissions.db.Valid()
      modifies this, submissions.db
      ensures Valid() && submissions.db.Valid()
      ensures var found := Subs.View(old(submissions.db.users), old(submissions.db.courses), old(submissions.db.tasks), old(submissions.db.submissions), old(submissions.db.files), submissionId);
        r == AutoEvaluation(found, env, embed, sqrt)
      ensures r.Ok? ==> submissions.db.submissions == Subs.SetAutoScore(old(submissions.db.submissions), submissionId, r.value)
      ensures r.Err? ==> submissions.db.submissions == old(submissions.db.submissions)
      ensures var found := Subs.View(old(submissions.db.users), old(submissions.db.courses), old(submissions.db.tasks), old(submissions.db.submissions), old(submissions.db.files), submissionId);
        if found.Ok? && AutoInputs(found.value, env).Ok? then
          && referenceCache == Remember(old(referenceCache), AutoInputs(found.value, env).value.0, embed)
          && embedCalls == old(embedCalls) + SimilarityCalls(old(referenceCache), AutoInputs(found.value, env).value.0,
                                                             AutoInputs(found.value, env).value.1, embed)
        else
          referenceCache == old(referenceCache) && embedCalls == old(embedCalls)
      ensures submissions.db.users == old(submissions.db.users) && submissions.db.courses == old(submissions.db.courses)
      ensures submissions.db.tasks == old(submissions.db.tasks) && submissions.db.files == old(submissions.db.files)
    {
      ghost var found := Subs.View(submissions.db.users, submissions.db.courses, submissions.db.tasks, submissions.db.submissions, submissions.db.files, submissionId);
      var submission :- submissions.FindById(submissionId);
      if submission.task.None? || submission.task.value.referenceFileUrl == [] {
        return Err(BadRequest(NoReferenceFile));
      }
      var task := submission.task.value;
      var referenceText :- ResolveSource(TextSource(None, Some(task.referenceFileUrl)), Reference);
      var answerText :- ExtractSubmissionFilesText(submission);
      assert AutoInputs(submission, env) == Ok((referenceText, answerText));
      var score :- ScoreTexts(referenceText, answerText);
      score := DiscountLate(score, task.latePenaltyPercent, submission.submission.submittedAt, task.deadline);
      assert AutoEvaluation(found, env, embed, sqrt) == Ok(score);
      var _ := submissions.UpdateAutoScore(submissionId, score);
      r := Ok(score);
    }

    /** `setFinalScore`: handed to the submissions service unchanged. */
    method SetFinalScore(submissionId: string, finalScore: int) returns (r: Result<SubmissionView>)
      requires submissions.db.Valid()
      modifies submissions.db
      ensures submissions.db.Valid()
      ensures submissions.db.submissions == Subs.SetFinalScore(old(submissions.db.submissions), submissionId, finalScore)
      ensures r == Subs.View(submissions.db.users, submissions.db.courses, submissions.db.tasks, submissions.db.submissions, submissions.db.files, submissionId)
      ensures submissions.db.users == old(submissions.db.users) && submissions.db.courses == old(submissions.db.courses)
      ensures submissions.db.tasks == old(submissions.db.tasks) && submissions.db.files == old(submissions.db.files)
    {
      r := submissions.UpdateFinalScore(submissionId, finalScore);
    }
  }
}

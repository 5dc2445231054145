/** The request checks of the evaluation controller: turning the optional
    text and path fields of a request into a `TextSource`, and zipping the
    batch lists of answers and answer paths. */
module EvaluationController {
  import opened Wrappers
  import opened JsStrings
  import opened Collections
  import opened EvaluationService

  /** `value?.trim()`. */
  function TrimmedField(value: Option<string>): (r: Option<string>)
    ensures r.Some? <==> value.Some?
    ensures r.Some? ==> r.value == Trim(value.value)
  {
    match value
    case None => None
    case Some(s) => Some(Trim(s))
  }

  /** `!value` for a `string | undefined`: absent or empty. */
  predicate Blank(value: Option<string>) {
    value.None? || value.value == []
  }

  function ProvideEitherMessage(which: Label): string {
    "Provide either " + LabelName(which) + " text or " + LabelName(which) + "FilePath"
  }

  const NoBatchAnswers: string := "Provide answers or answerFilePaths for batch scoring"
  const BatchLengthMismatch: string := "answers and answerFilePaths must be the same length when both are provided"

  /** `buildSource`: both fields trimmed; a bad request when neither has
      anything left. */
  function BuildSource(text: Option<string>, filePath: Option<string>, which: Label): (r: Result<TextSource>)
    ensures r.Err? <==> Blank(TrimmedField(text)) && Blank(TrimmedField(filePath))
    ensures r.Err? ==> r.error == BadRequest(ProvideEitherMessage(which))
    ensures r.Ok? ==> r.value.text == TrimmedField(text) && r.value.filePath == TrimmedField(filePath)
  {
    var trimmedText := TrimmedField(text);
    var trimmedPath := TrimmedField(filePath);
    if Blank(trimmedText) && Blank(trimmedPath) then
      Err(BadRequest(ProvideEitherMessage(which)))
    else
      Ok(TextSource(trimmedText, trimmedPath))
  }

  /** `buildOptionalSource`: the same record, or nothing where `buildSource`
      would refuse. */
  function BuildOptionalSource(text: Option<string>, filePath: Option<string>): (r: Option<TextSource>)
    ensures r.None? <==> Blank(TrimmedField(text)) && Blank(TrimmedField(filePath))
  {
    var trimmedText := TrimmedField(text);
    var trimmedPath := TrimmedField(filePath);
    if Blank(trimmedText) && Blank(trimmedPath) then None
    else Some(TextSource(trimmedText, trimmedPath))
  }

  /** The optional builder refuses exactly where the strict one does, and
      otherwise builds the same source whichever label the strict one uses. */
  lemma OptionalSourceAgrees(text: Option<string>, filePath: Option<string>, which: Label)
    ensures BuildOptionalSource(text, filePath).None? <==> BuildSource(text, filePath, which).Err?
    ensures BuildOptionalSource(text, filePath).Some? ==>
      BuildSource(text, filePath, which) == Ok(BuildOptionalSource(text, filePath).value)
  {
  }

  lemma TrimTwice(s: string)
    ensures Trim(Trim(s)) == Trim(s)
  {
    TrimNoop(Trim(s));
  }

  /** A built source is already trimmed: building it again gives it back. */
  lemma BuildSourceStable(text: Option<string>, filePath: Option<string>, which: Label)
    requires BuildSource(text, filePath, which).Ok?
    ensures var src := BuildSource(text, filePath, which).value;
      BuildSource(src.text, src.filePath, which) == Ok(src)
  {
    if text.Some? { TrimTwice(text.value); }
    if filePath.Some? { TrimTwice(filePath.value); }
  }

  /** A source the controller accepts never reaches the service's
      "no text or file path" error: it either has inline text or a path. */
  lemma BuiltSourceIsResolvable(text: Option<string>, filePath: Option<string>, which: Label, env: Environment)
    requires BuildSource(text, filePath, which).Ok?
    ensures ResolveTextSource(BuildSource(text, filePath, which).value, which, env) != Err(BadRequest(NoSourceMessage(which)))
  {
    var src := BuildSource(text, filePath, which).value;
    if text.Some? { TrimTwice(text.value); }
    var r := ResolveTextSource(src, which, env);
    if Inline(src) == [] {
      assert src.filePath.Some? && src.filePath.value != [];
      if r.Err? && r.error.BadRequest? {
        assert r.error.message[0] == 'U';
        assert NoSourceMessage(which)[0] == 'N';
      }
    }
  }

  // ----------------------------------------------------------------- batches

  /** `list[index]` on a JavaScript array: `undefined` past the end. */
  function At(list: seq<string>, index: nat): (r: Option<string>)
    ensures index < |list| ==> r == Some(list[index])
    ensures index >= |list| ==> r.None?
  {
    if index < |list| then Some(list[index]) else None
  }

  function Max(a: nat, b: nat): nat {
    if a >= b then a else b
  }

  /** `buildSource` at every index up to the longer list. */
  function BatchResults(texts: seq<string>, paths: seq<string>): (rs: seq<Result<TextSource>>)
    ensures |rs| == Max(|texts|, |paths|)
    ensures forall i :: 0 <= i < |rs| ==> rs[i] == BuildSource(At(texts, i), At(paths, i), Answer)
  {
    seq(Max(|texts|, |paths|), i requires 0 <= i => BuildSource(At(texts, i), At(paths, i), Answer))
  }

  /** `buildBatchSources` as a value: the two list checks, then one source
      per index, all of them or the first refusal. */
  function BatchSources(answers: Option<seq<string>>, answerFilePaths: Option<seq<string>>): (r: Result<seq<TextSource>>)
    ensures var texts := answers.GetOr([]); var paths := answerFilePaths.GetOr([]);
      && (|texts| == 0 && |paths| == 0 ==> r == Err(BadRequest(NoBatchAnswers)))
      && (|texts| > 0 && |paths| > 0 && |texts| != |paths| ==> r == Err(BadRequest(BatchLengthMismatch)))
      && (r.Ok? ==> |r.value| == Max(|texts|, |paths|))
      && (r.Ok? ==> forall i :: 0 <= i < |r.value| ==>
            BuildSource(At(texts, i), At(paths, i), Answer) == Ok(r.value[i]))
  {
    var texts := answers.GetOr([]);
    var paths := answerFilePaths.GetOr([]);
    if |texts| == 0 && |paths| == 0 then Err(BadRequest(NoBatchAnswers))
    else if |texts| > 0 && |paths| > 0 && |texts| != |paths| then Err(BadRequest(BatchLengthMismatch))
    else Collect(BatchResults(texts, paths))
  }

  /** All or nothing: once the lists pass their checks, the batch is accepted
      exactly when every index has text or a path, and a single blank index
      refuses the whole batch with the message of `buildSource`. */
  lemma BatchAllOrNothing(answers: Option<seq<string>>, answerFilePaths: Option<seq<string>>)
    requires var texts := answers.GetOr([]); var paths := answerFilePaths.GetOr([]);
      !(|texts| == 0 && |paths| == 0) && !(|texts| > 0 && |paths| > 0 && |texts| != |paths|)
    ensures var texts := answers.GetOr([]); var paths := answerFilePaths.GetOr([]);
      && (BatchSources(answers, answerFilePaths).Ok? <==>
            forall i :: 0 <= i < Max(|texts|, |paths|) ==>
              !(Blank(TrimmedField(At(texts, i))) && Blank(TrimmedField(At(paths, i)))))
      && (BatchSources(answers, answerFilePaths).Err? ==>
            BatchSources(answers, answerFilePaths) == Err(BadRequest(ProvideEitherMessage(Answer))))
  {
    var texts := answers.GetOr([]);
    var paths := answerFilePaths.GetOr([]);
    var rs := BatchResults(texts, paths);
    assert forall i :: 0 <= i < |rs| ==> (rs[i].Ok? <==> !(Blank(TrimmedField(At(texts, i))) && Blank(TrimmedField(At(paths, i)))));
  }

  /** Answers given only as texts become inline sources with no path. */
  lemma TextOnlyBatch(answers: seq<string>)
    requires |answers| > 0
    requires forall i :: 0 <= i < |answers| ==> Trim(answers[i]) != []
    ensures BatchSources(Some(answers), None).Ok?
    ensures |BatchSources(Some(answers), None).value| == |answers|
    ensures forall i :: 0 <= i < |answers| ==>
      BatchSources(Some(answers), None).value[i] == TextSource(Some(Trim(answers[i])), None)
  {
    var rs := BatchResults(answers, []);
    assert forall i :: 0 <= i < |rs| ==> rs[i] == Ok(TextSource(Some(Trim(answers[i])), None));
  }

  /** `buildBatchSources`: the checks, then one `buildSource` per index. */
  method BuildBatchSources(answers: Option<seq<string>>, answerFilePaths: Option<seq<string>>)
    returns (r: Result<seq<TextSource>>)
    ensures r == BatchSources(answers, answerFilePaths)
  {
    var textList := answers.GetOr([]);
    var filePathList := answerFilePaths.GetOr([]);
    if |textList| == 0 && |filePathList| == 0 {
      return Err(BadRequest(NoBatchAnswers));
    }
    if |textList| > 0 && |filePathList| > 0 && |textList| != |filePathList| {
      return Err(BadRequest(BatchLengthMismatch));
    }
    r := BuildEachSource(textList, filePathList);
  }

  /** The index loop of `buildBatchSources`: `buildSource` on entry `index`
      of each list, up to the longer one, stopping at the first refusal. */
  method BuildEachSource(textList: seq<string>, filePathList: seq<string>) returns (r: Result<seq<TextSource>>)
    ensures r == Collect(BatchResults(textList, filePathList))
  {
    var maxLength := Max(|textList|, |filePathList|);
    ghost var results := BatchResults(textList, filePathList);
    var sources: seq<TextSource> := [];
    var index := 0;
    while index < maxLength
      invariant 0 <= index <= maxLength
      invariant Collect(results[..index]) == Ok(sources)
    {
      var source := BuildSource(At(textList, index), At(filePathList, index), Answer);
      assert source == results[index];
      CollectStep(results, index);
      if source.Err? {
        CollectFailsAt(results, index);
        return Err(source.error);
      }
      sources := sources + [source.value];
      index := index + 1;
    }
    assert results[..index] == results;
    r := Ok(sources);
  }
}

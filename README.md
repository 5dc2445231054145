# UniTask grading back end — a Dafny model

UniTask is a NestJS back end for university assignments. Teachers own
courses and publish tasks with a reference file, a deadline and a late
penalty. Students upload answer files and submit them. The evaluation
service scores a submission automatically: it extracts the text of the
reference and of the answer files, embeds both texts with a sentence model,
and maps the cosine similarity of the two embeddings onto a 0..100 score.
A late submission of a task with a positive penalty is discounted. Teachers
may then set a final score. Around this sit JWT authentication with rotating
refresh tokens, a role guard, the upload rules (allowed MIME types and
sanitised file names) and the request checks of the evaluation endpoints.

The model has one Dafny module per source file of that core, plus shared
modules that model the JavaScript and Node.js primitives the code relies on:
- `JsStrings`: `trim`, `\s`, `replace(/\s+/g, …)`, `toLowerCase`, `split` and `join`;
- `NodePath`: POSIX `isAbsolute`, `extname` and `basename`, and the leading-separator strip;
- `JsValues`: untyped request values, truthiness and `??`;
- `Collections`: `findOne`, `find` with `where`, `find` with `order`, and all-or-first-error over a list of results.

A loaded submission carries the relations its query requests. For
`findById` (and so `createSubmission` and both score updates) and for
`findByTask`, that includes the student's whole users row. Nothing in the
source strips fields from a response, so the model keeps the password hash
and the refresh-token hash in those views (`SubmissionsService.ViewCarriesStudentSecrets`).

The database is modelled by the `Entities.Database` class. Its tables are
`seq`s in insertion order; `findOne` returns the first matching row. The
services are classes over it. Their methods change only the tables they
name, and each one states the whole new state as a function of the old one.
The pure pieces are functions, and the properties are proved as lemmas
about those functions. The loops of the source are methods with loop
invariants, each proved equal to a specification function:
- `meanPool`, with its accumulation and scaling loops;
- `cosine`;
- `extractSubmissionFilesText`;
- `buildBatchSources`.

Everything foreign is a parameter of the model:
- the embedding model (`embed`);
- the file readers (`read`);
- the MIME lookup;
- `path.join` and the working directory;
- `Math.sqrt`;
- bcrypt hash and compare;
- JWT signing;
- date parsing;
- the generated ids, UUIDs and the clock.

## Model

| member | source | states |
|---|---|---|
| Scoring.Round | src/evaluation/evaluation.service.ts:176 | `Math.round`: the integer within half a unit of x, halves upwards |
| Scoring.RoundMonotone | src/evaluation/evaluation.service.ts:176 | rounding never reverses the order of two reals |
| Scoring.RoundOfInteger | src/evaluation/evaluation.service.ts:176 | rounding an integer gives it back |
| Scoring.ToScore | src/evaluation/evaluation.service.ts:173-177 | the score is always an integer in 0..100 |
| Scoring.ToScoreLinear | src/evaluation/evaluation.service.ts:173-177 | inside [-1, 1] the score is round((s + 1) * 50) |
| Scoring.ToScoreSaturates | src/evaluation/evaluation.service.ts:174 | similarities above 1 give 100, below -1 give 0 |
| Scoring.ToScoreMonotone | src/evaluation/evaluation.service.ts:173-177 | a higher similarity never gives a lower score |
| Scoring.ToScoreValues | src/evaluation/evaluation.service.ts:173-177 | -1, 0, 1, 0.6 and 0.5 map to 0, 50, 100, 80 and 75 |
| Scoring.PenaltyFactor | src/evaluation/evaluation.service.ts:74 | `max(0, 1 - p/100)` is non-negative, at most 1 for p >= 0, and 0 for p >= 100 |
| Scoring.LatePenalty | src/evaluation/evaluation.service.ts:69-78 | without a positive penalty and a strictly late submission the score is kept; otherwise a non-negative score only drops and stays non-negative, and a penalty of 100% or more gives 0 |
| Scoring.PenaltyRounded | src/evaluation/evaluation.service.ts:75 | rounding a score scaled by a factor in [0, 1] stays within 0..score, and a zero factor gives 0 |
| Scoring.LatePenaltyExamples | src/evaluation/evaluation.service.ts:69-78 | a late 90 with 20% gives 72; on time, without a penalty, or with 150% it gives 90, 90 and 0 |
| Scoring.LatePenaltyMonotone | src/evaluation/evaluation.service.ts:69-78 | a larger penalty never raises the discounted score |
| Scoring.Cosine | src/evaluation/evaluation.service.ts:153-170 | the loop over the shared prefix computes the cosine specified by `CosineOf` |
| Scoring.DotPrefix | src/evaluation/evaluation.service.ts:159-165 | the partial dot product reads only the first n entries |
| Scoring.CosineReadsSharedPrefix | src/evaluation/evaluation.service.ts:158-165 | entries of the longer vector past the shorter one's length do not matter |
| Scoring.DotSymmetric | src/evaluation/evaluation.service.ts:159-165 | the partial dot product is symmetric |
| Scoring.CosineSymmetric | src/evaluation/evaluation.service.ts:153-170 | the similarity is symmetric in its two vectors |
| Scoring.SquaresNonnegative | src/evaluation/evaluation.service.ts:162-163 | a partial squared norm is non-negative |
| Scoring.MulPositive | src/evaluation/evaluation.service.ts:169 | the product of two positive norms is positive |
| Scoring.MulNonnegative | src/evaluation/evaluation.service.ts:169 | the product of two non-negative norms is non-negative |
| Scoring.Square | src/evaluation/evaluation.service.ts:162-163 | a square is non-negative, and positive for a non-zero number |
| Scoring.CosineOfZeroVector | src/evaluation/evaluation.service.ts:167-168 | when either partial norm is zero the similarity is 0 |
| Scoring.RootsPositive | src/evaluation/evaluation.service.ts:167 | the roots of two positive sums of squares, and their product, are positive |
| Scoring.CosineOfPositiveSums | src/evaluation/evaluation.service.ts:167-169 | with two positive sums of squares the similarity is the dot product over the product of their roots |
| Scoring.CosineOfNonzero | src/evaluation/evaluation.service.ts:169 | otherwise it is the dot product over a positive product of the two norms |
| Scoring.CosineSelf | src/evaluation/evaluation.service.ts:153-170 | a non-zero vector has similarity 1 with itself |
| Tensor.EnsureTensorLike | src/evaluation/evaluation.service.ts:268-282 | accepts exactly an object with a `dims` array of two or more entries and a truthy `data` with a numeric length, unchanged; anything else is ServiceUnavailable with the tensor message |
| Tensor.ExtractLastHiddenState | src/evaluation/evaluation.service.ts:246-266 | a truthy `last_hidden_state` is checked first, then the first element of a non-empty array, then the value itself; a non-object is the "unexpected output" error, and exactly then; any result is tensor-like |
| Tensor.BareTensorAccepted | src/evaluation/evaluation.service.ts:259-261 | a tensor returned without a wrapper is accepted as it is |
| Tensor.WrappedTensorUnwrapped | src/evaluation/evaluation.service.ts:249-251 | a tensor under `last_hidden_state` is unwrapped whatever else the wrapper holds |
| Tensor.EmptyArrayIsInvalid | src/evaluation/evaluation.service.ts:253-263 | an empty array falls through to the shape test and is refused as an invalid tensor |
| Tensor.PoolShape | src/evaluation/evaluation.service.ts:293-299 | a three-entry shape gives (dims[1], dims[2]), any other (dims[0], dims[1]) |
| Tensor.RowInBounds | src/evaluation/evaluation.service.ts:305-306 | the index `t * hidden + h` of a row inside the buffer is in bounds |
| Tensor.RowsShrink | src/evaluation/evaluation.service.ts:303 | fewer rows take no more of the buffer |
| Tensor.MeanPool | src/evaluation/evaluation.service.ts:285-316 | returns a fresh vector of length `hidden` whose entry h is the mean over the token rows of `data[t * hidden + h]` |
| Tensor.AddRow | src/evaluation/evaluation.service.ts:304-307 | the inner loop adds token row t into every column sum |
| Tensor.Scale | src/evaluation/evaluation.service.ts:310-313 | the final loop turns every column sum into its mean (a factor of 1 with no tokens) |
| Tensor.NoTokensZeroVector | src/evaluation/evaluation.service.ts:310-313 | with no tokens every entry is 0 |
| Tensor.ConstantColumnSum | src/evaluation/evaluation.service.ts:303-308 | a column holding the same value c in t rows sums to t * c |
| Tensor.ConstantColumnMean | src/evaluation/evaluation.service.ts:285-316 | the mean of a constant column is that constant |
| EvaluationService.ResolveFilePath | src/evaluation/evaluation.service.ts:238-242 | an absolute path is kept; any other path loses its leading `/` and `\` characters and is joined to the working directory |
| EvaluationService.ResolveAgreesWithUploadsDir | src/evaluation/evaluation.service.ts:238-242 | a file path is resolved exactly as the uploads directory is |
| EvaluationService.BackslashIgnored | src/evaluation/evaluation.service.ts:241 | a leading backslash of a relative path makes no difference |
| EvaluationService.StoredUrlReadFromRoot | src/evaluation/evaluation.service.ts:238-242 | a stored `/uploads/<name>` is absolute, so it is read from the file-system root and not from the uploads directory |
| EvaluationService.FromExtraction | src/evaluation/evaluation.service.ts:223-235 | extraction succeeds exactly with a non-empty text; an unsupported type is a BadRequest naming the side and the type, and any other failure or an empty text is ServiceUnavailable |
| EvaluationService.ResolveTextSource | src/evaluation/evaluation.service.ts:210-236 | non-empty trimmed inline text wins; with no path it is a BadRequest; otherwise the text of the file at the resolved path; every success is non-empty and every error is BadRequest or ServiceUnavailable |
| EvaluationService.InlineTextIgnoresPath | src/evaluation/evaluation.service.ts:214-217 | with non-empty inline text the path is irrelevant and the trimmed text is returned |
| EvaluationService.FileTextIsNormalized | src/evaluation/evaluation.service.ts:223-226 | text read from a file is whitespace-normalised |
| EvaluationService.UnknownFileTypeIsBadRequest | src/evaluation/evaluation.service.ts:227-230 | a file whose type the lookup does not know is refused as a BadRequest |
| EvaluationService.FileTexts | src/evaluation/evaluation.service.ts:200-204 | the text of every file in file order, or the error of the first file that fails, and success exactly when every file reads |
| EvaluationService.FileResults | src/evaluation/evaluation.service.ts:200-204 | the outcome of reading each file, one per file |
| EvaluationService.FilesText | src/evaluation/evaluation.service.ts:191-206 | no files is a BadRequest; otherwise the file texts joined with a blank line, or the first file's error |
| EvaluationService.SingleFileText | src/evaluation/evaluation.service.ts:191-206 | a single file is scored on its own text |
| EvaluationService.SimilarityOf | src/evaluation/evaluation.service.ts:143-150 | succeeds exactly when both texts embed, with the cosine of the two vectors; otherwise the reference embedding's error comes first, then the answer's |
| EvaluationService.ScoreOf | src/evaluation/evaluation.service.ts:138-141 | the similarity on the 0..100 scale, or the similarity's error |
| EvaluationService.SameTextFullMarks | src/evaluation/evaluation.service.ts:138-177 | a text whose embedding is non-zero scores 100 against itself |
| EvaluationService.ScoreSymmetric | src/evaluation/evaluation.service.ts:138-170 | swapping reference and answer does not change the score |
| EvaluationService.ZeroAnswerScoresHalf | src/evaluation/evaluation.service.ts:138-177 | an answer embedded as the zero vector scores 50 |
| EvaluationService.ScoreRequest | src/evaluation/evaluation.service.ts:86-90 | resolves the reference text, then the answer text, and scores them; the first error is returned; every score is in 0..100 |
| EvaluationService.AutoInputs | src/evaluation/evaluation.service.ts:57-65 | a submission whose task has no reference file is a BadRequest; otherwise the reference file's text and the submission's files' text |
| EvaluationService.AutoEvaluation | src/evaluation/evaluation.service.ts:54-83 | a missing submission or missing input propagates its error; a result is in 0..100 |
| EvaluationService.AutoEvaluationPenalty | src/evaluation/evaluation.service.ts:67-80 | a submission on time, or a task without a positive penalty, keeps the score; a late submission gets at most the score, and 0 with a penalty of 100% or more |
| EvaluationService.DiscountLate | src/evaluation/evaluation.service.ts:67-78 | the reassignment of `score` computes the late penalty |
| EvaluationService.Remember | src/evaluation/evaluation.service.ts:180-187 | a cached text leaves the cache alone; a missing one is inserted under that exact key when it embeds |
| EvaluationService.RememberGrows | src/evaluation/evaluation.service.ts:180-187 | no cache entry is changed or removed, only the asked text can be added, and every entry stays the embedding of its key |
| EvaluationService.RememberIdempotent | src/evaluation/evaluation.service.ts:180-187 | asking twice for the same reference is asking once |
| EvaluationService.SimilarityCalls | src/evaluation/evaluation.service.ts:143-150 | a cached reference costs one model call (the answer); an uncached one costs two, or one when the reference fails |
| EvaluationService.EvaluationService.constructor | src/evaluation/evaluation.service.ts:40 | the service starts with an empty reference cache |
| EvaluationService.EvaluationService.Embed | src/evaluation/evaluation.service.ts:123-135 | one model call, recorded, with the model's result |
| EvaluationService.EvaluationService.GetReferenceEmbedding | src/evaluation/evaluation.service.ts:180-187 | returns the embedding of the text; a cache hit calls no model, a miss calls it once and the cache becomes `Remember` of the old one |
| EvaluationService.EvaluationService.Similarity | src/evaluation/evaluation.service.ts:143-150 | returns `SimilarityOf`, through the cache for the reference, with exactly the model calls `SimilarityCalls` lists |
| EvaluationService.EvaluationService.ScoreTexts | src/evaluation/evaluation.service.ts:138-141 | returns `ScoreOf`, with the same cache update and calls |
| EvaluationService.EvaluationService.Score | src/evaluation/evaluation.service.ts:86-90 | returns `ScoreRequest`; the model is asked only when both texts resolve |
| EvaluationService.EvaluationService.ResolveSource | src/evaluation/evaluation.service.ts:210-236 | returns `ResolveTextSource` in the service's environment |
| EvaluationService.EvaluationService.ExtractSubmissionFilesText | src/evaluation/evaluation.service.ts:191-206 | the loop over the files returns `FilesText` |
| EvaluationService.EvaluationService.AutoEvaluate | src/evaluation/evaluation.service.ts:54-83 | returns `AutoEvaluation`; a score is stored as the automatic score of that submission, an error stores nothing, and no other table changes |
| EvaluationService.EvaluationService.SetFinalScore | src/evaluation/evaluation.service.ts:93-98 | the final score is stored and the submission graded, and the stored submission is returned |
| EvaluationController.TrimmedField | src/evaluation/evaluation.controller.ts:116-117 | `value?.trim()`: present exactly when the field is, and then trimmed |
| EvaluationController.BuildSource | src/evaluation/evaluation.controller.ts:111-129 | a BadRequest exactly when both trimmed fields are absent or empty; otherwise the trimmed text and trimmed path, not the originals |
| EvaluationController.BuildOptionalSource | src/evaluation/evaluation.controller.ts:131-146 | nothing exactly under the same emptiness condition |
| EvaluationController.OptionalSourceAgrees | src/evaluation/evaluation.controller.ts:111-146 | the optional builder refuses exactly where the strict one does, and otherwise builds the same source |
| EvaluationController.TrimTwice | src/evaluation/evaluation.controller.ts:116-117 | trimming is idempotent |
| EvaluationController.BuildSourceStable | src/evaluation/evaluation.controller.ts:111-129 | a built source is already trimmed, so building it again gives it back |
| EvaluationController.BuiltSourceIsResolvable | src/evaluation/evaluation.controller.ts:111-129 | a source the controller accepts never meets the service's "no text or file path" error |
| EvaluationController.At | src/evaluation/evaluation.controller.ts:174-175 | a list entry, or nothing past the end |
| EvaluationController.BatchResults | src/evaluation/evaluation.controller.ts:171-184 | one `buildSource` per index up to the longer list |
| EvaluationController.BatchSources | src/evaluation/evaluation.controller.ts:148-185 | both lists empty or two non-empty lists of different lengths are BadRequests; a success has the longer list's length, with element i built from entry i of each list |
| EvaluationController.BatchAllOrNothing | src/evaluation/evaluation.controller.ts:171-184 | past the list checks, the batch succeeds exactly when every index has text or a path, and one blank index fails it with `buildSource`'s message |
| EvaluationController.TextOnlyBatch | src/evaluation/evaluation.controller.ts:148-185 | texts without paths become trimmed inline sources, one per text |
| EvaluationController.BuildEachSource | src/evaluation/evaluation.controller.ts:171-184 | the index loop returns every built source in order, or the first refusal |
| EvaluationController.BuildBatchSources | src/evaluation/evaluation.controller.ts:148-185 | the checks and the index loop return `BatchSources` |
| TextExtraction.SupportedExactly | src/utils/text-extraction.util.ts:16-23 | exactly pdf, docx, plain text, JPEG and PNG are supported |
| TextExtraction.UnsupportedMessage | src/utils/text-extraction.util.ts:25-30 | the error message names the rejected type |
| TextExtraction.DetectMimeType | src/utils/text-extraction.util.ts:32-33 | the lookup's type, or `application/octet-stream` when it fails |
| TextExtraction.ReaderFor | src/utils/text-extraction.util.ts:42-54 | pdf goes to the PDF reader, docx to the Word reader, plain text to the text reader, and both image types to OCR |
| TextExtraction.NormalizeWhitespace | src/utils/text-extraction.util.ts:80-81 | the output is no longer than the input and has no whitespace at either end |
| TextExtraction.NormalizeShape | src/utils/text-extraction.util.ts:80-81 | every output has the normalised shape: trimmed, every whitespace character a single space, no two adjacent |
| TextExtraction.NormalizedIsFixpoint | src/utils/text-extraction.util.ts:80-81 | a text has the normalised shape exactly when normalising leaves it unchanged |
| TextExtraction.NormalizeIdempotent | src/utils/text-extraction.util.ts:80-81 | normalising twice is normalising once |
| TextExtraction.NormalizeKeepsText | src/utils/text-extraction.util.ts:80-81 | the non-whitespace characters are kept in their order |
| TextExtraction.ExtractText | src/utils/text-extraction.util.ts:35-55 | an unsupported detected type is rejected with that type before anything is read; otherwise the reader's text, normalised, or the reader's failure |
| TextExtraction.ExtractionUsesReader | src/utils/text-extraction.util.ts:42-54 | a supported type is read by its own reader |
| TextExtraction.UnknownExtensionRejected | src/utils/text-extraction.util.ts:32-40 | a path the lookup does not know is always rejected |
| TextExtraction.ImagesShareReader | src/utils/text-extraction.util.ts:49-51 | JPEG and PNG go through the same OCR reader |
| MulterConfig.FileFilter | src/files/multer.config.ts:41-51 | accepts exactly the seven allow-listed types and rejects every other with a BadRequest |
| MulterConfig.AllowListCoversExtractor | src/files/multer.config.ts:15-23 | every type the extractor reads may be uploaded, and `application/msword` and `image/jpg` are exactly the uploadable types it cannot read |
| MulterConfig.KeepSafe | src/files/multer.config.ts:34 | the filter keeps only `[a-z0-9_-]` and leaves a safe string unchanged |
| MulterConfig.SanitizeStem | src/files/multer.config.ts:31-34 | the sanitised base holds only safe characters |
| MulterConfig.SafeBase | src/files/multer.config.ts:35 | the base is never empty and only safe, falling back to `file` |
| MulterConfig.UnsafeNameFallsBack | src/files/multer.config.ts:31-35 | a name with no safe character becomes `file` |
| MulterConfig.NothingSafeKept | src/files/multer.config.ts:34 | a string without safe characters filters to nothing |
| MulterConfig.SafeCharNotWhitespace | src/files/multer.config.ts:32-34 | a safe character is not whitespace and is already lower case |
| MulterConfig.LowerKeeps | src/files/multer.config.ts:32 | lower-casing leaves safe characters and whitespace alone |
| MulterConfig.SafeWordNoWhitespace | src/files/multer.config.ts:33 | a safe word holds no whitespace |
| MulterConfig.CollapseBetweenWords | src/files/multer.config.ts:33 | a whitespace run between two safe words collapses to one `-` |
| MulterConfig.SafeOrWhitespace | src/files/multer.config.ts:32-33 | two safe words around whitespace contain only safe or whitespace characters |
| MulterConfig.SafeJoin | src/files/multer.config.ts:33-34 | two safe words joined by `-` are safe |
| MulterConfig.WhitespaceRunBecomesHyphen | src/files/multer.config.ts:31-34 | two safe words separated by any whitespace run are joined by a single `-` |
| MulterConfig.GeneratedName | src/files/multer.config.ts:29-38 | the name is the safe base, then `-` and the UUID, then the lower-cased extension, and nothing else |
| MulterConfig.LowerKeepsDotAndSlash | src/files/multer.config.ts:36 | lower-casing adds no dot or slash and keeps a leading dot |
| MulterConfig.StemFree | src/files/multer.config.ts:36 | the base and UUID part holds no dot or slash |
| MulterConfig.GeneratedNameKeepsExtension | src/files/multer.config.ts:30-36 | the generated name's extension is the original's, lower-cased, and its stem is base and UUID |
| MulterConfig.ToPublicUrl | src/files/multer.config.ts:53-54 | the URL is `/uploads/` followed by the file name |
| MulterConfig.PublicUrlIsStoredPath | src/files/multer.config.ts:53-54 | the public URL is the path stored for the file |
| UploadsConfig.ConfiguredDir | src/config/uploads.config.ts:4 | only a missing variable falls back to `uploads` |
| UploadsConfig.UploadsRelativePath | src/config/uploads.config.ts:6 | a suffix of the directory with no leading separator, having dropped only separators |
| UploadsConfig.RelativePathStable | src/config/uploads.config.ts:6 | stripping twice strips nothing more |
| UploadsConfig.RelativePathKeepsPlainDir | src/config/uploads.config.ts:6 | a directory without leading separators is kept |
| UploadsConfig.UploadsDir | src/config/uploads.config.ts:7-9 | an absolute directory is used as is, any other is joined to the working directory after stripping |
| UploadsConfig.BackslashPrefixIgnored | src/config/uploads.config.ts:6-9 | a leading backslash of a relative directory makes no difference |
| UploadsConfig.DefaultUploadsDir | src/config/uploads.config.ts:4-9 | by default uploads live in `<cwd>/uploads` |
| UploadsConfig.BuildStoredFilePath | src/config/uploads.config.ts:18-19 | the stored path is `/uploads/` followed by the file name |
| UploadsConfig.StoredPathInjective | src/config/uploads.config.ts:18-19 | different names are stored under different paths |
| UploadsConfig.StoredPathIsAbsolute | src/config/uploads.config.ts:18-19 | the stored path is absolute |
| RolesGuard.CanActivate | src/auth/guards/roles.guard.ts:16-33 | no or empty requirement admits everyone; otherwise a missing user or role is refused and a role is admitted exactly when it is listed |
| RolesGuard.MoreRolesNeverDeny | src/auth/guards/roles.guard.ts:32 | adding a role to a non-empty requirement never turns an allow into a deny |
| RolesGuard.RolelessUser | src/auth/guards/roles.guard.ts:22-30 | a user without a role passes exactly when nothing is required |
| JwtRefreshStrategy.ExtractToken | src/auth/strategies/jwt-refresh.strategy.ts:42-54 | no or empty header is "missing"; otherwise the second space-separated field, and "malformed" when that is absent or empty; a token is non-empty without spaces |
| JwtRefreshStrategy.SchemeThenToken | src/auth/strategies/jwt-refresh.strategy.ts:48-53 | `<scheme> <token>` gives the token, whatever the scheme and whatever follows |
| JwtRefreshStrategy.SchemeOnlyMalformed | src/auth/strategies/jwt-refresh.strategy.ts:48-51 | the scheme word alone is malformed |
| JwtRefreshStrategy.SplitSingle | src/auth/strategies/jwt-refresh.strategy.ts:48 | a string without the separator splits into one piece |
| JwtRefreshStrategy.DoubleSpaceMalformed | src/auth/strategies/jwt-refresh.strategy.ts:48-51 | two spaces after the scheme leave an empty field: malformed |
| JwtRefreshStrategy.Validate | src/auth/strategies/jwt-refresh.strategy.ts:33-40 | fails exactly when extraction does; otherwise every payload field unchanged plus `refreshToken` set to the token, and no other key |
| CurrentUserId.CurrentUserId | src/auth/decorators/current-user-id.decorator.ts:11-17 | `sub` unless nullish, then `id` unless nullish, else null; null exactly without a user or both; never undefined |
| CurrentUserId.SubWins | src/auth/decorators/current-user-id.decorator.ts:15 | a present `sub` wins over a present `id` |
| CurrentUserId.EmptySubKept | src/auth/decorators/current-user-id.decorator.ts:15 | an empty `sub` is returned as it is |
| CurrentUserId.NullSubFallsBack | src/auth/decorators/current-user-id.decorator.ts:15 | a null `sub` falls back to `id` |
| CurrentUser.CurrentUser | src/auth/decorators/current-user.decorator.ts:8-23 | null without a user; the whole user without a key or with an empty key; otherwise the field, or undefined when it is missing |
| CurrentUser.MissingFieldIsNotNoUser | src/auth/decorators/current-user.decorator.ts:13-21 | a missing field reads differently from a missing user |
| JsValues.Get | src/auth/decorators/current-user.decorator.ts:21 | property access gives the field or undefined |
| JsValues.Coalesce | src/auth/decorators/current-user-id.decorator.ts:15 | `a ?? b` is b exactly when a is nullish |
| UsersService.NewUser | src/users/users.service.ts:16-23 | the DTO's fields, the role defaulting to Student, no refresh hash |
| UsersService.FindByEmail | src/users/users.service.ts:25-29 | a stored user with exactly that email, or none exactly when there is none |
| UsersService.FindById | src/users/users.service.ts:31-35 | a stored user with exactly that id, or none exactly when there is none |
| UsersService.FindByIdUnique | src/users/users.service.ts:31-35 | with unique ids the row holding the id is found |
| UsersService.SetRefreshToken | src/users/users.service.ts:45-54 | the update keeps every row's id and email; the rows with that id get the new hash and nothing else of theirs changes; every other row is unchanged |
| UsersService.SetRefreshTokenOthers | src/users/users.service.ts:45-54 | any other user is found unchanged |
| UsersService.FirstPrefix | src/users/users.service.ts:31-35 | the first row with the id is the one found |
| UsersService.SetRefreshTokenSelf | src/users/users.service.ts:45-54 | the user then holds the new hash and nothing else of theirs changed |
| UsersService.StripSensitiveFields | src/users/users.service.ts:56-69 | null gives null; otherwise every field but the two hashes, unchanged |
| UsersService.StripForgetsOnlySecrets | src/users/users.service.ts:61-68 | two users strip equally exactly when they differ at most in the two hashes |
| UsersService.UsersService.Create | src/users/users.service.ts:16-23 | appends `NewUser` to the users table, nothing else changes |
| UsersService.UsersService.StoreRefreshToken | src/users/users.service.ts:45-50 | the users table becomes `SetRefreshToken` with the hash, nothing else changes |
| UsersService.UsersService.ClearRefreshToken | src/users/users.service.ts:52-54 | the users table becomes `SetRefreshToken` with null, nothing else changes |
| AuthService.PayloadOf | src/auth/auth.service.ts:115-119 | the token claims are the user's id, email and role |
| AuthService.LoginCheck | src/auth/auth.service.ts:50-68 | success exactly when the lower-cased email is stored and the password matches its hash, with that user; every failure is the same Unauthorized |
| AuthService.LoginFailuresLookAlike | src/auth/auth.service.ts:54-65 | an unknown email and a wrong password fail identically |
| AuthService.LoginIgnoresCase | src/auth/auth.service.ts:51 | logging in with a lower-cased email is the same as with the original |
| AuthService.RefreshCheck | src/auth/auth.service.ts:74-93 | success exactly when the user exists, has a non-empty stored hash and the token matches it; every failure is Forbidden |
| AuthService.RefreshAfterIssue | src/auth/auth.service.ts:101-106 | refreshing with the token whose hash was just stored succeeds |
| AuthService.RefreshAfterLogout | src/auth/auth.service.ts:70-81 | after logout no token refreshes that user |
| AuthService.LogoutKeepsOthers | src/auth/auth.service.ts:70-72 | logging out one user does not change another's refresh |
| AuthService.AuthService.constructor | src/auth/auth.service.ts:22-26 | the service keeps the user store and the hash, compare and sign functions |
| AuthService.AuthService.IssueTokensForUser | src/auth/auth.service.ts:95-112 | signs both tokens over the user's claims, returns the stripped user, and stores the hash of the new refresh token for that user only |
| AuthService.AuthService.Register | src/auth/auth.service.ts:28-48 | a taken lower-cased email is a Conflict and changes nothing; otherwise the user is created with the lower-cased email, and the access and refresh tokens signed over its claims are returned |
| AuthService.AuthService.Login | src/auth/auth.service.ts:50-68 | the decision is `LoginCheck`; success returns the access and refresh tokens signed over the user's claims and stores the refresh hash, failure changes nothing |
| AuthService.AuthService.Logout | src/auth/auth.service.ts:70-72 | clears the stored hash, after which every refresh of that user is Forbidden |
| AuthService.AuthService.RefreshTokens | src/auth/auth.service.ts:74-93 | the decision is `RefreshCheck`; success returns the access and refresh tokens signed over the user's claims and stores the new refresh hash, failure changes nothing |
| AuthService.AppendThenSet | src/auth/auth.service.ts:40-47 | storing the hash of the user just created changes only that row |
| Entities.FindTask | src/tasks/tasks.service.ts:85-88 | `findOne` over tasks, shared by both services: a stored task with that id, or none exactly when there is none |
| Entities.FindCourse | src/tasks/tasks.service.ts:25-27 | `findOne` over courses, shared by both services: a stored course with that id, or none exactly when there is none |
| TasksService.ParseDeadline | src/tasks/tasks.service.ts:141-151 | a date passes through; a string must parse, else BadRequest |
| TasksService.ParseOptionalDeadline | src/tasks/tasks.service.ts:141-151 | an absent deadline is the invalid-deadline BadRequest; a present one is parsed as `parseDeadline` parses it |
| TasksService.CreateCheck | src/tasks/tasks.service.ts:24-50 | a missing course is NotFound and a foreign course Forbidden, both before the deadline is parsed; for the owner it fails exactly when the deadline is absent or does not parse; a task carries the DTO's fields with description null, penalty 0 and status Draft by default |
| TasksService.CreateWithoutDeadline | src/tasks/tasks.service.ts:24-50 | a body without `deadline` is always refused, and for the course owner with the invalid-deadline BadRequest |
| TasksService.Merge | src/tasks/tasks.service.ts:98-112 | fails exactly on an unparsable deadline; otherwise each field the DTO carries replaces the task's, and every other field is kept |
| TasksService.MergeEmpty | src/tasks/tasks.service.ts:98-112 | an update without fields changes nothing |
| TasksService.MergeIdempotent | src/tasks/tasks.service.ts:98-112 | applying an update twice is applying it once |
| TasksService.MergeTitleThenStatus | src/tasks/tasks.service.ts:98-112 | updates of disjoint fields commute |
| TasksService.Replace | src/tasks/tasks.service.ts:114 | saving a stored task replaces exactly the rows with its id |
| TasksService.FindByCourse | src/tasks/tasks.service.ts:65-78 | NotFound exactly for a missing course; otherwise a permutation of that course's tasks, by ascending deadline |
| TasksService.FindByCourseComplete | src/tasks/tasks.service.ts:74-77 | every task of the course is listed |
| TasksService.OwnedTask | src/tasks/tasks.service.ts:85-96 | a missing task is NotFound, then a foreign course Forbidden; otherwise the stored task |
| TasksService.TasksService.Create | src/tasks/tasks.service.ts:24-50 | returns `CreateCheck` and appends the task on success only |
| TasksService.ApplyUpdate | src/tasks/tasks.service.ts:98-112 | the field assignments, one carried field at a time, give exactly `Merge`: each carried field replaced, the rest kept, an unparsable deadline a BadRequest |
| TasksService.TasksService.Update | src/tasks/tasks.service.ts:80-115 | after the ownership check the merged task replaces the stored one; any failure changes nothing |
| TasksService.TasksService.UpdateReference | src/tasks/tasks.service.ts:117-139 | after the ownership check only the reference file changes |
| TasksService.ReplaceKeepsKeys | src/tasks/tasks.service.ts:114 | replacing a task by one with the same id and course keeps the keys valid |
| SubmissionsService.FindSubmission | src/submissions/submissions.service.ts:54-57 | a stored submission with that id, or none exactly when there is none |
| SubmissionsService.FilesOf | src/submissions/submissions.service.ts:56 | the `files` relation: exactly the file rows of the submission |
| SubmissionsService.CourseOf | src/submissions/submissions.service.ts:56 | the `task.course` relation: none without a task; otherwise a stored course with the task's course id, none exactly when there is none |
| SubmissionsService.View | src/submissions/submissions.service.ts:53-64 | NotFound exactly for an unknown id; otherwise the submission with all four relations of line 56: its files, its student's stored row, its task and that task's course |
| SubmissionsService.ViewCarriesStudentSecrets | src/submissions/submissions.service.ts:56 | with unique user ids the loaded student is the stored row, so the view carries the student's password hash and refresh-token hash |
| SubmissionsService.NewFiles | src/submissions/submissions.service.ts:121-133 | one file row per URL, in input order, each pointing at the submission |
| SubmissionsService.NewSubmission | src/submissions/submissions.service.ts:40-44 | a Pending submission of the student for the task, not yet scored |
| SubmissionsService.NewFilesAreTheFiles | src/submissions/submissions.service.ts:46-50 | a new submission's files are exactly its new rows |
| SubmissionsService.NewestFirst | src/submissions/submissions.service.ts:67-71 | a permutation of the matching submissions, newest first |
| SubmissionsService.NewestFirstComplete | src/submissions/submissions.service.ts:67-71 | every matching submission is listed |
| SubmissionsService.WithRelations | src/submissions/submissions.service.ts:66-98 | each listed submission gets its files, and its student or its task exactly when the listing requests that relation; never the task's course |
| SubmissionsService.FindByStudent | src/submissions/submissions.service.ts:66-72 | a permutation of the student's submissions, newest first, each with its task and files and without student or course |
| SubmissionsService.Submissions | src/submissions/submissions.service.ts:66-72 | the submissions of a listing without their relations |
| SubmissionsService.SubmissionsOfRelations | src/submissions/submissions.service.ts:66-72 | attaching relations keeps the listed submissions |
| SubmissionsService.FindByTask | src/submissions/submissions.service.ts:74-98 | NotFound for a missing task, Forbidden for a foreign course; otherwise a permutation of the task's submissions, newest first, each with its files and its student's stored row (hashes included), and without task or course |
| SubmissionsService.SetAutoScore | src/submissions/submissions.service.ts:104-106 | the update keeps the table's length and every row's id, and every row with another id is unchanged |
| SubmissionsService.AutoScoreOthers | src/submissions/submissions.service.ts:100-108 | after `updateAutoScore` of one id, every other submission is found exactly as before |
| SubmissionsService.SetFinalScore | src/submissions/submissions.service.ts:114-117 | the update keeps the table's length and every row's id, and every row with another id is unchanged |
| SubmissionsService.FinalScoreOthers | src/submissions/submissions.service.ts:110-119 | after `updateFinalScore` of one id, every other submission is found exactly as before |
| SubmissionsService.FindSamePlace | src/submissions/submissions.service.ts:100-119 | an update that keeps ids keeps where each submission is found |
| SubmissionsService.AutoScoreSet | src/submissions/submissions.service.ts:100-108 | afterwards the submission has the new automatic score and is otherwise unchanged |
| SubmissionsService.FinalScoreSet | src/submissions/submissions.service.ts:110-119 | afterwards the submission has the new final score and is Graded, otherwise unchanged |
| SubmissionsService.ScoreOfMissingSubmission | src/submissions/submissions.service.ts:100-119 | updating an unknown id changes nothing |
| SubmissionsService.AutoScoreKeepsGrade | src/submissions/submissions.service.ts:100-119 | re-scoring automatically after grading keeps the grade |
| SubmissionsService.SameIdsKeepKeys | src/submissions/submissions.service.ts:104-117 | updates that keep every id keep the table keys valid |
| SubmissionsService.AppendKeepsKeys | src/submissions/submissions.service.ts:46-48 | saving a submission with a fresh id and fresh file rows pointing at it keeps every key valid, and no stored file pointed at it before |
| SubmissionsService.SubmissionsService.CreateSubmission | src/submissions/submissions.service.ts:27-51 | NotFound for a missing task, changing nothing; otherwise appends the Pending submission and its file rows and returns its view: the new rows, the student's stored row, the task and its course |
| SubmissionsService.SubmissionsService.FindById | src/submissions/submissions.service.ts:53-64 | returns `View`, with the student, task, course and files relations |
| SubmissionsService.SubmissionsService.UpdateAutoScore | src/submissions/submissions.service.ts:100-108 | the submissions table becomes `SetAutoScore` and the result is the stored view |
| SubmissionsService.SubmissionsService.UpdateFinalScore | src/submissions/submissions.service.ts:110-119 | the submissions table becomes `SetFinalScore` and the result is the stored view |
| Collections.First | src/users/users.service.ts:25-29 | `findOne`: none exactly when no row matches, otherwise the first matching row |
| Collections.FirstSamePlace | src/submissions/submissions.service.ts:100-119 | when a condition holds at the same places of two equally long tables, both have their first match at the same place |
| Collections.FirstOfUnique | src/users/users.service.ts:25-29 | a unique match is found |
| Collections.Filter | src/tasks/tasks.service.ts:74-77 | the rows of `where`: only matching rows, and every matching row |
| Collections.FilterAppend | src/submissions/submissions.service.ts:46 | filtering after an append filters the new row alone |
| Collections.FilterConcat | src/submissions/submissions.service.ts:48 | filtering distributes over concatenation |
| Collections.FilterAllOrNone | src/submissions/submissions.service.ts:48 | a condition that holds everywhere keeps all, one that holds nowhere keeps none |
| Collections.Collect | src/evaluation/evaluation.service.ts:200-204 | all values in order when every result succeeds, else the first error |
| Collections.CollectFailsAt | src/evaluation/evaluation.controller.ts:174-182 | the first failing index decides the error |
| Collections.CollectStep | src/evaluation/evaluation.controller.ts:172-183 | one loop step extends the collected prefix by one result |
| Collections.Insert | src/tasks/tasks.service.ts:76 | inserting into a sorted list keeps it sorted and adds exactly that element |
| Collections.InsertStep | src/tasks/tasks.service.ts:76 | the recursive step of the insertion |
| Collections.SortBy | src/tasks/tasks.service.ts:76 | `order`: a sorted permutation of the rows |
| Collections.SortKeepsElements | src/tasks/tasks.service.ts:76 | sorting keeps exactly the same elements |
| JsStrings.TrimStart | src/evaluation/evaluation.controller.ts:116 | drops exactly the maximal whitespace prefix |
| JsStrings.TrimEnd | src/evaluation/evaluation.controller.ts:116 | drops exactly the maximal whitespace suffix |
| JsStrings.Trim | src/evaluation/evaluation.controller.ts:116-117 | a slice of the input with no whitespace at either end |
| JsStrings.TrimNoop | src/evaluation/evaluation.service.ts:214 | a string already trimmed is its own trimming |
| JsStrings.TrimStartNonWhitespace | src/utils/text-extraction.util.ts:81 | dropping the prefix drops only whitespace |
| JsStrings.TrimEndNonWhitespace | src/utils/text-extraction.util.ts:81 | dropping the suffix drops only whitespace |
| JsStrings.TrimNonWhitespace | src/utils/text-extraction.util.ts:81 | trimming removes whitespace only |
| JsStrings.NonWhitespaceConcat | src/utils/text-extraction.util.ts:81 | the non-whitespace characters of a concatenation are those of its parts |
| JsStrings.Collapse | src/utils/text-extraction.util.ts:81 | every output character is the replacement or not whitespace, and the output is no longer |
| JsStrings.CollapseWordPrefix | src/utils/text-extraction.util.ts:81 | text without whitespace passes through unchanged |
| JsStrings.CollapseWhitespaceRun | src/utils/text-extraction.util.ts:81 | a whole whitespace run becomes one replacement |
| JsStrings.CollapseRunThenWord | src/files/multer.config.ts:33 | a whitespace run before a word without whitespace becomes one replacement |
| JsStrings.CollapseAroundRun | src/files/multer.config.ts:33 | a whitespace run between two words without whitespace becomes one replacement |
| JsStrings.TrimStartOfRun | src/utils/text-extraction.util.ts:81 | trimming a whitespace run before a word leaves the word |
| JsStrings.CollapseHead | src/utils/text-extraction.util.ts:81 | collapsing keeps a leading non-whitespace character |
| JsStrings.PrependNoAdjacent | src/utils/text-extraction.util.ts:81 | prepending a character that does not extend a run keeps runs single |
| JsStrings.CollapseNoAdjacent | src/utils/text-extraction.util.ts:81 | with a whitespace replacement no two whitespace characters are adjacent |
| JsStrings.CollapseNonWhitespace | src/utils/text-extraction.util.ts:81 | with a whitespace replacement collapsing drops only whitespace |
| JsStrings.CollapseFixpoint | src/utils/text-extraction.util.ts:81 | a text whose whitespace is already single replacements is unchanged |
| JsStrings.SliceKeepsShape | src/utils/text-extraction.util.ts:81 | a slice of such a text keeps that shape |
| JsStrings.TrimKeepsShape | src/utils/text-extraction.util.ts:81 | trimming keeps every whitespace character single and equal to the replacement |
| JsStrings.ToLower | src/auth/auth.service.ts:29 | lower-casing keeps the length |
| JsStrings.ToLowerIdempotent | src/auth/auth.service.ts:29 | lower-casing twice is lower-casing once |
| JsStrings.Split | src/auth/strategies/jwt-refresh.strategy.ts:48 | a split has at least one piece |
| JsStrings.SplitJoin | src/auth/strategies/jwt-refresh.strategy.ts:48 | joining the pieces with the separator gives the input back |
| JsStrings.SplitPiecesFree | src/auth/strategies/jwt-refresh.strategy.ts:48 | no piece contains the separator |
| JsStrings.SplitFirst | src/auth/strategies/jwt-refresh.strategy.ts:48 | a separator-free prefix before a separator or the end is the first piece |
| JsStrings.SplitAfterSeparator | src/auth/strategies/jwt-refresh.strategy.ts:48 | a separator-free prefix and its separator split off as the first piece |
| NodePath.StripLeadingSeparators | src/evaluation/evaluation.service.ts:241 | drops exactly the leading `/` and `\` characters |
| NodePath.StripIdempotent | src/config/uploads.config.ts:6 | stripping twice strips nothing more |
| NodePath.LastIndexOf | src/files/multer.config.ts:30 | the last index of a character, or -1 when it does not occur |
| NodePath.TrimTrailingSlashes | src/files/multer.config.ts:30-31 | the path without its trailing slashes |
| NodePath.LastSegment | src/files/multer.config.ts:30-31 | the last path segment, without slashes |
| NodePath.Extname | src/files/multer.config.ts:30 | empty or a dot-led suffix of the last segment with no other dot |
| NodePath.BasenameWithoutExt | src/files/multer.config.ts:31 | the last segment before its extension |
| NodePath.NoSlashSegment | src/files/multer.config.ts:30-31 | a name without slashes is its own segment |
| NodePath.LastIndexAfter | src/files/multer.config.ts:30 | the last occurrence is the one not followed by another |
| NodePath.DotFileHasNoExtension | src/files/multer.config.ts:30-31 | a dot-file has no extension, so its base is the whole name |
| NodePath.NoDotNoExtension | src/files/multer.config.ts:30-31 | a name without dots has no extension |
| NodePath.SimpleNameSplits | src/files/multer.config.ts:30-31 | `stem.ext` splits at its last dot |

## Left out

- Model inference: `ensurePipeline`, the warm-up in `onModuleInit` and the pipeline call inside `embed` are foreign calls. `embed` is an abstract function from a text to a vector or an error.
- `ExtractLastHiddenState` and `MeanPool` are modelled and proved on their own. They are not composed into `embed`, because the route from the untyped tensor through `Number(...)` to real numbers is a JavaScript coercion outside the model.
- `MeanPool` requires non-negative dimensions and a buffer of at least `tokens * hidden` entries. The source does not check this; reading past the end of a `Float32Array` gives `undefined`, which is not modelled.
- Floating point: `Float32Array` precision, `Math.sqrt` rounding and `Number()` coercion. Arithmetic is over `real`, and `sqrt` is a parameter assumed to be the non-negative square root where a lemma needs it.
- `Scoring.LatePenalty` and `Scoring.ToScore` compute over exact reals, so an integer score can differ by one from the program's. With doubles, `25 * (1 - 34/100)` is 16.499999999999996 and `Math.round` gives 16; the model's exact 16.5 gives 17. Score 5 at a 90% penalty gives 0 in doubles and 1 in the model. `toScore`'s `(s + 1) * 50` is a double product too, rounded by the same `Math.round`. The proved bounds, monotonicity and the 0 and 100 cases hold either way; the exact integer at a rounding boundary is not modelled.
- `Scoring.Cosine`: that the cosine lies in [-1, 1] (Cauchy–Schwarz) is not proved; `ToScore` clamps anyway, so every score is proved in 0..100 without it.
- `Promise.all` in `similarity` is modelled as two calls in sequence, the reference first. When both embeddings fail, the model reports the reference's error. When the reference embedding fails, the model does not make the answer's call, which `Promise.all` has already started; `SimilarityCalls` lists one call in that case where the service makes two.
- File and parser I/O: `fs.readFile`, pdf-parse, mammoth and Tesseract OCR are one abstract reader per kind of document. The mime-types lookup is an abstract partial function.
- `extractText`'s `default` branch is not modelled, since no supported type reaches it.
- `ensureUploadsDir` (mkdir), multer's `diskStorage` plumbing and the Nest logger are I/O and are left out; `randomUUID` is a parameter.
- `path.join` is an abstract function of the working directory and the relative path. Paths follow the POSIX rules only.
- `toLowerCase` is modelled on ASCII letters only.
- bcrypt hash and compare and JWT signing are abstract. Only `compare(t, hash(t))` is assumed, and the refresh lemma uses nothing more. Configuration lookups for secrets and expiries are left out. With the default configuration the refresh strategy verifies tokens with `jwt.secret ?? 'secret'` (src/auth/strategies/jwt-refresh.strategy.ts:28), while the service signs them with `JWT_REFRESH_SECRET ?? 'refresh-secret'` (src/auth/auth.service.ts:123-124, 136-139). Such a token would fail verification before `refreshTokens` runs. `RefreshAfterIssue` proves only the service's own hash check, not that the endpoint accepts the token.
- `generateTokens`' `Promise.all` of the two signatures is two independent calls of the abstract signer.
- Persistence: TypeORM repositories are the tables of `Entities.Database`. The generated ids and `submittedAt` are parameters, and `findOne` returns the first matching row.
- `Collections.SortBy`: rows with equal keys may come in any order the database chooses. The contract states sortedness and permutation only, and the model fixes one order.
- `TasksService.Merge`: an explicit JSON `null` in an update body is not distinguished from a present value. `title` and `status` are taken as given, and `description` keeps the `?? null` of the source.
- `new Date(string)` is an abstract partial parse; a `Date` is an integer time.
- The entity files disagree with the services. The model uses the fields the services read and write:
  - users carry `passwordHash` and `fullName`;
  - tasks carry `latePenaltyPercent`, `referenceFileUrl` and `status`.
  The task's `deadline`, which `tasks.service.ts` writes and `autoEvaluate` reads as its due date, is one field.
- The task DTO declares `dueDate`, but `create` reads `dto.deadline`; the model follows the service, and its `deadline` is optional. The global `ValidationPipe` (src/main.ts:14-20) sets `whitelist` and `forbidNonWhitelisted`, so a body carrying `deadline` is refused before `create` runs. A body carrying `dueDate` reaches `create` with `deadline` undefined, which `parseDeadline` turns into the invalid-deadline BadRequest (`TasksService.CreateWithoutDeadline`). No task can therefore be created through the endpoint. The pipe itself is not modelled.
- `EvaluationService.AutoEvaluation`: its contract states error propagation and the 0..100 bound only. The late-penalty branches are stated in `EvaluationService.AutoEvaluationPenalty`.
- `submission.task?.latePenaltyPercent ?? 0`: the model's task always carries an integer penalty, so the `?? 0` default is reached only through a missing task, which comes back as the no-reference BadRequest first.
- The controller's endpoint handlers, which only forward to the service, are not modelled. That includes the `scoreBatch` and `scoreSubmission` calls, which the service does not define.
- A contradiction penalty asserted by the evaluation service's own tests has no implementation in the code, so it is not modelled.
- `courses.service.ts`, the DTO validators, `UsersService.findAllTeachers` and every module or wiring file are outside this model.
- Attention masks and L2 normalisation of the embedding are not part of the source's `meanPool`, and so not of the model.
- A stored file URL `/uploads/<name>` is absolute, so `resolveFilePath` reads it from the file-system root and not from the uploads directory (see `EvaluationService.StoredUrlReadFromRoot`). The model keeps that behaviour rather than deciding which location was meant.

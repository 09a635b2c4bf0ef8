# Jewelshot core rules, modelled in Dafny

Jewelshot is a web studio for jewelry photography. A user uploads a product
photo, picks a generation mode (quick presets, selective style options, or a
free-form advanced description) and gets an AI-generated picture back. Most of
the application is React presentation and calls into a hosted
database/auth/storage service and an image-generation API. The parts with
rules of their own are small and deterministic once the clock, randomness,
query results, session and environment are inputs. Those parts are modelled
here, one Dafny module per source file:

- `InputValidation` (`input_validation.dfy`) models the validators for
  prompts, negative prompts, uploaded files, e-mail addresses and passwords.
  Each is an ordered chain of checks where the first failure wins. The
  module also models the prompt sanitiser.
- `Prompts` (`prompts.dfy`) models the prompt builders of the three
  generation modes. This covers the quick-mode preset table with its
  white-background fallback, the option defaults, and the shared negative
  prompt.
- `MemoryRateLimit` (`memory_rate_limit.dfy`) models the in-memory
  fixed-window limiter. It is a class whose `store` map is updated in place
  by check and reset. It is specified by the pure functions `Decide`,
  `After` and `UsageOf`.
- `DbRateLimit` (`db_rate_limit.dfy`) models the database-backed limiter's
  decision. It turns a window count into allowed/remaining/resetAt, and it
  fails open when the count cannot be had. The count query is modelled on a
  list of rows.
- `UploadGate` (`upload_gate.dfy`) models what the storage upload does
  before it stores anything: the quota, size and type checks in that order.
  It also models the storage path it builds, with a parser proving the path
  can be read back.
- `CanvasStore` and `UIStore` (`canvas_store.dfy`, `ui_store.dfy`) model the
  two client stores as classes. Each setter states the whole new state, and
  the clamping/wrapping arithmetic is proved separately.
- `FormValidation` (`form_validation.dfy`) models the form hook. `validateField`
  is a pure rule chain. The `values`/`errors`/`touched` maps are fields of a
  `Form` class, and change, blur, validate-all (a loop) and reset update them.
- `Format`, `ErrorSanitize`, `Middleware` and `Env` model the small
  utilities:
  - `truncate` and `slugify`;
  - the production error-message filter;
  - the route gate run before each page;
  - the environment-variable check, whose `validateEnv` loops are kept as a
    method.
- `JsText` (`js_text.dfy`) holds the JavaScript string semantics the modules
  share: the `\s` class, `trim`, ASCII lower-casing, substring search,
  `split(/\s+/)`, number-to-string and `toFixed(2)`. `Wrappers` holds
  `Option` and `Result`.

Characters are Unicode scalar values, one `char` each; only text in the
Basic Multilingual Plane is modelled, where a `char` is one UTF-16 code unit
as in JavaScript. Times are integers
(milliseconds). Every input the source reads from the outside world is a
parameter:
- the current time `now`;
- the random path suffix;
- the profile read and the storage service's answer;
- the count query's outcome;
- whether a session exists;
- the process environment as a map;
- the production flag.

## Model

| member | source | states |
|---|---|---|
| InputValidation.EmptyPromptIsRequired | src/lib/validation/input.ts:17-19 | An empty prompt is rejected as "Prompt is required", while an empty negative prompt is valid because it is optional |
| InputValidation.BlankPromptIsTooShort | src/lib/validation/input.ts:22-27 | A non-empty prompt of whitespace only trims to nothing and fails the minimum-length check |
| InputValidation.PromptVerdictDependsOnTrim | src/lib/validation/input.ts:22-65 | Past the emptiness test, two prompts that trim to the same text get the same verdict |
| InputValidation.ValidPromptIff | src/lib/validation/input.ts:15-68 | A prompt is valid exactly when it is non-empty, its trimmed length is between 3 and 2000, no blocked pattern or traversal occurs in it, and it is not too repetitive |
| InputValidation.ValidatePrompt | src/lib/validation/input.ts:15-68 | A valid prompt is non-empty and trims to 3..2000 characters; a rejection carries one of the five prompt messages (ValidPromptIff gives the converse) |
| InputValidation.ShortPromptsAreNeverRepetitive | src/lib/validation/input.ts:56-65 | A prompt of at most 20 words is never rejected for repetition |
| InputValidation.MatchedPromptIsRejected | src/lib/validation/input.ts:39-53 | Once the trimmed prompt is long enough, matching any blocked pattern makes the verdict "too long" or "invalid content" |
| InputValidation.PromptWithTokenIsRejected | src/lib/validation/input.ts:39-41 | A prompt containing any script or call token, in any letter case and with any text around it, is rejected |
| InputValidation.PromptWithSqlKeywordIsRejected | src/lib/validation/input.ts:42 | DROP, DELETE or TRUNCATE in any letter case, standing as a whole word anywhere in a prompt, gets it rejected |
| InputValidation.PromptWithTraversalIsRejected | src/lib/validation/input.ts:43 | "../" or "..\" anywhere in a prompt gets it rejected |
| InputValidation.ShortTextMatchesNoCodePattern | src/lib/validation/input.ts:39-42 | No code pattern can match a text shorter than four characters, because every token is longer |
| InputValidation.TraversalOnlyRejectedInPrompt | src/lib/validation/input.ts:73-105 | The negative prompt has no traversal test: "../" passes there but is rejected as a prompt |
| InputValidation.NegativePromptLengthCountsWhitespace | src/lib/validation/input.ts:79-86 | The negative prompt is not trimmed, so its 1000-character limit counts the surrounding whitespace |
| InputValidation.ValidateNegativePrompt | src/lib/validation/input.ts:73-105 | A valid negative prompt has at most 1000 characters; only a non-empty one is rejected, as too long or as blocked content; ValidNegativePromptIff gives the converse |
| InputValidation.ValidNegativePromptIff | src/lib/validation/input.ts:73-105 | A negative prompt is valid exactly when it is empty, or has at most 1000 characters and no blocked code pattern; it is too long exactly when over 1000 characters and blocked exactly when non-empty, within the limit and matching a pattern; path traversal and repetition never reject it |
| InputValidation.RemoveAngleBrackets | src/lib/validation/input.ts:113 | The result has no '<' or '>' and only characters of the input |
| InputValidation.RemoveJavascriptProtocol | src/lib/validation/input.ts:114 | Removing "javascript:" in any case, in one left-to-right pass, introduces no character that was not in the input |
| InputValidation.EventHandlerMatch | src/lib/validation/input.ts:115 | A match at the start is "on" in either case, a run of one or more word characters and "=", and it is the only match length there; 0 means no match |
| InputValidation.RemoveEventHandlers | src/lib/validation/input.ts:115 | Removing event-handler attributes in one left-to-right pass introduces no character that was not in the input |
| InputValidation.Prefix | src/lib/validation/input.ts:116 | substring(0, n) is a prefix of the input of length min(n, length) |
| InputValidation.SanitizePrompt | src/lib/validation/input.ts:110-117 | The sanitised prompt is at most 2000 characters, has no angle brackets and uses only characters of the input |
| InputValidation.RemoveAngleBracketsKeepsClean | src/lib/validation/input.ts:113 | A text without angle brackets is left unchanged |
| InputValidation.RemoveJavascriptProtocolKeepsClean | src/lib/validation/input.ts:114 | A text whose lower case has no "javascript:" is left unchanged |
| InputValidation.RemoveEventHandlersKeepsClean | src/lib/validation/input.ts:115 | A text with no handler match at any position is left unchanged |
| InputValidation.SanitizeKeepsCleanPrompt | src/lib/validation/input.ts:110-117 | A prompt whose trimmed text fits in 2000 characters and has no angle brackets, protocol or handler sanitises to its trimmed text |
| InputValidation.NestedProtocolSurvives | src/lib/validation/input.ts:114 | The single pass is not a fixed point: "javajavascript:script:" becomes "javascript:" |
| InputValidation.SanitizedPromptCanHoldProtocol | src/lib/validation/input.ts:110-117 | A sanitised prompt can still hold "javascript:": that is what "javajavascript:script:" sanitises to |
| InputValidation.NestedHandlerSurvives | src/lib/validation/input.ts:115 | A handler nested inside another survives: "oonclick=nclick=" becomes "onclick=", itself a full handler match |
| InputValidation.ValidFileIff | src/lib/validation/input.ts:122-164 | A file is valid exactly when it is at most 10 MiB, its type has an extension list, and its lower-cased last dot segment is in that list |
| InputValidation.TypesWithExtensionsAreAllowed | src/lib/validation/input.ts:139-155 | Every type with an extension list is on the allowed list, so the extension step decides for them |
| InputValidation.ImageJpgIsAlwaysRejected | src/lib/validation/input.ts:139-161 | image/jpg is allowed by the type check but has no extension list, so such a file is always rejected, at the extension step when it is small enough |
| InputValidation.ValidateFileUpload | src/lib/validation/input.ts:122-164 | A valid file is present, at most 10 MiB, of an allowed type, and has a non-empty extension (ValidFileIff gives the converse) |
| InputValidation.ValidEmailIff | src/lib/validation/input.ts:169-185 | An address is valid exactly when it has the local@domain.tld shape and at most 254 characters; a non-empty address of the wrong shape gets the format error, since the shape is tested before the length |
| InputValidation.EmailShapeOfParts | src/lib/validation/input.ts:174 | Non-empty local, name and tld parts without whitespace or '@' form an address of the e-mail shape |
| InputValidation.TwoAtSignsAreNotAnEmail | src/lib/validation/input.ts:174 | An address with two '@' never has the e-mail shape |
| InputValidation.ValidateEmail | src/lib/validation/input.ts:169-185 | An empty address is rejected as required, and a valid one has at most 254 characters (ValidEmailIff gives the converse) |
| InputValidation.ValidPasswordIff | src/lib/validation/input.ts:190-212 | A password is valid exactly when its length is between 8 and 128 and it has an ASCII letter and a digit |
| InputValidation.ValidatePassword | src/lib/validation/input.ts:190-212 | A valid password has 8..128 characters and a digit (ValidPasswordIff gives the converse and the letter) |
| JsText.Trim | src/lib/validation/input.ts:22 | The trimmed text neither starts nor ends with whitespace and is no longer than the input |
| JsText.TrimEmptyIff | src/lib/validation/input.ts:22 | trim() gives the empty string exactly when every character of the input is whitespace |
| JsText.TrimStartIsSuffix | src/lib/validation/input.ts:22 | What trim() keeps after dropping the leading whitespace is the end of the input, unchanged |
| JsText.SplitOnSpaces | src/lib/validation/input.ts:56 | split(/\s+/) gives a non-empty list of pieces |
| JsText.SplitPiecesHaveNoSpace | src/lib/validation/input.ts:56 | No piece that split(/\s+/) returns holds whitespace |
| JsText.SplitJoinRoundTrip | src/lib/validation/input.ts:56 | Splitting non-empty words joined by single spaces gives the words back |
| JsText.SplitAfterWord | src/lib/validation/input.ts:56 | A word followed by any non-empty run of whitespace splits off as the first piece, and splitting goes on with what follows the run |
| JsText.SplitJoinWithGapsRoundTrip | src/lib/validation/input.ts:56 | Splitting non-empty words joined by any non-empty runs of whitespace (tabs, line breaks, several in a row) gives the words back |
| JsText.AfterLast | src/lib/storage/upload.ts:72 | The last dot segment is a suffix of the name with no dot in it, preceded by a dot when it is not the whole name |
| JsText.NatToString | src/lib/storage/upload.ts:73 | A timestamp prints as a non-empty string of decimal digits |
| JsText.NatToStringRoundTrip | src/lib/storage/upload.ts:73 | Reading the printed timestamp's digits gives the timestamp back |
| JsText.ToFixed2 | src/lib/validation/input.ts:131 | toFixed(2) of a size prints digits, a point and two decimals |
| JsText.ToFixed2Reads | src/lib/validation/input.ts:131 | toFixed(2) reads back as digits whose whole part is the rounded hundredths divided by 100 and whose two decimals are the rounded hundredths modulo 100 |
| JsText.RoundHalfUp | src/lib/validation/input.ts:131 | The hundredths printed are the nearest integer to the exact quotient, ties rounding up |
| Prompts.BaseNegativePromptText | src/lib/ai/prompts.ts:25-32 | The trimmed negative prompt is its lines without the outer line breaks and indentation |
| Prompts.PresetFromKey | src/lib/ai/prompts.ts:43-145 | A preset found in the table is the one whose key was looked up |
| Prompts.PresetKeyRoundTrip | src/lib/ai/prompts.ts:43-145 | Each of the six presets is found under its own key |
| Prompts.BuildQuickPrompt | src/lib/ai/prompts.ts:37-153 | A quick prompt starts with the preservation rules and names the jewelry type, and its negative prompt is the base one (QuickPromptShape pins the rest) |
| Prompts.QuickPromptShape | src/lib/ai/prompts.ts:37-153 | A quick prompt starts with the preservation rules, is the selected preset's text up to the aspect-ratio label, names the jewelry type and the gendered phrase, and ends with the aspect ratio; its negative prompt is the base one |
| Prompts.UnknownPresetFallsBack | src/lib/ai/prompts.ts:147 | A missing, empty or unknown preset id gives exactly the white-background prompt |
| Prompts.QuickPromptIsAPresetText | src/lib/ai/prompts.ts:147-152 | Every quick prompt is one of the six preset texts for the given jewelry type, gender and aspect ratio |
| Prompts.GenderChangesQuickPrompt | src/lib/ai/prompts.ts:44-144 | Only the exact gender "women" selects the feminine wording: changing it to any other value changes the quick prompt |
| Prompts.InheritedPresetIdEscapesFallback | src/lib/ai/prompts.ts:147 | With the plain-object lookup as written, the preset id "toString" yields an inherited function instead of a prompt |
| Prompts.QuickPromptAsWritten | src/lib/ai/prompts.ts:147-152 | The lookup as written never yields undefined: a missing key falls back to the white-background text |
| Prompts.AsWrittenAgreesOffPrototype | src/lib/ai/prompts.ts:147 | For every id that is not an inherited member name, the lookup as written gives the same prompt as the own-key lookup |
| Prompts.SelectivePromptShape | src/lib/ai/prompts.ts:158-185 | A selective prompt starts with the rules and holds the jewelry type and the model/location/mood lines, each value or its default; its negative prompt is the base one |
| Prompts.BuildSelectivePrompt | src/lib/ai/prompts.ts:158-185 | A selective prompt starts with the rules and names the jewelry type, and its negative prompt is the base one (SelectivePromptShape pins the rest) |
| Prompts.AdvancedPromptShape | src/lib/ai/prompts.ts:190-212 | An advanced prompt starts with the rules and holds the jewelry type and the custom description verbatim, or the default description when missing or empty; its negative prompt is the base one |
| Prompts.BuildAdvancedPrompt | src/lib/ai/prompts.ts:190-212 | An advanced prompt starts with the rules and names the jewelry type, and its negative prompt is the base one (AdvancedPromptShape pins the rest) |
| Prompts.DefaultAspectRatioEndsPrompts | src/lib/ai/prompts.ts:41-206 | Without an aspect ratio, all three modes end their prompt with "Aspect ratio 9:16" |
| MemoryRateLimit.RateLimiter.constructor | src/lib/rate-limit.ts:13 | The store starts empty |
| MemoryRateLimit.Decide | src/lib/rate-limit.ts:31-58 | A request is allowed exactly when no window applies or the window has room; inside a window the reset time is the window's end |
| MemoryRateLimit.After | src/lib/rate-limit.ts:28-58 | The table afterwards holds the same users plus this one, and every other user's entry is unchanged |
| MemoryRateLimit.UsageOf | src/lib/rate-limit.ts:71-91 | The reported count and remaining always add up to max |
| MemoryRateLimit.RateLimiter.CheckRateLimit | src/lib/rate-limit.ts:23-59 | The answer and the new store are those the window rules prescribe for the store before the call |
| MemoryRateLimit.RateLimiter.ResetRateLimit | src/lib/rate-limit.ts:64-66 | Only the user's entry is removed |
| MemoryRateLimit.RateLimiter.GetRateLimitInfo | src/lib/rate-limit.ts:71-91 | Reports the usage of the current window and changes nothing |
| MemoryRateLimit.NewWindowAllows | src/lib/rate-limit.ts:31-41 | With no entry or an ended window, the request is allowed with max-1 remaining and opens a window of one request ending windowMs from now |
| MemoryRateLimit.WindowEndIsInclusive | src/lib/rate-limit.ts:31 | A check at exactly resetAt still counts against the open window |
| MemoryRateLimit.FullWindowDenies | src/lib/rate-limit.ts:44-50 | A full window denies with nothing remaining and leaves the store unchanged |
| MemoryRateLimit.OpenWindowCounts | src/lib/rate-limit.ts:53-58 | A window with room counts one more request, and remaining is max minus the new count |
| MemoryRateLimit.AllowedIff | src/lib/rate-limit.ts:31-58 | A request is allowed exactly when no window applies or the window has room |
| MemoryRateLimit.OtherUsersUntouched | src/lib/rate-limit.ts:28-58 | A check changes no other user's entry |
| MemoryRateLimit.CheckKeepsCountsWithin | src/lib/rate-limit.ts:31-58 | With max at least 1, every stored count stays between 1 and max |
| MemoryRateLimit.ResetThenAllowed | src/lib/rate-limit.ts:64-66 | After a reset, the user's next check is allowed with a fresh window |
| MemoryRateLimit.UsageForecastsCheck | src/lib/rate-limit.ts:71-91 | With no current window the info reports count 0 and all of max remaining; an allowed check leaves one fewer than the info reported |
| MemoryRateLimit.OpenWindowAllowsAtMostRest | src/lib/rate-limit.ts:44-58 | Inside an open window holding count requests, at most max-count further checks are allowed |
| MemoryRateLimit.AtMostMaxPerWindow | src/lib/rate-limit.ts:31-58 | At most max checks are allowed in one window, from the one that opens it to its end |
| DbRateLimit.CountInWindow | src/lib/rate-limit/db.ts:35-43 | The count of the user's rows since the window start never exceeds the number of rows |
| DbRateLimit.CheckRateLimit | src/lib/rate-limit/db.ts:27-78 | resetAt is windowMinutes after now in every branch; an error is reported exactly when the count query did not succeed, and then the check allows with all of max remaining |
| DbRateLimit.CheckRows | src/lib/rate-limit/db.ts:35-58 | On the rows themselves there is no error, and the request is allowed exactly when the user's rows since the window start number fewer than max |
| DbRateLimit.GetRateLimitStatus | src/lib/rate-limit/db.ts:83-88 | The status is exactly the check's result |
| DbRateLimit.CountedDecision | src/lib/rate-limit/db.ts:56-58 | On a successful query (missing count read as 0), allowed holds exactly when count < max, remaining is max(0, max-count), and there is no error |
| DbRateLimit.RemainingBounds | src/lib/rate-limit/db.ts:57-58 | For non-negative inputs remaining lies in [0, max] and is positive exactly when allowed |
| DbRateLimit.MissingCountIsZero | src/lib/rate-limit/db.ts:56 | A missing count decides like a count of 0 |
| DbRateLimit.FailsOpen | src/lib/rate-limit/db.ts:45-76 | On a query error or an exception the check allows, reports all of max remaining, and carries the right error message |
| DbRateLimit.ResetAtInEveryBranch | src/lib/rate-limit/db.ts:51-74 | Every branch puts resetAt windowMinutes after now, and only the fail-open branches report an error |
| DbRateLimit.OnlyRecentOwnRowsCount | src/lib/rate-limit/db.ts:42-43 | Rows of other users and rows older than the window start do not change the count |
| DbRateLimit.RecentOwnRowCounts | src/lib/rate-limit/db.ts:42-43 | A recent row of the user adds exactly one to the count |
| DbRateLimit.OneMoreGenerationUsesOne | src/lib/rate-limit/db.ts:35-58 | Each new generation of the user uses up one remaining request until none is left |
| UploadGate.Owner | src/lib/storage/upload.ts:73 | The path owner is never empty: the user id when truthy, else "anonymous" |
| UploadGate.Message | src/lib/storage/upload.ts:46-84 | The quota error message reports the limit as "1.00GB" |
| UploadGate.LimitPrintsAsOne | src/lib/storage/upload.ts:47-50 | The 1 GiB quota prints as "1.00" under toFixed(2) |
| UploadGate.Gate | src/lib/storage/upload.ts:28-67 | A file that passes is at most 10 MiB and of an allowed type, and a rejection is a quota, size or type error, never an upload failure (GateAcceptsIff gives the converse) |
| UploadGate.UploadPath | src/lib/storage/upload.ts:70-74 | The path starts with "uploads/" and ends with a dot and the file name's last dot segment |
| UploadGate.UploadImage | src/lib/storage/upload.ts:19-101 | A successful upload passed every check and was stored, and returns the service's public URL and the requested bucket |
| UploadGate.QuotaRejectsIff | src/lib/storage/upload.ts:30-53 | With a user id and a profile, the quota rejects exactly when used storage (missing read as 0) plus the file size exceeds 1 GiB; reaching 1 GiB exactly is accepted |
| UploadGate.QuotaIsCheckedFirst | src/lib/storage/upload.ts:30-67 | An over-quota file gets the quota error even when it is also too large or of a wrong type |
| UploadGate.QuotaSkipped | src/lib/storage/upload.ts:30-41 | Without a user id, or when the profile read fails or finds nothing, the quota is not checked |
| UploadGate.SizeLimit | src/lib/storage/upload.ts:57-61 | Past the quota a file over 10 MiB is rejected for its size, and exactly 10 MiB of an allowed type passes |
| UploadGate.GateAcceptsIff | src/lib/storage/upload.ts:28-67 | A file passes exactly when it fits the quota (when checked), is at most 10 MiB, and is of one of the four allowed types |
| UploadGate.AcceptedUploadResult | src/lib/storage/upload.ts:69-96 | An accepted upload returns the service's public URL, the built path and the requested bucket |
| UploadGate.RejectedUploadFails | src/lib/storage/upload.ts:28-85 | A failed check gives that check's error, and a failed upload gives "Upload failed" with the service's message |
| UploadGate.SplitFirst | src/lib/storage/upload.ts:73 | Splitting at the first separator gives the text before it, which holds no separator, and the rest; there is no split exactly when the separator is absent |
| UploadGate.ParsePath | src/lib/storage/upload.ts:74 | A parsed path starts with "uploads/", its owner has no "_" and its random part no "." (ParseUploadPath gives the round trip) |
| UploadGate.ParseUploadPath | src/lib/storage/upload.ts:70-74 | The built path reads back as its owner, timestamp, random suffix and extension, for an owner without '_' |
| UploadGate.PathsOfDifferentInstantsDiffer | src/lib/storage/upload.ts:70-74 | Uploads of one owner with one random suffix at different instants get different paths |
| CanvasStore.Canvas.constructor | src/store/useCanvasStore.ts:37-49 | The store starts in the initial state: zoom 100, rotation 0, quick mode, not generating, progress 0, no images |
| CanvasStore.Canvas.SetUploadedImage | src/store/useCanvasStore.ts:51 | Only the uploaded image changes |
| CanvasStore.Canvas.SetCanvasImageUrl | src/store/useCanvasStore.ts:52 | Only the canvas image URL changes |
| CanvasStore.Canvas.SetGeneratedImageUrl | src/store/useCanvasStore.ts:53 | Only the generated image URL changes |
| CanvasStore.Canvas.SetZoom | src/store/useCanvasStore.ts:54 | Only zoom changes, to the requested value clamped to [10, 500], and the range invariant holds |
| CanvasStore.Canvas.SetRotation | src/store/useCanvasStore.ts:55 | Only rotation changes, to the JavaScript remainder of the requested value by 360 |
| CanvasStore.Canvas.SetMode | src/store/useCanvasStore.ts:56 | Only the mode changes |
| CanvasStore.Canvas.SetIsGenerating | src/store/useCanvasStore.ts:57 | Only the generating flag changes |
| CanvasStore.Canvas.SetGenerationProgress | src/store/useCanvasStore.ts:58-59 | Only progress changes, to the requested value clamped to [0, 100] |
| CanvasStore.Canvas.Reset | src/store/useCanvasStore.ts:60 | The whole state becomes the initial state again |
| CanvasStore.ClampWithin | src/store/useCanvasStore.ts:54-59 | A clamped value lies within the bounds, is the input when the input does, and is the nearer bound otherwise |
| CanvasStore.ClampIdempotent | src/store/useCanvasStore.ts:54-59 | Clamping a clamped value changes nothing |
| CanvasStore.SetZoomTwice | src/store/useCanvasStore.ts:54 | Setting zoom to the stored zoom leaves the state unchanged |
| CanvasStore.SetGenerationProgressTwice | src/store/useCanvasStore.ts:58-59 | Setting progress to the stored progress leaves the state unchanged |
| CanvasStore.RotationBounds | src/store/useCanvasStore.ts:55 | The stored rotation keeps the sign of the input, is below a full turn in magnitude, differs from the input by whole turns, and equals it when already within a turn |
| CanvasStore.RotationIdempotent | src/store/useCanvasStore.ts:55 | Setting rotation to the stored rotation changes nothing |
| CanvasStore.NegativeRotationStaysNegative | src/store/useCanvasStore.ts:55 | -90 and -450 are stored as -90, not 270, and 450 as 90 |
| CanvasStore.InitialStateInRange | src/store/useCanvasStore.ts:37-46 | The initial state satisfies the zoom, rotation and progress ranges |
| UIStore.UI.constructor | src/store/useUIStore.ts:26-28 | Both sidebars start open, with no modal |
| UIStore.UI.ToggleLeftSidebar | src/store/useUIStore.ts:30 | The state becomes the left-toggled state |
| UIStore.UI.ToggleRightSidebar | src/store/useUIStore.ts:31 | The state becomes the right-toggled state |
| UIStore.UI.SetLeftSidebar | src/store/useUIStore.ts:32 | Only the left flag changes, to the argument |
| UIStore.UI.SetRightSidebar | src/store/useUIStore.ts:33 | Only the right flag changes, to the argument |
| UIStore.UI.OpenModal | src/store/useUIStore.ts:34 | Only the active modal changes, to the given id |
| UIStore.UI.CloseModal | src/store/useUIStore.ts:35 | Only the active modal changes, to none |
| UIStore.ToggledLeft | src/store/useUIStore.ts:30 | The left flag is negated and nothing else changes |
| UIStore.ToggledRight | src/store/useUIStore.ts:31 | The right flag is negated and nothing else changes |
| UIStore.TogglesUndoAndCommute | src/store/useUIStore.ts:30-31 | Toggling twice restores the state, and the two toggles commute |
| FormValidation.NoRulesNoError | src/hooks/useFormValidation.ts:35-36 | A field without rules always validates to null |
| FormValidation.ValidateField | src/hooks/useFormValidation.ts:34-59 | An error is reported only for a field with rules, and without a custom check it is a non-empty message |
| FormValidation.ErrorsAmong | src/hooks/useFormValidation.ts:84-91 | The errors name only fields asked about that have rules, each with a non-empty message |
| FormValidation.FirstFailure | src/hooks/useFormValidation.ts:38-58 | The answer of a first-failure chain is the final answer or one of the outcomes |
| FormValidation.ValidateFieldIsFirstFailure | src/hooks/useFormValidation.ts:34-59 | The checks run in the order required, minLength, maxLength, pattern; the first failure's message is returned, else the custom check's answer, if any |
| FormValidation.RequiredRejectsBlank | src/hooks/useFormValidation.ts:38-40 | A required field fails on an empty or whitespace-only value, before any other check |
| FormValidation.ZeroLimitIsNoLimit | src/hooks/useFormValidation.ts:42-48 | A length limit of 0 behaves as no limit |
| FormValidation.CustomHasLastWord | src/hooks/useFormValidation.ts:54-56 | When the four built-in checks pass, the custom check's answer is the answer |
| FormValidation.SameErrors | src/hooks/useFormValidation.ts:84-91 | A map holding the message of every failing rule field and nothing else is the errors validateAll computes |
| FormValidation.Form.constructor | src/hooks/useFormValidation.ts:30-32 | Values start as the initial values, with no errors and nothing touched |
| FormValidation.Form.HandleChange | src/hooks/useFormValidation.ts:61-72 | Only that field's value changes and only that field's error is removed |
| FormValidation.Form.HandleBlur | src/hooks/useFormValidation.ts:74-81 | The field becomes touched and gains its error when it fails; no error is ever removed |
| FormValidation.Form.ValidateAll | src/hooks/useFormValidation.ts:83-97 | The errors become exactly the failing rule fields with their messages, every rule field is touched, and the answer is true exactly when no rule field fails |
| FormValidation.Form.Reset | src/hooks/useFormValidation.ts:99-103 | Values return to the initial values, and errors and touched become empty |
| Format.SliceEnd | src/lib/utils/format.ts:56 | slice's end index is the given end when in [0, n], n when beyond the string, and n plus the end, floored at 0, when negative |
| Format.Truncate | src/lib/utils/format.ts:54-57 | A string that fits is returned unchanged; otherwise the result is a prefix of the input followed by "...", of length maxLength + 3 for a non-negative maxLength |
| Format.TruncateIdempotent | src/lib/utils/format.ts:54-57 | Truncating a truncated string again changes nothing |
| Format.SlugLower | src/lib/utils/format.ts:66 | The lower-cased text has no ASCII capitals |
| Format.KeepSlugChars | src/lib/utils/format.ts:68 | Only word characters, whitespace and '-' are kept, and no capital is introduced |
| Format.Collapse | src/lib/utils/format.ts:69 | Each run of separators becomes one '-', so the result never has "--", and it starts with '-' exactly when the input starts with a separator |
| Format.DropSeparatorsIsSuffix | src/lib/utils/format.ts:69 | What follows a run of separators is the end of the input, unchanged |
| Format.StripDashes | src/lib/utils/format.ts:70 | The result neither starts nor ends with '-' |
| Format.DropLeadingDashesIsSuffix | src/lib/utils/format.ts:70 | Stripping the leading dashes leaves the end of the input, unchanged |
| Format.Slugify | src/lib/utils/format.ts:64-71 | Every slug consists of lower-case ASCII letters, digits and '-', with no '-' at either end and never two in a row |
| Format.SlugIsFixed | src/lib/utils/format.ts:64-71 | A slug is its own slug |
| Format.SlugifyIdempotent | src/lib/utils/format.ts:64-71 | slugify applied to its own output changes nothing |
| ErrorSanitize.DevelopmentShowsDetails | src/lib/utils/error.ts:37-42 | Outside production an Error shows its own message, and any other value is named as "Unknown error: " plus its text |
| ErrorSanitize.SanitizeError | src/lib/utils/error.ts:10-43 | In production the answer is one of the four fixed texts or the Error's own message when it is safe to show |
| ErrorSanitize.ProductionPrecedence | src/lib/utils/error.ts:15-34 | In production a message mentioning "fetch" gets the network text; else one mentioning "auth" gets the authentication text; else a safe message is shown verbatim; else the generic text |
| ErrorSanitize.UnauthorizedMentionsAuth | src/lib/utils/error.ts:20 | "unauthorized" contains "auth", so the first half of that test never decides on its own |
| ErrorSanitize.ShownVerbatimOnlyWhenSafe | src/lib/utils/error.ts:15-34 | In production a message shown as it is was safe and mentioned neither fetch nor auth, or is one of the fixed texts |
| ErrorSanitize.ProductionHidesOtherValues | src/lib/utils/error.ts:42 | In production a thrown value that is not an Error always gives "An unexpected error occurred." |
| ErrorSanitize.CapitalisedStorageIsGeneric | src/lib/utils/error.ts:23-34 | The tests are case-sensitive: "Storage limit exceeded" becomes the generic text in production |
| ErrorSanitize.QuotaMessageIsGeneric | src/lib/utils/error.ts:10-43 | The storage-quota error the upload throws becomes the generic text in production, whatever usage it reports: its one mention of storage is capitalised and the printed usage holds no letters |
| Middleware.RouteClasses | src/middleware.ts:12-22 | A page is protected exactly when it starts with /studio, /gallery, /settings or /billing, and is an auth page exactly when it starts with /login or /signup |
| Middleware.PrefixAlsoMatches | src/middleware.ts:21 | The test is by prefix, so any page starting with /studio is protected |
| Middleware.NeverBoth | src/middleware.ts:12-22 | No page is both protected and an auth page |
| Middleware.Gate | src/middleware.ts:17-43 | A login redirect happens only for a protected page without a session and carries the page; a studio redirect only for an auth page with a session |
| Middleware.GateOutcomes | src/middleware.ts:31-42 | Login redirect exactly for a protected page without a session, carrying the page; studio redirect exactly for an auth page with a session; otherwise the request passes |
| Middleware.PublicPagesPass | src/middleware.ts:42 | A page that is neither protected nor an auth page passes with or without a session |
| Middleware.RedirectTargetsPass | src/middleware.ts:31-40 | Following a redirect does not redirect again |
| Env.ValidateEnv | src/lib/env.ts:15-37 | missing lists the unset required names in their order; valid holds exactly when all are set; only then are the optional names checked, and each unset one is warned about |
| Env.MissingVars | src/lib/env.ts:18-22 | The missing list is no longer than the names checked, and each entry is one of them and unset |
| Env.MissingAppend | src/lib/env.ts:18-22 | Checking one more name appends it to missing exactly when it is unset |
| Env.MissingIff | src/lib/env.ts:18-22 | A name is missing exactly when it is among the names checked and unset |
| Env.MissingEmptyIff | src/lib/env.ts:24-27 | Nothing is missing exactly when every name is set |
| Env.OtherVariablesDoNotMatter | src/lib/env.ts:16-22 | Setting or removing a variable that is not checked leaves the missing list unchanged |
| Env.OptionalNeverDecides | src/lib/env.ts:13-36 | An optional variable, set or not, never changes the missing list and so never changes validity |
| Env.GetEnvOutcomes | src/lib/env.ts:39-45 | getEnv fails exactly when neither the variable nor the fallback is a non-empty string; otherwise the variable wins over the fallback, and the answer is never empty |
| Env.GetEnv | src/lib/env.ts:39-45 | A value returned is never empty, and a failure carries the "Environment variable ... is not set" message |

## Left out

- Text outside the Basic Multilingual Plane is not modelled. A Dafny `char` is a Unicode scalar value, so an astral character (an emoji, say) counts 1 here but 2 in JavaScript; on such text the length bounds (3..2000 and 1000 for prompts, 254 for addresses, 8..128 for passwords), `truncate` and `substring` differ from the source. No Unicode normalisation is modelled.
- The validators lower-case ASCII letters only. This is exact for the blocklist, whose case-insensitive patterns are all ASCII. slugify's `toLowerCase` is modelled only for ASCII, KELVIN SIGN and LATIN CAPITAL LETTER I WITH DOT ABOVE, which are the only characters whose lower case reaches the later steps' ASCII classes. Any other lower-cased character is removed by the `[^\w\s-]` step either way.
- Floating point is not modelled. The repetition ratio `unique / total < 0.3` is the exact comparison `10·unique < 3·total`. `toFixed(2)` is modelled on the exact quotient (sizes divided by powers of two are exact in doubles). The GB figures of the quota message are modelled the same way.
- The utilities module's `formatFileSize`, `formatDate`, `formatRelativeTime` and `formatNumber` are not part of this model. They are floating-point and library wrappers.
- Format.Truncate: maxLength is an integer; a fractional maxLength, NaN or Infinity is not modelled.
- The clock (`Date.now`), `Math.random` and the date arithmetic of `setMinutes` are parameters. The database limiter's window start is `now` minus windowMinutes in milliseconds; daylight-saving shifts of `setMinutes` are not modelled.
- The count query, the profile read, the upload and the public-URL call are parameters describing how they ended. The upload result's path is the path that was built, i.e. the storage service is taken to echo the requested path.
- The in-memory limiter's table is a map. A user id naming an `Object.prototype` member (such as "toString") would find an inherited value in the JavaScript object; that case is not modelled for the limiter.
- React's batching and stale closures are not modelled. handleBlur and validateAll read the values as they stand, and handleChange's error check reads the errors as they stand.
- A form rule's `pattern` is a Dafny predicate on the whole value and a custom check is a Dafny function; RegExp objects themselves are not modelled.
- The lighting, angle and pose options are accepted by the selective builder in the source but never used; the model has no fields for them.
- `console.error` and `console.warn` output is not modelled, except that ValidateEnv returns the names it would warn about as `warned`.
- The import-time throw of the environment module and the middleware's route-matcher configuration are not part of this model. The redirect parameter is the page path as a string; URL encoding of it is not modelled.
- `logError`, `deleteImageFromStorage`, `fileToBase64` and `base64ToBlob` are runtime or service wrappers and are not part of this model.
- Prompts: builders being deterministic needs no lemma, since every Dafny function is.

## Findings

| source | as written | input that shows it | evidently intended | confidence | as-written member | corrected member |
|---|---|---|---|---|---|---|
| src/lib/ai/prompts.ts:147 | The preset id (or 'white-background') is looked up on a plain object literal, which also finds the members inherited from Object.prototype; they are truthy, so the fallback to the white-background prompt is skipped | presetId "toString" (or "constructor", "valueOf", ...) yields the inherited function instead of a prompt string | an id that is not one of the six preset keys falls back to the white-background prompt | not executed | Prompts.InheritedPresetIdEscapesFallback | Prompts.UnknownPresetFallsBack |

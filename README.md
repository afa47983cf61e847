# AI Polygon front end, modelled in Dafny

AI Polygon is a browser front end for preparing competitive-programming problems with a
hosted language model. The user pastes or uploads a problem statement. The model turns it into
a structured `ProblemSpec`. The page then asks the model for batches of test cases under a
chosen strategy, or for a counter-example against submitted code.

This project models the deterministic parts of that front end:

- `types.dfy` (module `Types`): the enums and records of `types.ts`. The enum values are the
  Vietnamese strings the source uses.
- `gemini_service.dfy` (module `GeminiService`): the three service calls of
  `services/geminiService.ts`. This covers:
  - model selection;
  - the request parts and generation config;
  - Markdown-fence stripping;
  - sanitisation of the parsed statement;
  - the mapping of a reply into `TestCase` records;
  - the error each call rejects with.
- `app.dfy` (module `App`): the page state of `App.tsx`. Each handler is split at its
  `await` into a start step and a settle step. It is modelled twice:
  - as transition functions, with lemmas over interleaved clicks, settlements and tab switches;
  - as a class `Session` whose methods update its fields and are proved against those functions.
- `test_generator.dfy` (module `TestGenerator`): the panel of `components/TestGenerator.tsx`.
  This covers the `parseInt`-then-clamp count, the field rewrite and the `Test #` labels.
- `spec_viewer.dfy` (module `SpecViewer`): `components/SpecViewer.tsx`. This covers:
  - the math-text renderer, which runs a chain of global replacements, then the `\frac`
    rewrite, then splits on `$` and `^`;
  - the confidence badge;
  - the display fallbacks of the statement sheet.
- `problem_input.dfy` (module `ProblemInput`): `components/ProblemInput.tsx`. This covers the
  data-URL split of `handleSubmit`, the clipboard search of `handleGlobalPaste` and the
  panel's state.
- Helper modules:
  - `Wrappers` holds `Option` and `Result`.
  - `JsStrings` holds the JavaScript string built-ins the source relies on: `trim`, `split`
    on one character, `join`, `includes`, global literal `replace`, radix-less `parseInt` and
    integer `toString`.
  - `Json` holds a `JsonValue` datatype for what `JSON.parse` returns.

Some inputs are not computed by the model; they are parameters:

- The network reply of `ai.models.generateContent` is a `Reply`: a transport failure, or a
  response whose text may be empty.
- `JSON.parse` is an uninterpreted function `string -> Option<JsonValue>`, where `None` means
  a `SyntaxError`.
- `crypto.randomUUID` and `Date.now` are functions from the item index.

Each asynchronous handler of `App.tsx` has a start step, which raises its busy flag, and a
settle step, which receives the outcome of its call. Calls of different handlers may be pending
at once and may settle in any order.

Three of the source's behaviours are proved outright:

- The replacement chain of `renderMathText` can never fire its `\leftarrow` and `\infty`
  rules. `\le` and `\in` run first and eat their prefixes, so `\leftarrow` shows as
  `≤ftarrow` and `\infty` as `∈fty`.
- Fences are stripped only on the statement-parsing path. The test and bug-hunt paths hand the
  raw text to the parser.
- A batch requested for one statement still lands after a newer analysis has succeeded. The
  batch's settle step stacks onto whatever case list is current, so the new statement is shown
  with the old statement's cases.

## Model

| member | source | states |
|---|---|---|
| Types.ConfidenceFromValue | types.ts:1-5 | Finds the member whose string value is `s` when there is one, and says no member has that value otherwise: the `Object.values(ConfidenceLevel).includes` test |
| Types.ConfidenceValuesDistinct | types.ts:1-5 | 'Cao', 'Trung Bình' and 'Thấp' are pairwise distinct, and looking up a member's value gives back that member |
| Types.StrategyValuesDistinct | types.ts:7-15 | Exactly seven strategies are listed, every strategy is among them, and two strategies share a value only if they are the same |
| Json.Get | services/geminiService.ts:128-134 | Reading `v.key` gives a value exactly when `v` is an object holding `key`, and that value is the field's |
| Json.TextAt | services/geminiService.ts:204-211 | A field read as text is the field's string, or `""` when the field is missing or not a string |
| JsStrings.Trim | services/geminiService.ts:120 | `trim()` returns a contiguous slice of the text; everything before and after it is JavaScript whitespace, and the slice neither starts nor ends with whitespace. Text without whitespace at its ends is unchanged |
| JsStrings.SplitLength | components/SpecViewer.tsx:26 | `split(c)` yields one more piece than there are occurrences of `c` |
| JsStrings.SplitPiecesFree | components/SpecViewer.tsx:26 | No piece of `split(c)` contains `c` |
| JsStrings.SplitJoin | components/SpecViewer.tsx:26 | Joining the pieces of `split(c)` with `c` gives back the original text |
| JsStrings.SplitAtFirst | components/ProblemInput.tsx:50 | The first piece of `split(c)` is the text before the first `c`, and the others are the split of the rest |
| JsStrings.IndexOf | components/ProblemInput.tsx:50 | The first position holding `c`, or the length when `c` does not occur: every earlier character differs from `c` |
| JsStrings.SplitHead | components/ProblemInput.tsx:50 | The first piece of `split(c)` is the text before the first `c`; when there is a `c`, the other pieces are the split of the text after it, and otherwise the text is the only piece |
| JsStrings.ReplaceAllRemovesPattern | components/SpecViewer.tsx:13-23 | A global literal replacement whose replacement shares no character with the pattern leaves no occurrence of the pattern |
| JsStrings.ReplaceAllAddsNoOccurrence | components/SpecViewer.tsx:13-23 | A global replacement whose replacement shares no character with `q` creates no occurrence of `q` |
| JsStrings.ParseInt | components/TestGenerator.tsx:24 | `parseInt` is `NaN` exactly when no digit follows the leading whitespace and optional sign |
| JsStrings.ParseIntOfDecimalString | components/TestGenerator.tsx:24-27 | `parseInt` of a natural number's decimal text is that number: `toString` and `parseInt` round-trip |
| JsStrings.DecimalString | components/TestGenerator.tsx:27 | `toString()` of a natural number is a non-empty string of decimal digits with no leading zero |
| GeminiService.ModelFor | services/geminiService.ts:19 | A non-empty image selects 'gemini-2.5-flash-image', and anything else selects 'gemini-3-pro-preview' |
| GeminiService.BuildParts | services/geminiService.ts:58-73 | The parts are in order: the instruction first (the strict template when there is an image), the problem text only when non-empty, and the inline image with its MIME type only when there is an image |
| GeminiService.BuildConfig | services/geminiService.ts:104-109 | The JSON MIME type, the statement schema and a thinking budget of 1024 are set on the reasoning model, and nothing is set otherwise |
| GeminiService.SchemaOnlyWithoutImage | services/geminiService.ts:19-109 | The request is schema-constrained, JSON-typed and budgeted exactly when no image is sent |
| GeminiService.OpeningFenceLength | services/geminiService.ts:122 | The match of `/^```(json)?\n?/` at the start of a fenced text is an opening fence, and no longer prefix is one: the greedy match is the longest |
| GeminiService.StripLeadingFence | services/geminiService.ts:122 | The result is a suffix of the text. A fenced text loses an opening fence ("```", "```json", "```\n" or "```json\n"), and it is the longest one the text starts with. Text without a fence is unchanged |
| GeminiService.StripTrailingFence | services/geminiService.ts:122 | One closing "```" at the very end is removed, and nothing else |
| GeminiService.FenceStripped | services/geminiService.ts:121-123 | Text that does not start with a fence is untouched. A fenced text loses its longest opening fence, and then one closing "```" exactly when the rest ends with one. Stripping never lengthens the text |
| GeminiService.FenceRoundTripJson | services/geminiService.ts:120-123 | A payload fenced as "```json\n…```" comes out whole, whatever it contains |
| GeminiService.FenceRoundTripPlain | services/geminiService.ts:120-123 | A payload fenced as "```\n…```" comes out whole, whatever it contains |
| GeminiService.CleanedReply | services/geminiService.ts:120-123 | The text handed to the parser is the trimmed reply whenever that does not open with a fence. A fenced trimmed reply loses an opening fence, and possibly one closing "```" after it. The result is never longer than the reply |
| GeminiService.AssignableFields | services/geminiService.ts:128-134 | Fields can be assigned on an object, where they are its fields, and on an array, which has no named fields; assigning on null or a primitive fails, as it does in strict mode |
| GeminiService.ConfidenceIn | services/geminiService.ts:132 | `confidence` counts as a member exactly when it is a string equal to one of the three values |
| GeminiService.ArrayOrEmpty | services/geminiService.ts:128-130 | The result is always an array: the field itself when it was one, and `[]` otherwise |
| GeminiService.Sanitized | services/geminiService.ts:128-134 | The three lists are arrays and `confidence` is a member. Lists that were arrays are kept and others become `[]`. A valid confidence is kept, and anything else becomes 'Thấp'. No other field is touched, and only those four keys are added |
| GeminiService.SanitizedIsIdentityOnSanitized | services/geminiService.ts:128-134 | An object that already satisfies the sanitised shape is not changed |
| GeminiService.SanitizedIdempotent | services/geminiService.ts:128-134 | Sanitising twice is sanitising once |
| GeminiService.TextItem | services/geminiService.ts:136 | A list item read as text is the item's string, or `""` when the item is not a string |
| GeminiService.VariableOf | services/geminiService.ts:136 | A variable item's name, type, description and constraints are what the item's fields of those names read as |
| GeminiService.SpecOf | services/geminiService.ts:136 | The typed statement's variables, constraints and edge cases are the sanitised arrays' items, read in order: each variable item read as a `VariableSpec` and each other item read as text. The confidence is the one the object names. Each text field is what the object's field reads as: its string, or `""` |
| GeminiService.ParseReply | services/geminiService.ts:111-140 | A transport failure or an empty reply text rejects ("No response from AI"). Every other failure is the single invalid-JSON error. The result is Ok exactly when the text is non-empty and the cleaned reply parses to an object or array, and it is then the typed statement of the sanitised parse |
| GeminiService.ParseKeepsWellFormedSpec | services/geminiService.ts:120-136 | A cleaned reply that parses to an already well-formed statement object resolves to that object's statement |
| GeminiService.ParsedStatementSanitized | services/geminiService.ts:120-136 | A cleaned reply that parses to an object resolves. A list that was an array keeps its items in order; any other list is empty. The confidence is the one named when it is a member, and 'Thấp' otherwise. All seven text fields are read from the object |
| GeminiService.Sanitize | services/geminiService.ts:128-134 | The four in-place assignments produce the sanitised object |
| GeminiService.HandleParseReply | services/geminiService.ts:117-140 | The reply handling after the call resolves or rejects exactly as `ParseReply` says |
| GeminiService.ParseProblemStatement | services/geminiService.ts:14-140 | The request goes to the selected model with the parts in order and the config for that model, where a missing MIME type defaults to 'image/png'. The outcome is `ParseReply` of the reply |
| GeminiService.TestCaseItems | services/geminiService.ts:200-202 | The batch is accepted exactly when `testCases` is an array, and the items are that array |
| GeminiService.MapTestCases | services/geminiService.ts:204-211 | The map fails (TypeError) exactly when an item is null. Otherwise the result has the same length and order; each case gets the requested strategy, its item's three text fields, the i-th fresh id and the i-th clock reading |
| GeminiService.BatchIdsDistinct | services/geminiService.ts:205 | Distinct ids from the id source give a batch with pairwise distinct ids |
| GeminiService.TestCasesReply | services/geminiService.ts:187-211 | Rejects on a transport failure, on empty text ("Failed to generate tests"), on a parse failure (SyntaxError, with no trimming or fence stripping), on JSON null (TypeError) and on a missing or non-array `testCases` ("Invalid response format from AI"). When `testCases` is an array, the outcome is the mapped batch of its items |
| GeminiService.TestBatchShape | services/geminiService.ts:198-211 | Any reply whose `testCases` is an array of n objects, whatever other keys it has, yields exactly n cases in order. Each has the requested strategy, its item's three text fields, the i-th id and the i-th clock reading |
| GeminiService.GenerateSmartTestCase | services/geminiService.ts:146-211 | The request always goes to 'gemini-3-pro-preview' with the batch prompt, JSON output under the batch schema and a thinking budget of 2048. The call settles as `TestCasesReply` says |
| GeminiService.BugHuntOf | services/geminiService.ts:264 | Each of the four result fields is what the reply's field of that name reads as |
| GeminiService.BugHuntReply | services/geminiService.ts:253-264 | Rejects on a transport failure, on empty text ("Failed to hunt bug") and on a parse failure (SyntaxError). Resolves exactly when the raw text parses. JSON null gives no record; any other value gives the record read from it |
| GeminiService.BugHuntVerbatim | services/geminiService.ts:264 | Any reply value whose four fields are strings resolves to a record holding exactly those strings, whatever else the value holds |
| GeminiService.HuntBug | services/geminiService.ts:217-265 | The request always goes to 'gemini-3-pro-preview' with the bug-hunt prompt, JSON output under the bug-hunt schema and a thinking budget of 2048. The call settles as `BugHuntReply` says |
| GeminiService.FencedJsonReplyCleaned | services/geminiService.ts:120-123 | A reply fenced with a `json` tag reaches the parse-path parser as exactly its payload, whatever the payload holds |
| GeminiService.CleanReplyText | services/geminiService.ts:120-123 | The trim and the two fence replacements, done in turn, give the cleaned reply. A trimmed text without an opening fence is passed on unchanged, and the result is never longer than the reply |
| GeminiService.FencesStrippedOnlyWhenParsing | services/geminiService.ts:120-126 | Any non-empty reply the parser rejects as it stands but accepts as an object once cleaned is accepted by the statement parse, and rejected with SyntaxError by the test and bug-hunt calls |
| App.Analyzed | App.tsx:23-36 | Success replaces the statement and clears the cases and the bug result. Failure keeps all three. `isAnalyzing` ends false, and the other flags and the tab are untouched |
| App.Generated | App.tsx:38-50 | Without a statement nothing changes, not even the flag. Otherwise, on success the batch goes in front of the cases; on failure the cases stay; `isGenerating` ends false. Statement, bug result, other flags and tab are untouched |
| App.Hunted | App.tsx:52-64 | Without a statement nothing changes. Otherwise success replaces only the bug result (possibly by none), failure keeps it, and `isHunting` ends false |
| App.Begin | App.tsx:23-64 | A click raises its own handler's flag exactly when the handler reaches its `await`: always for analysis, and only with a statement for the tools. No other flag and no data changes |
| App.Settle | App.tsx:23-64 | A settlement lowers its own handler's flag and leaves the others. A new statement clears both tool results. A batch goes in front of the cases current at that moment. A hunt replaces the bug result. A failure keeps the data. The tab never changes |
| App.ActTracks | App.tsx:23-64 | One allowed click, settlement or tab switch keeps every busy flag in step with the pending calls |
| App.FlagsTrackPendingCalls | App.tsx:23-64 | However allowed actions interleave, each busy flag is up exactly while one call of its handler is pending, and no handler ever has two calls pending, because the buttons are disabled while busy |
| App.InitialPageTracks | App.tsx:11-21 | The first page has no flag up and no call pending |
| App.BatchOutlivesReanalysis | App.tsx:38-43 | A batch requested for one statement still lands after a newer analysis has succeeded: the new statement is shown with that batch as its cases |
| App.BatchesStackNewestFirst | App.tsx:42-43 | While no analysis succeeds, the statement stays, and the case list is every successful batch stacked newest first on the old cases |
| App.ThreeBatches | App.tsx:42-43 | Batches A, B, C in that order show as C, B, A above the old cases |
| App.AnalysisResetsTools | App.tsx:26-29 | After a successful analysis, whatever came before, the statement is the new one and the tool results are empty |
| App.ToolsInertWithoutStatement | App.tsx:38-53 | With no statement, generate and hunt change nothing |
| App.Session.constructor | App.tsx:11-21 | The fields start as the `useState` initial values |
| App.Session.Analyze | App.tsx:23-36 | The fields are updated as `Analyzed` says |
| App.Session.GenerateTests | App.tsx:38-50 | The service is called exactly when a statement exists, and the fields are updated as `Generated` says |
| App.Session.HuntBug | App.tsx:52-64 | The service is called exactly when a statement exists, and the fields are updated as `Hunted` says |
| App.Session.Start | App.tsx:23-64 | The call is dispatched exactly when the handler reaches its `await`, and the fields change as `Begin` says |
| App.Session.Finish | App.tsx:23-64 | The fields change as `Settle` says |
| App.Session.SelectTab | App.tsx:104-116 | The tab buttons change the tab and no other slot of the page state |
| TestGenerator.EffectiveCount | components/TestGenerator.tsx:24-26 | The count is always in [1, 20]. NaN and values below 1 give 1, values above 20 give 20, and values in range pass through |
| TestGenerator.DecimalCountsPassThrough | components/TestGenerator.tsx:24-26 | The texts "1" to "20" send their own value |
| TestGenerator.SecondClickSendsSameCount | components/TestGenerator.tsx:27 | After a click rewrites the field, a second click sends the same count |
| TestGenerator.DecimalCountsClamped | components/TestGenerator.tsx:24-26 | The decimal text of 0 sends 1, and that of any number above 20 sends 20 |
| TestGenerator.NegativeCountsSendOne | components/TestGenerator.tsx:24-25 | A minus sign followed by the decimal text of any number sends 1 |
| TestGenerator.NotANumberSendsOne | components/TestGenerator.tsx:24-25 | An empty field, or text starting with something that cannot begin a number, sends 1 |
| TestGenerator.ClampZeroExample | components/TestGenerator.tsx:24-25 | "0" sends 1 |
| TestGenerator.ClampNegativeExample | components/TestGenerator.tsx:24-25 | "-5" sends 1 |
| TestGenerator.ClampAboveExample | components/TestGenerator.tsx:24-26 | "25" sends 20 |
| TestGenerator.ClampNotANumberExamples | components/TestGenerator.tsx:24-25 | "" and "abc" send 1 |
| TestGenerator.ClampNumericPrefixExample | components/TestGenerator.tsx:24 | "7abc" sends 7 |
| TestGenerator.ClampFractionExample | components/TestGenerator.tsx:24 | "3.9" sends 3 |
| TestGenerator.GeneratorPanel.constructor | components/TestGenerator.tsx:13-14 | The panel starts on SMALL with count text "5" |
| TestGenerator.GeneratorPanel.SelectStrategy | components/TestGenerator.tsx:39 | Picking a strategy changes only the strategy |
| TestGenerator.GeneratorPanel.EditCount | components/TestGenerator.tsx:54 | Typing changes only the count text |
| TestGenerator.GeneratorPanel.GenerateClick | components/TestGenerator.tsx:23-29 | Sends the selected strategy unchanged and the clamped count, always in [1, 20], then rewrites the field to that count's decimal text |
| TestGenerator.Labels | components/TestGenerator.tsx:78-82 | One label per case, all in [1, n], with the newest labelled n and the oldest 1 |
| TestGenerator.LabelsDistinct | components/TestGenerator.tsx:78-82 | Labels strictly decrease down the list, so no two cases share one |
| TestGenerator.LabelsStableUnderPrepend | components/TestGenerator.tsx:78-82 | Putting a new batch in front does not renumber the cases already shown |
| SpecViewer.SubstitutedAppend | components/SpecViewer.tsx:13-23 | Running two replacement chains in a row is running their concatenation |
| SpecViewer.SubstitutedAddsNoOccurrence | components/SpecViewer.tsx:13-23 | A chain whose replacements share no character with `q` never creates `q` |
| SpecViewer.SkipDeadRule | components/SpecViewer.tsx:13-23 | A rule that finds nothing in the text reaching it can be dropped from the chain |
| SpecViewer.SubstitutedKeepsPlainText | components/SpecViewer.tsx:13-23 | Text without a backslash passes the chain unchanged |
| SpecViewer.DeadRules | components/SpecViewer.tsx:13-23 | For every text, the chain gives the same result as the chain without the `\leftarrow` and `\infty` rules: those two rules never fire |
| SpecViewer.LeftarrowClobbered | components/SpecViewer.tsx:14-23 | `\leftarrow` in plain text is shown as "≤ftarrow" because the `\le` rule runs first |
| SpecViewer.InftyClobbered | components/SpecViewer.tsx:20-21 | `\infty` in plain text is shown as "∈fty" because the `\in` rule runs first |
| SpecViewer.FracAtSpells | components/SpecViewer.tsx:24 | A match spells `\frac{a}{b}` at the start of the text, with non-empty `a` and `b` free of `}` |
| SpecViewer.FracReplacedKeepsPlainPrefix | components/SpecViewer.tsx:24 | Text before the first backslash is copied through the fraction rewrite |
| SpecViewer.FracExample | components/SpecViewer.tsx:24 | `\frac{a}{b}` with non-empty, `}`-free `a` and `b` between plain text becomes `(a/b)` |
| SpecViewer.Processed | components/SpecViewer.tsx:13-24 | Text without a backslash comes through the replacement chain and the fraction rewrite unchanged |
| SpecViewer.SpanOf | components/SpecViewer.tsx:28-42 | Even segments are plain and odd ones math. A math segment with `^` becomes a base plus one superscript per `^`, and one without `^` is a single math span. Plain and math spans carry their segment |
| SpecViewer.RenderMathText | components/SpecViewer.tsx:10-44 | Empty text gives only the placeholder. Otherwise there is one span per `$`-separated segment of the processed text: one more than the number of `$` |
| SpecViewer.SpansAlternate | components/SpecViewer.tsx:26-30 | Spans alternate plain, math, plain, …, starting with plain |
| SpecViewer.SpansRebuildText | components/SpecViewer.tsx:26-42 | Joining what the spans stand for with `$` gives back the processed text: nothing is lost or added |
| SpecViewer.ConfidenceColor | components/SpecViewer.tsx:60-63 | Emerald exactly for HIGH, amber exactly for MEDIUM, rose exactly for the rest |
| SpecViewer.ConfidenceLabel | components/SpecViewer.tsx:71 | "Độ tin cậy cao" exactly for HIGH, and the check-again label otherwise |
| SpecViewer.OrElse | components/SpecViewer.tsx:75-83 | `s \|\| fallback`: the text when it is non-empty, the fallback otherwise |
| SpecViewer.RowOf | components/SpecViewer.tsx:113-137 | A variable row shows the name and the type verbatim and the rendered description. It shows a rendered constraints line exactly when the variable has constraints |
| SpecViewer.ViewSpec | components/SpecViewer.tsx:47-180 | No statement gives the empty state. For a statement, each limit shows as given when present and as "N/A" when empty; the title falls back to "Bài Toán Chưa Có Tên" and each format to "Chưa xác định". The badge class and label follow the confidence. The summary, every variable row and every edge case are rendered in order, and the "Chưa có phân tích." note shows exactly when there are no edge cases |
| SpecViewer.SheetShowsPresentFields | components/SpecViewer.tsx:75-160 | Field by field, and whatever the other fields hold, each display field shows the statement's own text exactly when that text is non-empty |
| SpecViewer.ConstraintsShownWhenPresent | components/SpecViewer.tsx:129-136 | A variable's constraints line appears exactly when it has constraints |
| ProblemInput.ImagePayload | components/ProblemInput.tsx:50-51 | `parts[1]` is undefined exactly when the URL has no comma. Otherwise it is the text between the first comma and the next one, or the end, and so holds no comma |
| ProblemInput.SemicolonRun | components/ProblemInput.tsx:52 | `.*?;` stops at the first `;` when no line terminator precedes it, and fails when every `;` has a line terminator before it |
| ProblemInput.MimeMatch | components/ProblemInput.tsx:52 | The match starts at the leftmost `:` from which `.*?` can reach a `;`, and the capture runs up to the first `;` after it. The capture has no `;` and no line terminator, and ":capture;" occurs in the text. There is no match exactly when no `:` can reach a `;` |
| ProblemInput.MimeOf | components/ProblemInput.tsx:50-53 | The MIME type is the capture from the text before the first comma, or 'image/png' when there is no match |
| ProblemInput.DataUrlRoundTrip | components/ProblemInput.tsx:50-53 | A data URL `data:M;base64,D`, for M free of `,`, `;` and line terminators and D free of `,`, gives back payload D and MIME type M |
| ProblemInput.DataUrlSelectsVisionModel | components/ProblemInput.tsx:50-55 | The payload of a data URL with non-empty data makes the analysis use the vision model with the URL's MIME type |
| ProblemInput.CommaFreePreviewSendsNoImage | components/ProblemInput.tsx:50-51 | A preview without a comma sends no image, so the analysis uses the text model |
| ProblemInput.FirstPastedImage | components/ProblemInput.tsx:28-40 | A missing item list takes nothing. Otherwise the least index whose type contains 'image' and whose file is non-null is taken, along with that item's file. Image items without a file are passed over, and none is taken when no item qualifies |
| ProblemInput.InputPanel.constructor | components/ProblemInput.tsx:10-11 | The text starts empty and there is no preview |
| ProblemInput.InputPanel.EditText | components/ProblemInput.tsx:71 | Typing changes only the text |
| ProblemInput.InputPanel.LoadPreview | components/ProblemInput.tsx:16-18 | A finished file read sets the preview and nothing else |
| ProblemInput.InputPanel.RemoveImage | components/ProblemInput.tsx:79 | Removing the image clears the preview and nothing else |
| ProblemInput.InputPanel.Submit | components/ProblemInput.tsx:45-99 | Submission does nothing exactly when the idle button is disabled (empty text and no preview). The text is passed unchanged. Without a preview, payload and MIME type are undefined. With one, they are the data-URL payload and MIME type |

## Left out

- The network call `ai.models.generateContent` and the API-key setup: the reply is a parameter.
- `JSON.parse` and `JSON.stringify`: they belong to the runtime. The parser is an uninterpreted parameter returning a `JsonValue`, and the stringified prompt inputs are kept as values.
- Prompt wording: the template strings of the three requests are not modelled. `TestsRequest` and `HuntRequest` record only model, prompt inputs, schema and thinking budget.
- Response schemas: reduced to their top-level property names and `required` lists. The `enum` restriction on `confidence` and the nested item schemas are not modelled.
- `crypto.randomUUID` and `Date.now`: they are nondeterministic. They are parameters indexed by item, and nothing is assumed about their values beyond what a lemma requires.
- `GeminiService.SpecOf`: the `as ProblemSpec` cast is read back as typed fields. A missing or non-string text field reads as `""`, and a non-string list item reads as `""`, where JavaScript would keep the raw value.
- `GeminiService.AssignableFields`: a JSON array is modelled as an object with no named fields. In JavaScript the sanitising assignments become properties of the array, and later readings (`spec.variables` and `spec.confidence` in the sheet) see exactly those, as the model does. What the model drops is the array's own elements, which no reading of a `ProblemSpec` looks at.
- `GeminiService.BugHuntReply`: a primitive JSON reply (a number, string or boolean) resolves to a record of four `""` fields, where JavaScript passes the primitive itself.
- React rendering, JSX and CSS: only the view's data (spans, badge choice, the strings shown and the sheet rows) is modelled.
- `alert` and `console.error`: these are I/O with no effect on state.
- `FileReader` and `readAsDataURL`: the data URL a read produces is the parameter of `InputPanel.LoadPreview`. `processFile` and `handleImageUpload` are only this wiring.
- `navigator.clipboard`, `preventDefault` and the window `paste` listener registration: `FirstPastedImage` models the handler's search given the clipboard items.
- Async scheduling in `App.tsx`: starts and settlements interleave in any order the allowed actions give. React's batching of state updates within one step is not modelled, and every setter is applied at once.
- `components/BugHunter.tsx` is not part of this model beyond its button guard. `App.Allowed` keeps the hunt button disabled while `isHunting`; the further guard on empty trimmed code only withholds a click and is not modelled.
- `JsStrings.ParseInt`: parses decimal only. The `0x` hexadecimal branch of radix-less `parseInt` is not modelled, and a number field's own input sanitising is left to the text passed in.
- `AnalysisResult` and `ProcessingStatus` (types.ts:47-53): declared but used by none of the modelled code.
- `TestGenerator.GeneratorPanel`: the panel is modelled as one object that outlives every tab switch. In the page, switching to the Stress Test tab unmounts `TestGenerator` (App.tsx:120-134), and switching back mounts a new one whose `useState` slots start again at SMALL and "5". So a strategy or count text chosen before a round trip through the other tab is lost there but kept in the model. The same remount clears the code typed into the bug hunter, which is not part of this model.
- The placeholder `components/TestGenerator.tsx` shows without a statement: rendering only. Its button being disabled while generating is part of `App.Allowed`.
- `Json.TextAt`: a missing or non-string field reads as `""`. JavaScript keeps the raw value (`undefined`, a number, an object), which would then be shown or stringified as it is.
- `GeminiService.MapTestCases`: a test case's `input`, `expectedOutput` and `explanation` are read with `TextAt`, so a missing or non-string item field becomes `""` where JavaScript keeps the raw value.
- `SpecViewer.ViewSpec`: the TypeErrors rendering can raise are not modelled. `renderMathText` throws on a truthy non-string (its `.replace`), and a `null` item of `variables` throws at `v.name`. The model reads every field as text, so neither case arises in it.
- Unicode: strings are sequences of characters, with no normalisation. `trim` uses the ECMAScript whitespace set, and `.` excludes the ECMAScript line terminators.

# Image variation generator: a verified model of its core

The page takes one uploaded image and a list of text prompts. It sends one
image-generation request per non-blank prompt and shows one result row per
request. A row is pending until its request settles: then it shows either the
generated image or an error. This project models, in Dafny, the four pieces of
the page that hold logic, and proves what they promise:

- **App** (`app.dfy`, App.tsx). This covers the start gate of a run, the batch
  of pending rows, and the single update each task makes to its own row.
  It also covers `canGenerate`. Class `App.AppState` holds the page state
  (`originalImage`, `prompts`, `results`, `isGenerating`). Its methods `Start`,
  `Succeed`, `Fail`, `Finish`, `RunTask`, `RunAll` and `HandleGenerateVariations` change
  that state. Two ghost fields record the batch as it was created and the
  completion events applied since. Concurrent settlement
  (`Promise.allSettled`) is modelled as an arbitrary order of completion
  events, each row at most once. The lemmas prove that:
  - the rows do not depend on that order;
  - each row ends with exactly one of an image URL and an error.
- **PromptManager** (`prompt_manager.dfy`, components/PromptManager.tsx). This
  covers add, remove by id and update by id, as pure sequence functions, with
  frame, identity, idempotence and round-trip lemmas.
- **GeminiService** (`gemini_service.dfy`, services/geminiService.ts). This is
  what `generateImageVariation` does once its remote call has settled:
  - it scans the response parts for the first inline image, using a loop
    method proved against a specification function;
  - it rewrites every failure as an `Error` with an `API Error: ` prefix, or
    with a fixed message for other thrown values.
- **ImageUploader** (`image_uploader.dfy`, components/ImageUploader.tsx). This
  covers the MIME-type whitelist, the `split(',')[1]` payload extraction and
  the handler's update of the preview and file-name state.

Two helper modules model the JavaScript built-ins that these pieces call:

- **Text** (`text.dfy`) models `String.prototype.trim`, with ECMAScript's
  whitespace set, and one-character `split`, with its inverse `Join`.
- **Seqs** (`seqs.dfy`) models `Array.prototype.filter`.

`types.dfy` holds the records of types.ts. A JavaScript `null` or `undefined`
is `None`.

As the code has it:

- rows keep the untrimmed prompt;
- the service adds the `API Error: ` prefix to messages and nothing strips it;
- failures are not classified;
- there is no sequential dispatch mode and no archive of the results.

## Model

| member | source | states |
|---|---|---|
| `Text.TrimStartIsSuffix` | App.tsx:17 | trimming the start removes exactly a whitespace-only prefix and stops at a non-whitespace character |
| `Text.TrimEndIsPrefix` | App.tsx:17 | trimming the end removes exactly a whitespace-only suffix and stops at a non-whitespace character |
| `Text.TrimIsCore` | App.tsx:23 | `trim()` yields a contiguous slice of the string with only whitespace outside it, and the slice neither starts nor ends with whitespace |
| `Text.Trim` | App.tsx:17 | `trim()` is never longer than the string, and what it leaves neither starts nor ends with whitespace |
| `Text.BlankIffAllWhitespace` | App.tsx:55 | `s.trim()` is empty exactly when every character of `s` is whitespace |
| `Text.Split` | components/ImageUploader.tsx:19 | `split` yields at least one piece, and no piece contains the separator; joining the pieces with the separator gives back the string |
| `Text.SplitAfterHead` | components/ImageUploader.tsx:19 | splitting at a separator that follows a separator-free head returns that head, then the pieces of the rest |
| `Text.SplitFirstPiece` | components/ImageUploader.tsx:19 | the first piece is everything before the first separator |
| `Seqs.Filter` | App.tsx:23 | `filter` keeps exactly the accepted elements, as many as `Count` says |
| `Seqs.FilterConcat` | App.tsx:23 | filtering a concatenation gives the filtered parts in the same order, so the kept elements keep their relative order |
| `Seqs.FilterKeepsAll` | components/PromptManager.tsx:18 | a filter that accepts every element is the identity |
| `Seqs.FilterIdempotent` | components/PromptManager.tsx:18 | filtering twice equals filtering once |
| `PromptManager.AddPrompt` | components/PromptManager.tsx:13-15 | the old list, unchanged, followed by one prompt with the given id and value `''` |
| `PromptManager.RemovePrompt` | components/PromptManager.tsx:17-19 | a prompt is kept exactly when it was in the list and its id differs from `id` |
| `PromptManager.UpdatePrompt` | components/PromptManager.tsx:21-25 | length, order and every id are preserved; prompts with that id get value `v`, all others keep theirs |
| `PromptManager.RemoveAbsent` | components/PromptManager.tsx:18 | removing an id no prompt carries leaves the list unchanged |
| `PromptManager.RemoveConcat` | components/PromptManager.tsx:18 | removal keeps the remaining prompts in their original relative order |
| `PromptManager.RemoveIdempotent` | components/PromptManager.tsx:18 | removing twice equals removing once |
| `PromptManager.RemoveAfterAdd` | components/PromptManager.tsx:13-19 | adding then removing the new id equals removing the id alone, and when the id was fresh it gives back the original list |
| `PromptManager.UpdateAbsent` | components/PromptManager.tsx:23 | updating an id no prompt carries is the identity |
| `PromptManager.UpdateIdempotent` | components/PromptManager.tsx:23 | updating twice with the same id and value equals updating once |
| `PromptManager.RemoveAfterUpdate` | components/PromptManager.tsx:17-25 | removing an id after updating it equals removing it without the update |
| `GeminiService.PartsOf` | services/geminiService.ts:37 | the parts are those of the first candidate's content; a missing candidate list, an empty one, or a missing content or parts list reads as no parts |
| `GeminiService.TryBlock` | services/geminiService.ts:15-43 | a rejected call rethrows its rejection; a resolved one succeeds exactly when some response part has inline data, and then with the data of such a part; otherwise it throws the `Error` with the no-image message |
| `GeminiService.FirstInlineIndex` | services/geminiService.ts:37-41 | the position of the first part with inline data: every earlier part has none, and the part there has some |
| `GeminiService.FindInlineData` | services/geminiService.ts:37-41 | the `for...of` loop with early return yields the data of the first part carrying inline data, or nothing |
| `GeminiService.CatchMessage` | services/geminiService.ts:44-49 | an `Error` is rethrown as `"API Error: " + message`, any other value as the fixed unknown-error message; the message is never empty |
| `GeminiService.Outcome` | services/geminiService.ts:37-49 | the call succeeds exactly when the response has a part with inline data, and then with the first such part's data; every failure message is non-empty and either starts with `API Error: ` or is the unknown-error message |
| `GeminiService.GenerateImageVariation` | services/geminiService.ts:37-49 | the method with the loop and the `try`/`catch` computes `Outcome` |
| `GeminiService.FirstInlinePartWins` | services/geminiService.ts:37-41 | when part `k` is the first with inline data, the call succeeds with part `k`'s data, whatever follows it |
| `GeminiService.NoImageIsApiError` | services/geminiService.ts:37-47 | a response with no inline data, including one missing its candidate, content or parts, fails with `API Error: No image was generated. The model might have refused the request.` |
| `GeminiService.RejectionMessage` | services/geminiService.ts:44-49 | a rejected call surfaces as `"API Error: " + message` for an `Error`, or as `An unknown error occurred during image generation.` for any other value |
| `ImageUploader.Base64Payload` | components/ImageUploader.tsx:19 | `split(',')[1]` is defined exactly when the data URL holds a comma, and it holds no comma itself |
| `ImageUploader.PayloadBetweenCommas` | components/ImageUploader.tsx:19 | the payload is the text between the first comma and the next comma or the end |
| `ImageUploader.Uploader.constructor` | components/ImageUploader.tsx:10-11 | the preview and the file name start out empty |
| `ImageUploader.Uploader.HandleFileChange` | components/ImageUploader.tsx:15-33 | an image is reported exactly when the file is accepted and the read succeeds: then its payload, its own MIME type and name, with the preview set to the data URL and the stored name equal to the reported one; `null` is reported exactly when the file is not accepted, and then preview and name are cleared; an accepted file whose read fails (`reader.result` is `null`, so line 19 throws) reports nothing and leaves preview and name as they were |
| `App.Refused` | App.tsx:17 | the guard refuses a run exactly when there is no image or filtering keeps no prompt, and so exactly when the batch would have no rows |
| `App.AllBlankIffNoneValid` | App.tsx:17-23 | `prompts.every(p => !p.value.trim())` holds exactly when `prompts.filter(p => p.value.trim())` is empty |
| `App.ValidPrompts` | App.tsx:23 | a prompt is kept exactly when it was in the list and its text is not blank, and there are as many as `Count` says |
| `App.PendingRows` | App.tsx:25-30 | one row per valid prompt, each the pending row of the prompt at the same position |
| `App.InitialResults` | App.tsx:23-30 | as many rows as there are non-blank prompts; every row is pending (no image URL, no error, loading) and carries non-blank text |
| `App.InitialResultsConcat` | App.tsx:23-30 | the rows of a concatenation of prompt lists are the rows of each part in order, so the batch keeps the prompts' order |
| `App.PendingRowsConcat` | App.tsx:25-30 | `map` over a concatenation of prompt lists is the concatenation of the maps |
| `App.InitialResultsOfOne` | App.tsx:23-30 | a single prompt yields one pending row with its untrimmed text when it is not blank, and no row when it is |
| `App.ErrorText` | App.tsx:45 | the shown error is never empty; it equals the message whenever the message is non-empty, and is `Failed to generate` when it is empty |
| `App.Settle` | App.tsx:36-47 | a settled row stops loading and keeps its prompt; on success its image URL becomes `data:image/png;base64,` + data and its error is kept; on failure its error becomes the message (or `Failed to generate`) and its image URL is kept |
| `App.Apply` | App.tsx:36-47 | a completion event changes only the row at its index, and an index past the end changes nothing; the length is unchanged |
| `App.ApplyAll` | App.tsx:36-47 | applying the completion events in order keeps the number of rows, and a row that no event names is left as it was |
| `App.EventFor` | App.tsx:33-48 | the event found for row `k` is one of the events and is for row `k`, and none is found exactly when no event is for row `k` |
| `App.EventForUnique` | App.tsx:33-48 | when rows complete at most once, an event is the only one for its row |
| `App.ApplyAllAt` | App.tsx:36-47 | with each row completing at most once, row `k` after all events is row `k` rewritten by its own event alone; no other task's outcome reaches it |
| `App.ApplyCommutes` | App.tsx:36-47 | updates to different rows commute |
| `App.OrderIndependent` | App.tsx:33-51 | two completion orders of the same events, each row at most once, give the same rows |
| `App.BatchWellFormed` | App.tsx:25-47 | from a pending batch, every row holds neither an image URL nor an error while loading and exactly one of them once finished; a row is loading exactly when no event for it has arrived |
| `App.AllSettled` | App.tsx:33-52 | once every row has completed exactly once, no row is loading and each holds exactly one of an image URL and an error |
| `App.CompletionOf` | App.tsx:33-48 | a task produces an event for its own row: a success event exactly when the service call succeeds, carrying the service's image data, and otherwise a failure event carrying the service's error message |
| `App.ServiceMessageShownVerbatim` | App.tsx:45 | a service failure is shown verbatim, so the `Failed to generate` fallback is never reached from the service |
| `App.RowSettledByItsEvent` | App.tsx:36-47 | in a batch whose rows complete at most once, an event's row ends as that event made it |
| `App.ScheduleSettlesAll` | App.tsx:33-52 | for any order in which the tasks settle, every row ends settled by its own call, so the rows are the same for every order |
| `App.Tasks` | App.tsx:33-48 | the events of the tasks in settling order: the `t`-th is the event of task `order[t]` for its own row |
| `App.ScheduleDistinct` | App.tsx:33-34 | the tasks of one run update distinct rows |
| `App.AppState.constructor` | App.tsx:11-14 | the initial state has no image, one empty prompt with the given id, no rows and the flag down, so nothing can be generated yet |
| `App.AppState.CanGenerate` | App.tsx:55 | `canGenerate` holds when not generating and the guard of line 17 would not refuse: an image is present and some prompt is non-blank |
| `App.AppState.SetOriginalImage` | App.tsx:11 | the uploader's callback stores the reported image |
| `App.AppState.SetPrompts` | App.tsx:12 | the prompt editor's setter stores the new list |
| `App.AppState.Start` | App.tsx:16-31 | a run starts exactly when the guard lets it; a refused run changes nothing; a started run raises the flag and the rows become the pending batch |
| `App.AppState.Succeed` | App.tsx:36-40 | the success update rewrites only its own row, and the rows stay equal to the batch rewritten by the events so far |
| `App.AppState.Fail` | App.tsx:43-47 | the failure update rewrites only its own row, and the rows stay equal to the batch rewritten by the events so far |
| `App.AppState.Finish` | App.tsx:51-52 | after all tasks have settled the flag is lowered |
| `App.AppState.RunTask` | App.tsx:33-48 | one task calls the service and makes its single update, to its own row |
| `App.AppState.RunAll` | App.tsx:33-51 | the tasks settling in the given order leave the batch as it was and record exactly their events, in that order, with the rows equal to the batch rewritten by them |
| `App.AppState.HandleGenerateVariations` | App.tsx:16-53 | a run that starts ends with the flag down, no row loading, every row well formed and settled by its own call, whatever the settling order; a refused run changes nothing |

## Left out

- Rendering (the JSX of every component, components/ResultsDisplay.tsx, components/Header.tsx): presentation only.
- The remote call: the API-key check, the client and the request construction (services/geminiService.ts:5-9, 16-35). `CallOutcome` stands for the settled call, so only what happens to its outcome is modelled.
- `alert`, `console.error` and `Date.now()`: side effects and wall-clock values. Ids are parameters, and the model does not assume they are unique.
- The file reader, the drop handler's `DataTransfer` and the re-dispatched change event (components/ImageUploader.tsx:17-18, 28, 37-54): browser I/O. `Uploader.HandleFileChange` takes `reader.result` as a parameter (`None` for a failed read) and applies the `onloadend` step at once.
- `ImageUploader.Uploader.HandleFileChange`: does not model the time between choosing the file and the reader finishing, because the reader's asynchrony is browser I/O. A failed read is modelled as the handler throwing (`Threw`): the `TypeError` itself and its report to the browser are not.
- Scheduling of promises: the concurrent tasks are modelled as completion events in an arbitrary order. `HandleGenerateVariations` takes that order and the calls' outcomes as parameters.
- `App.AppState.HandleGenerateVariations`: its precondition `IsSchedule(order, |calls|)` assumes that every call settles. A call that never settles leaves `await Promise.allSettled` (App.tsx:51) waiting, so `setIsGenerating(false)` never runs and that call's row stays loading; the model does not cover that run.
- `App.AppState.HandleGenerateVariations`: does not model edits to the prompts or the image while a run is in flight. The run reads them once, as the callback's captured values would.
- `App.AppState.Start`: does not check `isGenerating`, because line 17 does not either. A second run while one is in flight is prevented only by the button being disabled through `canGenerate`, and the model does not cover the overlap of two runs.
- `App.AppState.Fail`: takes the rejection's message as a string. A rejection object without a `message` property behaves as the empty message, since both fall back to `Failed to generate`. A `null` or `undefined` rejection is not modelled: reading `error.message` (App.tsx:45) would then throw inside the `.catch` handler and the row would never be updated. `generateImageVariation` only ever rejects with an `Error`, so this cannot arise from it.
- Inline data without `data`: the inline data's `data` is a string. The model does not cover an inline part whose `data` is missing.
- Base64 decoding or validation: no modelled file decodes image data.
- Rate-limit classification, a sequential dispatch mode and archive packaging: the code has none of them.

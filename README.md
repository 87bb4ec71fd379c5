# AI Image Studio edit session, in Dafny

This project models the core of a browser image-editing studio. A user
uploads a photo, picks a mode (avatar, professional, product, combine) and a
style, and an external image model returns an edited image. Each edit
becomes a step in an undoable history. A step can hold several sibling
variations produced by "regenerate". A failed request can be retried.

The model has seven modules:

- `Common` (`common.dfy`) holds the shared values:
  - files, reduced to a name, a MIME tag and an identity for the bytes;
  - the value an `await` rejects with;
  - the settled outcome of one external edit call;
  - the four editor modes.
- `Strings` (`strings.dfy`) defines the JavaScript string operations the
  code uses (`trim`, `toLowerCase`, `replace`, `split`, `join`,
  `startsWith`) over `seq<char>`.
- `History` (`history.dfy`) gives the navigation state as values. A
  `Position` is the list of steps, the cursor `historyIndex` and the
  displayed `variationIndex`. The module also defines every transition on
  it and the invariant those transitions keep.
- `Session` (`session.dfy`) is the orchestrator in `App.tsx`.
  - The class `EditSession` has one field per piece of component state, and
    one method per handler.
  - Every method states its new state through `State()`, either as an
    update of the old state or as the specification functions
    `Submit`/`Settle`. Every method keeps `Valid()`.
  - The stored retry closure is a `Request` value.
  - The outcome of the external edit call is a parameter.
  - The field `editCalls` logs every external call, so "no call is made"
    and "a retry sends the same request again" can be stated.
- `GeminiService` (`gemini_service.dfy`) covers the service wrapper:
  - how request parts are built, by a loop that pushes onto a list;
  - how the reply is scanned for its first image, by a loop with an early
    return;
  - how the error text for a blocked reply is built.
- `EditorPanel` (`editor_panel.dfy`) and `RefinePanel` (`refine_panel.dfy`)
  are the panel logic that decides which prompt reaches the orchestrator:
  - preset selection;
  - the prompt templates;
  - the image-type file filter;
  - the enable and forward guards.

Some behaviours of the code are easy to misread. The model keeps them as
written:

- `lastPrompt` is recorded before the call, so it is set even when the call
  fails.
- Regeneration sends the current reference images; refining sends none.
- Choosing a variation does no bounds check.
- Redo always shows variation 0.
- Undoing to the first of three steps and then editing leaves two steps. The kept prefix is `historyIndex + 1` steps long and one step is
  appended to it (`History.CommitAfterUndos`).

## Model

| member | source | states |
|---|---|---|
| History.GeneratedImage | App.tsx:31-32 | the displayed image exists exactly when the cursor names a step and the variation index lies inside it, and it is `history[historyIndex][variationIndex]` |
| History.DisplayedWhenInRange | App.tsx:31-35 | in a well-formed position an image is displayed iff history is non-empty and the variation index lies inside the active step; with the variation inside the active step and a non-empty history, one is displayed |
| History.TransitionsKeepVariationInRange | App.tsx:37-178 | the upload reset, an edit, a regeneration, undo and redo all keep the displayed variation inside the active step (only a variation choice can leave it outside); an edit always displays its result, and with a step present regeneration, undo and redo leave an image displayed |
| History.CanUndo | App.tsx:34 | `canUndo` in a well-formed position means an earlier, non-empty step exists; with no history it is false |
| History.CanRedo | App.tsx:35 | `canRedo` in a well-formed position means a later, non-empty step exists; with no history it is false |
| History.Commit | App.tsx:95-101 | a successful edit keeps steps `0..historyIndex` unchanged, drops later ones, appends `[result]`, moves the cursor to the old cursor plus one, which is the newest step (redo impossible), variation 0, shows the result, and keeps the invariant |
| History.AddVariation | App.tsx:88-94 | a regeneration with a step active keeps the step count and cursor, appends the result to the active step only, points the variation at the new last entry and shows it; with cursor -1 nothing changes |
| History.Undo | App.tsx:164-170 | with `historyIndex > 0` the cursor moves back one and the previous step's last variation is shown; otherwise a no-op; history unchanged, invariant kept |
| History.Redo | App.tsx:172-178 | with a step after the cursor, the cursor moves forward one and variation 0 is shown; otherwise a no-op; history unchanged, invariant kept |
| History.Select | App.tsx:160-162 | choosing a variation stores exactly the given index, without a bounds check, and keeps steps and cursor; the invariant survives; an image is displayed iff the index is in range, and it is that variation of the active step |
| History.UndoThenRedo | App.tsx:164-178 | undo then redo restores the cursor but shows variation 0, not the one shown before |
| History.RedoThenUndo | App.tsx:164-178 | redo then undo restores the cursor and shows the step's last variation |
| History.CommitAll | App.tsx:96-99 | any run of successful edits keeps the invariant |
| History.CommitAllCount | App.tsx:96-99 | from the newest step, `n` edits add exactly `n` steps, leave older steps untouched and leave the cursor on the newest step |
| History.UndoTimes | App.tsx:164-170 | repeated undo keeps the invariant and never changes the steps |
| History.CommitAfterUndos | App.tsx:96-97 | undoing `k` times from the newest step moves the cursor back `k`, and an edit then leaves the old step count minus `k` plus one |
| History.AddVariationAll | App.tsx:89-93 | any run of regenerations keeps the invariant |
| History.AddVariationsGrowStep | App.tsx:89-93 | regenerations never change the step count or the cursor; the active step grows by exactly the results, in order |
| History.EditWalkthrough | App.tsx:88-101 | upload, edit `a`, regenerate `b`, edit `c`, undo, redo give `[[a]]`, `[[a,b]]`, `[[a,b],[c]]` at step 1, step 0 showing `b`, and back to step 1 showing `c` |
| Session.FailureMessage | App.tsx:103-104 | the error is `"Generation failed: "` followed by the `Error`'s message, or by the fixed unknown-error text for any other thrown value |
| Session.DataUrlToFile | App.tsx:57-64 | the rebuilt file's MIME tag is the blob type or `image/png` when empty; without a slash in the tag the name gets `.png`; the bytes are the data URL's |
| Session.DataUrlToFileExtension | App.tsx:60-62 | for a blob type `kind/subtype` the file name's extension is `subtype` |
| Session.Settle | App.tsx:76-110 | after the call: exactly one logged call with the request's arguments, not loading, `lastPrompt` set to the prompt unless regenerating (whatever the outcome); on failure history untouched, error set, retry request equal to the request; on success `Commit` or `AddVariation` and no error or retry; mode, images and references unchanged |
| Session.BlankPromptMessage | App.tsx:73 | a regeneration with a blank prompt gets the cannot-regenerate message, every other request the select-a-style message, and the two are distinct |
| Session.Submit | App.tsx:72-111 | a blank prompt only sets the validation message (regeneration has its own), with no call and nothing else changed; any other prompt settles; the session invariant is preserved |
| Session.RetryReplaysRequest | App.tsx:105-106 | a failure followed by a retry with the stored action leaves history untouched by the failure and sends the identical arguments a second time |
| Session.RegenerationSource | App.tsx:143-146 | regeneration starts from the original image at step 0, and otherwise from the last variation of the previous step |
| Session.WithoutIndex | App.tsx:53-55 | removing index `i` yields `s[..i] + s[i+1..]` when `i` is in range and the list unchanged otherwise |
| Session.EditSession.GeneratedImage | App.tsx:31-32 | the displayed image, in terms of the session fields |
| Session.EditSession.constructor | App.tsx:15-29 | the initial state: avatar mode, no image, no references, empty history with both indices -1, no prompt, not loading, no error or retry |
| Session.EditSession.SetMode | App.tsx:15 | only the mode changes |
| Session.EditSession.HandleImageUpload | App.tsx:37-47 | from any state: new image and file, references cleared, history `[]` with both indices -1, `lastPrompt`, error and retry cleared; mode, busy flag and call log unchanged |
| Session.EditSession.HandleAdditionalImageUpload | App.tsx:49-51 | the file is appended to the references; nothing else changes |
| Session.EditSession.RemoveAdditionalImage | App.tsx:53-55 | the references become `WithoutIndex(old, index)`; nothing else changes |
| Session.EditSession.ExecuteGeneration | App.tsx:66-111 | the new state is `Submit` of the old state, the request and the outcome, and the session invariant is kept |
| Session.EditSession.ApplyResult | App.tsx:88-101 | the success branch: the position becomes `AddVariation` when regenerating and `Commit` otherwise; every other field is unchanged |
| Session.EditSession.HandleGenerate | App.tsx:113-120 | without an uploaded file only the upload-first error is set; otherwise the request is the uploaded file with the current references, not a regeneration |
| Session.EditSession.HandleRefineImage | App.tsx:122-131 | without a (truthy) displayed image only the nothing-to-refine error is set; otherwise the request is the displayed image rebuilt as a file, with no references |
| Session.EditSession.HandleRegenerate | App.tsx:133-158 | no truthy last prompt, no step, or neither a source image nor an uploaded file each set only their own error; otherwise the last prompt is resent as a regeneration from `RegenerationSource` (or the uploaded file) with the current references |
| Session.EditSession.HandleVariationSelect | App.tsx:160-162 | only the variation index changes, to the given index |
| Session.EditSession.HandleUndo | App.tsx:164-170 | the position becomes `Undo` of the old position; nothing else changes |
| Session.EditSession.HandleRedo | App.tsx:172-178 | the position becomes `Redo` of the old position; nothing else changes |
| Session.EditSession.HandleRetry | App.tsx:180-184 | without a stored request nothing changes; otherwise the stored request is settled again, its validation always passes and one more identical call is logged |
| Session.EditSession.DismissError | App.tsx:186-189 | error and retry are cleared together; nothing else changes |
| Strings.Trim | App.tsx:72 | `trim()` is empty exactly when every character is ECMAScript whitespace; otherwise it begins and ends with a non-whitespace character |
| Strings.SecondField | services/geminiService.ts:17 | `split(sep)[1]` is absent exactly when the separator does not occur, and never contains it |
| GeminiService.Base64Payload | services/geminiService.ts:16-18 | the payload is absent iff the data URL has no comma, and it contains no comma |
| GeminiService.PayloadOfImageDataUrl | services/geminiService.ts:63 | reading back a returned `data:<mime>;base64,<data>` URL yields `data` |
| GeminiService.BuildRequestParts | services/geminiService.ts:31-48 | two parts more than additional images: the primary image, each additional image in order, the prompt text last; each image part carries its own file's MIME tag; only the last part is text |
| GeminiService.FirstCandidateParts | services/geminiService.ts:60 | the parts of the first candidate when the optional chain reaches them, otherwise the empty list |
| GeminiService.ImageDataUrl | services/geminiService.ts:63 | the returned URL is `data:`, the MIME tag, `;base64,`, then the payload, in that order and nothing else |
| GeminiService.FindImage | services/geminiService.ts:60-65 | none iff no reply part has inline data; otherwise the `data:` URL of the first part that has it |
| GeminiService.Normalize | services/geminiService.ts:69 | lowercasing and replacing underscores keeps the length and maps each character on its own: an underscore to a space, any other character to its lower case; no underscore or capital letter remains |
| GeminiService.CategoryLabel | services/geminiService.ts:74 | the first `HARM_CATEGORY_`, wherever it occurs, is removed before normalizing (a leading one leaves the rest); a category without it is only normalized |
| GeminiService.FlaggedCategories | services/geminiService.ts:72-74 | the flagged list is never longer than the ratings and is empty exactly when no rating is MEDIUM or HIGH |
| Strings.Join | services/geminiService.ts:78 | joining no label gives the empty string, one label gives that label, and the result starts with the first label |
| Strings.JoinSnoc | services/geminiService.ts:78 | joining one more label appends `sep` and that label |
| GeminiService.FlaggedClause | services/geminiService.ts:77-79 | the clause is empty exactly when nothing is flagged; otherwise it is the flagged-for intro, the labels joined by `", "`, and a full stop |
| GeminiService.FlaggedCategoriesAppend | services/geminiService.ts:72-74 | the flagged list of a concatenation is the concatenation of the lists, so the original order is kept |
| GeminiService.FlaggedCategoriesMembers | services/geminiService.ts:72-74 | a name is listed iff some MEDIUM or HIGH rating has it as its label; the list is no longer than the ratings |
| GeminiService.BlockedMessage | services/geminiService.ts:68-81 | starts with `Request was blocked due to <normalized reason>.`, always ends with the adjust-your-prompt advice, has nothing in between exactly when nothing is flagged, and otherwise has in between the flagged-for intro, the flagged labels joined by `", "`, and a full stop |
| GeminiService.EditImageWithPrompt | services/geminiService.ts:26-85 | the request is laid out as above; a thrown call rethrows; a found image wins over any block reason; otherwise a truthy block reason gives the blocked message and anything else the fixed no-image message |
| EditorPanel.PresetsFor | components/EditorPanel.tsx:93-99 | avatar, professional and product select their own lists and every other mode the combine list, each iff |
| EditorPanel.GenerateClick | components/EditorPanel.tsx:101-103 | the prompt reaches the generate handler unchanged |
| EditorPanel.PresetButton | components/EditorPanel.tsx:144-148 | a preset forwards its prompt unchanged iff not loading |
| EditorPanel.CustomPromptButton | components/EditorPanel.tsx:261-264 | the custom prompt is forwarded untrimmed iff not loading and not blank after trimming |
| EditorPanel.BgPrompt | components/EditorPanel.tsx:116-118 | the custom background text sits verbatim between double quotes inside the fixed template |
| EditorPanel.BgPromptInjective | components/EditorPanel.tsx:117 | different background texts give different prompts |
| EditorPanel.BgButton | components/EditorPanel.tsx:216-229 | the background prompt is forwarded iff in professional mode (the only mode that shows the button), not loading, and the text is not blank |
| EditorPanel.CombineProductPrompt | components/EditorPanel.tsx:121-126 | a non-blank custom prompt is embedded untrimmed in the combine template; the fallback text is used iff the prompt is blank |
| EditorPanel.CombinedDiffersFromFallback | components/EditorPanel.tsx:122-124 | no custom prompt makes the combine template equal to the fallback |
| EditorPanel.CombineButton | components/EditorPanel.tsx:282-285 | the combine prompt is forwarded iff in product mode, with a reference image, and not loading |
| EditorPanel.AddReferenceOffered | components/EditorPanel.tsx:156-173 | the add-reference button is offered iff in combine mode, or in product mode with no reference image yet |
| EditorPanel.MultiSelect | components/EditorPanel.tsx:168 | several files can be picked only in combine mode, where the add button is offered whatever the number of references |
| EditorPanel.ReferenceButtonRules | components/EditorPanel.tsx:156-173 | the add-reference button is offered only in combine or product mode, in product mode only while no reference exists, and multi-select only in combine mode |
| EditorPanel.ImageFiles | components/EditorPanel.tsx:105-114 | only files whose type starts with `image/` are forwarded, never more than were picked |
| EditorPanel.ForwardedFiles | components/EditorPanel.tsx:105-114 | no file list forwards nothing; otherwise only image files are forwarded, never more than picked, and each image file exactly as often as it was picked |
| EditorPanel.ImageFilesAppend | components/EditorPanel.tsx:107-111 | the filter preserves the picked order |
| EditorPanel.ImageFilesCount | components/EditorPanel.tsx:107-111 | each image file is forwarded exactly as often as it was picked, a non-image never |
| RefinePanel.RefineClick | components/RefinePanel.tsx:21-25 | the refine prompt is forwarded untrimmed iff it is not blank and not loading |
| RefinePanel.KeyDown | components/RefinePanel.tsx:27-32 | the default is prevented iff Enter without Shift, and then the button's guarded path runs; every other key forwards nothing |
| RefinePanel.PresetClick | components/RefinePanel.tsx:34-38 | a refine preset is forwarded unchanged iff not loading |
| RefinePanel.RefineButtonDisabled | components/RefinePanel.tsx:88 | the refine button is disabled iff loading or the prompt is blank after trimming |
| RefinePanel.RefineButtonMatchesGuard | components/RefinePanel.tsx:86-88 | the button is disabled exactly when the handler forwards nothing, and an enabled click always passes the orchestrator's blank check |

## Left out

- The model call, the client construction and the API-key check in `services/geminiService.ts` (lines 4-10 and 51-57) are network I/O. The reply, or the value the call throws, is a parameter.
- `FileReader.readAsDataURL` is foreign I/O. It is the parameter `encode`. Its error path (`reader.onerror`) is not modelled.
- `fetch` and `Blob` in `dataUrlToFile` are foreign I/O. The blob's type is the parameter `blobType`. A `fetch` that rejects happens before the `try` in `executeGeneration`; that path is not modelled.
- React rendering, hooks and dependency lists are not modelled. Each handler is one atomic step on the current state.
- The retry closure captures the history of the render that created it. Here a retry settles against the state current at retry time.
- Interleaved requests are not modelled. Neither is the busy flag's intermediate `true` value, since it is never observable between atomic steps.
- `console.error` is not modelled.
- `newHistory[historyIndex].push(result)` mutates the inner array shared with the previous state. With value sequences this aliasing cannot occur. The resulting history is the same.
- Strings.LowerChar: `toLowerCase` is modelled on ASCII letters only. Harm categories and block reasons are upper-case ASCII identifiers.
- GeminiService.ImageDataUrl: the reply part's `data` and `mimeType` are taken to be strings. An absent one would print as `undefined` in JavaScript (`data:undefined;base64,…`).
- The preset prompt texts are not modelled. Preset prompts are arbitrary strings.
- The add and remove reference buttons are disabled while loading (`components/EditorPanel.tsx` lines 176 and 202). `Session.EditSession.RemoveAdditionalImage` accepts a call in any state.
- Resetting the file input's value (`components/EditorPanel.tsx` line 113) is a DOM effect.
- `types.ts` is not part of this model. The edit mode is the four-valued datatype `Mode`.
- The presentation components are not modelled: `ImageZoomModal.tsx` (floating-point zoom and drag), `ImageUploader.tsx` (FileReader, timers, drag state), `ImageViewer.tsx`, `HistoryControls.tsx`, `ErrorNotification.tsx` and `Header.tsx`.

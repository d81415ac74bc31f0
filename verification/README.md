# Photo restoration app: a Dafny model of its core

The app is a single-page React tool that restores old photographs with a
generative image model. The user uploads a photo and picks restoration
options: one of five modes, the subject's gender and age, whether to keep
identifying marks, whether to recreate hair and clothing, and free-text
instructions. Pressing generate sends the photo and a prompt built from the
options to the model. The first image in the reply is shown and can be
downloaded as PNG or JPEG.

This project models the logic behind that flow:

- `Types` (`types.ts`): the options record and the uploaded image.
- `TextSplit`: JavaScript's `String.prototype.split` on one character, with
  its join round trip. The service uses it to cut the base64 payload out of
  a data URL.
- `Prompt` (`services/geminiService.ts`, `buildPrompt`): the prompt is
  modelled twice. `BuildPrompt` appends sentences one after another, as the
  source does. `Clauses` is an independent reference: the prompt as an
  ordered list of clauses. `PromptIsClauses` proves that the two agree.
  `ClausesDetermineOptions` proves that the clause list can be read back
  into the options. `PromptDoesNotDetermineOptions` shows that the plain
  text cannot be read back: free text is embedded without escaping.
- `Restoration` (`services/geminiService.ts`, `restorePhoto`): the request
  that is sent, the payload extraction, and the scan of the reply for its
  first inline image. The remote call itself is an input.
- `ControlPanel` (`components/ControlPanel.tsx`): single-field option
  edits, the generate button's guard, and the mode radio group.
- `App` (`App.tsx`): the component's five state hooks and one pure
  transition per handler. The asynchronous `handleGenerate` is split in
  two: `StartGenerate` runs before the await, `Complete` runs after it.
- `Session`: sequences of events over `App`. It pairs the state with the
  request awaiting its reply, and proves what holds in every reachable
  state: the single-flight invariant, and that a shown result is always a
  PNG data URL.

`Wrappers` holds the `Option` and `Result` types.

## Model

| member | source | states |
|---|---|---|
| TextSplit.Split | services/geminiService.ts:45 | splitting on a separator yields at least one segment; no segment contains the separator; there is exactly one segment iff the separator does not occur |
| TextSplit.JoinSplit | services/geminiService.ts:45 | joining the segments with the separator gives back the original string |
| TextSplit.SplitJoin | services/geminiService.ts:45 | segments free of the separator are recovered exactly by joining and then splitting |
| TextSplit.SplitAfterSegment | services/geminiService.ts:45 | a separator-free prefix followed by the separator becomes the first segment, and the rest splits on its own |
| Prompt.BuildPrompt | services/geminiService.ts:7-41 | the prompt begins with the fixed preamble, the selected mode's sentence and a space; it always ends with the closing "no added text or watermarks" sentence; when there are extra instructions, the quoted instructions come immediately before that closing sentence |
| Prompt.AppendIf | services/geminiService.ts:19-36 | a conditional `+=` only extends the prompt: the earlier text stays a prefix |
| Prompt.RequestTextInjective | services/geminiService.ts:10-17 | the five modes map to five different sentences |
| Prompt.Clauses | services/geminiService.ts:7-41 | the clause list opens with the preamble and the selected mode and ends with the closing sentence |
| Prompt.ClausePresence | services/geminiService.ts:19-36 | the gender clause appears iff gender is not `not_specified`. The age clause appears iff age is non-empty. The marks, hair and clothing clauses each appear iff their flag is set. The instructions clause appears iff the request is non-empty |
| Prompt.ClauseValues | services/geminiService.ts:17-35 | clauses that carry a value carry the options' own value: the mode, the gender, the age text verbatim and the request verbatim |
| Prompt.ClausesOrdered | services/geminiService.ts:19-38 | clauses always appear in the fixed order gender, age, marks, hair, clothing, instructions, closing |
| Prompt.InstructionsComeLast | services/geminiService.ts:34-38 | a non-empty additional request is the last clause before the closing sentence |
| Prompt.PortraitExample | services/geminiService.ts:14-27 | a female subject aged 30, portrait mode, keeping marks: the prompt has the portrait, gender, age and marks clauses, and no hair, clothing or instructions clause |
| Prompt.PromptIsClauses | services/geminiService.ts:7-41 | the incrementally built prompt equals the rendered clause list concatenated in order |
| Prompt.ClausesDetermineOptions | services/geminiService.ts:7-41 | reading the clause list back recovers the options exactly |
| Prompt.PromptDoesNotDetermineOptions | services/geminiService.ts:22-36 | two different option records give the same prompt text, because the age and the request are inserted without escaping |
| Restoration.PayloadOf | services/geminiService.ts:45 | `split(',')[1]` is defined iff the data URL contains a comma, and the payload never contains a comma |
| Restoration.PayloadOfSplitsAtComma | services/geminiService.ts:45 | for a comma-free header, a comma and a comma-free payload, extraction returns exactly the payload |
| Restoration.PayloadOfDataUrl | services/geminiService.ts:45 | extracting from a `data:<mime>;base64,<payload>` URL gives back the base64 payload |
| Restoration.MakeRequest | services/geminiService.ts:43-62 | an image with no data URL makes `restorePhoto` throw before sending, and only such an image does. Otherwise the request carries the built prompt, the file's MIME type, and the data URL's base64 payload |
| Restoration.FirstInlineData | services/geminiService.ts:68-72 | the scan finds nothing iff no part is inline data; otherwise it returns the data of an inline part with no inline part before it |
| Restoration.TextPartsAreSkipped | services/geminiService.ts:68-72 | leading text parts do not change the scan's result |
| Restoration.LaterPartsAreIgnored | services/geminiService.ts:68-72 | after text parts, the first inline part wins, whatever follows it |
| Restoration.ExtractImage | services/geminiService.ts:68-74 | success iff the first candidate has content with some inline part. The "no image" failure occurs iff that content has only text parts. The malformed failure occurs iff the first candidate or its content is missing. No other failure occurs. On success, the result is the first inline part's data |
| Restoration.OnlyFirstCandidateCounts | services/geminiService.ts:68 | candidates after the first never change the outcome |
| Restoration.Restore | services/geminiService.ts:43-74 | a request that could not be built fails with its own error. Once a request is sent, the transport failure occurs iff the call throws. For a reply, success occurs iff its first candidate has content with an inline part, and any other reply fails as malformed or without an image. A success is the first inline part of the first candidate |
| Restoration.TextOnlyResponseFails | services/geminiService.ts:68-74 | a reply whose first candidate has only text parts is reported as the no-image failure, not a crash |
| Restoration.ImageReplySucceeds | services/geminiService.ts:68-72 | a reply whose first candidate holds an inline part after some text parts yields that part's data, whatever follows it and whatever the other candidates hold |
| Restoration.UnreadableImageFails | services/geminiService.ts:45 | an image whose read failed always fails with the missing-data-URL error, whatever the reply would have been |
| ControlPanel.Apply | components/ControlPanel.tsx:59-61 | the edited field takes the new value and the other six fields keep theirs |
| ControlPanel.ApplyIdempotent | components/ControlPanel.tsx:60 | applying the same edit twice equals applying it once |
| ControlPanel.ApplyCommutes | components/ControlPanel.tsx:60 | edits of two different fields commute |
| ControlPanel.LastEditWins | components/ControlPanel.tsx:60 | of two edits of the same field, the later one wins |
| ControlPanel.GenerateEnabled | components/ControlPanel.tsx:125 | the generate button is enabled iff an image is uploaded and no generation is running |
| ControlPanel.CheckedCountOfDistinct | components/ControlPanel.tsx:69-73 | among radios with distinct values, exactly one is checked if the chosen mode is among them, and none otherwise |
| ControlPanel.ExactlyOneRadioChecked | components/ControlPanel.tsx:69-73 | every mode has a radio, and for any options exactly one of the five radios is checked |
| ControlPanel.ClickingRadioChecksIt | components/ControlPanel.tsx:69-73 | after clicking a mode's radio, that radio is the checked one |
| App.DefaultClauses | App.tsx:11-19 | the initial options ask for high quality and kept identifying marks, and for nothing else |
| App.ImageLoaded | App.tsx:32-39 | `onloadend`: the file, with whatever the reader produced, becomes the original image; the result and the message are cleared; the options and the loading flag are kept |
| App.ImageReadFailed | App.tsx:40-42 | `onerror` on its own: the read-error message is set and nothing else changes |
| App.ReadSucceeded | App.tsx:32-39 | a successful read makes the file with its data URL the original image, and clears the result and the message |
| App.ReadFailed | App.tsx:32-42 | a failed read runs `onerror` and then `onloadend`: the original image becomes the file with no data, and the result and the message are cleared, so the read-error message does not remain |
| App.ReadFailureIsHidden | App.tsx:32-64 | after a failed read no read-error message remains, an image is present so generate is allowed, and the call that generate starts fails with the missing-data-URL error before sending |
| App.EditOptions | App.tsx:115-122 | an edit changes exactly one option field and no other part of the state |
| App.Reset | App.tsx:47-54 | reset restores the initial options, clears both images and the message, and leaves the loading flag as it was |
| App.ResetForgetsHistory | App.tsx:47-51 | two states with the same loading flag reset to the same state |
| App.ResetWhenIdle | App.tsx:47-51 | when nothing is loading, reset gives the initial state |
| App.ResetUndoesEditsAndUploads | App.tsx:47-51 | edits, successful and failed reads, and earlier resets leave no trace after a reset |
| App.StartGenerate | App.tsx:56-64 | with no image, only the upload-first message is set and nothing is sent. Otherwise loading starts, and the message and the old result are cleared. A request is built iff the image holds a data URL, and it carries the current prompt and MIME type. The options and the image never change |
| App.PngPrefixOfDataUrl | App.tsx:68 | the stored result is the PNG data-URL prefix followed by the payload |
| App.Complete | App.tsx:66-74 | loading always stops and the options and image are kept. A success stores the payload as a PNG data URL; a failure sets the restoration-failed message and keeps the result |
| App.StartThenSuccess | App.tsx:62-74 | a started restoration that succeeds shows the PNG result and no message, with the image and options it started from |
| App.StartThenFailure | App.tsx:62-74 | a started restoration that fails shows the failure message and no result, with the image and options it started from |
| App.PngDataUrlRoundTrip | App.tsx:68 | the service's own payload extraction recovers the payload from the stored result |
| App.CompletionAfterResetShowsOrphanResult | App.tsx:47-68 | a reply arriving after a reset is still stored, next to an empty original image |
| App.DownloadImage | App.tsx:77-101 | download does nothing iff there is no (non-empty) result. The file is named `restored_image.<format>`. PNG links the stored image itself; JPEG links its `image/jpeg` re-encoding |
| App.PngDownloadAfterSuccess | App.tsx:68-86 | after a success, the PNG download is `restored_image.png` pointing at the stored data URL, whose payload reads back exactly |
| Session.Step | App.tsx:28-75 | exactly generate starts a call, exactly its settling ends it, and the call started is the service applied to the current image and options |
| Session.StepKeepsConsistent | App.tsx:28-75 | every allowed event preserves four facts. Loading is on iff a call is out. No result or message shows while loading. The only message shown is the restoration failure. A shown result is a PNG data URL |
| Session.RunKeepsConsistent | App.tsx:28-75 | any run of allowed events preserves those facts |
| Session.SingleFlight | App.tsx:56-75 | in every reachable state, at most one call is out, the loading flag is on exactly while it is, and no result or message shows meanwhile |
| Session.OnlyRestorationFailureIsShown | App.tsx:32-59 | in every reachable state, neither the read-error message nor the upload-first message is shown |
| Session.DownloadRefusedOnlyWithoutResult | App.tsx:77-78 | in every reachable state, download is refused iff there is no result; the empty-string case of the guard never occurs |
| Session.FailedReadEndsInRestorationFailure | App.tsx:32-74 | after a failed read, generate is allowed and the run ends with the image holding no data and the restoration-failed message shown |
| Session.OrphanResultIsReachable | App.tsx:47-68 | a reset during a restoration can end with a result shown and no original image |

## Behaviour worth knowing

- Generate with no image sets the upload-first message (App.tsx:57-59). The
  button is disabled without an image, so in a session this message never
  shows (`Session.OnlyRestorationFailureIsShown`).
- Reset does not touch `isLoading` (App.tsx:47-54). A reply that arrives
  after a reset still writes its result, next to an empty original image
  (`App.CompletionAfterResetShowsOrphanResult`,
  `Session.OrphanResultIsReachable`).
- A failed read runs both reader callbacks, as the next section explains.

## Findings

| source | as written | input that shows it | evidently intended | confidence | as-written member | corrected member |
|---|---|---|---|---|---|---|
| App.tsx:32-42 | The success handler is `onloadend`. A file reader fires `loadend` after `error` too, with a `null` result. So `onerror` sets the read-error message, and `onloadend` at once clears it and stores the file with no data as the original image. Generate is then enabled, and `null.split(',')` makes the restoration fail with the generic message. | a file that cannot be read once chosen, for example one deleted from disk after it was picked | a failed read shows the read-error message and leaves the previous image in place: the success handler should be `onload`, which does not fire after an error | high, not executed | App.ReadFailed, exhibited by App.ReadFailureIsHidden and Session.FailedReadEndsInRestorationFailure | App.ImageReadFailed |

`App.ImageReadFailed` is the failed read with `onerror` alone. It proves
that the message is set and that the images, the options and the loading
flag are unchanged. The session model follows the code as written, so its
failed-read event uses `App.ReadFailed`.

## Left out

- The remote call is not modelled: the `GoogleGenAI` client, the API key, the model name and the response modalities (services/geminiService.ts:2-5, 48-66). It is a network call into a library that is not part of this model. Its reply, or its failure, is an input to `Restoration.Restore`.
- `FileReader` and `readAsDataURL` (App.tsx:31-43) are browser I/O. A read is one event carrying its outcome. A success carries the data URL, which is an input. A failure runs `onerror` and then `onloadend`, as a reader does.
- The "no file chosen" branch of `handleImageUpload` (App.tsx:29-30) changes nothing, so it has no event.
- Clearing the file input through a DOM lookup (App.tsx:52-53) touches no state of the component.
- JPEG export (App.tsx:88-100) is browser rasterisation and asynchronous. `App.DownloadImage` returns only the `Transcoded` target, with the source image and MIME type. When the canvas has no 2D context, the code silently does nothing; that case is not modelled.
- `console.error` (App.tsx:70) is logging only.
- JSX rendering, styling, and the components `Header`, `Footer`, `Panel` and `ImageDisplay` are presentation only.
- The loading overlay (App.tsx:109-114) covers the panels while loading. `Session.Allowed` does not rely on it: only the generate button is gated, as the code disables it. So the sessions admit every interleaving the handlers themselves accept.
- The Vietnamese message texts are presentation. The three messages are the enumerated `App.Notice`.
- Real concurrency and the event loop are not modelled. Events are a sequence, and one reply settles the one outstanding request.
- Restoration.Restore: a JavaScript `TypeError` from a missing first candidate or missing parts collapses into `Malformed`, and the one from `null.split` into `NoDataUrl`. The thrown messages are not modelled.
- A content part is modelled as either text or inline data. A part carrying both, or other SDK fields, is not modelled.
- The browser `File` object is modelled only by the one field the core reads, its MIME `type`.
- The `as any` casts on the radio and select handlers (components/ControlPanel.tsx:69-73, 82) are not modelled. The model assumes those controls deliver only the enumerated values, which is what their markup offers.

/** The controller of App.tsx: one state record and one pure transition per
    handler. The asynchronous `handleGenerate` is split into the part that
    runs before the remote call (`StartGenerate`) and the part that runs
    when it settles (`Complete`). */
module App {
  import opened Wrappers
  import opened Types
  import Prompt
  import Restoration
  import ControlPanel

  /** The three user-facing messages the controller can show. Their
      Vietnamese wording is presentation and is not modelled. */
  datatype Notice =
    | CannotReadFile     // the file reader reported an error
    | UploadFirst        // generate was asked for with no original image
    | RestorationFailed  // the restoration call threw

  /** The five `useState` hooks of the component. */
  datatype AppState = AppState(
    options: Options,
    originalImage: Option<ImageFile>,
    restoredImage: Option<string>,
    isLoading: bool,
    error: Option<Notice>)

  /** `initialOptions`: high quality, no gender, no age, keep identifying
      marks, nothing remade, no extra instructions. */
  const InitialOptions: Options := Options(HighQuality, NotSpecified, "", true, false, false, "")

  /** The state of a freshly mounted component. */
  const InitialState: AppState := AppState(InitialOptions, None, None, false, None)

  /** The default options ask for the high-quality mode and for identifying
      marks to be kept, and for nothing else. */
  lemma DefaultClauses()
    ensures Prompt.Clauses(InitialOptions) ==
      [Prompt.Opening, Prompt.Mode(HighQuality), Prompt.KeepMarks, Prompt.Closing]
  {
  }

  /** The reader's `onloadend`: the file, with whatever the reader produced,
      becomes the original image, and any earlier result and message are
      cleared. */
  function ImageLoaded(s: AppState, file: ImageFile): (r: AppState)
    ensures r.originalImage == Some(file)
    ensures r.restoredImage.None? && r.error.None?
    ensures r.options == s.options && r.isLoading == s.isLoading
  {
    s.(originalImage := Some(file), restoredImage := None, error := None)
  }

  /** The reader's `onerror` on its own: only the message changes. This is
      also what a failed read would do if the success handler ran only on
      success. */
  function ImageReadFailed(s: AppState): (r: AppState)
    ensures r.error == Some(CannotReadFile)
    ensures r.options == s.options && r.originalImage == s.originalImage
    ensures r.restoredImage == s.restoredImage && r.isLoading == s.isLoading
  {
    s.(error := Some(CannotReadFile))
  }

  /** A successful read: `onloadend` with the data URL as the result. */
  function ReadSucceeded(s: AppState, fileType: string, dataUrl: string): (r: AppState)
    ensures r.originalImage == Some(ImageFile(fileType, Some(dataUrl)))
    ensures r.restoredImage.None? && r.error.None?
    ensures r.options == s.options && r.isLoading == s.isLoading
  {
    ImageLoaded(s, ImageFile(fileType, Some(dataUrl)))
  }

  /** A failed read as the code handles it. The reader fires `error` and
      then `loadend`, so `onerror` runs and `onloadend` runs after it with a
      `null` result: the read-error message is cleared at once, and the
      original image becomes the file with no data. */
  function ReadFailed(s: AppState, fileType: string): (r: AppState)
    ensures r.originalImage == Some(ImageFile(fileType, None))
    ensures r.restoredImage.None? && r.error.None?
    ensures r.options == s.options && r.isLoading == s.isLoading
  {
    ImageLoaded(ImageReadFailed(s), ImageFile(fileType, None))
  }

  /** A failed read never leaves its message on screen, and the image it
      leaves behind enables generate yet cannot be sent: the restoration
      that follows fails before the call. */
  lemma ReadFailureIsHidden(s: AppState, fileType: string)
    ensures ReadFailed(s, fileType).error != Some(CannotReadFile)
    ensures ReadFailed(s, fileType).originalImage.Some?
    ensures StartGenerate(ReadFailed(s, fileType)).request == Some(Failure(Restoration.NoDataUrl))
  {
  }

  /** A control-panel edit: the options change as `handleOptionChange`
      says and nothing else does. */
  function EditOptions(s: AppState, u: ControlPanel.Update): (r: AppState)
    ensures ControlPanel.Get(r.options, ControlPanel.KeyOf(u)) == ControlPanel.ValueOf(u)
    ensures forall f :: f != ControlPanel.KeyOf(u) ==>
      ControlPanel.Get(r.options, f) == ControlPanel.Get(s.options, f)
    ensures r.originalImage == s.originalImage && r.restoredImage == s.restoredImage
    ensures r.isLoading == s.isLoading && r.error == s.error
  {
    s.(options := ControlPanel.Apply(s.options, u))
  }

  /** `handleReset`: options back to their initial values, both images and
      the message cleared. The loading flag is not touched. */
  function Reset(s: AppState): (r: AppState)
    ensures r.options == InitialOptions
    ensures r.originalImage.None? && r.restoredImage.None? && r.error.None?
    ensures r.isLoading == s.isLoading
  {
    s.(options := InitialOptions, originalImage := None, restoredImage := None, error := None)
  }

  /** A reset forgets everything but whether a restoration is running. */
  lemma ResetForgetsHistory(s: AppState, t: AppState)
    requires s.isLoading == t.isLoading
    ensures Reset(s) == Reset(t)
  {
  }

  /** Outside a running restoration, reset returns to the initial state. */
  lemma ResetWhenIdle(s: AppState)
    requires !s.isLoading
    ensures Reset(s) == InitialState
  {
  }

  /** Edits and uploads made before a reset leave no trace after it. */
  lemma ResetUndoesEditsAndUploads(s: AppState, u: ControlPanel.Update, fileType: string, dataUrl: string)
    ensures Reset(EditOptions(s, u)) == Reset(s)
    ensures Reset(ReadSucceeded(s, fileType, dataUrl)) == Reset(s)
    ensures Reset(ReadFailed(s, fileType)) == Reset(s)
    ensures Reset(Reset(s)) == Reset(s)
  {
  }

  /** What `handleGenerate` does before it awaits: the new state and, when
      it gets past the guard, what `restorePhoto` does with the image: the
      request it sends, or the error it rejects with before sending. */
  datatype Started = Started(
    state: AppState,
    request: Option<Result<Restoration.GenerateRequest, Restoration.RestoreError>>)

  /** The synchronous part of `handleGenerate`. With no original image it
      only shows the upload-first message. Otherwise it raises the loading
      flag, clears the message and the previous result, and hands the
      current image and options to the service. */
  function StartGenerate(s: AppState): (r: Started)
    ensures r.request.Some? <==> s.originalImage.Some?
    ensures r.state.options == s.options && r.state.originalImage == s.originalImage
    ensures s.originalImage.None? ==>
      r.state.error == Some(UploadFirst) &&
      r.state.isLoading == s.isLoading && r.state.restoredImage == s.restoredImage
    ensures s.originalImage.Some? ==>
      r.state.isLoading && r.state.error.None? && r.state.restoredImage.None? &&
      (r.request.value.Success? <==> s.originalImage.value.base64.Some?)
    ensures s.originalImage.Some? && r.request.value.Success? ==>
      r.request.value.value.prompt == Prompt.BuildPrompt(s.options) &&
      r.request.value.value.mimeType == s.originalImage.value.fileType
  {
    if s.originalImage.None? then
      Started(s.(error := Some(UploadFirst)), None)
    else
      var request := Restoration.MakeRequest(s.originalImage.value, s.options);
      Started(s.(isLoading := true, error := None, restoredImage := None), Some(request))
  }

  /** The data URL the component stores for a returned payload. */
  function PngDataUrl(payload: string): string
  {
    Restoration.DataUrl("image/png", payload)
  }

  /** What every stored result begins with. */
  const PngPrefix: string := "data:image/png;base64,"

  /** A PNG data URL begins with the PNG prefix and ends with its payload. */
  lemma PngPrefixOfDataUrl(payload: string)
    ensures PngDataUrl(payload) == PngPrefix + payload
  {
  }

  /** The part of `handleGenerate` after the await. A payload becomes the
      restored image as a PNG data URL; a failure shows the generic message;
      either way the loading flag drops. The restored image is written
      whatever the rest of the state now holds. */
  function Complete(s: AppState, outcome: Result<string, Restoration.RestoreError>): (r: AppState)
    ensures !r.isLoading
    ensures r.options == s.options && r.originalImage == s.originalImage
    ensures outcome.Success? ==>
      r.restoredImage == Some(PngDataUrl(outcome.value)) && r.error == s.error
    ensures outcome.Failure? ==>
      r.error == Some(RestorationFailed) && r.restoredImage == s.restoredImage
  {
    match outcome
    case Success(payload) => s.(restoredImage := Some(PngDataUrl(payload)), isLoading := false)
    case Failure(_) => s.(error := Some(RestorationFailed), isLoading := false)
  }

  /** A started restoration that succeeds shows the payload as a PNG, keeps
      the image and options it was started from, and shows no message. */
  lemma StartThenSuccess(s: AppState, payload: string)
    requires s.originalImage.Some?
    ensures var r := Complete(StartGenerate(s).state, Success(payload));
      r.restoredImage == Some(PngDataUrl(payload)) && r.error.None? && !r.isLoading &&
      r.options == s.options && r.originalImage == s.originalImage
  {
  }

  /** A started restoration that fails shows the generic message and no
      result, and keeps the image and options. */
  lemma StartThenFailure(s: AppState, e: Restoration.RestoreError)
    requires s.originalImage.Some?
    ensures var r := Complete(StartGenerate(s).state, Failure(e));
      r.restoredImage.None? && r.error == Some(RestorationFailed) && !r.isLoading &&
      r.options == s.options && r.originalImage == s.originalImage
  {
  }

  /** The stored PNG data URL gives the payload back through the same
      comma split the service uses on uploads. */
  lemma PngDataUrlRoundTrip(payload: string)
    requires ',' !in payload
    ensures Restoration.PayloadOf(PngDataUrl(payload)) == Some(payload)
  {
    Restoration.PayloadOfDataUrl("image/png", payload);
  }

  /** A reply that arrives after a reset still lands: the result is shown
      although there is no longer an original image beside it. */
  lemma CompletionAfterResetShowsOrphanResult(s: AppState, payload: string)
    requires s.originalImage.Some?
    ensures var r := Complete(Reset(StartGenerate(s).state), Success(payload));
      r.originalImage.None? && r.restoredImage == Some(PngDataUrl(payload))
  {
  }

  /** The two download buttons. */
  datatype Format = Png | Jpeg

  function FormatName(format: Format): string
  {
    match format
    case Png => "png"
    case Jpeg => "jpeg"
  }

  /** Where the download link points: straight at the stored image, or at
      the stored image re-encoded to another MIME type by a canvas. */
  datatype LinkTarget = Direct(url: string) | Transcoded(source: string, mimeType: string)

  /** The anchor `downloadImage` clicks. */
  datatype DownloadLink = DownloadLink(fileName: string, target: LinkTarget)

  /** `downloadImage`: nothing without a (non-empty) restored image;
      otherwise a link named after the format, pointing at the image itself
      for PNG and at its JPEG re-encoding otherwise. */
  function DownloadImage(s: AppState, format: Format): (link: Option<DownloadLink>)
    ensures link.None? <==> s.restoredImage.None? || s.restoredImage.value == ""
    ensures link.Some? ==> link.value.fileName == "restored_image." + FormatName(format)
    ensures link.Some? && format == Png ==> link.value.target == Direct(s.restoredImage.value)
    ensures link.Some? && format == Jpeg ==>
      link.value.target == Transcoded(s.restoredImage.value, "image/jpeg")
  {
    if s.restoredImage.None? || s.restoredImage.value == "" then None
    else
      var mimeType := "image/" + FormatName(format);
      var fileName := "restored_image." + FormatName(format);
      match format
      case Png => Some(DownloadLink(fileName, Direct(s.restoredImage.value)))
      case Jpeg =>
        assert mimeType == "image/jpeg";
        Some(DownloadLink(fileName, Transcoded(s.restoredImage.value, mimeType)))
  }

  /** After a successful restoration, the PNG button downloads exactly the
      stored data URL, from which the payload can be read back. */
  lemma PngDownloadAfterSuccess(s: AppState, payload: string)
    requires ',' !in payload
    ensures var link := DownloadImage(Complete(s, Success(payload)), Png);
      link == Some(DownloadLink("restored_image.png", Direct(PngDataUrl(payload)))) &&
      Restoration.PayloadOf(link.value.target.url) == Some(payload)
  {
    assert |PngDataUrl(payload)| > 0;
    assert "restored_image." + FormatName(Png) == "restored_image.png";
    PngDataUrlRoundTrip(payload);
  }
}

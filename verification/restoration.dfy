/** `restorePhoto` of services/geminiService.ts, around the remote call: the
    request it assembles and how it reads the model's response. The call
    itself is not modelled; its reply is an input. */
module Restoration {
  import opened Wrappers
  import opened Types
  import TextSplit
  import Prompt

  /** One content part of a candidate: text, or inline binary data (an image,
      base64-encoded). */
  datatype Part = Text(text: string) | Inline(data: string)

  /** A generated alternative. Its content may be missing (for example when
      the service blocks the output). */
  datatype Candidate = Candidate(content: Option<seq<Part>>)

  datatype Response = Response(candidates: seq<Candidate>)

  /** Why a restoration yields no image. `NoDataUrl` is an image whose read
      failed: its data URL is `null`, so `split` throws a TypeError before
      anything is sent. `Transport` is a rejected remote call. `Malformed` is
      a response whose first candidate or its parts are missing, where the
      source's loop throws a TypeError. `NoImage` is the source's explicit
      "AI did not return an image" error. */
  datatype RestoreError = NoDataUrl | Transport | Malformed | NoImage

  /** What `restorePhoto` sends: the base64 payload (JavaScript's `undefined`
      when the data URL holds no comma), the file's MIME type and the prompt. */
  datatype GenerateRequest = GenerateRequest(data: Option<string>, mimeType: string, prompt: string)

  /** `base64.split(',')[1]`: the text between the first and the second comma. */
  function PayloadOf(dataUrl: string): (payload: Option<string>)
    ensures payload.Some? <==> ',' in dataUrl
    ensures payload.Some? ==> ',' !in payload.value
  {
    var segments := TextSplit.Split(dataUrl, ',');
    if |segments| >= 2 then Some(segments[1]) else None
  }

  /** The data URL the browser reads a file into. */
  function DataUrl(mimeType: string, payload: string): string
  {
    "data:" + mimeType + ";base64," + payload
  }

  /** A comma-free header, a comma and a comma-free payload: extraction
      returns the payload exactly. */
  lemma PayloadOfSplitsAtComma(header: string, payload: string)
    requires ',' !in header && ',' !in payload
    ensures PayloadOf(header + "," + payload) == Some(payload)
  {
    TextSplit.SplitJoin([header, payload], ',');
    assert [header, payload][1..] == [payload];
    assert TextSplit.Join([header, payload], ',') == header + "," + payload;
  }

  /** Reading a file as a data URL and extracting the payload gives back the
      file's base64 content, as long as the MIME type has no comma (base64
      text never does). */
  lemma PayloadOfDataUrl(mimeType: string, payload: string)
    requires ',' !in mimeType && ',' !in payload
    ensures PayloadOf(DataUrl(mimeType, payload)) == Some(payload)
  {
    var header := "data:" + mimeType + ";base64";
    assert ',' !in header;
    assert DataUrl(mimeType, payload) == header + "," + payload;
    PayloadOfSplitsAtComma(header, payload);
  }

  /** The request `restorePhoto` sends for an image and options, or the
      TypeError `null.split(',')` throws when the image holds no data URL. */
  function MakeRequest(image: ImageFile, options: Options): (r: Result<GenerateRequest, RestoreError>)
    ensures r.Failure? <==> image.base64.None?
    ensures r.Failure? ==> r.error == NoDataUrl
    ensures r.Success? ==> r.value.prompt == Prompt.BuildPrompt(options) && r.value.mimeType == image.fileType
    ensures forall mimeType, payload ::
              ',' !in mimeType && ',' !in payload && image.base64 == Some(DataUrl(mimeType, payload))
              ==> r.Success? && r.value.data == Some(payload)
  {
    match image.base64
    case None => Failure(NoDataUrl)
    case Some(dataUrl) =>
      forall mimeType, payload | ',' !in mimeType && ',' !in payload && dataUrl == DataUrl(mimeType, payload)
        ensures PayloadOf(dataUrl) == Some(payload)
      {
        PayloadOfDataUrl(mimeType, payload);
      }
      Success(GenerateRequest(PayloadOf(dataUrl), image.fileType, Prompt.BuildPrompt(options)))
  }

  /** The loop over the parts: the data of the first part carrying inline data. */
  function FirstInlineData(parts: seq<Part>): (r: Option<string>)
    ensures r.None? <==> forall i :: 0 <= i < |parts| ==> !parts[i].Inline?
    ensures r.Some? ==> exists i :: 0 <= i < |parts| && parts[i] == Inline(r.value)
                          && forall j :: 0 <= j < i ==> !parts[j].Inline?
  {
    if |parts| == 0 then None
    else if parts[0].Inline? then Some(parts[0].data)
    else
      var r := FirstInlineData(parts[1..]);
      if r.Some? then
        var i :| 0 <= i < |parts[1..]| && parts[1..][i] == Inline(r.value)
                 && forall j :: 0 <= j < i ==> !parts[1..][j].Inline?;
        assert parts[i + 1] == Inline(r.value);
        r
      else r
  }

  /** Text parts in front of the image do not change what is found. */
  lemma {:induction false} TextPartsAreSkipped(texts: seq<Part>, rest: seq<Part>)
    requires forall i :: 0 <= i < |texts| ==> texts[i].Text?
    ensures FirstInlineData(texts + rest) == FirstInlineData(rest)
  {
    if |texts| == 0 {
      assert texts + rest == rest;
    } else {
      assert (texts + rest)[0] == texts[0];
      assert (texts + rest)[1..] == texts[1..] + rest;
      TextPartsAreSkipped(texts[1..], rest);
    }
  }

  /** Parts after the first image are ignored. */
  lemma {:induction false} LaterPartsAreIgnored(before: seq<Part>, data: string, after: seq<Part>)
    requires forall i :: 0 <= i < |before| ==> before[i].Text?
    ensures FirstInlineData(before + [Inline(data)] + after) == Some(data)
  {
    assert before + [Inline(data)] + after == before + ([Inline(data)] + after);
    TextPartsAreSkipped(before, [Inline(data)] + after);
  }

  /** `response.candidates[0].content.parts`, scanned for the first image. */
  function ExtractImage(response: Response): (r: Result<string, RestoreError>)
    ensures r.Success? <==>
      |response.candidates| > 0 && response.candidates[0].content.Some?
      && exists i :: 0 <= i < |response.candidates[0].content.value|
                     && response.candidates[0].content.value[i].Inline?
    ensures r.Failure? && r.error == NoImage <==>
      |response.candidates| > 0 && response.candidates[0].content.Some?
      && forall i :: 0 <= i < |response.candidates[0].content.value|
                     ==> response.candidates[0].content.value[i].Text?
    ensures r.Failure? && r.error == Malformed <==>
      |response.candidates| == 0 || response.candidates[0].content.None?
    ensures r.Failure? ==> r.error == Malformed || r.error == NoImage
    ensures r.Success? ==> Some(r.value) == FirstInlineData(response.candidates[0].content.value)
  {
    if |response.candidates| == 0 || response.candidates[0].content.None? then Failure(Malformed)
    else
      match FirstInlineData(response.candidates[0].content.value)
      case Some(data) => Success(data)
      case None => Failure(NoImage)
  }

  /** The outcome of `restorePhoto`: the request it built (or the error that
      stopped it before sending) and the remote call's reply, `None` when the
      call threw. The reply is not consulted when nothing was sent. */
  function Restore(request: Result<GenerateRequest, RestoreError>, reply: Option<Response>): (r: Result<string, RestoreError>)
    ensures request.Failure? ==> r == Failure(request.error)
    ensures request.Success? ==> (r == Failure(Transport) <==> reply.None?)
    ensures request.Success? && reply.Some? ==>
      (r.Success? <==>
        |reply.value.candidates| > 0 && reply.value.candidates[0].content.Some?
        && exists i :: 0 <= i < |reply.value.candidates[0].content.value|
                       && reply.value.candidates[0].content.value[i].Inline?)
    ensures request.Success? && reply.Some? && r.Failure? ==> r.error == Malformed || r.error == NoImage
    ensures r.Success? ==>
      request.Success? && reply.Some? && |reply.value.candidates| > 0 && reply.value.candidates[0].content.Some? &&
      Some(r.value) == FirstInlineData(reply.value.candidates[0].content.value)
  {
    match request
    case Failure(e) => Failure(e)
    case Success(_) =>
      match reply
      case None => Failure(Transport)
      case Some(response) => ExtractImage(response)
  }

  /** Only the first candidate is read: what follows it never changes the
      outcome. */
  lemma OnlyFirstCandidateCounts(first: Candidate, others: seq<Candidate>, rest: seq<Candidate>)
    ensures ExtractImage(Response([first] + others)) == ExtractImage(Response([first] + rest))
  {
  }

  /** A response with only text parts is reported as a failure, not a crash. */
  lemma TextOnlyResponseFails(request: GenerateRequest, texts: seq<Part>, others: seq<Candidate>)
    requires forall i :: 0 <= i < |texts| ==> texts[i].Text?
    ensures Restore(Success(request), Some(Response([Candidate(Some(texts))] + others))) == Failure(NoImage)
  {
  }

  /** A reply whose first candidate holds an image after some text yields
      that image, whatever follows it and whatever the other candidates hold. */
  lemma ImageReplySucceeds(request: GenerateRequest, texts: seq<Part>, data: string, after: seq<Part>, others: seq<Candidate>)
    requires forall i :: 0 <= i < |texts| ==> texts[i].Text?
    ensures Restore(Success(request), Some(Response([Candidate(Some(texts + [Inline(data)] + after))] + others)))
      == Success(data)
  {
    LaterPartsAreIgnored(texts, data, after);
  }

  /** An image whose read failed is never sent: whatever the reply would
      have been, the restoration fails before the call. */
  lemma UnreadableImageFails(image: ImageFile, options: Options, reply: Option<Response>)
    requires image.base64.None?
    ensures Restore(MakeRequest(image, options), reply) == Failure(NoDataUrl)
  {
  }
}

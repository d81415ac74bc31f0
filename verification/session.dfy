/** Sequences of user and browser events driving the controller of App.tsx.
    A session pairs the component's state with the request whose reply has
    not arrived yet, so that the awaited call of `handleGenerate` becomes an
    event of its own. */
module Session {
  import opened Wrappers
  import opened Types
  import Restoration
  import ControlPanel
  import App

  /** What can happen to a mounted component. */
  datatype Event =
    | FileRead(fileType: string, dataUrl: string)  // a read that succeeds
    | FileReadFailed(fileType: string)             // a read that fails
    | Edit(u: ControlPanel.Update)                 // any control-panel input
    | ResetClicked                                 // the reset button
    | GenerateClicked                              // the generate button
    | Settled(reply: Option<Restoration.Response>) // the awaited call settles

  /** The component's state and the `restorePhoto` call still being awaited:
      the request it sent, or the error it rejects with before sending. */
  datatype Session = Session(
    app: App.AppState,
    inFlight: Option<Result<Restoration.GenerateRequest, Restoration.RestoreError>>)

  const Mounted: Session := Session(App.InitialState, None)

  /** The generate button is the only control the component disables, and
      a reply can only arrive for a request that was sent. */
  predicate Allowed(s: Session, e: Event)
  {
    match e
    case GenerateClicked => ControlPanel.GenerateEnabled(s.app.isLoading, s.app.originalImage.Some?)
    case Settled(_) => s.inFlight.Some?
    case _ => true
  }

  /** One event. A failed read runs both reader callbacks. Clicking generate
      starts the call `StartGenerate` prepares; when it settles, the service
      turns the reply into an outcome and `Complete` stores it. */
  function Step(s: Session, e: Event): (r: Session)
    requires Allowed(s, e)
    ensures r.inFlight.Some? <==> e.GenerateClicked? || (s.inFlight.Some? && !e.Settled?)
    ensures e.GenerateClicked? ==>
      r.inFlight == Some(Restoration.MakeRequest(s.app.originalImage.value, s.app.options))
  {
    match e
    case FileRead(fileType, dataUrl) => s.(app := App.ReadSucceeded(s.app, fileType, dataUrl))
    case FileReadFailed(fileType) => s.(app := App.ReadFailed(s.app, fileType))
    case Edit(u) => s.(app := App.EditOptions(s.app, u))
    case ResetClicked => s.(app := App.Reset(s.app))
    case GenerateClicked =>
      var started := App.StartGenerate(s.app);
      Session(started.state, started.request)
    case Settled(reply) => Session(App.Complete(s.app, Restoration.Restore(s.inFlight.value, reply)), None)
  }

  /** The session after `events`, or nothing if one of them is not
      available when it happens. */
  function Run(s: Session, events: seq<Event>): Option<Session>
    decreases |events|
  {
    if |events| == 0 then Some(s)
    else if !Allowed(s, events[0]) then None
    else Run(Step(s, events[0]), events[1..])
  }

  /** A session reachable from mounting. */
  ghost predicate Reachable(s: Session)
  {
    exists events :: Run(Mounted, events) == Some(s)
  }

  /** What holds in every reachable session: the loading flag is up exactly
      while one call is out, neither a result nor a message is shown while
      it is up, the only message ever shown is the restoration failure, and
      a shown result is always a PNG data URL. */
  predicate Consistent(s: Session)
  {
    && (s.app.isLoading <==> s.inFlight.Some?)
    && (s.app.isLoading ==> s.app.restoredImage.None? && s.app.error.None?)
    && (s.app.error.None? || s.app.error == Some(App.RestorationFailed))
    && (s.app.restoredImage.Some? ==> App.PngPrefix <= s.app.restoredImage.value)
  }

  /** Every allowed event keeps a consistent session consistent. */
  lemma StepKeepsConsistent(s: Session, e: Event)
    requires Consistent(s) && Allowed(s, e)
    ensures Consistent(Step(s, e))
  {
    match e
    case Settled(reply) =>
      var outcome := Restoration.Restore(s.inFlight.value, reply);
      if outcome.Success? {
        App.PngPrefixOfDataUrl(outcome.value);
      }
    case GenerateClicked =>
      assert s.app.originalImage.Some?;
    case _ =>
  }

  /** Any run of allowed events keeps a consistent session consistent. */
  lemma {:induction false} RunKeepsConsistent(s: Session, events: seq<Event>)
    requires Consistent(s)
    ensures Run(s, events).Some? ==> Consistent(Run(s, events).value)
    decreases |events|
  {
    if |events| > 0 && Allowed(s, events[0]) {
      StepKeepsConsistent(s, events[0]);
      RunKeepsConsistent(Step(s, events[0]), events[1..]);
    }
  }

  /** At most one restoration runs at a time, the spinner shows exactly
      while it runs, and no result and no message are shown during it. */
  lemma SingleFlight(s: Session)
    requires Reachable(s)
    ensures s.app.isLoading <==> s.inFlight.Some?
    ensures s.app.isLoading ==> s.app.restoredImage.None? && s.app.error.None?
  {
    var events :| Run(Mounted, events) == Some(s);
    RunKeepsConsistent(Mounted, events);
  }

  /** The read-error and upload-first messages never stay on screen: the
      first is cleared by `onloadend` right after it is set, and the second
      needs a generate click the disabled button does not allow. */
  lemma OnlyRestorationFailureIsShown(s: Session)
    requires Reachable(s)
    ensures s.app.error != Some(App.CannotReadFile)
    ensures s.app.error != Some(App.UploadFirst)
  {
    var events :| Run(Mounted, events) == Some(s);
    RunKeepsConsistent(Mounted, events);
  }

  /** In a reachable session the download guard refuses exactly when there
      is no result: the empty string it also tests for never occurs. */
  lemma DownloadRefusedOnlyWithoutResult(s: Session, format: App.Format)
    requires Reachable(s)
    ensures App.DownloadImage(s.app, format).None? <==> s.app.restoredImage.None?
  {
    var events :| Run(Mounted, events) == Some(s);
    RunKeepsConsistent(Mounted, events);
  }

  /** Running a sequence that starts with an allowed event is taking that
      step and running the rest. */
  lemma RunFirst(s: Session, e: Event, rest: seq<Event>)
    requires Allowed(s, e)
    ensures Run(s, [e] + rest) == Run(Step(s, e), rest)
  {
  }

  /** A failed read leaves an image with no data; generate is enabled for
      it, and the restoration it starts ends with the generic failure
      message instead of the read error. */
  lemma FailedReadEndsInRestorationFailure(fileType: string, reply: Option<Restoration.Response>)
    ensures exists s ::
      && Reachable(s)
      && s.app.originalImage == Some(ImageFile(fileType, None))
      && s.app.error == Some(App.RestorationFailed)
  {
    var s1 := Step(Mounted, FileReadFailed(fileType));
    var s2 := Step(s1, GenerateClicked);
    var s3 := Step(s2, Settled(reply));
    assert s2.inFlight == Some(Failure(Restoration.NoDataUrl));
    RunFirst(s2, Settled(reply), []);
    RunFirst(s1, GenerateClicked, [Settled(reply)]);
    RunFirst(Mounted, FileReadFailed(fileType), [GenerateClicked, Settled(reply)]);
    assert Run(Mounted, [FileReadFailed(fileType), GenerateClicked, Settled(reply)]) == Some(s3);
    assert Reachable(s3);
  }

  /** A reset while a restoration runs does not stop its reply from being
      shown: the session ends with a result and no original image. */
  lemma OrphanResultIsReachable()
    ensures exists s :: Reachable(s) && s.app.originalImage.None? && s.app.restoredImage.Some?
  {
    var fileType: string, dataUrl: string :| true;
    var reply := Some(Restoration.Response([Restoration.Candidate(Some([Restoration.Inline("AA")]))]));
    var s1 := Step(Mounted, FileRead(fileType, dataUrl));
    var s2 := Step(s1, GenerateClicked);
    var s3 := Step(s2, ResetClicked);
    var s4 := Step(s3, Settled(reply));
    assert s2.inFlight.Some? && s2.inFlight.value.Success?;
    assert Restoration.Restore(s3.inFlight.value, reply) == Success("AA");
    RunFirst(s3, Settled(reply), []);
    RunFirst(s2, ResetClicked, [Settled(reply)]);
    RunFirst(s1, GenerateClicked, [ResetClicked, Settled(reply)]);
    RunFirst(Mounted, FileRead(fileType, dataUrl), [GenerateClicked, ResetClicked, Settled(reply)]);
    assert Run(Mounted, [FileRead(fileType, dataUrl), GenerateClicked, ResetClicked, Settled(reply)]) == Some(s4);
    assert Reachable(s4);
    assert s3.app.originalImage.None?;
    assert s4.app.originalImage.None? && s4.app.restoredImage.Some?;
  }
}

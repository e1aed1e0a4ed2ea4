/**
 * The clone modal (`VoiceClone`): building the clone request, deciding whether
 * it is sent, and the submission handler with its loading flag.
 *
 * `form.validateFields()`, `cloneVoice` and `message.*` belong to the caller
 * and the UI toolkit: their outcomes are parameters and their calls are
 * recorded as events.
 */
module VoiceCloneModal {
  import opened Wrappers
  import opened VoiceTypes
  import AudioFormat

  /**
   * Whether a submission for `voice` re-clones it, i.e. passes its `voice_id`:
   * the voice is given, is a custom voice, and has training attempts left.
   */
  predicate ReusesVoiceId(voice: Option<Voice>)
  {
    voice.Some? && !voice.value.isSystemVoice && voice.value.availableTrainingTimes > 0
  }

  /** The request for the validated values, the computed format and the file. */
  function BuildRequest(values: FormValues, format: string, file: UploadFile, voice: Option<Voice>): (r: CloneVoiceReq)
    ensures r.voiceName == values.name && r.previewText == values.previewText && r.language == values.language
    ensures r.audioFormat == format && r.file == file
    ensures r.voiceId.Some? <==> voice.Some? && !voice.value.isSystemVoice && voice.value.availableTrainingTimes > 0
    ensures r.voiceId.Some? ==> r.voiceId.value == voice.value.value
  {
    var params := CloneVoiceReq(values.name, values.previewText, values.language, format, file, None);
    if ReusesVoiceId(voice) then params.(voiceId := Some(voice.value.value)) else params
  }

  /** Why a submission stops before `cloneVoice` is called. */
  datatype Rejection =
    | InvalidForm(detail: string)
    | MissingFile
    | UnsupportedFormat

  /**
   * The request a submission sends, or why it sends none, given what form
   * validation produced and the voice being cloned.
   */
  function Prepare(validated: Result<FormValues, string>, voice: Option<Voice>): (r: Result<CloneVoiceReq, Rejection>)
  {
    match validated
    case Failure(detail) => Failure(InvalidForm(detail))
    case Success(values) =>
      match values.audio
      case None => Failure(MissingFile)
      case Some(file) =>
        var format := AudioFormat.FileFormat(file.name);
        if !AudioFormat.IsSupported(format) then Failure(UnsupportedFormat)
        else Success(BuildRequest(values, format, file, voice))
  }

  /** The toast shown for a rejection. */
  function RejectionText(why: Rejection): string
  {
    match why
    case InvalidForm(detail) => CloneFailedPrefix + detail
    case MissingFile => MissingFileText
    case UnsupportedFormat => UnsupportedFormatText
  }

  /**
   * The effects of one `handleSubmit`, with `cloneResult` the outcome
   * `cloneVoice` has if it is called (the new voice's id, or the error text).
   */
  function SubmitEvents(prepared: Result<CloneVoiceReq, Rejection>, cloneResult: Result<string, string>): seq<Event>
  {
    match prepared
    case Failure(why) =>
      [LoadingSet(true), ErrorToast(RejectionText(why)), LoadingSet(false)]
    case Success(req) =>
      match cloneResult
      case Success(_) =>
        [LoadingSet(true), CloneVoiceCalled(req), SuccessToast(CloneSuccessText), CloseCalled, LoadingSet(false)]
      case Failure(detail) =>
        [LoadingSet(true), CloneVoiceCalled(req), ErrorToast(CloneFailedPrefix + detail), LoadingSet(false)]
  }

  /** Whether one `handleSubmit` ends by calling `onClose`. */
  predicate SubmitCloses(prepared: Result<CloneVoiceReq, Rejection>, cloneResult: Result<string, string>)
  {
    prepared.Success? && cloneResult.Success?
  }

  /** The value of the loading flag after `trace`, starting from `initial`. */
  function LoadingAfter(trace: seq<Event>, initial: bool): bool
  {
    if trace == [] then initial
    else if trace[|trace| - 1].LoadingSet? then trace[|trace| - 1].on
    else LoadingAfter(trace[..|trace| - 1], initial)
  }

  /**
   * A submission reaches `cloneVoice` exactly when validation passed, a file
   * was given and its format is supported; the request then carries the form's
   * fields, the lower-cased format and the file.
   */
  lemma PrepareAccepts(validated: Result<FormValues, string>, voice: Option<Voice>)
    ensures Prepare(validated, voice).Success? <==>
      validated.Success? && validated.value.audio.Some? &&
      AudioFormat.IsSupported(AudioFormat.Lower(AudioFormat.AfterLast(validated.value.audio.value.name, '.')))
    ensures Prepare(validated, voice).Success? ==>
      var req := Prepare(validated, voice).value;
      req.voiceName == validated.value.name && req.previewText == validated.value.previewText &&
      req.language == validated.value.language && req.file == validated.value.audio.value &&
      req.audioFormat == AudioFormat.Lower(AudioFormat.AfterLast(req.file.name, '.'))
  {
    if validated.Success? && validated.value.audio.Some? {
      AudioFormat.FileFormatIsLoweredSuffix(validated.value.audio.value.name);
    }
  }

  /** The rejections, each with the step of the handler that produces it. */
  lemma PrepareRejects(validated: Result<FormValues, string>, voice: Option<Voice>)
    ensures validated.Failure? ==> Prepare(validated, voice) == Failure(InvalidForm(validated.error))
    ensures validated.Success? && validated.value.audio.None? ==> Prepare(validated, voice) == Failure(MissingFile)
    ensures (validated.Success? && validated.value.audio.Some? &&
      !AudioFormat.IsSupported(AudioFormat.Lower(AudioFormat.AfterLast(validated.value.audio.value.name, '.')))) ==>
      Prepare(validated, voice) == Failure(UnsupportedFormat)
  {
    if validated.Success? && validated.value.audio.Some? {
      AudioFormat.FileFormatIsLoweredSuffix(validated.value.audio.value.name);
    }
  }

  /**
   * The request's `voice_id` is the voice's id exactly when the voice is a
   * custom voice with training attempts left; otherwise the clone is a first
   * clone and carries no `voice_id`.
   */
  lemma VoiceIdRule(validated: Result<FormValues, string>, voice: Option<Voice>)
    requires Prepare(validated, voice).Success?
    ensures Prepare(validated, voice).value.voiceId ==
      if voice.Some? && !voice.value.isSystemVoice && voice.value.availableTrainingTimes > 0
      then Some(voice.value.value) else None
  {
  }

  /** The three shapes a submission's effects can take. */
  lemma SubmitEventsShape(prepared: Result<CloneVoiceReq, Rejection>, cloneResult: Result<string, string>)
    ensures prepared.Failure? ==>
        SubmitEvents(prepared, cloneResult) ==
        [LoadingSet(true), ErrorToast(RejectionText(prepared.error)), LoadingSet(false)]
    ensures prepared.Success? && cloneResult.Success? ==>
        SubmitEvents(prepared, cloneResult) ==
        [LoadingSet(true), CloneVoiceCalled(prepared.value), SuccessToast(CloneSuccessText), CloseCalled, LoadingSet(false)]
    ensures prepared.Success? && cloneResult.Failure? ==>
        SubmitEvents(prepared, cloneResult) ==
        [LoadingSet(true), CloneVoiceCalled(prepared.value), ErrorToast(CloneFailedPrefix + cloneResult.error), LoadingSet(false)]
  {
  }

  /**
   * `cloneVoice` is called at most once, exactly when the submission is
   * accepted, and with the prepared request.
   */
  lemma CloneCalledIffAccepted(prepared: Result<CloneVoiceReq, Rejection>, cloneResult: Result<string, string>)
    ensures var t := SubmitEvents(prepared, cloneResult);
      (exists i :: 0 <= i < |t| && t[i].CloneVoiceCalled?) <==> prepared.Success?
    ensures var t := SubmitEvents(prepared, cloneResult);
      forall i :: 0 <= i < |t| && t[i].CloneVoiceCalled? ==>
        i == 1 && t[i].req == prepared.value
  {
    var t := SubmitEvents(prepared, cloneResult);
    SubmitEventsShape(prepared, cloneResult);
    if prepared.Success? {
      assert t[1].CloneVoiceCalled?;
    }
  }

  /**
   * `onClose` is called only after `cloneVoice` succeeded; a rejected request
   * shows the failure with its detail and leaves the modal as it is.
   */
  lemma CloseOnlyOnSuccess(prepared: Result<CloneVoiceReq, Rejection>, cloneResult: Result<string, string>)
    ensures var t := SubmitEvents(prepared, cloneResult);
      CloseCalled in t <==> SubmitCloses(prepared, cloneResult)
    ensures var t := SubmitEvents(prepared, cloneResult);
      forall j :: 0 <= j < |t| && t[j] == CloseCalled ==>
        exists i :: 0 <= i < j && t[i].CloneVoiceCalled?
    ensures prepared.Success? && cloneResult.Failure? ==>
      ErrorToast(CloneFailedPrefix + cloneResult.error) in SubmitEvents(prepared, cloneResult)
  {
    var t := SubmitEvents(prepared, cloneResult);
    SubmitEventsShape(prepared, cloneResult);
    if SubmitCloses(prepared, cloneResult) {
      assert t[3] == CloseCalled;
    }
    forall j | 0 <= j < |t| && t[j] == CloseCalled
      ensures exists i :: 0 <= i < j && t[i].CloneVoiceCalled?
    {
      assert t[1].CloneVoiceCalled?;
    }
  }

  /**
   * The loading flag is set on entry, is still set when `cloneVoice` is
   * called, and is cleared when the handler exits, on every path.
   */
  lemma LoadingLifecycle(prepared: Result<CloneVoiceReq, Rejection>, cloneResult: Result<string, string>, initial: bool)
    ensures var t := SubmitEvents(prepared, cloneResult);
      t[0] == LoadingSet(true) && !LoadingAfter(t, initial)
    ensures var t := SubmitEvents(prepared, cloneResult);
      forall i :: 0 <= i < |t| && t[i].CloneVoiceCalled? ==> LoadingAfter(t[..i], initial)
  {
    SubmitEventsShape(prepared, cloneResult);
  }

  /** The clone form's component; only its loading flag is state of its own. */
  class VoiceClone {
    var loading: bool
    /** The effects of its handler so far. */
    var events: seq<Event>

    constructor ()
      ensures !loading && events == []
    {
      loading := false;
      events := [];
    }

    /**
     * `handleSubmit`: validates, checks the file and its format, sends the
     * request and reports; `closeCalled` says whether it called `onClose`.
     */
    method HandleSubmit(validated: Result<FormValues, string>, voice: Option<Voice>, cloneResult: Result<string, string>)
      returns (closeCalled: bool)
      modifies this
      ensures !loading
      ensures events == old(events) + SubmitEvents(Prepare(validated, voice), cloneResult)
      ensures closeCalled == SubmitCloses(Prepare(validated, voice), cloneResult)
    {
      loading := true;
      events := events + [LoadingSet(true)];
      closeCalled := false;
      ghost var prepared := Prepare(validated, voice);
      var body: seq<Event> := [];
      if validated.Failure? {
        body := [ErrorToast(CloneFailedPrefix + validated.error)];
        assert prepared == Failure(InvalidForm(validated.error));
      } else {
        var values := validated.value;
        if values.audio.None? {
          body := [ErrorToast(MissingFileText)];
          assert prepared == Failure(MissingFile);
        } else {
          var file := values.audio.value;
          var audioFormat := AudioFormat.FileFormat(file.name);
          if !AudioFormat.IsSupported(audioFormat) {
            body := [ErrorToast(UnsupportedFormatText)];
            assert prepared == Failure(UnsupportedFormat);
          } else {
            var params := CloneVoiceReq(values.name, values.previewText, values.language, audioFormat, file, None);
            if voice.Some? && !voice.value.isSystemVoice && voice.value.availableTrainingTimes > 0 {
              params := params.(voiceId := Some(voice.value.value));
            }
            assert params == BuildRequest(values, audioFormat, file, voice);
            assert prepared == Success(params);
            body := [CloneVoiceCalled(params)];
            if cloneResult.Success? {
              body := body + [SuccessToast(CloneSuccessText), CloseCalled];
              closeCalled := true;
            } else {
              body := body + [ErrorToast(CloneFailedPrefix + cloneResult.error)];
            }
          }
        }
      }
      SubmitEventsShape(prepared, cloneResult);
      assert SubmitEvents(prepared, cloneResult) == [LoadingSet(true)] + body + [LoadingSet(false)];
      events := events + body;
      loading := false;
      events := events + [LoadingSet(false)];
    }
  }
}

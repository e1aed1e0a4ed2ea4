/**
 * The records the widget reads and builds: the voice records it is given, the
 * clone form's values, the clone request, and the observable effects that a
 * handler performs (toasts, calls to the caller's callbacks, loading flag
 * updates), recorded in order as a trace.
 */
module VoiceTypes {
  import opened Wrappers

  /** One entry of the `voices` list; read-only to the widget. */
  datatype Voice = Voice(
    value: string,
    name: string,
    languageCode: string,
    languageName: string,
    previewUrl: Option<string>,
    isSystemVoice: bool,
    availableTrainingTimes: int)

  /** The uploaded file; only its name is inspected, its bytes are passed on. */
  datatype UploadFile = UploadFile(name: string, content: seq<bv8>)

  /** What `form.validateFields()` resolves to; `audio` is `values.audio?.file`. */
  datatype FormValues = FormValues(
    name: string,
    previewText: string,
    language: string,
    audio: Option<UploadFile>)

  /** The argument of `cloneVoice`. */
  datatype CloneVoiceReq = CloneVoiceReq(
    voiceName: string,
    previewText: string,
    language: string,
    audioFormat: string,
    file: UploadFile,
    voiceId: Option<string>)

  /** Observable effects of the handlers, in the order they happen. */
  datatype Event =
    | LoadingSet(on: bool)
    | ErrorToast(text: string)
    | SuccessToast(text: string)
    | CloneVoiceCalled(req: CloneVoiceReq)
    | CloseCalled
    | FetchAllVoicesCalled

  const MissingFileText: string := "Please upload an audio file"
  const UnsupportedFormatText: string := "Unsupported audio format"
  const CloneSuccessText: string := "Clone voice success"
  const CloneFailedPrefix: string := "Clone voice failed: "
  const NotClonableText: string := "This voice does not support cloning"
}

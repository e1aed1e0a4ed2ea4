# Voice selection and voice cloning widget — a verified model

This project models the rules inside `VoiceSelect.tsx` of the realtime console example: a dropdown
of speech voices with inline audio preview, and a modal form (`VoiceClone`) that submits a voice
clone request. The React/antd rendering is reduced to the predicates that decide whether a control
is shown. The handlers are modelled as methods over the state they change. Four rules are modelled:

- **Audio format check** (`AudioFormat`, `audio_format.dfy`). The format of an uploaded file is
  `file.name.split('.').pop()?.toLowerCase()`. `Split`/`Join` model JavaScript's `split`/`join` for a
  one-character separator, and `Last` models `pop()`. They are proved to agree with an independent
  definition, `AfterLast`: the text after the last `.`, or the whole name if there is none. Only
  `wav, mp3, ogg, m4a, aac, pcm` are accepted.
- **Clone request and `voice_id`** (`VoiceCloneModal`, `voice_clone.dfy`). `Prepare` gives the
  request a submission sends, or why it sends none: the form failed validation, there is no file, or
  the format is unsupported. `SubmitEvents` gives the ordered effects of one `handleSubmit`: loading
  flag updates, toasts, the `cloneVoice` call, the `onClose` call. The class `VoiceClone` holds the
  `loading` flag. Its `HandleSubmit` follows the source step by step and is proved to produce exactly
  those effects.
- **Clone gate and visibility** (`VoiceSelectWidget`, `voice_select.dfy`). This covers
  `handleClone`'s gate, the per-voice "Clone" link, the stand-alone "Clone Voice" button, the preview
  control and its pressed state.
- **Preview toggle and modal lifecycle** (`VoiceSelectWidget`). The class `AudioElement` is the one
  shared audio element. The class `VoiceSelect` holds `isPlaying`, `cloneModalVisible`,
  `selectedVoice` and the child modal. `PreviewStep` is the pure specification of `handlePreview`.
  `SubmitClone` composes `handleSubmit` with the `onClose` callback the widget passes to the modal.

Outside effects are recorded as `Event`s in an ordered trace: `message.*` toasts, the caller's
`cloneVoice` and `fetchAllVoices`, and `setLoading`. The outcomes of `form.validateFields()`,
`cloneVoice` and `fetchAllVoices` are parameters. The modal's "submitting" phase is the stretch of
the trace between `LoadingSet(true)` and `LoadingSet(false)`.

Behaviour of the code that the model keeps and that is easy to misread:

- A form-validation failure is caught by the handler's `catch`. It therefore shows the toast
  `Clone voice failed: <error>` (lines 69-71).
- `onClose` awaits `fetchAllVoices` before hiding the modal (lines 259-262), and `handleSubmit` does
  not await `onClose`. A rejected refetch therefore leaves the modal open after a successful clone,
  with no toast.
- The modal's cancel action is the same `onClose`, so cancelling also refetches (line 81).
- A playback error only shows a toast (lines 155-158). It does not reset `isPlaying`.

## Model

| member | source | states |
|---|---|---|
| AudioFormat.Split | examples/realtime-console/src/VoiceSelect.tsx:43 | `split('.')` returns at least one piece, no piece contains `.`, and joining the pieces with `.` gives back the name |
| AudioFormat.SplitJoin | examples/realtime-console/src/VoiceSelect.tsx:43 | splitting undoes joining whenever no piece holds the separator, so the pieces `split` returns are the only ones with that property |
| AudioFormat.JoinSnoc | examples/realtime-console/src/VoiceSelect.tsx:43 | joining one more piece appends the separator and that piece |
| AudioFormat.AfterLastIsSuffix | examples/realtime-console/src/VoiceSelect.tsx:43 | the reference "text after the last `.`" is a `.`-free suffix of the name, preceded by `.` unless it is the whole name |
| AudioFormat.AfterLastUnique | examples/realtime-console/src/VoiceSelect.tsx:43 | for any name `p + "." + x` with `x` free of `.`, the text after the last `.` is `x` |
| AudioFormat.AfterLastWithoutSep | examples/realtime-console/src/VoiceSelect.tsx:43 | a name without `.` is its own last piece |
| AudioFormat.LastOfSplit | examples/realtime-console/src/VoiceSelect.tsx:43 | `pop()` of `split('.')` is exactly the text after the last `.` |
| AudioFormat.Lower | examples/realtime-console/src/VoiceSelect.tsx:43 | `toLowerCase()` keeps the length, lowers each character, and leaves no upper-case ASCII letter |
| AudioFormat.FileFormatIsLoweredSuffix | examples/realtime-console/src/VoiceSelect.tsx:43 | the audio format is the lower-cased text after the last `.`; without a `.` it is the whole name, lower-cased |
| AudioFormat.FormatOfDottedName | examples/realtime-console/src/VoiceSelect.tsx:43 | whatever precedes the last `.`, the format is the lower-cased extension |
| AudioFormat.FormatIgnoresCase | examples/realtime-console/src/VoiceSelect.tsx:43-45 | lower-casing the file name first does not change its format, so the check is case-insensitive |
| AudioFormat.FlacFormat | examples/realtime-console/src/VoiceSelect.tsx:43 | a name ending in `.flac`, such as `sample.flac`, has format `flac` |
| AudioFormat.FlacRejected | examples/realtime-console/src/VoiceSelect.tsx:43-48 | a name ending in `.flac` is not a supported format |
| AudioFormat.UpperCaseWavAccepted | examples/realtime-console/src/VoiceSelect.tsx:43-45 | a name ending in `.WAV`, such as `sample.WAV`, has format `wav` and is accepted |
| AudioFormat.BareNameAccepted | examples/realtime-console/src/VoiceSelect.tsx:43-45 | a name without `.` is accepted whenever the whole name, lower-cased, is a supported format |
| AudioFormat.WavIsBareSupportedName | examples/realtime-console/src/VoiceSelect.tsx:43-45 | the name `WAV` has no `.` and lower-cases to a supported format, so a file named `WAV` is accepted |
| VoiceCloneModal.BuildRequest | examples/realtime-console/src/VoiceSelect.tsx:50-64 | the request copies name, preview text, language, format and file; `voice_id` is present iff the voice is given, custom and has attempts left, and then equals the voice's id |
| VoiceCloneModal.PrepareAccepts | examples/realtime-console/src/VoiceSelect.tsx:36-56 | a request is sent iff validation passed, a file was given and its lower-cased extension is supported; the request carries the form's fields, the file and that extension |
| VoiceCloneModal.PrepareRejects | examples/realtime-console/src/VoiceSelect.tsx:36-48 | a validation failure, a missing file and an unsupported format each stop the submission with their own rejection |
| VoiceCloneModal.VoiceIdRule | examples/realtime-console/src/VoiceSelect.tsx:58-64 | the sent request's `voice_id` is the voice's id for a custom voice with attempts left, and absent otherwise, including when there is no voice |
| VoiceCloneModal.CloneCalledIffAccepted | examples/realtime-console/src/VoiceSelect.tsx:36-66 | `cloneVoice` is called at most once, right after loading is set, exactly when the submission is accepted, and with the prepared request |
| VoiceCloneModal.CloseOnlyOnSuccess | examples/realtime-console/src/VoiceSelect.tsx:66-71 | `onClose` is called iff `cloneVoice` was called and succeeded, and only after that call; a failed call shows `Clone voice failed:` with its detail |
| VoiceCloneModal.LoadingLifecycle | examples/realtime-console/src/VoiceSelect.tsx:33-75 | loading is set first, is still set when `cloneVoice` is called, and is cleared when the handler exits on every path |
| VoiceCloneModal.VoiceClone.constructor | examples/realtime-console/src/VoiceSelect.tsx:31 | the modal starts with loading cleared |
| VoiceCloneModal.VoiceClone.HandleSubmit | examples/realtime-console/src/VoiceSelect.tsx:33-75 | the handler leaves loading cleared, appends exactly the effects of `SubmitEvents` for the prepared request, and reports whether it called `onClose` |
| VoiceSelectWidget.HasCustomVoice | examples/realtime-console/src/VoiceSelect.tsx:202 | `voices.some(v => !v.is_system_voice)` holds iff some voice in the list is custom |
| VoiceSelectWidget.PreviewStep | examples/realtime-console/src/VoiceSelect.tsx:160-176 | after a click the clicked URL is loaded and `isPlaying` mirrors the element; a new URL plays, and the loaded URL flips `paused` |
| VoiceSelectWidget.CloneLinkPassesGate | examples/realtime-console/src/VoiceSelect.tsx:243 | every shown "Clone" link passes `handleClone`'s gate, and a submission for its voice carries `voice_id` |
| VoiceSelectWidget.CloneGate | examples/realtime-console/src/VoiceSelect.tsx:181-187 | every system voice passes the gate and shows no link; a custom voice passes iff its "Clone" link is shown |
| VoiceSelectWidget.CloneButtonClonesSystemVoice | examples/realtime-console/src/VoiceSelect.tsx:202-206 | when the stand-alone button is shown, `voices[0]` is a system voice, passes the gate, and is cloned without `voice_id` |
| VoiceSelectWidget.CloneButtonExcludesLinks | examples/realtime-console/src/VoiceSelect.tsx:202 | when the stand-alone button is shown, no per-voice "Clone" link is |
| VoiceSelectWidget.TwoClicksOnNewUrl | examples/realtime-console/src/VoiceSelect.tsx:160-176 | two clicks on a URL that is not loaded give playing, then paused |
| VoiceSelectWidget.ToggleTwiceRestores | examples/realtime-console/src/VoiceSelect.tsx:162-169 | two clicks on the loaded URL restore the state |
| VoiceSelectWidget.PressedAfterClick | examples/realtime-console/src/VoiceSelect.tsx:232-239 | after a click, the clicked voice's control is pressed iff the element plays, and no control with another URL is pressed |
| VoiceSelectWidget.AudioElement.constructor | examples/realtime-console/src/VoiceSelect.tsx:150 | a new audio element has no source and is paused |
| VoiceSelectWidget.AudioElement.Play | examples/realtime-console/src/VoiceSelect.tsx:164 | `play()` unpauses and keeps the source |
| VoiceSelectWidget.AudioElement.Pause | examples/realtime-console/src/VoiceSelect.tsx:167 | `pause()` pauses and keeps the source |
| VoiceSelectWidget.VoiceSelect.constructor | examples/realtime-console/src/VoiceSelect.tsx:150-153 | on mount the element is empty and paused, nothing plays, the modal is hidden and no voice is selected |
| VoiceSelectWidget.VoiceSelect.HandlePreview | examples/realtime-console/src/VoiceSelect.tsx:160-176 | the new source, paused flag and `isPlaying` are `PreviewStep` of the old ones; nothing else changes |
| VoiceSelectWidget.VoiceSelect.ClickPreview | examples/realtime-console/src/VoiceSelect.tsx:232-239 | a click on a shown preview control steps the player with the voice's URL, and the control is then pressed iff the element plays |
| VoiceSelectWidget.VoiceSelect.HandleClone | examples/realtime-console/src/VoiceSelect.tsx:178-190 | a voice that passes the gate is selected and the modal shown; a custom voice without attempts only shows `This voice does not support cloning` |
| VoiceSelectWidget.VoiceSelect.ClickCloneLink | examples/realtime-console/src/VoiceSelect.tsx:243-247 | a click on a shown "Clone" link always selects its voice and shows the modal, for a re-clone with `voice_id` |
| VoiceSelectWidget.VoiceSelect.ClickCloneButton | examples/realtime-console/src/VoiceSelect.tsx:202-206 | a click on the shown stand-alone button always selects `voices[0]` and shows the modal, for a first clone |
| VoiceSelectWidget.VoiceSelect.CloseCloneModal | examples/realtime-console/src/VoiceSelect.tsx:259-262 | `onClose` calls `fetchAllVoices` if given and then hides the modal; a rejected refetch leaves the modal as it was |
| VoiceSelectWidget.VoiceSelect.SubmitClone | examples/realtime-console/src/VoiceSelect.tsx:257-265 | a submission leaves loading cleared; the modal closes iff the clone succeeded and the refetch, if any, resolved; otherwise it stays open |
| VoiceSelectWidget.VoiceSelect.Unmount | examples/realtime-console/src/VoiceSelect.tsx:192-198 | after unmount the element is paused and its source is empty |

## Left out

- Rendering is not modelled (lines 77-139 and 200-266): JSX, antd `Modal`/`Form`/`Select`/`Upload`/`Badge`, the dropdown's `value`/`onChange`, and the form's initial values (lines 88-94, including the default preview text). Only the predicates that decide whether a control is shown are kept.
- `form.validateFields()` and the `required` rules it applies belong to antd. The model takes its outcome as a parameter: the values, or the error text.
- `cloneVoice` and `fetchAllVoices` are the caller's network calls. Their outcomes are parameters, and their results (the new voice id, the voice list) are not used by the widget.
- Media playback is outside the model: the promise of `play()`, the `onerror` handler and `handleAudioError` (lines 155-158, 172), the `ended` event, the browser's load algorithm, and the browser turning `src` into an absolute URL. `src` is a plain string compared verbatim.
- `console.log` and `console.error` are not modelled (lines 30, 70, 157).
- Concurrency is not modelled: the `confirmLoading` flag that blocks a second submission while one is in flight, and the interleaving of the un-awaited `onClose` with `handleSubmit`'s `finally`. In the source, `fetchAllVoices` is called before loading is cleared. In the model, `FetchAllVoicesCalled` goes to the widget's own trace after the modal's handler returns.
- The stand-alone button with an empty voice list: the source fails on `voices[0]` (line 206), so `ClickCloneButton` requires a non-empty list.
- AudioFormat.Lower: only the ASCII letters A-Z are lowered, while JavaScript's `toLowerCase` also lowers other scripts. The accept or reject decision is the same, because no non-ASCII letter lowers to a letter of a supported format. The `audio_format` of a rejected name can differ.

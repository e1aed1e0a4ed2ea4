/**
 * The voice dropdown (`VoiceSelect`): which controls it shows, the audio
 * preview toggle over its one audio element, the clone trigger, and the clone
 * modal's close callback.
 *
 * Rendering is reduced to the predicates that decide whether a control is
 * shown; a click on a control is a method that requires the control to be
 * shown.
 */
module VoiceSelectWidget {
  import opened Wrappers
  import opened VoiceTypes
  import VoiceCloneModal

  /** Whether the list holds a custom (cloned) voice: `voices.some(v => !v.is_system_voice)`. */
  function HasCustomVoice(voices: seq<Voice>): (r: bool)
    ensures r <==> exists i :: 0 <= i < |voices| && !voices[i].isSystemVoice
  {
    if voices == [] then false
    else !voices[0].isSystemVoice || HasCustomVoice(voices[1..])
  }

  /** The stand-alone "Clone Voice" button is shown when no voice is custom. */
  predicate ShowsCloneButton(voices: seq<Voice>)
  {
    !HasCustomVoice(voices)
  }

  /** The per-voice "Clone" link is shown for custom voices with attempts left. */
  predicate ShowsCloneLink(voice: Voice)
  {
    !voice.isSystemVoice && voice.availableTrainingTimes > 0
  }

  /** The preview control is shown when the voice has a non-empty preview URL. */
  predicate ShowsPreview(voice: Voice)
  {
    voice.previewUrl.Some? && voice.previewUrl.value != ""
  }

  /** `handleClone`'s gate: custom voices need a training attempt left. */
  predicate CloneAllowed(voice: Voice)
  {
    !(!voice.isSystemVoice && voice.availableTrainingTimes <= 0)
  }

  /** The state `handlePreview` reads and writes: the element's `src` and `paused`, and `isPlaying`. */
  datatype PlayerState = PlayerState(src: string, paused: bool, isPlaying: bool)

  /**
   * `handlePreview(url)`: the loaded URL toggles between playing and paused;
   * another URL is loaded and played.
   */
  function PreviewStep(s: PlayerState, url: string): (r: PlayerState)
    ensures r.src == url
    ensures r.isPlaying == !r.paused
    ensures s.src != url ==> r.isPlaying
    ensures s.src == url ==> r.paused == !s.paused
  {
    if s.src == url then
      if s.paused then s.(paused := false, isPlaying := true)
      else s.(paused := true, isPlaying := false)
    else PlayerState(url, false, true)
  }

  /** Whether the preview control of `voice` is shown pressed (`aria-pressed`). */
  predicate PreviewPressed(s: PlayerState, voice: Voice)
  {
    s.isPlaying && voice.previewUrl == Some(s.src)
  }

  /** Every shown "Clone" link passes the gate and re-clones its voice with its `voice_id`. */
  lemma CloneLinkPassesGate(voice: Voice)
    requires ShowsCloneLink(voice)
    ensures CloneAllowed(voice)
    ensures VoiceCloneModal.ReusesVoiceId(Some(voice))
  {
  }

  /**
   * The gate rejects exactly the custom voices without attempts left: every
   * system voice passes, and a custom voice passes iff its link is shown.
   */
  lemma CloneGate(voice: Voice)
    ensures voice.isSystemVoice ==> CloneAllowed(voice) && !ShowsCloneLink(voice)
    ensures !voice.isSystemVoice ==> (CloneAllowed(voice) <==> ShowsCloneLink(voice))
  {
  }

  /**
   * The stand-alone button clones `voices[0]`, which is then a system voice:
   * the gate lets it through and the request is a first clone, without `voice_id`.
   */
  lemma CloneButtonClonesSystemVoice(voices: seq<Voice>)
    requires |voices| > 0 && ShowsCloneButton(voices)
    ensures voices[0].isSystemVoice && CloneAllowed(voices[0])
    ensures !VoiceCloneModal.ReusesVoiceId(Some(voices[0]))
  {
  }

  /** The button and the links are never shown together. */
  lemma CloneButtonExcludesLinks(voices: seq<Voice>)
    requires ShowsCloneButton(voices)
    ensures forall i :: 0 <= i < |voices| ==> !ShowsCloneLink(voices[i])
  {
  }

  /** Two clicks on a URL that is not loaded: playing, then paused. */
  lemma TwoClicksOnNewUrl(s: PlayerState, url: string)
    requires s.src != url
    ensures PreviewStep(s, url) == PlayerState(url, false, true)
    ensures PreviewStep(PreviewStep(s, url), url) == PlayerState(url, true, false)
  {
  }

  /** A second click on the loaded URL undoes the first, once `isPlaying` mirrors the element. */
  lemma ToggleTwiceRestores(s: PlayerState, url: string)
    requires s.src == url && s.isPlaying == !s.paused
    ensures PreviewStep(PreviewStep(s, url), url) == s
  {
  }

  /**
   * After a click, the clicked voice's control is pressed exactly when the
   * element plays, and no control with another URL is pressed.
   */
  lemma PressedAfterClick(s: PlayerState, url: string, voice: Voice)
    ensures voice.previewUrl == Some(url) ==>
      (PreviewPressed(PreviewStep(s, url), voice) <==> !PreviewStep(s, url).paused)
    ensures voice.previewUrl != Some(url) ==> !PreviewPressed(PreviewStep(s, url), voice)
  {
  }

  /** The browser's audio element, reduced to its source and its paused flag. */
  class AudioElement {
    var src: string
    var paused: bool

    /** `new Audio()`: no source, paused. */
    constructor ()
      ensures src == "" && paused
    {
      src := "";
      paused := true;
    }

    /** `play()`: starts playing the loaded source (its failure is not modelled). */
    method Play()
      modifies this
      ensures src == old(src) && !paused
    {
      paused := false;
    }

    /** `pause()`. */
    method Pause()
      modifies this
      ensures src == old(src) && paused
    {
      paused := true;
    }
  }

  /** The widget's state for one mounted instance, with its props. */
  class VoiceSelect {
    const voices: seq<Voice>
    /** Whether the caller passed `fetchAllVoices`. */
    const hasFetchAllVoices: bool
    const player: AudioElement
    const modal: VoiceCloneModal.VoiceClone
    var isPlaying: bool
    var cloneModalVisible: bool
    var selectedVoice: Option<Voice>
    /** The effects of its handlers so far. */
    var events: seq<Event>

    /** The preview state, as `PreviewStep` sees it. */
    function State(): PlayerState
      reads this, player
    {
      PlayerState(player.src, player.paused, isPlaying)
    }

    /** Mount: a fresh audio element, nothing playing, the modal closed. */
    constructor (voices: seq<Voice>, hasFetchAllVoices: bool)
      ensures this.voices == voices && this.hasFetchAllVoices == hasFetchAllVoices
      ensures fresh(player) && fresh(modal)
      ensures State() == PlayerState("", true, false)
      ensures !cloneModalVisible && selectedVoice == None && events == []
      ensures !modal.loading && modal.events == []
    {
      this.voices := voices;
      this.hasFetchAllVoices := hasFetchAllVoices;
      player := new AudioElement();
      modal := new VoiceCloneModal.VoiceClone();
      isPlaying := false;
      cloneModalVisible := false;
      selectedVoice := None;
      events := [];
    }

    /** `handlePreview(url)`. */
    method HandlePreview(url: string)
      modifies this, player
      ensures State() == PreviewStep(old(State()), url)
      ensures cloneModalVisible == old(cloneModalVisible) && selectedVoice == old(selectedVoice)
      ensures events == old(events)
    {
      if player.src == url {
        if player.paused {
          player.Play();
          isPlaying := true;
        } else {
          player.Pause();
          isPlaying := false;
        }
      } else {
        player.src := url;
        player.Play();
        isPlaying := true;
      }
    }

    /** A click on the preview control of `voices[i]`. */
    method ClickPreview(i: nat)
      requires i < |voices| && ShowsPreview(voices[i])
      modifies this, player
      ensures State() == PreviewStep(old(State()), voices[i].previewUrl.value)
      ensures PreviewPressed(State(), voices[i]) == !player.paused
      ensures cloneModalVisible == old(cloneModalVisible) && selectedVoice == old(selectedVoice)
      ensures events == old(events)
    {
      HandlePreview(voices[i].previewUrl.value);
    }

    /** `handleClone(voice)`: opens the modal for `voice` unless the gate rejects it. */
    method HandleClone(voice: Voice)
      modifies this
      ensures State() == old(State())
      ensures CloneAllowed(voice) ==>
        selectedVoice == Some(voice) && cloneModalVisible && events == old(events)
      ensures !CloneAllowed(voice) ==>
        selectedVoice == old(selectedVoice) && cloneModalVisible == old(cloneModalVisible) &&
        events == old(events) + [ErrorToast(NotClonableText)]
    {
      if !voice.isSystemVoice && voice.availableTrainingTimes <= 0 {
        events := events + [ErrorToast(NotClonableText)];
        return;
      }
      selectedVoice := Some(voice);
      cloneModalVisible := true;
    }

    /** A click on the "Clone" link of `voices[i]`: always opens the modal for it. */
    method ClickCloneLink(i: nat)
      requires i < |voices| && ShowsCloneLink(voices[i])
      modifies this
      ensures selectedVoice == Some(voices[i]) && cloneModalVisible
      ensures VoiceCloneModal.ReusesVoiceId(selectedVoice)
      ensures State() == old(State()) && events == old(events)
    {
      HandleClone(voices[i]);
    }

    /**
     * A click on the stand-alone "Clone Voice" button: always opens the modal
     * for the first voice, as a first clone. With no voices at all the source
     * fails on `voices[0]`; the button is not modelled then.
     */
    method ClickCloneButton()
      requires |voices| > 0 && ShowsCloneButton(voices)
      modifies this
      ensures selectedVoice == Some(voices[0]) && cloneModalVisible
      ensures !VoiceCloneModal.ReusesVoiceId(selectedVoice)
      ensures State() == old(State()) && events == old(events)
    {
      CloneButtonClonesSystemVoice(voices);
      HandleClone(voices[0]);
    }

    /**
     * The modal's `onClose` (also its cancel action): awaits `fetchAllVoices`
     * if given, then hides the modal; a rejected refetch leaves it shown.
     */
    method CloseCloneModal(fetchSucceeds: bool)
      modifies this
      ensures events == old(events) + (if hasFetchAllVoices then [FetchAllVoicesCalled] else [])
      ensures cloneModalVisible == (old(cloneModalVisible) && hasFetchAllVoices && !fetchSucceeds)
      ensures State() == old(State()) && selectedVoice == old(selectedVoice)
    {
      if hasFetchAllVoices {
        events := events + [FetchAllVoicesCalled];
        if !fetchSucceeds {
          return;
        }
      }
      cloneModalVisible := false;
    }

    /**
     * The modal's OK action: `handleSubmit` for the selected voice, then
     * `onClose` if it calls it. Success closes the modal (once the refetch
     * resolves); every other path leaves it open, with loading cleared.
     */
    method SubmitClone(validated: Result<FormValues, string>, cloneResult: Result<string, string>, fetchSucceeds: bool)
      requires cloneModalVisible
      modifies this, modal
      ensures !modal.loading
      ensures var prepared := VoiceCloneModal.Prepare(validated, old(selectedVoice));
        modal.events == old(modal.events) + VoiceCloneModal.SubmitEvents(prepared, cloneResult)
      ensures var closes := VoiceCloneModal.SubmitCloses(VoiceCloneModal.Prepare(validated, old(selectedVoice)), cloneResult);
        cloneModalVisible == !(closes && (!hasFetchAllVoices || fetchSucceeds)) &&
        events == old(events) + (if closes && hasFetchAllVoices then [FetchAllVoicesCalled] else [])
      ensures State() == old(State()) && selectedVoice == old(selectedVoice)
    {
      var closeCalled := modal.HandleSubmit(validated, selectedVoice, cloneResult);
      if closeCalled {
        CloseCloneModal(fetchSucceeds);
      }
    }

    /** Unmount: the element is paused and its source cleared. */
    method Unmount()
      modifies player
      ensures player.paused && player.src == ""
    {
      player.Pause();
      player.src := "";
    }
  }
}

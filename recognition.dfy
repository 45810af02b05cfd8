/**
 * The recognition-event logic of Services/AzureSpeechRealTimeTranslator.cs:
 * the status shown when a session starts, the parsing of the selected device
 * id, the stabiliser that decides which partial results reach the status
 * line, and the filter that decides which final results are forwarded.
 * The speech SDK's events become explicit calls; the clock becomes an
 * integer `now` in milliseconds.
 */
module Recognition {
  import opened Wrappers
  import opened Text
  import TE = TranslationEnvironment
  import AD = AudioDevices

  const DefaultSourceStatus: string := "Aguardando fala... (fonte: entrada padrão)"
  const LoopbackSourceStatus: string := "Aguardando fala... (fonte: saída do PC selecionada)"
  const SelectedSourceStatus: string := "Aguardando fala... (fonte: entrada selecionada)"
  const ListeningStatus: string := "Ouvindo..."
  const PartialStatusPrefix: string := "Ouvindo (PT): "
  const WaitingStatus: string := "Aguardando fala..."
  const PartialMinIntervalMs: int := 450

  // ---------------------------------------------------------------------
  // The selected audio source
  // ---------------------------------------------------------------------

  /** The status announcing the audio source when recognition starts. */
  function SourceStatus(audioInputDeviceId: Option<string>): (status: string)
    ensures IsNullOrBlank(audioInputDeviceId) ==> status == DefaultSourceStatus
    ensures !IsNullOrBlank(audioInputDeviceId) ==>
      status == (if StartsWithIgnoreCase(audioInputDeviceId.value, AD.LoopbackPrefix)
                 then LoopbackSourceStatus else SelectedSourceStatus)
  {
    if IsNullOrBlank(audioInputDeviceId) then DefaultSourceStatus
    else if StartsWithIgnoreCase(audioInputDeviceId.value, AD.LoopbackPrefix) then LoopbackSourceStatus
    else SelectedSourceStatus
  }

  /** The device a `WasapiDeviceAudioBridge` is opened on, and whether it records the device's output. */
  datatype DeviceBridge = DeviceBridge(deviceId: string, isLoopback: bool)

  /**
   * `CreateSelectedDeviceBridge`: the device named by a `loopback:` or
   * `capture:` id (prefixes in any letter case); no bridge, and so the default
   * microphone, for anything else.
   */
  function CreateSelectedDeviceBridge(audioInputDeviceId: Option<string>): (bridge: Option<DeviceBridge>)
    ensures IsNullOrBlank(audioInputDeviceId) ==> bridge.None?
    ensures bridge.Some? ==>
      var id := audioInputDeviceId.value;
      var prefix := if bridge.value.isLoopback then AD.LoopbackPrefix else AD.CapturePrefix;
      && !IsBlank(bridge.value.deviceId)
      && StartsWithIgnoreCase(id, prefix)
      && id[|prefix|..] == bridge.value.deviceId
      && bridge.value.isLoopback == StartsWithIgnoreCase(id, AD.LoopbackPrefix)
    ensures !IsNullOrBlank(audioInputDeviceId)
            && !StartsWithIgnoreCase(audioInputDeviceId.value, AD.LoopbackPrefix)
            && !StartsWithIgnoreCase(audioInputDeviceId.value, AD.CapturePrefix)
            ==> bridge.None?
    ensures !IsNullOrBlank(audioInputDeviceId)
            && (StartsWithIgnoreCase(audioInputDeviceId.value, AD.LoopbackPrefix)
                || StartsWithIgnoreCase(audioInputDeviceId.value, AD.CapturePrefix))
            ==>
      var id := audioInputDeviceId.value;
      var isLoopback := StartsWithIgnoreCase(id, AD.LoopbackPrefix);
      var prefix := if isLoopback then AD.LoopbackPrefix else AD.CapturePrefix;
      && |prefix| <= |id|
      && (IsBlank(id[|prefix|..]) ==> bridge.None?)
      && (!IsBlank(id[|prefix|..]) ==> bridge == Some(DeviceBridge(id[|prefix|..], isLoopback)))
  {
    if IsNullOrBlank(audioInputDeviceId) then None
    else
      var id := audioInputDeviceId.value;
      var isLoopback := StartsWithIgnoreCase(id, AD.LoopbackPrefix);
      var isCapture := StartsWithIgnoreCase(id, AD.CapturePrefix);
      if !isLoopback && !isCapture then None
      else
        var prefixLength := if isLoopback then |AD.LoopbackPrefix| else |AD.CapturePrefix|;
        var deviceId := id[prefixLength..];
        if IsBlank(deviceId) then None
        else Some(DeviceBridge(deviceId, isLoopback))
  }

  /**
   * Parsing inverts the id construction of the audio source list: an id built
   * from a non-blank device id gives a bridge on that device, on its output
   * exactly for a loopback id.
   */
  lemma {:induction false} BridgeOfBuiltId(deviceId: string, loopback: bool)
    requires !IsBlank(deviceId)
    ensures var prefix := if loopback then AD.LoopbackPrefix else AD.CapturePrefix;
      CreateSelectedDeviceBridge(Some(prefix + deviceId)) == Some(DeviceBridge(deviceId, loopback))
  {
    var prefix := if loopback then AD.LoopbackPrefix else AD.CapturePrefix;
    var id := prefix + deviceId;
    assert !IsBlank(id) by {
      var k :| 0 <= k < |deviceId| && !IsWhiteSpace(deviceId[k]);
      assert id[|prefix| + k] == deviceId[k];
    }
    StartsWithIgnoreCaseOfConcat(prefix, deviceId);
    if !loopback {
      assert FoldCase(id[0]) != FoldCase(AD.LoopbackPrefix[0]);
    }
    assert id[|prefix|..] == deviceId;
  }

  /** A blank device id after a valid prefix gives no bridge. */
  lemma {:induction false} BridgeOfBlankDeviceId(deviceId: string, loopback: bool)
    requires IsBlank(deviceId)
    ensures var prefix := if loopback then AD.LoopbackPrefix else AD.CapturePrefix;
      CreateSelectedDeviceBridge(Some(prefix + deviceId)).None?
  {
    var prefix := if loopback then AD.LoopbackPrefix else AD.CapturePrefix;
    var id := prefix + deviceId;
    StartsWithIgnoreCaseOfConcat(prefix, deviceId);
    if !loopback {
      assert FoldCase(id[0]) != FoldCase(AD.LoopbackPrefix[0]);
    }
    assert id[|prefix|..] == deviceId;
  }

  /**
   * What the selected entry of the audio source list opens: the default
   * microphone for the first entry, else the bridge on its endpoint (capture
   * or loopback by group) unless the endpoint id is blank.
   */
  lemma {:induction false} BridgeOfListedOption(capture: Option<seq<AD.Endpoint>>, render: Option<seq<AD.Endpoint>>, k: nat)
    requires k < |AD.AudioInputOptions(capture, render)|
    ensures var options := AD.AudioInputOptions(capture, render);
      var devices := AD.EnumeratedEndpoints(capture, render);
      var bridge := CreateSelectedDeviceBridge(options[k].deviceId);
      && (k == 0 ==> bridge.None?)
      && (0 < k <= |devices.0| ==>
            bridge == if IsBlank(devices.0[k - 1].id) then None else Some(DeviceBridge(devices.0[k - 1].id, false)))
      && (|devices.0| < k ==>
            var d := devices.1[k - 1 - |devices.0|];
            bridge == if IsBlank(d.id) then None else Some(DeviceBridge(d.id, true)))
  {
    var options := AD.AudioInputOptions(capture, render);
    var devices := AD.EnumeratedEndpoints(capture, render);
    AD.AudioInputOptionsShape(capture, render);
    if 0 < k <= |devices.0| {
      var d := devices.0[k - 1];
      assert options[k] == AD.DeviceOption(d, false) by { assert options[1 + (k - 1)] == AD.DeviceOption(d, false); }
      if IsBlank(d.id) { BridgeOfBlankDeviceId(d.id, false); } else { BridgeOfBuiltId(d.id, false); }
    } else if |devices.0| < k {
      var j := k - 1 - |devices.0|;
      var d := devices.1[j];
      assert options[k] == AD.DeviceOption(d, true) by { assert options[1 + |devices.0| + j] == AD.DeviceOption(d, true); }
      if IsBlank(d.id) { BridgeOfBlankDeviceId(d.id, true); } else { BridgeOfBuiltId(d.id, true); }
    }
  }

  /**
   * Whenever a bridge is opened, the start status names its kind of source.
   * (An id such as `loopback:` with a blank remainder announces the PC output
   * while the default microphone is used; see `LoopbackStatusWithoutBridge`.)
   */
  lemma {:induction false} StatusAgreesWithBridge(audioInputDeviceId: Option<string>)
    requires CreateSelectedDeviceBridge(audioInputDeviceId).Some?
    ensures var bridge := CreateSelectedDeviceBridge(audioInputDeviceId).value;
      SourceStatus(audioInputDeviceId) == (if bridge.isLoopback then LoopbackSourceStatus else SelectedSourceStatus)
  {
  }

  /** The id `loopback:` announces the PC output but opens no bridge. */
  lemma {:induction false} LoopbackStatusWithoutBridge()
    ensures SourceStatus(Some(AD.LoopbackPrefix)) == LoopbackSourceStatus
    ensures CreateSelectedDeviceBridge(Some(AD.LoopbackPrefix)).None?
  {
    var id := AD.LoopbackPrefix;
    assert !IsBlank(id) by { assert !IsWhiteSpace(id[0]); }
    StartsWithIgnoreCaseOfConcat(id, []);
    assert id + [] == id;
    assert id[|id|..] == [];
  }

  // ---------------------------------------------------------------------
  // Partial results
  // ---------------------------------------------------------------------

  /** The target-language translation of a result, if the result carries one. */
  function TargetTranslation(translations: map<string, string>, targetLanguage: string): Option<string> {
    if targetLanguage in translations then Some(translations[targetLanguage]) else None
  }

  /**
   * The text a partial result would show: its translation when present and not
   * blank, else the recognised text; nothing for a blank recognised text.
   */
  function PartialCandidate(recognizedText: string, translation: Option<string>): (p: Option<string>)
    ensures p.None? <==> IsBlank(recognizedText)
    ensures p.Some? ==> !IsBlank(p.value)
    ensures p.Some? ==> p.value == if IsNullOrBlank(translation) then recognizedText else translation.value
  {
    if IsBlank(recognizedText) then None
    else if !IsNullOrBlank(translation) then translation
    else Some(recognizedText)
  }

  /** The two variables the `Recognizing` handler keeps between events; no update time stands for `DateTimeOffset.MinValue`. */
  datatype PartialState = PartialState(lastPartialText: string, lastPartialUpdate: Option<int>)

  const InitialPartialState: PartialState := PartialState("", None)

  /** A candidate is shown only 450 ms after the last one, if it differs and extends the last one. */
  predicate AcceptsPartial(s: PartialState, partialText: string, now: int) {
    && (s.lastPartialUpdate.None? || now - s.lastPartialUpdate.value >= PartialMinIntervalMs)
    && partialText != s.lastPartialText
    && (s.lastPartialText == [] ||
        (StartsWithIgnoreCase(partialText, s.lastPartialText) && |partialText| > |s.lastPartialText|))
  }

  /**
   * The handler compares `string.Length`, a count of UTF-16 code units; once
   * the candidate starts with the last text, counting characters instead
   * accepts exactly the same candidates.
   */
  lemma AcceptsPartialUtf16(s: PartialState, partialText: string, now: int)
    ensures AcceptsPartial(s, partialText, now) <==>
      && (s.lastPartialUpdate.None? || now - s.lastPartialUpdate.value >= PartialMinIntervalMs)
      && partialText != s.lastPartialText
      && (s.lastPartialText == [] ||
          (StartsWithIgnoreCase(partialText, s.lastPartialText)
           && Utf16Length(partialText) > Utf16Length(s.lastPartialText)))
  {
    if s.lastPartialText != [] && StartsWithIgnoreCase(partialText, s.lastPartialText) {
      LongerThanPrefix(partialText, s.lastPartialText);
    }
  }

  /** The new state and the status line after a `Recognizing` event. */
  datatype PartialReaction = PartialReaction(state: PartialState, status: Option<string>)

  /**
   * The `Recognizing` handler: a candidate the stabiliser accepts is shown and
   * remembered with its time; every other event changes nothing.
   */
  function OnRecognizing(s: PartialState, recognizedText: string, translation: Option<string>, now: int)
    : (r: PartialReaction)
    ensures r.status.Some? <==>
      PartialCandidate(recognizedText, translation).Some?
      && AcceptsPartial(s, PartialCandidate(recognizedText, translation).value, now)
    ensures r.status.None? ==> r.state == s
    ensures r.status.Some? ==>
      var p := PartialCandidate(recognizedText, translation).value;
      && r.state == PartialState(p, Some(now))
      && r.status == Some(PartialStatusPrefix + p)
  {
    match PartialCandidate(recognizedText, translation)
    case None => PartialReaction(s, None)
    case Some(p) =>
      if AcceptsPartial(s, p, now) then PartialReaction(PartialState(p, Some(now)), Some(PartialStatusPrefix + p))
      else PartialReaction(s, None)
  }

  /**
   * A shown partial extends the previous one: it is strictly longer, starts
   * with it ignoring case, and comes at least 450 ms after it.
   */
  lemma {:induction false} ShownPartialExtendsPrevious(s: PartialState, recognizedText: string, translation: Option<string>, now: int)
    requires OnRecognizing(s, recognizedText, translation, now).status.Some?
    ensures var t := OnRecognizing(s, recognizedText, translation, now).state;
      && !IsBlank(t.lastPartialText)
      && |t.lastPartialText| > |s.lastPartialText|
      && StartsWithIgnoreCase(t.lastPartialText, s.lastPartialText)
      && (s.lastPartialUpdate.Some? ==> t.lastPartialUpdate.value >= s.lastPartialUpdate.value + PartialMinIntervalMs)
  {
    var t := OnRecognizing(s, recognizedText, translation, now).state;
    if s.lastPartialText == [] {
      assert t.lastPartialText != [];
      StartsWithIgnoreCaseOfConcat([], t.lastPartialText);
      assert [] + t.lastPartialText == t.lastPartialText;
    }
  }

  // ---------------------------------------------------------------------
  // Final results
  // ---------------------------------------------------------------------

  /** The reasons a final result can carry that the handler distinguishes. */
  datatype ResultReason = TranslatedSpeech | NoMatch | OtherReason

  /** The record handed to the overlay for a translated final result. */
  datatype TranslationResult = TranslationResult(
    recognitionLanguage: string, recognizedText: string, targetLanguage: string, translatedText: string)

  /** The new state, the forwarded result and the status line after a `Recognized` event. */
  datatype FinalReaction = FinalReaction(state: PartialState, forwarded: Option<TranslationResult>, status: Option<string>)

  /**
   * The `Recognized` handler: a translated result with a non-blank translation
   * is forwarded and shown, and the last partial text is cleared (its time is
   * kept); a NoMatch result only shows the waiting status.
   */
  function OnRecognized(
    s: PartialState, recognitionLanguage: string, targetLanguage: string,
    reason: ResultReason, recognizedText: string, translation: Option<string>)
    : (r: FinalReaction)
    ensures r.forwarded.Some? <==> reason == TranslatedSpeech && !IsNullOrBlank(translation)
    ensures r.forwarded.Some? ==>
      && r.forwarded.value == TranslationResult(recognitionLanguage, recognizedText, targetLanguage, translation.value)
      && r.state == PartialState("", s.lastPartialUpdate)
      && r.status == translation
    ensures r.forwarded.None? ==> r.state == s && r.status == (if reason == NoMatch then Some(WaitingStatus) else None)
  {
    if reason == TranslatedSpeech && !IsNullOrBlank(translation) then
      FinalReaction(
        PartialState("", s.lastPartialUpdate),
        Some(TranslationResult(recognitionLanguage, recognizedText, targetLanguage, translation.value)),
        translation)
    else if reason == NoMatch then FinalReaction(s, None, Some(WaitingStatus))
    else FinalReaction(s, None, None)
  }

  // ---------------------------------------------------------------------
  // A whole session
  // ---------------------------------------------------------------------

  /** An event of the recogniser, with the result's translations by language. */
  datatype SessionEvent =
    | Recognizing(recognizedText: string, translations: map<string, string>, now: int)
    | Recognized(reason: ResultReason, recognizedText: string, translations: map<string, string>)

  /** What a session leaves visible: a shown partial with its time, or a forwarded final result. */
  datatype Note = Shown(text: string, time: int) | Forwarded(result: TranslationResult)

  /** The handlers applied to one event. */
  function Step(recognitionLanguage: string, targetLanguage: string, s: PartialState, e: SessionEvent)
    : (PartialState, Option<Note>)
  {
    match e
    case Recognizing(text, translations, now) =>
      var r := OnRecognizing(s, text, TargetTranslation(translations, targetLanguage), now);
      (r.state, if r.status.Some? then Some(Shown(r.state.lastPartialText, now)) else None)
    case Recognized(reason, text, translations) =>
      var r := OnRecognized(s, recognitionLanguage, targetLanguage, reason, text, TargetTranslation(translations, targetLanguage));
      (r.state, if r.forwarded.Some? then Some(Forwarded(r.forwarded.value)) else None)
  }

  /** The state and the notes after a sequence of events, from the state a session starts in. */
  function Run(recognitionLanguage: string, targetLanguage: string, events: seq<SessionEvent>)
    : (PartialState, seq<Note>)
  {
    if events == [] then (InitialPartialState, [])
    else
      var (s, notes) := Run(recognitionLanguage, targetLanguage, events[..|events| - 1]);
      var (t, note) := Step(recognitionLanguage, targetLanguage, s, events[|events| - 1]);
      (t, if note.Some? then notes + [note.value] else notes)
  }

  /** The time of the last shown partial, if any. */
  function LastShownTime(notes: seq<Note>): Option<int> {
    if notes == [] then None
    else if notes[|notes| - 1].Shown? then Some(notes[|notes| - 1].time)
    else LastShownTime(notes[..|notes| - 1])
  }

  /** The stabiliser's state as the notes determine it. */
  predicate Tracks(s: PartialState, notes: seq<Note>) {
    && s.lastPartialUpdate == LastShownTime(notes)
    && s.lastPartialText == (if notes != [] && notes[|notes| - 1].Shown? then notes[|notes| - 1].text else "")
  }

  /** Shown partials come at least 450 ms apart, through forwarded results too. */
  predicate ShownSpaced(notes: seq<Note>) {
    forall i, j :: 0 <= i < j < |notes| && notes[i].Shown? && notes[j].Shown? ==>
      notes[j].time >= notes[i].time + PartialMinIntervalMs
  }

  /** Each partial shown right after another one is strictly longer and starts with it ignoring case. */
  predicate ShownExtends(notes: seq<Note>) {
    forall i :: 0 <= i < |notes| - 1 && notes[i].Shown? && notes[i + 1].Shown? ==>
      |notes[i + 1].text| > |notes[i].text| && StartsWithIgnoreCase(notes[i + 1].text, notes[i].text)
  }

  lemma {:induction false} LastShownTimeIsLatest(notes: seq<Note>)
    requires ShownSpaced(notes)
    ensures LastShownTime(notes).None? <==> forall i :: 0 <= i < |notes| ==> !notes[i].Shown?
    ensures LastShownTime(notes).Some? ==>
      forall i :: 0 <= i < |notes| && notes[i].Shown? ==> notes[i].time <= LastShownTime(notes).value
  {
    if notes != [] {
      var init := notes[..|notes| - 1];
      assert ShownSpaced(init) by {
        forall i, j | 0 <= i < j < |init| && init[i].Shown? && init[j].Shown?
          ensures init[j].time >= init[i].time + PartialMinIntervalMs {
          assert init[i] == notes[i] && init[j] == notes[j];
        }
      }
      LastShownTimeIsLatest(init);
      if !notes[|notes| - 1].Shown? {
        assert forall i :: 0 <= i < |init| ==> init[i] == notes[i];
      }
    }
  }

  /**
   * Over a whole session the notes keep the stabiliser's promises: shown
   * partials are 450 ms apart, and between two forwarded results each shown
   * partial extends the one before it.
   */
  lemma {:induction false} SessionShowsStablePartials(recognitionLanguage: string, targetLanguage: string, events: seq<SessionEvent>)
    ensures var (s, notes) := Run(recognitionLanguage, targetLanguage, events);
      Tracks(s, notes) && ShownSpaced(notes) && ShownExtends(notes)
  {
    if events != [] {
      var (s, notes) := Run(recognitionLanguage, targetLanguage, events[..|events| - 1]);
      SessionShowsStablePartials(recognitionLanguage, targetLanguage, events[..|events| - 1]);
      var e := events[|events| - 1];
      var (t, note) := Step(recognitionLanguage, targetLanguage, s, e);
      if note.Some? {
        StepExtendsNotes(recognitionLanguage, targetLanguage, s, notes, e);
      }
    }
  }

  /** One event that adds a note keeps the three session properties. */
  lemma {:induction false} StepExtendsNotes(
    recognitionLanguage: string, targetLanguage: string, s: PartialState, notes: seq<Note>, e: SessionEvent)
    requires Tracks(s, notes) && ShownSpaced(notes) && ShownExtends(notes)
    requires Step(recognitionLanguage, targetLanguage, s, e).1.Some?
    ensures var (t, note) := Step(recognitionLanguage, targetLanguage, s, e);
      var notes' := notes + [note.value];
      Tracks(t, notes') && ShownSpaced(notes') && ShownExtends(notes')
  {
    var (t, note) := Step(recognitionLanguage, targetLanguage, s, e);
    match e
    case Recognized(reason, text, translations) =>
      AppendForwarded(notes, note.value);
    case Recognizing(text, translations, now) =>
      assert note.value == Shown(t.lastPartialText, now);
      ShownPartialExtendsPrevious(s, text, TargetTranslation(translations, targetLanguage), now);
      LastShownTimeIsLatest(notes);
      AppendShown(notes, t.lastPartialText, now);
  }

  /** A forwarded result clears the last shown text and keeps the session properties. */
  lemma {:induction false} AppendForwarded(notes: seq<Note>, note: Note)
    requires ShownSpaced(notes) && ShownExtends(notes) && note.Forwarded?
    ensures var notes' := notes + [note];
      && LastShownTime(notes') == LastShownTime(notes)
      && ShownSpaced(notes') && ShownExtends(notes')
  {
    var notes' := notes + [note];
    assert notes'[..|notes|] == notes;
    assert forall i :: 0 <= i < |notes| ==> notes'[i] == notes[i];
  }

  /** A partial shown late enough and extending the last shown one keeps the session properties. */
  lemma {:induction false} AppendShown(notes: seq<Note>, text: string, time: int)
    requires ShownSpaced(notes) && ShownExtends(notes)
    requires forall i :: 0 <= i < |notes| && notes[i].Shown? ==> time >= notes[i].time + PartialMinIntervalMs
    requires notes != [] && notes[|notes| - 1].Shown? ==>
      |text| > |notes[|notes| - 1].text| && StartsWithIgnoreCase(text, notes[|notes| - 1].text)
    ensures var notes' := notes + [Shown(text, time)];
      && LastShownTime(notes') == Some(time)
      && ShownSpaced(notes') && ShownExtends(notes')
  {
    var notes' := notes + [Shown(text, time)];
    assert forall i :: 0 <= i < |notes| ==> notes'[i] == notes[i];
  }

  /**
   * The handlers of one recognition session (the variables captured by the
   * event handlers of `StartAsync`).
   */
  class RecognitionSession {
    const recognitionLanguage: string
    const targetLanguage: string
    var lastPartialText: string
    var lastPartialUpdate: Option<int>

    /** The languages of `mode`, no partial shown yet. */
    constructor(mode: TE.TranslationMode)
      ensures recognitionLanguage == TE.GetRecognitionLanguage(mode)
      ensures targetLanguage == TE.GetTargetLanguage(mode)
      ensures PartialState(lastPartialText, lastPartialUpdate) == InitialPartialState
    {
      recognitionLanguage := TE.GetRecognitionLanguage(mode);
      targetLanguage := TE.GetTargetLanguage(mode);
      lastPartialText := "";
      lastPartialUpdate := None;
    }

    /** The `Recognizing` handler, for an event at time `now`; returns the status it shows, if any. */
    method HandleRecognizing(recognizedText: string, translations: map<string, string>, now: int)
      returns (status: Option<string>)
      modifies this
      ensures var r := OnRecognizing(
          old(PartialState(lastPartialText, lastPartialUpdate)), recognizedText,
          TargetTranslation(translations, targetLanguage), now);
        PartialState(lastPartialText, lastPartialUpdate) == r.state && status == r.status
    {
      status := None;
      if IsBlank(recognizedText) {
        return;
      }

      var partialTranslated := TargetTranslation(translations, targetLanguage);
      var partialText := if partialTranslated.Some? && !IsBlank(partialTranslated.value)
        then partialTranslated.value else recognizedText;
      // The source's "Ouvindo..." branch for a blank candidate cannot be taken.
      assert !IsBlank(partialText);

      if lastPartialUpdate.Some? && now - lastPartialUpdate.value < PartialMinIntervalMs {
        return;
      }

      if partialText == lastPartialText {
        return;
      }

      if |lastPartialText| != 0 && !StartsWithIgnoreCase(partialText, lastPartialText) {
        return;
      }

      if |lastPartialText| != 0 && |partialText| <= |lastPartialText| {
        return;
      }

      lastPartialText := partialText;
      lastPartialUpdate := Some(now);
      status := Some(PartialStatusPrefix + partialText);
    }

    /** The `Recognized` handler; returns the result it forwards and the status it shows, if any. */
    method HandleRecognized(reason: ResultReason, recognizedText: string, translations: map<string, string>)
      returns (forwarded: Option<TranslationResult>, status: Option<string>)
      modifies this
      ensures var r := OnRecognized(
          old(PartialState(lastPartialText, lastPartialUpdate)), recognitionLanguage, targetLanguage,
          reason, recognizedText, TargetTranslation(translations, targetLanguage));
        PartialState(lastPartialText, lastPartialUpdate) == r.state && forwarded == r.forwarded && status == r.status
    {
      forwarded, status := None, None;
      var translatedText := TargetTranslation(translations, targetLanguage);
      if reason == TranslatedSpeech && translatedText.Some? && !IsBlank(translatedText.value) {
        forwarded := Some(TranslationResult(recognitionLanguage, recognizedText, targetLanguage, translatedText.value));
        lastPartialText := "";
        status := translatedText;
        return;
      }

      if reason == NoMatch {
        status := Some(WaitingStatus);
      }
    }
  }
}

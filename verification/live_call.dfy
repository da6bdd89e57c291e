/** The live video call with the assistant: the call timer display, the
    turn-taking logic of a spoken query, the speech language, the
    microphone toggle and the camera switch. Capturing frames, speech
    recognition and synthesis are the browser's; their results enter as
    parameters. */
module LiveCall {

  import opened Common
  import opened Text

  // ---------------------------------------------------------------------
  // Call timer

  /** `formatDuration`: zero-padded minutes, ':', zero-padded seconds. */
  function FormatDuration(secs: nat): (r: string)
    ensures |r| >= 5 && r[|r| - 3] == ':'
  {
    TimerText(secs / 60, secs % 60)
  }

  /** Below 100 the decimal text has at most two digits. */
  lemma NatToStringBelow100(n: nat)
    requires n < 100
    ensures |NatToString(n)| <= 2
  {
    if n >= 10 {
      assert NatToString(n) == NatToString(n / 10) + [DigitChar(n % 10)];
    }
  }

  /** Padding to two digits keeps the value. */
  lemma PaddedValue(n: nat)
    ensures AllDigits(PadStart2(NatToString(n)))
    ensures ParseDigits(PadStart2(NatToString(n))) == n
  {
    ParseNatToString(n);
    var s := NatToString(n);
    if |s| < 2 {
      ParseLeadingZero(s);
    }
  }

  /** The timer text reads back as the elapsed time: the part before the
      last ':' is the minutes, the two digits after it are the seconds,
      always below 60. */
  lemma FormatDurationReadsBack(secs: nat)
    ensures var r := FormatDuration(secs);
      var minutes, seconds := r[..|r| - 3], r[|r| - 2..];
      && AllDigits(minutes) && AllDigits(seconds)
      && ParseDigits(minutes) == secs / 60
      && ParseDigits(seconds) == secs % 60 < 60
  {
    var q, rem := secs / 60, secs % 60;
    TimerTextReadsBack(q, rem);
  }

  /** Minutes and seconds joined as the timer shows them. */
  function TimerText(minutes: nat, seconds: nat): string
  {
    PadStart2(NatToString(minutes)) + ":" + PadStart2(NatToString(seconds))
  }

  lemma TimerTextReadsBack(q: nat, rem: nat)
    requires rem < 60
    ensures var r := TimerText(q, rem);
      |r| >= 5
      && AllDigits(r[..|r| - 3]) && AllDigits(r[|r| - 2..])
      && ParseDigits(r[..|r| - 3]) == q && ParseDigits(r[|r| - 2..]) == rem
  {
    var m, s := PadStart2(NatToString(q)), PadStart2(NatToString(rem));
    NatToStringBelow100(rem);
    ColonSplit(m, s);
    PaddedValue(q);
    PaddedValue(rem);
  }

  /** The parts around the ':' of a text ending in two characters after it. */
  lemma ColonSplit(m: string, s: string)
    requires |s| == 2
    ensures var r := m + ":" + s; r[..|r| - 3] == m && r[|r| - 2..] == s
  {
  }

  // ---------------------------------------------------------------------
  // Speech language

  /** The speech-synthesis language for each supported interface language. */
  const SpeechLanguages: seq<(string, string)> := [
    ("Hindi", "hi-IN"),
    ("English", "en-US"),
    ("Spanish", "es-ES"),
    ("French", "fr-FR"),
    ("German", "de-DE"),
    ("Japanese", "ja-JP")
  ]

  const DefaultSpeechLanguage := "en-US"

  /** `langMap[language] || 'en-US'`. */
  function SpeechLanguage(language: string): (code: string)
    ensures Lookup(SpeechLanguages, language).None? ==> code == DefaultSpeechLanguage
    ensures Lookup(SpeechLanguages, language).Some? ==> code == Lookup(SpeechLanguages, language).value
  {
    assert forall i :: 0 <= i < |SpeechLanguages| ==> SpeechLanguages[i].1 != [];
    OrElse(Lookup(SpeechLanguages, language), DefaultSpeechLanguage)
  }

  /** Every language is spoken with one of the six listed voices. */
  lemma SpeechLanguageIsListed(language: string)
    ensures exists i :: 0 <= i < |SpeechLanguages| && SpeechLanguage(language) == SpeechLanguages[i].1
  {
    if Lookup(SpeechLanguages, language).None? {
      assert SpeechLanguage(language) == SpeechLanguages[1].1;
    }
  }

  // ---------------------------------------------------------------------
  // Turns and history

  datatype Role = UserRole | ModelRole

  /** A captured camera frame sent with a query. */
  datatype Attachment = Image(url: string)

  /** One entry of the conversation history sent back to the model. */
  datatype Turn = Turn(role: Role, content: string, attachment: Option<Attachment>)

  datatype Facing = FacingUser | FacingEnvironment

  datatype CallState = CallState(
    listening: bool,
    speechPlaying: bool,
    transcript: string,
    aiResponse: string,
    history: seq<Turn>,
    videoActive: bool,
    facing: Facing)

  const ConnectionError := "Connection error."

  /** The attachment of a query: the captured frame, only while the video
      is on and only when a frame was captured. */
  function AttachmentFor(videoActive: bool, frame: Option<string>): (a: Option<Attachment>)
    ensures a.Some? <==> videoActive && Truthy(frame)
    ensures a.Some? ==> a.value == Image(frame.value)
  {
    if videoActive && Truthy(frame) then Some(Image(frame.value)) else None
  }

  /** The history alternates user and model turns, starting with the user:
      it grows only in pairs. */
  predicate WellPaired(h: seq<Turn>)
  {
    && |h| % 2 == 0
    && forall i :: 0 <= i < |h| ==> h[i].role == if i % 2 == 0 then UserRole else ModelRole
  }

  /** The video flag of the first render: the camera starts switched on. */
  const VideoOnAtMount := true

  /** `processQuery(text)` as defined by a render that saw the video flag
      `videoOn`. `frame` is what `captureFrame` returns and `reply` the
      model's answer, `None` when the request throws. The history update is
      functional, so it extends the current history `st.history`. */
  function ProcessQuery(st: CallState, videoOn: bool, text: string, frame: Option<string>,
                        reply: Option<string>): (r: CallState)
    ensures IsBlank(text) ==> r == st
    ensures !IsBlank(text) ==> !r.listening
    ensures !IsBlank(text) && reply.Some? ==>
      && r.history == st.history + [Turn(UserRole, text, AttachmentFor(videoOn, frame)),
                                    Turn(ModelRole, reply.value, None)]
      && r.aiResponse == reply.value
    ensures !IsBlank(text) && reply.None? ==> r.history == st.history && r.aiResponse == ConnectionError
    ensures r.videoActive == st.videoActive && r.facing == st.facing && r.transcript == st.transcript
  {
    if IsBlank(text) then st
    else
      match reply
      case None => st.(listening := false, aiResponse := ConnectionError)
      case Some(answer) =>
        var asked := Turn(UserRole, text, AttachmentFor(videoOn, frame));
        st.(listening := false, aiResponse := answer,
            history := st.history + [asked, Turn(ModelRole, answer, None)])
  }

  /** Whatever the request does, a well-paired history stays well paired
      and its earlier turns are kept. */
  lemma ProcessQueryKeepsPairs(st: CallState, videoOn: bool, text: string, frame: Option<string>,
                               reply: Option<string>)
    requires WellPaired(st.history)
    ensures var h := ProcessQuery(st, videoOn, text, frame, reply).history;
      WellPaired(h) && |st.history| <= |h| && h[..|st.history|] == st.history
  {
    var h := ProcessQuery(st, videoOn, text, frame, reply).history;
    assert h[..|st.history|] == st.history;
  }

  /** `recognition.onresult` as written: the handler is installed once, by
      an effect that never re-runs, so a final result runs the first
      render's `processQuery`, which saw the video switched on. */
  function OnRecognitionResultAsWritten(st: CallState, text: string, isFinal: bool,
                                        frame: Option<string>, reply: Option<string>): (r: CallState)
    ensures r.transcript == text
    ensures !isFinal ==> r == st.(transcript := text)
    ensures isFinal && !IsBlank(text) && reply.Some? ==>
      r.history == st.history + [Turn(UserRole, text, AttachmentFor(true, frame)),
                                 Turn(ModelRole, reply.value, None)]
  {
    var shown := st.(transcript := text);
    if isFinal then ProcessQuery(shown, VideoOnAtMount, text, frame, reply) else shown
  }

  /** With the camera switched off, a spoken query still sends the captured
      frame: the handler reads the flag of the first render. */
  lemma FrameSentWithVideoOff(st: CallState, text: string, frame: Option<string>, reply: Option<string>)
    requires !st.videoActive && !IsBlank(text) && Truthy(frame) && reply.Some?
    ensures var h := OnRecognitionResultAsWritten(st, text, true, frame, reply).history;
      |h| == |st.history| + 2 && h[|st.history|].attachment == Some(Image(frame.value))
  {
  }

  /** `recognition.onresult` reading the current video flag, as the
      switch is evidently meant to work: the transcript is shown, and a
      final result is processed as a query. */
  function OnRecognitionResult(st: CallState, text: string, isFinal: bool,
                               frame: Option<string>, reply: Option<string>): (r: CallState)
    ensures r.transcript == text
    ensures !isFinal ==> r == st.(transcript := text)
    ensures isFinal && !IsBlank(text) && reply.Some? ==>
      r.history == st.history + [Turn(UserRole, text, AttachmentFor(st.videoActive, frame)),
                                 Turn(ModelRole, reply.value, None)]
    ensures isFinal && !IsBlank(text) && reply.None? ==>
      r.history == st.history && r.aiResponse == ConnectionError
  {
    var shown := st.(transcript := text);
    if isFinal then ProcessQuery(shown, st.videoActive, text, frame, reply) else shown
  }

  /** With the handler reading the current flag, a call whose video is off
      never records an image, however many results arrive. */
  lemma ImagesOnlyWithVideo(st: CallState, text: string, isFinal: bool, frame: Option<string>,
                            reply: Option<string>, i: int)
    requires !st.videoActive
    requires forall j :: 0 <= j < |st.history| ==> st.history[j].attachment.None?
    requires 0 <= i < |OnRecognitionResult(st, text, isFinal, frame, reply).history|
    ensures OnRecognitionResult(st, text, isFinal, frame, reply).history[i].attachment.None?
  {
  }

  /** `toggleListening`. `supported` says whether the browser offers speech
      recognition; without it no recognizer exists and the call to start it
      throws after the speech is silenced and the transcript cleared, so
      listening never begins. Stopping needs a recognizer too. */
  function ToggleListening(st: CallState, supported: bool): (r: CallState)
    ensures supported ==> r.listening == !st.listening
    ensures !supported ==> r.listening == st.listening
    ensures st.listening && supported ==> r == st.(listening := false)
    ensures st.listening && !supported ==> r == st
    ensures !st.listening ==> r == st.(listening := supported, speechPlaying := false, transcript := "")
  {
    if st.listening then (if supported then st.(listening := false) else st)
    else st.(listening := supported, speechPlaying := false, transcript := "")
  }

  /** Starting and then stopping the microphone leaves silence, an empty
      transcript and the history untouched, with or without recognition
      support. */
  lemma ListenThenStop(st: CallState, supported: bool)
    requires !st.listening
    ensures var r := ToggleListening(ToggleListening(st, supported), supported);
      !r.listening && !r.speechPlaying && r.transcript == "" && r.history == st.history
  {
  }

  /** `switchCamera`: front becomes back and back becomes front. */
  function SwitchCamera(st: CallState): (r: CallState)
    ensures r.facing != st.facing
    ensures r == st.(facing := r.facing)
  {
    st.(facing := if st.facing == FacingUser then FacingEnvironment else FacingUser)
  }

  /** Switching twice restores the camera. */
  lemma SwitchCameraTwice(st: CallState)
    ensures SwitchCamera(SwitchCamera(st)) == st
  {
  }
}

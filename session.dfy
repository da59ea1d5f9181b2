/**
 * The translator window: starting and stopping listening, the capture loop of the listening thread,
 * processing one utterance from recognition to the history, and closing the window.
 * Threads are made sequential: each capture of the loop is one event, and the processing of each
 * dispatched utterance is a separate call.
 */
module Session {
  import opened Wrappers
  import opened PyStr
  import opened Truncation
  import opened Languages
  import opened Fallback
  import opened Interpretation
  import opened Timestamp
  import opened History

  /** A captured utterance (`sr.AudioData`), known by the number of its capture. */
  datatype Audio = Audio(capture: nat)

  /** What one `recognizer.listen(...)` gives back. */
  datatype Outcome =
    | Heard(audio: Audio)      // an utterance
    | WaitTimeout              // `sr.WaitTimeoutError`
    | Unintelligible           // `sr.UnknownValueError`
    | ListenFailed(msg: string) // any other exception, with its text

  /** One return of `listen`, and whether the user stopped listening while it was blocking. */
  datatype Capture = Capture(outcome: Outcome, stoppedMeanwhile: bool)

  /** The fields the listening controls read and write. */
  datatype Controls = Controls(listening: bool, stopRequested: bool, lastAudio: Option<Audio>,
                               processEnabled: bool, status: string)

  /** Never listening with the stop flag set; reprocessing is enabled only with an utterance to process. */
  predicate ControlsValid(c: Controls) {
    !(c.listening && c.stopRequested) && (c.processEnabled ==> c.lastAudio.Some?)
  }

  /** The loop guard `self.is_listening and not self.listening_stop_event.is_set()`. */
  predicate Active(c: Controls) {
    c.listening && !c.stopRequested
  }

  /** `toggle_listening` on the listening fields. */
  function Toggle(c: Controls): (d: Controls)
    ensures !c.listening ==> Active(d) && d.status == "Status: Listening..."
    ensures c.listening ==> !d.listening && d.stopRequested && d.status == "Status: Idle"
    ensures c.listening ==> d.processEnabled == (c.processEnabled || c.lastAudio.Some?)
    ensures !c.listening ==> d.processEnabled == c.processEnabled
    ensures d.lastAudio == c.lastAudio
    ensures ControlsValid(c) ==> ControlsValid(d)
  {
    if !c.listening then
      c.(listening := true, stopRequested := false, status := "Status: Listening...")
    else
      c.(listening := false, stopRequested := true, status := "Status: Idle",
         processEnabled := c.processEnabled || c.lastAudio.Some?)
  }

  /** Stopping and starting again listens with the same utterance kept. */
  lemma ToggleTwice(c: Controls)
    requires c.listening
    ensures Active(Toggle(Toggle(c))) && Toggle(Toggle(c)).lastAudio == c.lastAudio
    ensures Toggle(Toggle(c)).processEnabled == (c.processEnabled || c.lastAudio.Some?)
  {
  }

  function Dispatched(a: Option<Audio>): seq<Audio> {
    match a
    case Some(x) => [x]
    case None => []
  }

  /**
   * One pass of the loop body. An utterance is always kept and dispatched; the messages of the
   * three exceptions are shown only while listening has not been stopped.
   */
  function Step(c: Controls, k: Capture): (r: (Controls, Option<Audio>))
    ensures k.outcome.Heard? ==> r.1 == Some(k.outcome.audio) && r.0.lastAudio == r.1
    ensures !k.outcome.Heard? ==> r.1.None? && r.0.lastAudio == c.lastAudio
    ensures Active(c) ==> (Active(r.0) <==> !k.stoppedMeanwhile)
    ensures ControlsValid(c) ==> ControlsValid(r.0)
  {
    var c1 := if k.stoppedMeanwhile then Toggle(c) else c;
    match k.outcome
    case Heard(a) =>
      (c1.(lastAudio := Some(a), processEnabled := true, status := "Status: Processing..."), Some(a))
    case WaitTimeout =>
      (if Active(c1) then c1.(status := "Status: Listening...") else c1, None)
    case Unintelligible =>
      (if Active(c1) then c1.(status := "Status: Could not understand audio") else c1, None)
    case ListenFailed(msg) =>
      (if Active(c1) then c1.(status := StatusError(msg)) else c1, None)
  }

  /** The loop over a sequence of captures: the final fields, the dispatched utterances, the passes made. */
  function Run(c: Controls, captures: seq<Capture>): (Controls, seq<Audio>, nat)
    decreases |captures|
  {
    if !Active(c) || captures == [] then (c, [], 0)
    else
      var step := Step(c, captures[0]);
      var rest := Run(step.0, captures[1..]);
      (rest.0, Dispatched(step.1) + rest.1, rest.2 + 1)
  }

  /** One pass of an active loop, and the loop over the remaining captures. */
  lemma RunUnfolds(c: Controls, captures: seq<Capture>)
    requires Active(c) && captures != []
    ensures var step := Step(c, captures[0]);
            var rest := Run(step.0, captures[1..]);
            Run(c, captures).0 == rest.0 && Run(c, captures).1 == Dispatched(step.1) + rest.1
            && Run(c, captures).2 == rest.2 + 1
  {
  }

  /**
   * One pass of the loop keeps what remains to be done equal to the whole run: `goal` is the run
   * from the start, `done` and `i` what the passes so far dispatched and counted.
   */
  lemma RunAdvances(goal: (Controls, seq<Audio>, nat), c: Controls, captures: seq<Capture>, done: seq<Audio>,
                    i: nat, next: Controls, heard: Option<Audio>)
    requires Active(c) && captures != [] && next == Step(c, captures[0]).0 && heard == Step(c, captures[0]).1
    requires goal.0 == Run(c, captures).0 && goal.1 == done + Run(c, captures).1 && goal.2 == Run(c, captures).2 + i
    ensures goal.0 == Run(next, captures[1..]).0
    ensures goal.1 == (done + Dispatched(heard)) + Run(next, captures[1..]).1
    ensures goal.2 == Run(next, captures[1..]).2 + (i + 1)
  {
    RunUnfolds(c, captures);
    var rest := Run(next, captures[1..]);
    assert done + (Dispatched(heard) + rest.1) == (done + Dispatched(heard)) + rest.1;
  }

  /** A loop that is no longer active, or has no capture left, makes no pass. */
  lemma RunEnds(c: Controls, captures: seq<Capture>)
    requires !Active(c) || captures == []
    ensures Run(c, captures) == (c, [], 0)
  {
  }

  /** The number of passes until the first capture during which listening was stopped, that one included. */
  function UntilStop(captures: seq<Capture>): (n: nat)
    ensures n <= |captures|
  {
    if captures == [] then 0
    else if captures[0].stoppedMeanwhile then 1
    else 1 + UntilStop(captures[1..])
  }

  /** The utterances among the captures, in order. */
  function HeardIn(captures: seq<Capture>): seq<Audio> {
    if captures == [] then []
    else (if captures[0].outcome.Heard? then [captures[0].outcome.audio] else []) + HeardIn(captures[1..])
  }

  function LastOr(s: seq<Audio>, d: Option<Audio>): Option<Audio> {
    if s == [] then d else Some(s[|s| - 1])
  }

  /**
   * The loop runs while listening and not stopped: started active, it makes exactly one pass per
   * capture up to and including the one during which the user stopped; it dispatches exactly the
   * utterances heard in those passes, in order; `last_audio` ends as the last of them; and the
   * invariant of the fields is kept.
   */
  lemma RunMeaning(c: Controls, captures: seq<Capture>)
    requires Active(c)
    ensures Run(c, captures).2 == UntilStop(captures)
    ensures Run(c, captures).1 == HeardIn(captures[..UntilStop(captures)])
    ensures Run(c, captures).0.lastAudio == LastOr(Run(c, captures).1, c.lastAudio)
    ensures ControlsValid(c) ==> ControlsValid(Run(c, captures).0)
    ensures UntilStop(captures) < |captures| || (captures != [] && captures[|captures| - 1].stoppedMeanwhile)
            ==> !Active(Run(c, captures).0)
  {
    RunPasses(c, captures);
    RunDispatches(c, captures);
    RunKeepsLastAudio(c, captures);
    if ControlsValid(c) {
      RunKeepsValid(c, captures);
    }
  }

  /** The passes made, and the loop left inactive once a stop was seen. */
  lemma {:induction false} RunPasses(c: Controls, captures: seq<Capture>)
    requires Active(c)
    ensures Run(c, captures).2 == UntilStop(captures)
    ensures UntilStop(captures) < |captures| || (captures != [] && captures[|captures| - 1].stoppedMeanwhile)
            ==> !Active(Run(c, captures).0)
    decreases |captures|
  {
    if captures != [] && !captures[0].stoppedMeanwhile {
      RunPasses(Step(c, captures[0]).0, captures[1..]);
      if captures[|captures| - 1].stoppedMeanwhile {
        assert captures[1..][|captures[1..]| - 1] == captures[|captures| - 1];
      }
    }
  }

  /** The utterances dispatched are those heard in the passes made. */
  lemma {:induction false} RunDispatches(c: Controls, captures: seq<Capture>)
    requires Active(c)
    ensures Run(c, captures).1 == HeardIn(captures[..UntilStop(captures)])
    decreases |captures|
  {
    if captures != [] {
      var n := UntilStop(captures);
      assert captures[..n][0] == captures[0];
      if captures[0].stoppedMeanwhile {
        assert captures[..n] == [captures[0]];
        assert HeardIn(captures[..n][1..]) == [];
      } else {
        RunDispatches(Step(c, captures[0]).0, captures[1..]);
        assert captures[..n][1..] == captures[1..][..UntilStop(captures[1..])];
      }
    }
  }

  /** `last_audio` ends as the last utterance dispatched, or as it was when none was. */
  lemma {:induction false} RunKeepsLastAudio(c: Controls, captures: seq<Capture>)
    ensures Run(c, captures).0.lastAudio == LastOr(Run(c, captures).1, c.lastAudio)
    decreases |captures|
  {
    if Active(c) && captures != [] {
      var step := Step(c, captures[0]);
      RunKeepsLastAudio(step.0, captures[1..]);
      var rest := Run(step.0, captures[1..]);
      if rest.1 != [] {
        assert (Dispatched(step.1) + rest.1)[|Dispatched(step.1) + rest.1| - 1] == rest.1[|rest.1| - 1];
      }
    }
  }

  /** The invariant of the fields holds after any number of passes. */
  lemma {:induction false} RunKeepsValid(c: Controls, captures: seq<Capture>)
    requires ControlsValid(c)
    ensures ControlsValid(Run(c, captures).0)
    decreases |captures|
  {
    if Active(c) && captures != [] {
      RunKeepsValid(Step(c, captures[0]).0, captures[1..]);
    }
  }

  /** Timeouts alone never dispatch anything: the loop keeps listening and shows that it is. */
  lemma {:induction false} TimeoutsOnly(c: Controls, captures: seq<Capture>)
    requires Active(c) && captures != []
    requires forall i :: 0 <= i < |captures| ==> captures[i] == Capture(WaitTimeout, false)
    ensures Run(c, captures).1 == [] && Run(c, captures).2 == |captures|
    ensures Active(Run(c, captures).0) && Run(c, captures).0.status == "Status: Listening..."
    decreases |captures|
  {
    if |captures| > 1 {
      TimeoutsOnly(Step(c, captures[0]).0, captures[1..]);
    }
  }

  /** What the foreign services give: recognition, language detection, the translator, the HTTP endpoint. */
  datatype Backends = Backends(
    recognize: Audio -> Result<string>,
    detect: string -> Result<string>,
    translate: (string, string, string) -> Reply,
    endpoint: Request -> HttpOutcome,
    translatorError: Option<string>)  // what `Translator()` raises, if anything

  /**
   * The translated text of `_process_audio`. The fallback never raises here, so both places that call
   * it get its answer: the reply's own text when the classification finds one, the fallback's otherwise.
   */
  function TranslatedText(text: string, src: string, dest: string, reply: Reply,
                          endpoint: Request -> HttpOutcome): (r: string)
    ensures reply.Returned? && Classify(reply.response).UseText? ==> r == Classify(reply.response).text
    ensures !(reply.Returned? && Classify(reply.response).UseText?) ==> r == FallbackSpec(text, src, dest, endpoint)
  {
    var f := FallbackSpec(text, src, dest, endpoint);
    Interpret(reply, Ok(f), Ok(f))
  }

  /** How processing one utterance ends: a status error, or a translation to show and save. */
  datatype Processed =
    | Failed(status: string)
    | Translated(sourceText: string, sourceLang: string, text: string, targetLang: string)

  /**
   * `_process_audio` up to the point where the result is shown: recognition, detection and the creation
   * of the translator each either give their value or end it with the error status of the outer handler.
   */
  function Process(audio: Audio, b: Backends, selection: string): (p: Processed)
    ensures p.Failed? ==> StartsWith(p.status, "Status: Error - ") && |p.status| <= 116
    ensures b.recognize(audio).Err? ==> p == Failed(StatusError(b.recognize(audio).error))
    ensures b.recognize(audio).Ok? && b.detect(b.recognize(audio).value).Err?
            ==> p == Failed(StatusError(b.detect(b.recognize(audio).value).error))
    ensures b.recognize(audio).Ok? && b.detect(b.recognize(audio).value).Ok? && b.translatorError.Some?
            ==> p == Failed(StatusError(b.translatorError.value))
    ensures b.recognize(audio).Ok? && b.detect(b.recognize(audio).value).Ok? && b.translatorError.None?
            ==> var source, lang, target := b.recognize(audio).value, b.detect(b.recognize(audio).value).value,
                                            TargetCode(selection);
                p == Translated(source, lang, TranslatedText(source, lang, target, b.translate(source, lang, target),
                                                             b.endpoint), target)
    ensures p.Translated? ==> b.recognize(audio) == Ok(p.sourceText) && b.detect(p.sourceText) == Ok(p.sourceLang)
                              && p.targetLang == TargetCode(selection)
  {
    match b.recognize(audio)
    case Err(e) => Failed(StatusError(e))
    case Ok(source) =>
      match b.detect(source)
      case Err(e) => Failed(StatusError(e))
      case Ok(lang) =>
        var target := TargetCode(selection);
        if b.translatorError.Some? then Failed(StatusError(b.translatorError.value))
        else
          Translated(source, lang, TranslatedText(source, lang, target, b.translate(source, lang, target), b.endpoint),
                     target)
  }

  /** The part of `_process_audio` that calls the translator and, where needed, the fallback. */
  method Translate(text: string, src: string, dest: string, reply: Reply, endpoint: Request -> HttpOutcome)
    returns (r: string)
    ensures r == TranslatedText(text, src, dest, reply, endpoint)
  {
    match reply {
      case Raised(_) =>
        r := FallbackTranslate(text, src, dest, endpoint);
      case Returned(response) =>
        match Classify(response) {
          case UseText(t) =>
            r := t;
          case _ =>
            r := FallbackTranslate(text, src, dest, endpoint);
        }
    }
  }

  /** The computing part of `_process_audio`: recognise, detect, read the target code, translate. */
  method Recognize(audio: Audio, b: Backends, selection: string) returns (p: Processed)
    ensures p == Process(audio, b, selection)
  {
    var recognized := b.recognize(audio);
    if recognized.Err? {
      return Failed(StatusError(recognized.error));
    }
    var sourceText := recognized.value;
    var detected := b.detect(sourceText);
    if detected.Err? {
      return Failed(StatusError(detected.error));
    }
    var sourceLang := detected.value;
    var targetLang := TargetCode(selection);
    if b.translatorError.Some? {
      return Failed(StatusError(b.translatorError.value));
    }
    var translatedText := Translate(sourceText, sourceLang, targetLang,
                                    b.translate(sourceText, sourceLang, targetLang), b.endpoint);
    p := Translated(sourceText, sourceLang, translatedText, targetLang);
  }

  /** The translator's text boxes and status. */
  datatype Screen = Screen(status: string, sourceBox: string, translatedBox: string)

  /** The screen after processing: an error status, or both texts and the completion status. */
  function ScreenAfter(screen: Screen, p: Processed): (r: Screen)
    ensures p.Failed? ==> r == screen.(status := p.status)
    ensures p.Translated? ==> r.status == "Status: Translation Complete"
                              && StartsWith(r.translatedBox, p.text) && StartsWith(r.sourceBox, p.sourceText)
  {
    match p
    case Failed(s) => screen.(status := s)
    case Translated(source, lang, text, target) =>
      Screen("Status: Translation Complete", source + "\n\nDetected Language: " + lang,
             text + "\n\nTranslated to: " + target)
  }

  /** The store after processing: a failure saves nothing, a translation is saved as shown. */
  function Recorded(t: Table, available: bool, count: nat, p: Processed, stamp: string,
                    setup: SetupOutcome, run: SaveRun): (r: (Table, bool, nat, seq<Notice>))
    requires TableValid(t)
    ensures TableValid(r.0)
    ensures p.Failed? ==> r == (t, available, count, [])
  {
    match p
    case Failed(_) => (t, available, count, [])
    case Translated(source, lang, text, target) =>
      SaveEffect(t, available, count, stamp, source, lang, text, target, setup, run)
  }

  /** A failed recognition, detection or translator creation touches neither the text boxes nor the history. */
  lemma FailureSavesNothing(screen: Screen, t: Table, available: bool, count: nat, audio: Audio, b: Backends,
                            selection: string, stamp: string, setup: SetupOutcome, run: SaveRun)
    requires TableValid(t)
    requires b.recognize(audio).Err? || b.detect(b.recognize(audio).value).Err? || b.translatorError.Some?
    ensures var p := Process(audio, b, selection);
            Recorded(t, available, count, p, stamp, setup, run) == (t, available, count, [])
            && ScreenAfter(screen, p).sourceBox == screen.sourceBox
            && ScreenAfter(screen, p).translatedBox == screen.translatedBox
            && StartsWith(ScreenAfter(screen, p).status, "Status: Error - ")
  {
  }

  /** A translated utterance is saved as exactly what is shown, stamped with the moment of saving. */
  lemma TranslationIsRecorded(screen: Screen, t: Table, count: nat, audio: Audio, b: Backends,
                              selection: string, now: DateTime, setup: SetupOutcome)
    requires TableValid(t) && WellFormed(now)
    requires b.recognize(audio).Ok? && b.detect(b.recognize(audio).value).Ok? && b.translatorError.None?
    ensures var p := Process(audio, b, selection);
            var r := Recorded(t, true, count, p, Format(now), setup, Saved);
            p.Translated? && p.sourceText == b.recognize(audio).value
            && r.0.rows == t.rows + [Row(t.lastId + 1, Format(now), p.sourceText, p.sourceLang, p.text, p.targetLang)]
            && ScreenAfter(screen, p).translatedBox == p.text + "\n\nTranslated to: " + p.targetLang
  {
    var p := Process(audio, b, selection);
    SaveWithPathAppends(t, count, Format(now), p.sourceText, p.sourceLang, p.text, p.targetLang, setup);
  }

  /** The application window. */
  class App {
    var isListening: bool
    var stopRequested: bool
    var lastAudio: Option<Audio>
    var processEnabled: bool
    var status: string
    var selection: string
    var sourceBox: string
    var translatedBox: string
    var closed: bool
    const store: HistoryStore

    function Snapshot(): Controls
      reads this
    {
      Controls(isListening, stopRequested, lastAudio, processEnabled, status)
    }

    function Boxes(): Screen
      reads this
    {
      Screen(status, sourceBox, translatedBox)
    }

    predicate Valid()
      reads this, store
    {
      store.Valid() && ControlsValid(Snapshot())
    }

    /**
     * The window as `__init__` builds it over the store `s`, up to the point where `setup_ui` first
     * touches the database; `Startup` is the rest of `setup_ui`.
     */
    constructor (s: HistoryStore)
      requires s.Valid()
      ensures Valid() && store == s
      ensures !isListening && !stopRequested && lastAudio.None? && !processEnabled && !closed
      ensures status == "Status: Idle" && selection == "hi: Hindi"
      ensures sourceBox == "Source Text (Auto-detected)" && translatedBox == "Translated Text"
    {
      isListening := false;
      stopRequested := false;
      lastAudio := None;
      processEnabled := false;
      status := "Status: Idle";
      selection := "hi: Hindi";
      sourceBox := "Source Text (Auto-detected)";
      translatedBox := "Translated Text";
      closed := false;
      store := s;
    }

    /**
     * The database part of `setup_ui`. The history tab ends with `load_history`, which finds no path
     * yet and runs `setup_db` (`first`) before querying (`loadFault`); then `setup_ui` runs `setup_db`
     * a second time (`second`), whatever the first gave.
     */
    method Startup(first: SetupOutcome, loadFault: Option<Fault>, second: SetupOutcome)
      returns (notices: seq<Notice>, lines: seq<Line>)
      requires Valid() && !store.available
      modifies store
      ensures Valid()
      ensures store.table == SetupTable(SetupTable(old(store.table), first), second)
      ensures store.available == (second == SetupOk) && store.errorCount == old(store.errorCount)
      ensures notices == SetupNotices(first) + SetupNotices(second)
      ensures first != SetupOk ==> lines == [Placeholder("History unavailable - Database not accessible")]
      ensures first == SetupOk ==> Shows(lines, LoadView(SelfTested(old(store.table)), loadFault))
    {
      var before;
      before, lines := store.Load(first, loadFault);
      var after := store.Setup(second);
      notices := before + after;
    }

    /**
     * Choosing a value of the read-only language box. Its values are the entries `Entry(code)` of
     * the listed codes, and `EntryRoundTrip` shows each of them reads back as its own code.
     */
    method ChooseLanguage(entry: string)
      requires Valid()
      modifies this
      ensures Valid() && selection == entry
      ensures Snapshot() == old(Snapshot()) && Boxes() == old(Boxes()) && closed == old(closed)
    {
      selection := entry;
    }

    /** `toggle_listening`; starting also resets both text boxes. The thread it starts is `ListenLoop`. */
    method ToggleListening()
      requires Valid()
      modifies this
      ensures Valid() && Snapshot() == Toggle(old(Snapshot()))
      ensures !old(isListening) ==> sourceBox == "Listening for new input..."
                                    && translatedBox == "Translation will appear here"
      ensures old(isListening) ==> sourceBox == old(sourceBox) && translatedBox == old(translatedBox)
      ensures selection == old(selection) && closed == old(closed)
    {
      if !isListening {
        isListening := true;
        stopRequested := false;
        status := "Status: Listening...";
        sourceBox := "Listening for new input...";
        translatedBox := "Translation will appear here";
      } else {
        isListening := false;
        stopRequested := true;
        status := "Status: Idle";
        if lastAudio.Some? {
          processEnabled := true;
        }
      }
    }

    /** One pass of the loop body, for a capture that found the loop active. */
    method Pass(k: Capture) returns (heard: Option<Audio>)
      requires Valid() && isListening && !stopRequested
      modifies this
      ensures Valid() && Snapshot() == Step(old(Snapshot()), k).0 && heard == Step(old(Snapshot()), k).1
      ensures selection == old(selection) && sourceBox == old(sourceBox)
              && translatedBox == old(translatedBox) && closed == old(closed)
    {
      if k.stoppedMeanwhile {
        ToggleListening();
      }
      heard := None;
      match k.outcome {
        case Heard(a) =>
          lastAudio := Some(a);
          processEnabled := true;
          status := "Status: Processing...";
          heard := Some(a);
        case WaitTimeout =>
          if isListening && !stopRequested {
            status := "Status: Listening...";
          }
        case Unintelligible =>
          if isListening && !stopRequested {
            status := "Status: Could not understand audio";
          }
        case ListenFailed(msg) =>
          if isListening && !stopRequested {
            status := StatusError(msg);
          }
      }
    }

    /**
     * `listen_and_translate` over the captures it meets: it first shows that it is listening, then
     * loops while listening and not stopped. It returns the utterances handed to `_process_audio`.
     */
    method ListenLoop(captures: seq<Capture>) returns (dispatched: seq<Audio>, passes: nat)
      requires Valid()
      modifies this
      ensures Valid()
      ensures Snapshot() == Run(old(Snapshot()).(status := "Status: Listening..."), captures).0
      ensures dispatched == Run(old(Snapshot()).(status := "Status: Listening..."), captures).1
      ensures passes == Run(old(Snapshot()).(status := "Status: Listening..."), captures).2
      ensures selection == old(selection) && sourceBox == old(sourceBox)
              && translatedBox == old(translatedBox) && closed == old(closed)
    {
      status := "Status: Listening...";
      ghost var goal := Run(Snapshot(), captures);
      assert Snapshot() == old(Snapshot()).(status := "Status: Listening...");
      dispatched := [];
      var i := 0;
      assert captures[0..] == captures;
      while isListening && !stopRequested && i < |captures|
        invariant 0 <= i <= |captures| && Valid()
        invariant goal.0 == Run(Snapshot(), captures[i..]).0
        invariant goal.1 == dispatched + Run(Snapshot(), captures[i..]).1
        invariant goal.2 == Run(Snapshot(), captures[i..]).2 + i
        invariant selection == old(selection) && sourceBox == old(sourceBox)
        invariant translatedBox == old(translatedBox) && closed == old(closed)
        decreases |captures| - i
      {
        var k := captures[i];
        ghost var before := Snapshot();
        var heard := Pass(k);
        RunAdvances(goal, before, captures[i..], dispatched, i, Snapshot(), heard);
        assert captures[i..][1..] == captures[i + 1..];
        dispatched := dispatched + Dispatched(heard);
        i := i + 1;
      }
      passes := i;
      if i == |captures| {
        assert captures[i..] == [];
      }
      RunEnds(Snapshot(), captures[i..]);
    }

    /** Showing the outcome of processing one utterance. */
    method Show(p: Processed)
      requires Valid()
      modifies this
      ensures Valid() && Boxes() == ScreenAfter(old(Boxes()), p)
      ensures Snapshot().(status := old(status)) == old(Snapshot())
      ensures selection == old(selection) && closed == old(closed)
    {
      match p {
        case Failed(s) =>
          status := s;
        case Translated(sourceText, sourceLang, translatedText, targetLang) =>
          sourceBox := sourceText + "\n\nDetected Language: " + sourceLang;
          translatedBox := translatedText + "\n\nTranslated to: " + targetLang;
          status := "Status: Translation Complete";
      }
    }

    /** `_process_audio(audio)`: recognise, detect, translate, show and save. */
    method ProcessAudio(audio: Audio, b: Backends, now: DateTime, setup: SetupOutcome, run: SaveRun)
      returns (notices: seq<Notice>)
      requires Valid() && WellFormed(now)
      modifies this, store
      ensures Valid()
      ensures Boxes() == ScreenAfter(old(Boxes()), Process(audio, b, selection))
      ensures var r := Recorded(old(store.table), old(store.available), old(store.errorCount),
                                Process(audio, b, selection), Format(now), setup, run);
              store.table == r.0 && store.available == r.1 && store.errorCount == r.2 && notices == r.3
      ensures Snapshot().(status := old(status)) == old(Snapshot())
      ensures selection == old(selection) && closed == old(closed)
    {
      var p := Recognize(audio, b, selection);
      notices := Present(p, now, setup, run);
    }

    /** Showing the outcome and, for a translation, saving it. */
    method Present(p: Processed, now: DateTime, setup: SetupOutcome, run: SaveRun)
      returns (notices: seq<Notice>)
      requires Valid() && WellFormed(now)
      modifies this, store
      ensures Valid() && Boxes() == ScreenAfter(old(Boxes()), p)
      ensures var r := Recorded(old(store.table), old(store.available), old(store.errorCount), p, Format(now),
                                setup, run);
              store.table == r.0 && store.available == r.1 && store.errorCount == r.2 && notices == r.3
      ensures Snapshot().(status := old(status)) == old(Snapshot())
      ensures selection == old(selection) && closed == old(closed)
    {
      notices := [];
      Show(p);
      if p.Translated? {
        notices := store.Save(now, p.sourceText, p.sourceLang, p.text, p.targetLang, setup, run);
      }
    }

    /** `process_last_audio`: without an utterance, only the information dialog. */
    method ProcessLastAudio(b: Backends, now: DateTime, setup: SetupOutcome, run: SaveRun)
      returns (notices: seq<Notice>)
      requires Valid() && WellFormed(now)
      modifies this, store
      ensures Valid()
      ensures old(lastAudio).None? ==>
                notices == [InfoBox("No audio captured yet. Please start listening first.")]
                && Boxes() == old(Boxes()) && store.table == old(store.table)
                && store.available == old(store.available) && store.errorCount == old(store.errorCount)
      ensures old(lastAudio).Some? ==>
                var p := Process(old(lastAudio).value, b, selection);
                var r := Recorded(old(store.table), old(store.available), old(store.errorCount), p, Format(now),
                                  setup, run);
                Boxes() == ScreenAfter(old(Boxes()).(status := "Status: Processing last audio..."), p)
                && store.table == r.0 && store.available == r.1 && store.errorCount == r.2 && notices == r.3
      ensures Snapshot().(status := old(status)) == old(Snapshot())
      ensures selection == old(selection) && closed == old(closed)
    {
      if lastAudio.None? {
        notices := [InfoBox("No audio captured yet. Please start listening first.")];
        return;
      }
      status := "Status: Processing last audio...";
      notices := ProcessAudio(lastAudio.value, b, now, setup, run);
    }

    /** `on_closing`: stop listening if active, then destroy the window. */
    method OnClosing()
      requires Valid()
      modifies this
      ensures Valid() && closed && !isListening
      ensures stopRequested == (old(isListening) || old(stopRequested))
      ensures lastAudio == old(lastAudio) && processEnabled == old(processEnabled)
      ensures Boxes() == old(Boxes()) && selection == old(selection)
    {
      if isListening {
        isListening := false;
        stopRequested := true;
      }
      closed := true;
    }
  }
}

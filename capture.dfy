/**
 * The telemetry capture of the content script: the closure state of its
 * `load` handler and the handlers that change it (listener attach, input
 * event, prompt observation, timer poll, page unload).
 *
 * Each handler is first given as a function on a value of the whole state,
 * `CaptureState`; the class `Tracker` holds the same state in mutable fields
 * and its methods are proved to perform exactly those steps. The lemmas say
 * what the steps, and any sequence of them, guarantee.
 */
module Capture {
  import opened Wrappers
  import opened Records
  import opened Text

  /** The key recorded for an input event that carries no character. */
  const Backspace: string := "Backspace"

  // ---------------------------------------------------------------- parsing a prompt

  /** The key of a keystroke: the event's `data`, or `Backspace` when it is null. */
  function KeyOf(data: Option<string>): string
  {
    if data.None? then Backspace else data.value
  }

  /** The correction count of a keystroke buffer (`filter(k => k.key === "Backspace").length`). */
  function NumErrors(ks: seq<Keystroke>): (n: nat)
    ensures n <= |ks|
  {
    if ks == [] then 0
    else NumErrors(ks[..|ks| - 1]) + (if ks[|ks| - 1].key == Backspace then 1 else 0)
  }

  /** The correction count is the number of positions of the buffer whose key is `Backspace`. */
  lemma {:induction false} NumErrorsCounts(ks: seq<Keystroke>)
    ensures NumErrors(ks) == |set i | 0 <= i < |ks| && ks[i].key == Backspace|
  {
    if ks != [] {
      var p := ks[..|ks| - 1];
      NumErrorsCounts(p);
      var last := if ks[|ks| - 1].key == Backspace then {|ks| - 1} else {};
      assert (set i | 0 <= i < |ks| && ks[i].key == Backspace)
          == (set i | 0 <= i < |p| && p[i].key == Backspace) + last;
    }
  }

  /** A buffer without deletions has no corrections. */
  lemma {:induction false} NoBackspaceNoErrors(ks: seq<Keystroke>)
    requires forall i | 0 <= i < |ks| :: ks[i].key != Backspace
    ensures NumErrors(ks) == 0
  {
    if ks != [] {
      NoBackspaceNoErrors(ks[..|ks| - 1]);
    }
  }

  /** The operation named by the middle word of a prompt; any unknown glyph counts as subtraction. */
  function OpOfGlyph(glyph: string): Op
  {
    if glyph == "\U{00D7}" then Mul
    else if glyph == "\U{00F7}" then Div
    else if glyph == "+" then Add
    else Sub
  }

  /** The glyph the drill page prints for an operation (an en dash for subtraction). */
  function Glyph(op: Op): string
  {
    match op
    case Add => "+"
    case Sub => "\U{2013}"
    case Mul => "\U{00D7}"
    case Div => "\U{00F7}"
  }

  /** The three words of a prompt, read as operation, operands and operand widths. */
  datatype Parsed = Parsed(op: Op, a: JsNum, b: JsNum, digitsA: nat, digitsB: nat)

  /**
   * Parsing a closed prompt `"<a> <glyph> <b>"`. A prompt with fewer than two
   * spaces has no third word, and reading its length throws: `None`.
   */
  function ParsePrompt(prompt: string): (r: Option<Parsed>)
    ensures r.None? <==> Count(prompt, ' ') < 2
  {
    var parts := Split(prompt, ' ');
    if |parts| < 3 then None
    else Some(Parsed(OpOfGlyph(parts[1]), JsNumber(parts[0]), JsNumber(parts[2]), |parts[0]|, |parts[2]|))
  }

  /** The prompt text the drill page shows for `a op b`. */
  function Render(op: Op, a: nat, b: nat): string
  {
    DecimalString(a) + " " + Glyph(op) + " " + DecimalString(b)
  }

  /** Each operation's glyph reads back as that operation. */
  lemma GlyphRoundTrip(op: Op)
    ensures OpOfGlyph(Glyph(op)) == op
    ensures ' ' !in Glyph(op)
  {
  }

  /** A rendered prompt splits on spaces into its three words. */
  lemma SplitRender(op: Op, a: nat, b: nat)
    ensures Split(Render(op, a, b), ' ') == [DecimalString(a), Glyph(op), DecimalString(b)]
  {
    var sa, sb := DecimalString(a), DecimalString(b);
    var parts := [sa, Glyph(op), sb];
    assert Join(parts[1..], ' ') == Glyph(op) + " " + sb;
    assert Join(parts, ' ') == Render(op, a, b);
    assert ' ' !in sa by { assert forall i | 0 <= i < |sa| :: IsDigit(sa[i]); }
    assert ' ' !in sb by { assert forall i | 0 <= i < |sb| :: IsDigit(sb[i]); }
    GlyphRoundTrip(op);
    SplitJoin(parts, ' ');
  }

  /** Parsing a rendered prompt recovers the operation, both operands and their printed widths. */
  lemma ParseRender(op: Op, a: nat, b: nat)
    ensures ParsePrompt(Render(op, a, b))
         == Some(Parsed(op, Num(a), Num(b), |DecimalString(a)|, |DecimalString(b)|))
  {
    SplitRender(op, a, b);
    GlyphRoundTrip(op);
    NumberOfDecimal(a);
    NumberOfDecimal(b);
  }

  // ---------------------------------------------------------------- the state and its steps

  /** The closure variables of the content script, plus the stored session list. */
  datatype CaptureState = CaptureState(
    lastPrompt: string,
    lastAnswer: string,
    promptStart: int,
    keystrokes: seq<Keystroke>,
    sessionAttempts: seq<Attempt>,
    sessionStartTs: int,
    sessionActive: bool,
    listening: bool,
    stored: seq<Session>)

  /** What one prompt observation did. */
  datatype Observation =
    | Ignored         // no prompt element, empty text, or the same prompt as before
    | FirstPrompt     // the first prompt ever: nothing to close out
    | Closed(attempt: Attempt)
    | Malformed       // parsing the previous prompt threw; nothing changed

  /** The state right after the page loads, with the first listener attach. */
  function Start(now: int, inputPresent: bool, stored: seq<Session>): CaptureState
  {
    Attach(CaptureState("", "", now, [], [], now, true, false, stored), inputPresent)
  }

  /** `attachInputListener`: when the answer field exists, bind to it and empty the buffer. */
  function Attach(st: CaptureState, inputPresent: bool): CaptureState
  {
    if inputPresent then st.(keystrokes := [], listening := true) else st
  }

  /** The keystroke an input event records. */
  function KeystrokeOf(st: CaptureState, data: Option<string>, value: string, now: int): Keystroke
  {
    Keystroke(KeyOf(data), now, now - st.promptStart, value)
  }

  /** The input listener; with no listener bound, no handler runs. */
  function Input(st: CaptureState, data: Option<string>, value: string, now: int): CaptureState
  {
    if !st.listening then st
    else st.(keystrokes := st.keystrokes + [KeystrokeOf(st, data, value, now)], lastAnswer := value)
  }

  /** The Attempt that closes out `st.lastPrompt` at `now`. */
  function CloseOut(st: CaptureState, p: Parsed, now: int): Attempt
  {
    Attempt(st.lastPrompt, p.op, (p.a, p.b), (p.digitsA, p.digitsB), st.lastAnswer,
            st.keystrokes, NumErrors(st.keystrokes), st.promptStart, now)
  }

  /** Makes `current` the active prompt. */
  function Begin(st: CaptureState, current: string, now: int): CaptureState
  {
    st.(lastPrompt := current, lastAnswer := "", promptStart := now)
  }

  /** The prompt part of the mutation observer; `text` is the prompt element's text, if it exists. */
  function Observe(st: CaptureState, text: Option<string>, now: int): (CaptureState, Observation)
  {
    if text.None? then (st, Ignored)
    else
      var current := Trim(text.value);
      if current == "" || current == st.lastPrompt then (st, Ignored)
      else if st.lastPrompt == "" then (Begin(st, current, now), FirstPrompt)
      else
        match ParsePrompt(st.lastPrompt)
        case None => (st, Malformed)
        case Some(p) =>
          var a := CloseOut(st, p, now);
          (Begin(st.(sessionAttempts := st.sessionAttempts + [a]), current, now), Closed(a))
  }

  /** One mutation-observer callback: re-attach when an answer field was added, then observe the prompt. */
  function Mutations(st: CaptureState, inputAdded: bool, inputPresent: bool, text: Option<string>, now: int)
    : (CaptureState, Observation)
  {
    Observe(if inputAdded then Attach(st, inputPresent) else st, text, now)
  }

  /** The countdown reads 0: the first run of digits in its text has value 0. */
  predicate TimerAtZero(timerText: string)
  {
    match FirstDigitRun(timerText)
    case None => false
    case Some(run) => DecimalValue(run) == 0
  }

  /** `checkSessionEnd`; the flag says whether the session ended and was persisted. */
  function Poll(st: CaptureState, timerText: Option<string>, now: int): (CaptureState, bool)
  {
    if timerText.None? || !st.sessionActive || !TimerAtZero(timerText.value) then (st, false)
    else
      var session := Session(st.sessionStartTs, now, st.sessionAttempts);
      (st.(sessionActive := false, stored := st.stored + [StoredSession(session)]), true)
  }

  /** The `beforeunload` handler: the session is dropped without being stored. */
  function Unload(st: CaptureState): CaptureState
  {
    st.(sessionActive := false, sessionAttempts := [])
  }

  // ---------------------------------------------------------------- traces

  /** Everything that can reach the content script after the page loaded. */
  datatype Event =
    | Mutated(inputAdded: bool, inputPresent: bool, problemText: Option<string>, now: int)
    | Typed(data: Option<string>, value: string, now: int)
    | TimerTick(timerText: Option<string>, now: int)
    | PageUnload

  function Step(st: CaptureState, e: Event): CaptureState
  {
    match e
    case Mutated(added, present, text, now) => Mutations(st, added, present, text, now).0
    case Typed(data, value, now) => Input(st, data, value, now)
    case TimerTick(text, now) => Poll(st, text, now).0
    case PageUnload => Unload(st)
  }

  /** The state after the events `evs`, handled one after another. */
  function Run(st: CaptureState, evs: seq<Event>): CaptureState
    decreases |evs|
  {
    if evs == [] then st else Run(Step(st, evs[0]), evs[1..])
  }

  // ---------------------------------------------------------------- properties of one step

  /** An observation is ignored exactly when there is no prompt text, it trims to nothing, or it is the current prompt; then nothing changes. */
  lemma ObserveIgnored(st: CaptureState, text: Option<string>, now: int)
    ensures Observe(st, text, now).1 == Ignored
        <==> (text.None? || Trim(text.value) == "" || Trim(text.value) == st.lastPrompt)
    ensures Observe(st, text, now).1 == Ignored ==> Observe(st, text, now).0 == st
  {
  }

  /** The first prompt ever seen produces no Attempt; it only becomes the active prompt. */
  lemma FirstPromptOnlyBegins(st: CaptureState, text: Option<string>, now: int)
    requires st.lastPrompt == ""
    requires text.Some? && Trim(text.value) != ""
    ensures Observe(st, text, now).1 == FirstPrompt
    ensures var st' := Observe(st, text, now).0;
      && st'.sessionAttempts == st.sessionAttempts
      && st'.lastPrompt == Trim(text.value) && st'.promptStart == now && st'.lastAnswer == ""
      && st'.keystrokes == st.keystrokes
  {
  }

  /**
   * A transition away from a well-formed prompt appends exactly one Attempt
   * to the end of the session, built from the state being closed out, and
   * begins the new prompt. The keystroke buffer is NOT emptied.
   */
  lemma TransitionAppendsOne(st: CaptureState, text: Option<string>, now: int)
    requires st.lastPrompt != "" && ParsePrompt(st.lastPrompt).Some?
    requires text.Some? && Trim(text.value) != "" && Trim(text.value) != st.lastPrompt
    ensures var (st', outcome) := Observe(st, text, now);
      && outcome.Closed?
      && st'.sessionAttempts == st.sessionAttempts + [outcome.attempt]
      && outcome.attempt.prompt == st.lastPrompt
      && outcome.attempt.startTs == st.promptStart && outcome.attempt.endTs == now
      && outcome.attempt.answer == st.lastAnswer
      && outcome.attempt.keystrokes == st.keystrokes
      && outcome.attempt.numErrors == |set i | 0 <= i < |st.keystrokes| && st.keystrokes[i].key == Backspace|
      && outcome.attempt.numErrors == NumErrors(st.keystrokes)
      && st'.lastPrompt == Trim(text.value) && st'.lastAnswer == "" && st'.promptStart == now
      && st'.keystrokes == st.keystrokes
  {
    NumErrorsCounts(st.keystrokes);
  }

  /** The operation, operands and widths of an Attempt are those of its prompt's three words. */
  lemma AttemptParsesPrompt(st: CaptureState, text: Option<string>, now: int)
    requires Observe(st, text, now).1.Closed?
    ensures var a := Observe(st, text, now).1.attempt;
      var parts := Split(a.prompt, ' ');
      && |parts| >= 3
      && a.op == OpOfGlyph(parts[1])
      && a.operands == (JsNumber(parts[0]), JsNumber(parts[2]))
      && a.digits == (|parts[0]|, |parts[2]|)
  {
  }

  /** A transition away from a prompt with fewer than three words throws: nothing changes. */
  lemma MalformedChangesNothing(st: CaptureState, text: Option<string>, now: int)
    requires st.lastPrompt != "" && Count(st.lastPrompt, ' ') < 2
    requires text.Some? && Trim(text.value) != "" && Trim(text.value) != st.lastPrompt
    ensures Observe(st, text, now) == (st, Malformed)
  {
  }

  /** A prompt observation never touches the keystroke buffer, the listener, the session flag or the store. */
  lemma ObserveFrame(st: CaptureState, text: Option<string>, now: int)
    ensures var st' := Observe(st, text, now).0;
      && st'.keystrokes == st.keystrokes && st'.listening == st.listening
      && st'.sessionActive == st.sessionActive && st'.sessionStartTs == st.sessionStartTs
      && st'.stored == st.stored
      && (st'.sessionAttempts == st.sessionAttempts || Observe(st, text, now).1.Closed?)
  {
  }

  /**
   * When one callback re-attaches the listener and closes a prompt, the reset
   * happens first: the Attempt gets an empty keystroke list.
   */
  lemma ReattachBeforeClose(st: CaptureState, text: Option<string>, now: int)
    requires Mutations(st, true, true, text, now).1.Closed?
    ensures Mutations(st, true, true, text, now).1.attempt.keystrokes == []
    ensures Mutations(st, true, true, text, now).1.attempt.numErrors == 0
  {
  }

  /** An input event appends exactly one keystroke, timed from the prompt start, and records the field value as the answer. */
  lemma InputAppendsOne(st: CaptureState, data: Option<string>, value: string, now: int)
    requires st.listening
    ensures var st' := Input(st, data, value, now);
      && st'.keystrokes == st.keystrokes + [Keystroke(KeyOf(data), now, now - st.promptStart, value)]
      && st'.lastAnswer == value
      && st' == st.(keystrokes := st'.keystrokes, lastAnswer := value)
  {
  }

  /** A deletion (null data) is recorded as `Backspace` and raises the correction count by one; anything else leaves it. */
  lemma InputCountsCorrections(st: CaptureState, data: Option<string>, value: string, now: int)
    requires st.listening
    ensures NumErrors(Input(st, data, value, now).keystrokes)
         == NumErrors(st.keystrokes) + (if data.None? || data.value == Backspace then 1 else 0)
  {
    var ks := Input(st, data, value, now).keystrokes;
    assert ks[..|ks| - 1] == st.keystrokes;
  }

  /**
   * Only attaching to an existing answer field empties the buffer; without one
   * nothing changes, and with one only the buffer and the listener flag do.
   */
  lemma AttachResets(st: CaptureState, inputPresent: bool)
    ensures Attach(st, inputPresent).keystrokes == (if inputPresent then [] else st.keystrokes)
    ensures Attach(st, inputPresent).sessionAttempts == st.sessionAttempts
    ensures !inputPresent ==> Attach(st, inputPresent) == st
    ensures Attach(st, inputPresent)
         == st.(keystrokes := Attach(st, inputPresent).keystrokes, listening := st.listening || inputPresent)
  {
  }

  /** The countdown reads 0 exactly when its first run of digits is all zeros. */
  lemma TimerAtZeroMeaning(timerText: string)
    ensures TimerAtZero(timerText)
        <==> (FirstDigitRun(timerText).Some?
              && forall i | 0 <= i < |FirstDigitRun(timerText).value| :: FirstDigitRun(timerText).value[i] == '0')
  {
    match FirstDigitRun(timerText)
    case None =>
    case Some(run) => DecimalValueZero(run);
  }

  /**
   * A poll ends the session exactly when the timer exists, the session is
   * active and the countdown reads 0; ending appends one Session to the
   * store and leaves the earlier ones as they were.
   */
  lemma PollPersistsOnce(st: CaptureState, timerText: Option<string>, now: int)
    ensures var (st', ended) := Poll(st, timerText, now);
      && (ended <==> timerText.Some? && st.sessionActive && TimerAtZero(timerText.value))
      && (ended ==> !st'.sessionActive
                    && st'.stored == st.stored + [StoredSession(Session(st.sessionStartTs, now, st.sessionAttempts))]
                    && st' == st.(sessionActive := false, stored := st'.stored))
      && (!ended ==> st' == st)
  {
  }

  // ---------------------------------------------------------------- properties of traces

  /**
   * One event either leaves the session flag and the store alone, or it is
   * the poll that ends the active session and appends it to the store. No
   * event makes an inactive session active.
   */
  lemma StepSession(st: CaptureState, e: Event)
    ensures var st' := Step(st, e);
      && (st'.sessionActive ==> st.sessionActive)
      && (st'.stored == st.stored
          || (e.TimerTick? && st.sessionActive && !st'.sessionActive
              && st'.stored == st.stored + [StoredSession(Session(st.sessionStartTs, e.now, st.sessionAttempts))]))
  {
    match e
    case Mutated(added, present, text, now) =>
      ObserveFrame(if added then Attach(st, present) else st, text, now);
    case Typed(data, value, now) =>
    case TimerTick(text, now) =>
      PollPersistsOnce(st, text, now);
    case PageUnload =>
  }

  /** Once the session is inactive, it stays inactive and nothing more is stored. */
  lemma {:induction false} InactiveStaysInactive(st: CaptureState, evs: seq<Event>)
    requires !st.sessionActive
    ensures !Run(st, evs).sessionActive
    ensures Run(st, evs).stored == st.stored
    decreases |evs|
  {
    if evs != [] {
      StepSession(st, evs[0]);
      InactiveStaysInactive(Step(st, evs[0]), evs[1..]);
    }
  }

  /** After `beforeunload`, the abandoned session is never persisted. */
  lemma UnloadNeverPersists(st: CaptureState, evs: seq<Event>)
    ensures Run(Unload(st), evs).stored == st.stored
    ensures Unload(st).sessionAttempts == []
  {
    InactiveStaysInactive(Unload(st), evs);
  }

  /**
   * The session ends at most once: whatever happens, the store only grows,
   * by at most one Session, and only when the session was active.
   */
  lemma {:induction false} AtMostOneSession(st: CaptureState, evs: seq<Event>)
    ensures var r := Run(st, evs).stored;
      && |st.stored| <= |r| <= |st.stored| + (if st.sessionActive then 1 else 0)
      && r[..|st.stored|] == st.stored
    decreases |evs|
  {
    if evs != [] {
      var st1 := Step(st, evs[0]);
      StepSession(st, evs[0]);
      if st.sessionActive && !st1.sessionActive {
        InactiveStaysInactive(st1, evs[1..]);
        assert st1.stored[..|st.stored|] == st.stored;
      } else {
        AtMostOneSession(st1, evs[1..]);
      }
    }
  }

  /** No Attempt exists until a first prompt was seen: prompts never go back to empty. */
  lemma {:induction false} NoAttemptBeforeFirstPrompt(st: CaptureState, evs: seq<Event>)
    requires st.lastPrompt == "" ==> st.sessionAttempts == []
    ensures Run(st, evs).lastPrompt == "" ==> Run(st, evs).sessionAttempts == []
    ensures st.lastPrompt != "" ==> Run(st, evs).lastPrompt != ""
    decreases |evs|
  {
    if evs != [] {
      NoAttemptBeforeFirstPrompt(Step(st, evs[0]), evs[1..]);
    }
  }

  /**
   * Once a prompt with fewer than three words is the active prompt, every
   * later transition throws: it stays the active prompt and no Attempt is
   * ever recorded again (an unload may still empty the list).
   */
  lemma {:induction false} MalformedPromptSticks(st: CaptureState, evs: seq<Event>)
    requires st.lastPrompt != "" && ParsePrompt(st.lastPrompt).None?
    ensures Run(st, evs).lastPrompt == st.lastPrompt
    ensures Run(st, evs).sessionAttempts == st.sessionAttempts || Run(st, evs).sessionAttempts == []
    decreases |evs|
  {
    if evs != [] {
      var st1 := Step(st, evs[0]);
      MalformedPromptSticks(st1, evs[1..]);
      if st1.sessionAttempts == [] {
        MalformedEmptyStaysEmpty(st1, evs[1..]);
      }
    }
  }

  /** Helper of MalformedPromptSticks: an empty Attempt list stays empty. */
  lemma {:induction false} MalformedEmptyStaysEmpty(st: CaptureState, evs: seq<Event>)
    requires st.lastPrompt != "" && ParsePrompt(st.lastPrompt).None?
    requires st.sessionAttempts == []
    ensures Run(st, evs).sessionAttempts == []
    decreases |evs|
  {
    if evs != [] {
      MalformedEmptyStaysEmpty(Step(st, evs[0]), evs[1..]);
    }
  }

  // ---------------------------------------------------------------- timestamps

  /** The time an event is handled at (`Date.now()` in the handler), or `t` for an unload. */
  function TimeOf(e: Event, t: int): int
  {
    if e.PageUnload? then t else e.now
  }

  /** The clock never goes back: each event is handled no earlier than `t` and the one before it. */
  predicate Monotone(evs: seq<Event>, t: int)
    decreases |evs|
  {
    evs == [] || (TimeOf(evs[0], t) >= t && Monotone(evs[1..], TimeOf(evs[0], t)))
  }

  /** The time of the last event of `evs`, or `t` when there is none. */
  function LastTime(evs: seq<Event>, t: int): int
    decreases |evs|
  {
    if evs == [] then t else LastTime(evs[1..], TimeOf(evs[0], t))
  }

  /** A keystroke buffer in recording order, recorded no later than `t`, each delta non-negative. */
  predicate KeysOrdered(ks: seq<Keystroke>, t: int)
  {
    && (forall i, j | 0 <= i < j < |ks| :: ks[i].ts <= ks[j].ts)
    && (forall i | 0 <= i < |ks| :: ks[i].ts <= t && ks[i].delta >= 0)
  }

  /** An Attempt whose time span is non-negative and whose keystrokes are ordered and counted. */
  predicate AttemptOrdered(a: Attempt, t: int)
  {
    a.startTs <= a.endTs <= t && KeysOrdered(a.keystrokes, a.endTs)
    && a.numErrors == NumErrors(a.keystrokes)
  }

  /** The state's timestamps are consistent with the clock having reached `t`. */
  predicate TimeOrdered(st: CaptureState, t: int)
  {
    && st.promptStart <= t && st.sessionStartTs <= t
    && KeysOrdered(st.keystrokes, t)
    && (forall i | 0 <= i < |st.sessionAttempts| :: AttemptOrdered(st.sessionAttempts[i], t))
  }

  lemma KeysOrderedLater(ks: seq<Keystroke>, t: int, t': int)
    requires KeysOrdered(ks, t) && t <= t'
    ensures KeysOrdered(ks, t')
  {
  }

  /** Observing a prompt at time `now` keeps the timestamps consistent. */
  lemma ObserveTimeOrdered(st: CaptureState, text: Option<string>, now: int)
    requires TimeOrdered(st, now)
    ensures TimeOrdered(Observe(st, text, now).0, now)
  {
    var (r, outcome) := Observe(st, text, now);
    if outcome.Closed? {
      var a := outcome.attempt;
      assert a.keystrokes == st.keystrokes && a.startTs == st.promptStart && a.endTs == now;
      assert AttemptOrdered(a, now);
      assert r.sessionAttempts == st.sessionAttempts + [a];
    }
  }

  /** One step with a clock that does not go back keeps the timestamps consistent. */
  lemma StepTimeOrdered(st: CaptureState, e: Event, t: int)
    requires TimeOrdered(st, t) && TimeOf(e, t) >= t
    ensures TimeOrdered(Step(st, e), TimeOf(e, t))
  {
    var t' := TimeOf(e, t);
    KeysOrderedLater(st.keystrokes, t, t');
    assert TimeOrdered(st, t');
    match e
    case Mutated(added, present, text, now) =>
      var mid := if added then Attach(st, present) else st;
      assert TimeOrdered(mid, t');
      ObserveTimeOrdered(mid, text, now);
    case Typed(data, value, now) =>
    case TimerTick(text, now) =>
    case PageUnload =>
  }

  /**
   * Under a clock that never goes back, every Attempt lasts a non-negative
   * time, its keystrokes are in time order, and its correction count matches
   * its keystrokes, after any sequence of events.
   */
  lemma {:induction false} RunTimeOrdered(st: CaptureState, evs: seq<Event>, t: int)
    requires TimeOrdered(st, t) && Monotone(evs, t)
    ensures TimeOrdered(Run(st, evs), LastTime(evs, t))
    decreases |evs|
  {
    if evs != [] {
      StepTimeOrdered(st, evs[0], t);
      RunTimeOrdered(Step(st, evs[0]), evs[1..], TimeOf(evs[0], t));
    }
  }

  /** The state after loading is consistent with the clock at load time. */
  lemma StartTimeOrdered(now: int, inputPresent: bool, stored: seq<Session>)
    ensures TimeOrdered(Start(now, inputPresent, stored), now)
    ensures Start(now, inputPresent, stored).lastPrompt == ""
    ensures Start(now, inputPresent, stored).sessionAttempts == []
    ensures Start(now, inputPresent, stored).sessionActive
  {
  }

  // ---------------------------------------------------------------- the mutable content script

  /** The content script's closure state, changed in place by its handlers. */
  class Tracker {
    var lastPrompt: string
    var lastAnswer: string
    var promptStart: int
    var keystrokes: seq<Keystroke>
    var sessionAttempts: seq<Attempt>
    var sessionStartTs: int
    var sessionActive: bool
    var listening: bool
    var stored: seq<Session>

    /** The value of all fields. */
    function State(): CaptureState
      reads this
    {
      CaptureState(lastPrompt, lastAnswer, promptStart, keystrokes, sessionAttempts,
                   sessionStartTs, sessionActive, listening, stored)
    }

    /** The `load` handler: initial closure state, then the first attach. */
    constructor (now: int, inputPresent: bool, stored: seq<Session>)
      ensures State() == Start(now, inputPresent, stored)
    {
      lastPrompt, lastAnswer, promptStart, keystrokes := "", "", now, [];
      sessionAttempts, sessionStartTs, sessionActive := [], now, true;
      listening := false;
      this.stored := stored;
      new;
      AttachInputListener(inputPresent);
    }

    /** `attachInputListener`; `inputPresent` says whether the answer field is in the page. */
    method AttachInputListener(inputPresent: bool)
      modifies this
      ensures State() == Attach(old(State()), inputPresent)
    {
      if inputPresent {
        keystrokes := [];
        listening := true;
      }
    }

    /** The input listener; `data` is the event's payload, `value` the field's value. */
    method OnInput(data: Option<string>, value: string, now: int)
      modifies this
      ensures State() == Input(old(State()), data, value, now)
    {
      if listening {
        var key := if data.None? then Backspace else data.value;
        keystrokes := keystrokes + [Keystroke(key, now, now - promptStart, value)];
        lastAnswer := value;
      }
    }

    /** The prompt part of the mutation observer. */
    method ObservePrompt(text: Option<string>, now: int) returns (outcome: Observation)
      modifies this
      ensures (State(), outcome) == Observe(old(State()), text, now)
    {
      outcome := Ignored;
      if text.None? {
        return;
      }
      var current := Trim(text.value);
      if current != "" && current != lastPrompt {
        if lastPrompt != "" {
          var parsed := ParsePrompt(lastPrompt);
          if parsed.None? {
            outcome := Malformed;
            return;
          }
          var attempt := CloseOut(State(), parsed.value, now);
          sessionAttempts := sessionAttempts + [attempt];
          outcome := Closed(attempt);
        } else {
          outcome := FirstPrompt;
        }
        lastPrompt := current;
        lastAnswer := "";
        promptStart := now;
      }
    }

    /** One mutation-observer callback. */
    method OnMutations(inputAdded: bool, inputPresent: bool, text: Option<string>, now: int)
      returns (outcome: Observation)
      modifies this
      ensures (State(), outcome) == Mutations(old(State()), inputAdded, inputPresent, text, now)
    {
      if inputAdded {
        AttachInputListener(inputPresent);
      }
      outcome := ObservePrompt(text, now);
    }

    /** `checkSessionEnd`; `timerText` is the countdown's text, if the element exists. */
    method CheckSessionEnd(timerText: Option<string>, now: int) returns (ended: bool)
      modifies this
      ensures (State(), ended) == Poll(old(State()), timerText, now)
    {
      ended := false;
      if timerText.None? || !sessionActive {
        return;
      }
      var run := FirstDigitRun(timerText.value);
      if run.Some? && DecimalValue(run.value) == 0 {
        sessionActive := false;
        stored := stored + [StoredSession(Session(sessionStartTs, now, sessionAttempts))];
        ended := true;
      }
    }

    /** The `beforeunload` handler. */
    method OnBeforeUnload()
      modifies this
      ensures State() == Unload(old(State()))
    {
      sessionActive := false;
      sessionAttempts := [];
    }
  }

  // ---------------------------------------------------------------- scenarios

  /** The prompt "47 + 8" appears at 1000 ms: it becomes the active prompt. */
  lemma ScenarioFirstPrompt()
    ensures Mutations(CaptureState("", "", 900, [], [], 900, true, true, []), false, true, Some("47 + 8"), 1000)
         == (CaptureState("47 + 8", "", 1000, [], [], 900, true, true, []), FirstPrompt)
  {
    TrimKeepsInner("47 + 8");
  }

  /** "47 + 8" parses as the addition of 47 and 8, of widths 2 and 1. */
  lemma ParseFortySevenPlusEight()
    ensures ParsePrompt("47 + 8") == Some(Parsed(Add, Num(47), Num(8), 2, 1))
  {
    ParseRender(Add, 47, 8);
    DecimalStringBelow100(47);
    DecimalStringBelow100(8);
    assert Render(Add, 47, 8) == "47 + 8";
  }

  /** A new prompt at 1500 ms closes out a prompt parsed as 47 + 8, typed without corrections and answered "55". */
  lemma ScenarioClose(prompt: string, ks: seq<Keystroke>, next: string)
    requires ParsePrompt(prompt) == Some(Parsed(Add, Num(47), Num(8), 2, 1))
    requires forall i | 0 <= i < |ks| :: ks[i].key != Backspace
    requires prompt != "" && Trim(next) != "" && Trim(next) != prompt
    ensures var st := CaptureState(prompt, "55", 1000, ks, [], 900, true, true, []);
      var a := Attempt(prompt, Add, (Num(47), Num(8)), (2, 1), "55", ks, 0, 1000, 1500);
      Mutations(st, false, true, Some(next), 1500)
        == (st.(sessionAttempts := [a], lastPrompt := Trim(next), lastAnswer := "", promptStart := 1500), Closed(a))
  {
    var st := CaptureState(prompt, "55", 1000, ks, [], 900, true, true, []);
    var a := Attempt(prompt, Add, (Num(47), Num(8)), (2, 1), "55", ks, 0, 1000, 1500);
    NoBackspaceNoErrors(ks);
    assert CloseOut(st, Parsed(Add, Num(47), Num(8), 2, 1), 1500) == a;
    assert Observe(st, Some(next), 1500).1 == Closed(a);
    assert Observe(st, Some(next), 1500).0 == st.(sessionAttempts := [a], lastPrompt := Trim(next), lastAnswer := "", promptStart := 1500);
  }

  lemma NextPromptDiffers()
    ensures Trim("12 \U{00D7} 3") == "12 \U{00D7} 3" != "47 + 8"
  {
    TrimKeepsInner("12 \U{00D7} 3");
    assert "12 \U{00D7} 3"[0] != "47 + 8"[0];
  }

  /**
   * The prompt "47 + 8" answered "55" with two keystrokes at 1000 and 1300 ms
   * and closed by the next prompt at 1500 ms yields one addition Attempt with
   * operands 47 and 8, widths 2 and 1, and no corrections.
   */
  method ScenarioAddition() returns (a: Attempt)
    ensures a == Attempt("47 + 8", Add, (Num(47), Num(8)), (2, 1), "55",
                         [Keystroke("5", 1000, 0, "5"), Keystroke("5", 1300, 300, "55")], 0, 1000, 1500)
  {
    var k1, k2 := Keystroke("5", 1000, 0, "5"), Keystroke("5", 1300, 300, "55");
    assert forall i | 0 <= i < |[k1, k2]| :: [k1, k2][i].key != Backspace;
    var tracker := new Tracker(900, true, []);
    ScenarioFirstPrompt();
    var o := tracker.OnMutations(false, true, Some("47 + 8"), 1000);
    tracker.OnInput(Some("5"), "5", 1000);
    tracker.OnInput(Some("5"), "55", 1300);
    assert tracker.State() == CaptureState("47 + 8", "55", 1000, [k1, k2], [], 900, true, true, []);
    NextPromptDiffers();
    ParseFortySevenPlusEight();
    ScenarioClose("47 + 8", [k1, k2], "12 \U{00D7} 3");
    o := tracker.OnMutations(false, true, Some("12 \U{00D7} 3"), 1500);
    a := o.attempt;
  }

  /** After "2 + 2" at 100 ms and a keystroke at 200 ms, "3 + 3" replaces it at 300 ms. */
  lemma ScenarioCarryFirst(k: Keystroke)
    ensures var st := CaptureState("2 + 2", "4", 100, [k], [], 0, true, true, []);
      Mutations(st, false, true, Some("3 + 3"), 300).0.keystrokes == [k]
      && Mutations(st, false, true, Some("3 + 3"), 300).0.promptStart == 300
      && Mutations(st, false, true, Some("3 + 3"), 300).0.lastPrompt == "3 + 3"
  {
    ParseRender(Add, 2, 2);
    DecimalStringBelow100(2);
    assert Render(Add, 2, 2) == "2 + 2";
    TrimKeepsInner("3 + 3");
  }

  /** "4 + 4" at 500 ms closes out "3 + 3" with the whole buffer. */
  lemma ScenarioCarrySecond(st: CaptureState)
    requires st.lastPrompt == "3 + 3" && st.promptStart == 300
    ensures Mutations(st, false, true, Some("4 + 4"), 500).1.Closed?
    ensures Mutations(st, false, true, Some("4 + 4"), 500).1.attempt.keystrokes == st.keystrokes
    ensures Mutations(st, false, true, Some("4 + 4"), 500).1.attempt.startTs == 300
  {
    ParseRender(Add, 3, 3);
    DecimalStringBelow100(3);
    assert Render(Add, 3, 3) == "3 + 3";
    TrimKeepsInner("4 + 4");
  }

  /**
   * The buffer is only emptied by re-attaching the listener: the Attempt of
   * the second prompt also holds the keystroke typed during the first one,
   * recorded before the second prompt started.
   */
  method ScenarioBufferCarriesOver() returns (second: Attempt)
    ensures |second.keystrokes| == 2
    ensures second.keystrokes[0].ts < second.startTs <= second.keystrokes[1].ts
  {
    var k1, k2 := Keystroke("4", 200, 100, "4"), Keystroke("6", 400, 100, "6");
    var tracker := new Tracker(0, true, []);
    TrimKeepsInner("2 + 2");
    var o := tracker.OnMutations(false, true, Some("2 + 2"), 100);
    tracker.OnInput(Some("4"), "4", 200);
    assert tracker.State() == CaptureState("2 + 2", "4", 100, [k1], [], 0, true, true, []);
    ScenarioCarryFirst(k1);
    o := tracker.OnMutations(false, true, Some("3 + 3"), 300);
    tracker.OnInput(Some("6"), "6", 400);
    assert tracker.keystrokes == [k1, k2];
    ScenarioCarrySecond(tracker.State());
    o := tracker.OnMutations(false, true, Some("4 + 4"), 500);
    second := o.attempt;
  }
}

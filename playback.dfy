/** The play/pause controller (assets/src/frontend.js:14-15, 122-167, 205-214): two flags
    shared by every control on the page, engine callbacks that set them, and a click
    handler that only issues engine commands and rewrites the button label. */
module Playback {
  import opened Wrappers
  import opened Voices

  /** `isPlaying` and `hasStarted`. */
  datatype Flags = Flags(isPlaying: bool, hasStarted: bool)

  /** The flags on page load. */
  const Idle := Flags(false, false)

  /** The invariant the page relies on: nothing plays that has not started. */
  predicate PlayingImpliesStarted(f: Flags)
  {
    f.isPlaying ==> f.hasStarted
  }

  /** The callbacks handed to `speak`, fired by the engine. */
  datatype EngineEvent = Start | End | Paused | Resumed

  /** What each callback does to the flags. */
  function Step(f: Flags, e: EngineEvent): (g: Flags)
    ensures e == Start ==> g == Flags(true, true)
    ensures e == End ==> g == Idle
    ensures e == Paused ==> !g.isPlaying && g.hasStarted == f.hasStarted
    ensures e == Resumed ==> g.isPlaying && g.hasStarted == f.hasStarted
  {
    match e
    case Start => Flags(true, true)
    case End => Flags(false, false)
    case Paused => f.(isPlaying := false)
    case Resumed => f.(isPlaying := true)
  }

  /** The flags after the engine has fired `evs`, in order. */
  function Run(f: Flags, evs: seq<EngineEvent>): Flags
    decreases |evs|
  {
    if evs == [] then f else Step(Run(f, evs[..|evs| - 1]), evs[|evs| - 1])
  }

  /** A trace-level reading of `hasStarted`: the latest of the `start` and `end`
      callbacks in `evs` is a `start`. */
  predicate StartedIn(evs: seq<EngineEvent>)
    decreases |evs|
  {
    if evs == [] then false
    else if evs[|evs| - 1] == Start then true
    else if evs[|evs| - 1] == End then false
    else StartedIn(evs[..|evs| - 1])
  }

  /** Every `resume` callback arrives after a `start` with no `end` in between. */
  predicate ResumesFollowStart(evs: seq<EngineEvent>)
  {
    forall k :: 0 <= k < |evs| && evs[k] == Resumed ==> StartedIn(evs[..k])
  }

  /** From page load, `hasStarted` is exactly "the latest start/end callback was start". */
  lemma {:induction false} HasStartedTracksTrace(evs: seq<EngineEvent>)
    ensures Run(Idle, evs).hasStarted == StartedIn(evs)
    decreases |evs|
  {
    if evs != [] {
      HasStartedTracksTrace(evs[..|evs| - 1]);
    }
  }

  /** The callbacks keep "`isPlaying` implies `hasStarted`" whenever each `resume`
      arrives after a `start`. */
  lemma {:induction false} CallbacksKeepInvariant(evs: seq<EngineEvent>)
    requires ResumesFollowStart(evs)
    ensures PlayingImpliesStarted(Run(Idle, evs))
    decreases |evs|
  {
    if evs != [] {
      var n := |evs| - 1;
      var init := evs[..n];
      forall k | 0 <= k < |init| && init[k] == Resumed ensures StartedIn(init[..k]) {
        assert init[..k] == evs[..k];
      }
      CallbacksKeepInvariant(init);
      if evs[n] == Resumed {
        HasStartedTracksTrace(init);
      }
    }
  }

  /** Without that ordering the invariant fails: a lone `resume` plays without a start. */
  lemma ResumeBeforeStartBreaksInvariant()
    ensures !PlayingImpliesStarted(Run(Idle, [Resumed]))
  {
    assert [Resumed][..0] == [];
  }

  /** `browserSupports`: no feature is ever reported as supported. */
  function BrowserSupports(feature: string): (r: bool)
    ensures !r
  {
    if feature == "charIndex" then false else false
  }

  /** The button text, as a key into the localized strings (or the control's own text). */
  datatype Label = ButtonText(text: string) | PlayAudio | ResumeAudio | PauseAudio | StopAudio

  /** A command to the speech engine. No rate is passed to `speak`. */
  datatype Command = Speak(text: string, voice: Option<Voice>) | Pause | Cancel

  datatype ClickOutcome = ClickOutcome(command: Command, newLabel: Label)

  /** `onButtonClick` for given flags, `charIndex` support, post text and selected voice. */
  function OnClick(f: Flags, charIndex: bool, text: string, voice: Option<Voice>): (r: ClickOutcome)
    ensures r.command.Speak? <==> !f.isPlaying && !f.hasStarted
    ensures r.command.Speak? ==> r.command == Speak(text, voice)
    ensures r.command == Pause ==> charIndex
    ensures f.isPlaying <==> r.newLabel in {PlayAudio, ResumeAudio}
    ensures !r.newLabel.ButtonText?
  {
    if f.isPlaying then
      ClickOutcome(if charIndex then Pause else Cancel, if charIndex then ResumeAudio else PlayAudio)
    else
      var command := if !f.hasStarted then Speak(text, voice) else if charIndex then Pause else Cancel;
      ClickOutcome(command, if charIndex then PauseAudio else StopAudio)
  }

  /** With `browserSupports('charIndex')` false, as it always is, a click while playing
      cancels and offers "play", a click from page load or after `end` speaks the post once,
      and a click after a `pause` callback cancels rather than resuming; every click that
      does not find the flag `isPlaying` shows "stop". */
  lemma ClickWithoutCharIndex(f: Flags, text: string, voice: Option<Voice>)
    ensures var r := OnClick(f, BrowserSupports("charIndex"), text, voice);
            && (f.isPlaying ==> r == ClickOutcome(Cancel, PlayAudio))
            && (!f.isPlaying && !f.hasStarted ==> r == ClickOutcome(Speak(text, voice), StopAudio))
            && (!f.isPlaying && f.hasStarted ==> r == ClickOutcome(Cancel, StopAudio))
  {
  }

  /** What happens on the page: a click on a control's button, or an engine callback. */
  datatype PageEvent = Click | Engine(event: EngineEvent)

  /** The engine callbacks of a page trace, in order. */
  function EngineEvents(t: seq<PageEvent>): (evs: seq<EngineEvent>)
    ensures |evs| <= |t|
    ensures forall e :: e in evs <==> Engine(e) in t
    decreases |t|
  {
    if t == [] then []
    else
      var init := EngineEvents(t[..|t| - 1]);
      match t[|t| - 1]
      case Click => init
      case Engine(e) => init + [e]
  }

  /** The callbacks keep their order: those of a concatenation are those of the parts, concatenated. */
  lemma {:induction false} EngineEventsAppend(a: seq<PageEvent>, b: seq<PageEvent>)
    ensures EngineEvents(a + b) == EngineEvents(a) + EngineEvents(b)
    decreases |b|
  {
    if b == [] {
      assert a + b == a;
    } else {
      var ab := a + b;
      assert ab[..|ab| - 1] == a + b[..|b| - 1];
      assert ab[|ab| - 1] == b[|b| - 1];
      EngineEventsAppend(a, b[..|b| - 1]);
    }
  }

  /** The flags after a page trace: a click leaves them as they are. */
  function PageRun(f: Flags, t: seq<PageEvent>): Flags
    decreases |t|
  {
    if t == [] then f
    else
      var g := PageRun(f, t[..|t| - 1]);
      match t[|t| - 1]
      case Click => g
      case Engine(e) => Step(g, e)
  }

  /** Clicks are invisible to the flags: only the callbacks move them. */
  lemma {:induction false} ClicksDoNotChangeFlags(f: Flags, t: seq<PageEvent>)
    ensures PageRun(f, t) == Run(f, EngineEvents(t))
    decreases |t|
  {
    if t != [] {
      var init := t[..|t| - 1];
      ClicksDoNotChangeFlags(f, init);
      match t[|t| - 1]
      case Click =>
      case Engine(e) =>
        var evs := EngineEvents(init) + [e];
        assert evs[..|evs| - 1] == EngineEvents(init);
    }
  }

  /** The commands the clicks of a page trace issue, in order, on a browser without
      `charIndex` support. */
  function Issued(f: Flags, t: seq<PageEvent>, text: string, voice: Option<Voice>): seq<Command>
    decreases |t|
  {
    if t == [] then []
    else match t[0]
      case Click => [OnClick(f, BrowserSupports("charIndex"), text, voice).command] + Issued(f, t[1..], text, voice)
      case Engine(e) => Issued(Step(f, e), t[1..], text, voice)
  }

  /** Once speech has started, no click speaks again until the engine reports `end`:
      a click after a `pause` cancels instead of resuming or restarting. */
  lemma {:induction false} NoSpeakUntilEnd(f: Flags, t: seq<PageEvent>, text: string, voice: Option<Voice>)
    requires f.hasStarted
    requires Engine(End) !in t
    ensures forall c :: c in Issued(f, t, text, voice) ==> c == Cancel
    decreases |t|
  {
    if t != [] {
      assert forall x :: x in t[1..] ==> x in t;
      match t[0]
      case Click => NoSpeakUntilEnd(f, t[1..], text, voice);
      case Engine(e) => NoSpeakUntilEnd(Step(f, e), t[1..], text, voice);
    }
  }

  /** The flags, as one object shared by every control on the page. */
  class Session {
    var isPlaying: bool
    var hasStarted: bool

    function State(): Flags
      reads this
    {
      Flags(isPlaying, hasStarted)
    }

    constructor ()
      ensures State() == Idle
    {
      isPlaying, hasStarted := false, false;
    }

    /** The `start` callback. */
    method OnStart()
      modifies this
      ensures State() == Step(old(State()), Start)
      ensures isPlaying && hasStarted
    {
      hasStarted := true;
      isPlaying := true;
    }

    /** The `end` callback. */
    method OnEnd()
      modifies this
      ensures State() == Step(old(State()), End)
      ensures State() == Idle
    {
      hasStarted := false;
      isPlaying := false;
    }

    /** The `pause` callback: clears only `isPlaying`. */
    method OnPause()
      modifies this
      ensures State() == Step(old(State()), Paused)
      ensures !isPlaying && hasStarted == old(hasStarted)
      ensures PlayingImpliesStarted(old(State())) ==> PlayingImpliesStarted(State())
    {
      isPlaying := false;
    }

    /** The `resume` callback: sets only `isPlaying`. */
    method OnResume()
      modifies this
      ensures State() == Step(old(State()), Resumed)
      ensures isPlaying && hasStarted == old(hasStarted)
      ensures old(hasStarted) ==> PlayingImpliesStarted(State())
    {
      isPlaying := true;
    }
  }
}

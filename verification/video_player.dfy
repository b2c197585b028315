/**
 The playback controller of components/video-player.tsx as a state machine.

 The React state hooks become the fields of `PlayerState`; each handler and
 each media or document listener becomes a function from a state to a
 `Transition`, which carries the next state and the commands written to the
 media element or the document (`video.play()`, `video.muted = ...`,
 `requestFullscreen()`, ...). Things the handlers read from the DOM are
 explicit: `mediaMounted` says whether `videoRef.current` is set, and the
 fullscreen button receives whether the `.video-container` element exists
 and whether `document.fullscreenElement` is set. The 3-second controls
 timer is the field `hideTimer`, which holds the value of `isPlaying` the
 timer's closure captured when it was armed.

 Times and volume are reals; NaN and Infinity are not modelled.
 */
module VideoPlayer {
  import opened Basics
  import opened Decimal

  datatype PlayerState = PlayerState(
    isPlaying: bool,
    currentTime: real,
    duration: real,
    volume: real,
    isMuted: bool,
    isFullscreen: bool,
    showControls: bool,
    hideTimer: Option<bool>,
    mediaMounted: bool)

  /** The effects a handler has outside React state. */
  datatype Command =
    | Play
    | Pause
    | SetVolume(volume: real)
    | SetMuted(muted: bool)
    | SetPosition(time: real)
    | RequestFullscreen
    | ExitFullscreen

  datatype Transition = Transition(state: PlayerState, commands: seq<Command>)

  /** Which volume handler the slider is wired to: the source's own, or the corrected one. */
  datatype VolumeHandler = AsWritten | Corrected

  /** Inputs: user handlers, the controls timer, and media/document listeners. */
  datatype Event =
    | TogglePlayClicked
    | VolumeChanged(volume: real)
    | MuteClicked
    | Seeked(time: real)
    | FullscreenClicked(containerFound: bool, documentFullscreen: bool)
    | MouseMoved
    | MouseLeft
    | HideTimerFired
    | TimeUpdate(time: real)
    | LoadedMetadata(duration: real)
    | Ended
    | FullscreenChange(documentFullscreen: bool)

  /** The `useState` initial values. */
  function Initial(mediaMounted: bool): (s: PlayerState)
    ensures !s.isPlaying && !s.isMuted && !s.isFullscreen && s.showControls
    ensures s.currentTime == 0.0 && s.duration == 0.0 && s.volume == 1.0
    ensures s.hideTimer == None && s.mediaMounted == mediaMounted
  {
    PlayerState(false, 0.0, 0.0, 1.0, false, false, true, None, mediaMounted)
  }

  // ----- user handlers -----

  /** `togglePlay`: without a media element nothing happens; otherwise flip `isPlaying` and command the opposite of the old value. */
  function TogglePlay(s: PlayerState): (r: Transition)
    ensures !s.mediaMounted ==> r.state == s && r.commands == []
    ensures s.mediaMounted ==> r.state.isPlaying == !s.isPlaying && r.state.(isPlaying := s.isPlaying) == s
    ensures s.mediaMounted ==> (r.commands == [Pause] <==> s.isPlaying) && (r.commands == [Play] <==> !s.isPlaying)
  {
    if !s.mediaMounted then Transition(s, [])
    else Transition(s.(isPlaying := !s.isPlaying), [if s.isPlaying then Pause else Play])
  }

  /**
   `handleVolumeChange` as the source writes it: the volume state is always
   set; with a media element the element's volume follows and `isMuted`
   becomes `v == 0`, but the element's own `muted` flag is left alone.
   */
  function HandleVolumeChangeAsWritten(s: PlayerState, v: real): (r: Transition)
    ensures r.state.volume == v
    ensures s.mediaMounted ==> r.state.isMuted == (v == 0.0) && r.commands == [SetVolume(v)]
    ensures !s.mediaMounted ==> r.state.isMuted == s.isMuted && r.commands == []
    ensures r.state.(volume := s.volume, isMuted := s.isMuted) == s
  {
    if s.mediaMounted then Transition(s.(volume := v, isMuted := v == 0.0), [SetVolume(v)])
    else Transition(s.(volume := v), [])
  }

  /**
   `handleVolumeChange` corrected so that the element's `muted` flag follows
   `isMuted`: the same state change, plus `video.muted = (v == 0)`.
   */
  function HandleVolumeChange(s: PlayerState, v: real): (r: Transition)
    ensures r.state == HandleVolumeChangeAsWritten(s, v).state
    ensures r.state.volume == v
    ensures s.mediaMounted ==> r.state.isMuted == (v == 0.0)
    ensures s.mediaMounted ==> SetVolume(v) in r.commands && SetMuted(v == 0.0) in r.commands
    ensures r.commands == if s.mediaMounted then [SetVolume(v), SetMuted(v == 0.0)] else []
  {
    if s.mediaMounted then Transition(s.(volume := v, isMuted := v == 0.0), [SetVolume(v), SetMuted(v == 0.0)])
    else Transition(s.(volume := v), [])
  }

  /** `toggleMute`: with a media element, flip `isMuted` and set the element's flag to match. */
  function ToggleMute(s: PlayerState): (r: Transition)
    ensures s.mediaMounted ==> r.state.isMuted == !s.isMuted && r.commands == [SetMuted(r.state.isMuted)]
    ensures r.state.(isMuted := s.isMuted) == s
    ensures r.state.volume == s.volume
    ensures !s.mediaMounted ==> r.state == s && r.commands == []
  {
    if s.mediaMounted then Transition(s.(isMuted := !s.isMuted), [SetMuted(!s.isMuted)])
    else Transition(s, [])
  }

  /** `handleSeek`: the position becomes exactly `t`, with no clamping to `[0, duration]`. */
  function HandleSeek(s: PlayerState, t: real): (r: Transition)
    ensures r.state.currentTime == t
    ensures r.state.(currentTime := s.currentTime) == s
    ensures r.commands == if s.mediaMounted then [SetPosition(t)] else []
  {
    Transition(s.(currentTime := t), if s.mediaMounted then [SetPosition(t)] else [])
  }

  /**
   `toggleFullscreen`: asks the document to enter or leave fullscreen,
   deciding by `document.fullscreenElement`, never by `isFullscreen`, and
   never writes `isFullscreen` itself. A missing container makes it a no-op.
   */
  function ToggleFullscreen(s: PlayerState, containerFound: bool, documentFullscreen: bool): (r: Transition)
    ensures r.state == s
    ensures !containerFound ==> r.commands == []
    ensures containerFound ==> r.commands == [if documentFullscreen then ExitFullscreen else RequestFullscreen]
  {
    if !containerFound then Transition(s, [])
    else if !documentFullscreen then Transition(s, [RequestFullscreen])
    else Transition(s, [ExitFullscreen])
  }

  /**
   `handleMouseMove`: show the controls and replace any pending timer by a
   fresh 3-second one whose closure captured the current `isPlaying`.
   */
  function HandleMouseMove(s: PlayerState): (r: Transition)
    ensures r.state.showControls
    ensures r.state.hideTimer == Some(s.isPlaying)
    ensures r.state.(showControls := s.showControls, hideTimer := s.hideTimer) == s
    ensures r.commands == []
  {
    Transition(s.(showControls := true, hideTimer := Some(s.isPlaying)), [])
  }

  /** The timer callback: hide the controls if the captured `isPlaying` was true, whatever it is now. */
  function HideTimerFires(s: PlayerState): (r: Transition)
    ensures r.state.hideTimer == None
    ensures r.state.showControls == (s.showControls && s.hideTimer != Some(true))
    ensures r.state.(showControls := s.showControls, hideTimer := s.hideTimer) == s
    ensures r.commands == []
  {
    match s.hideTimer
    case None => Transition(s, [])
    case Some(captured) =>
      Transition(s.(showControls := if captured then false else s.showControls, hideTimer := None), [])
  }

  /** `onMouseLeave`: hide the controls only while playing. */
  function HandleMouseLeave(s: PlayerState): (r: Transition)
    ensures r.state.showControls == (s.showControls && !s.isPlaying)
    ensures r.state.(showControls := s.showControls) == s
    ensures r.commands == []
  {
    if s.isPlaying then Transition(s.(showControls := false), []) else Transition(s, [])
  }

  // ----- listeners -----

  /** `timeupdate`: copy the element's position. */
  function OnTimeUpdate(s: PlayerState, t: real): (r: PlayerState)
    ensures r.currentTime == t && r.(currentTime := s.currentTime) == s
  {
    s.(currentTime := t)
  }

  /** `loadedmetadata`: copy the element's duration. */
  function OnLoadedMetadata(s: PlayerState, d: real): (r: PlayerState)
    ensures r.duration == d && r.(duration := s.duration) == s
  {
    s.(duration := d)
  }

  /** `ended`: playback stopped. */
  function OnEnded(s: PlayerState): (r: PlayerState)
    ensures !r.isPlaying && r.(isPlaying := s.isPlaying) == s
  {
    s.(isPlaying := false)
  }

  /** `fullscreenchange`: `isFullscreen` mirrors `!!document.fullscreenElement`. */
  function OnFullscreenChange(s: PlayerState, documentFullscreen: bool): (r: PlayerState)
    ensures r.isFullscreen == documentFullscreen && r.(isFullscreen := s.isFullscreen) == s
  {
    s.(isFullscreen := documentFullscreen)
  }

  /**
   Dispatches one input to the handler or listener the component wires it
   to; `handler` says which volume handler the slider calls. No input mounts
   or unmounts the element, and with the source's own volume handler the
   element's `muted` flag is written only by the mute button.
   */
  function Step(s: PlayerState, e: Event, handler: VolumeHandler): (r: Transition)
    ensures r.state.mediaMounted == s.mediaMounted
    ensures handler == AsWritten ==> forall b :: SetMuted(b) in r.commands ==> e == MuteClicked
  {
    match e
    case TogglePlayClicked => TogglePlay(s)
    case VolumeChanged(v) =>
      if handler == AsWritten then HandleVolumeChangeAsWritten(s, v) else HandleVolumeChange(s, v)
    case MuteClicked => ToggleMute(s)
    case Seeked(t) => HandleSeek(s, t)
    case FullscreenClicked(found, active) => ToggleFullscreen(s, found, active)
    case MouseMoved => HandleMouseMove(s)
    case MouseLeft => HandleMouseLeave(s)
    case HideTimerFired => HideTimerFires(s)
    case TimeUpdate(t) => Transition(OnTimeUpdate(s, t), [])
    case LoadedMetadata(d) => Transition(OnLoadedMetadata(s, d), [])
    case Ended => Transition(OnEnded(s), [])
    case FullscreenChange(active) => Transition(OnFullscreenChange(s, active), [])
  }

  /**
   Applies inputs in arrival order, collecting the commands. The element
   stays mounted or unmounted throughout, and with the source's own volume
   handler the element's `muted` flag is written only if the mute button
   was pressed.
   */
  function Run(s: PlayerState, events: seq<Event>, handler: VolumeHandler): (r: Transition)
    ensures r.state.mediaMounted == s.mediaMounted
    ensures handler == AsWritten ==> forall b :: SetMuted(b) in r.commands ==> MuteClicked in events
    decreases |events|
  {
    if |events| == 0 then Transition(s, [])
    else
      var first := Step(s, events[0], handler);
      var rest := Run(first.state, events[1..], handler);
      assert forall e :: e in events[1..] ==> e in events;
      Transition(rest.state, first.commands + rest.commands)
  }

  /**
   The two volume handlers differ only in the commands they send, so the
   controller passes through the same states whichever one is wired.
   */
  lemma {:induction false} HandlersAgreeOnState(s: PlayerState, events: seq<Event>)
    ensures Run(s, events, AsWritten).state == Run(s, events, Corrected).state
    decreases |events|
  {
    if |events| > 0 {
      var next := Step(s, events[0], AsWritten).state;
      assert next == Step(s, events[0], Corrected).state;
      HandlersAgreeOnState(next, events[1..]);
    }
  }

  // ----- properties of the controller -----

  lemma ToggleMuteTwiceRestores(s: PlayerState)
    ensures ToggleMute(ToggleMute(s).state).state == s
  {
  }

  /** Under either volume handler, a volume change with an element mounted mutes exactly at volume 0. */
  lemma VolumeZeroMutes(s: PlayerState, v: real, handler: VolumeHandler)
    requires s.mediaMounted
    ensures Step(s, VolumeChanged(v), handler).state.isMuted <==> v == 0.0
  {
  }

  /**
   `isFullscreen` only changes through a `fullscreenchange` notification,
   never through the button; this holds for the source's wiring and the
   corrected one alike.
   */
  lemma {:induction false} FullscreenOnlyFromNotification(s: PlayerState, events: seq<Event>, handler: VolumeHandler)
    requires forall i :: 0 <= i < |events| ==> !events[i].FullscreenChange?
    ensures Run(s, events, handler).state.isFullscreen == s.isFullscreen
    decreases |events|
  {
    if |events| > 0 {
      FullscreenOnlyFromNotification(Step(s, events[0], handler).state, events[1..], handler);
    }
  }

  /** Without a media element no input commands the element; fullscreen requests go to the document. */
  lemma {:induction false} UnmountedCommandsOnlyFullscreen(s: PlayerState, events: seq<Event>, handler: VolumeHandler)
    requires !s.mediaMounted
    ensures forall c :: c in Run(s, events, handler).commands ==> c == RequestFullscreen || c == ExitFullscreen
    decreases |events|
  {
    if |events| > 0 {
      UnmountedCommandsOnlyFullscreen(Step(s, events[0], handler).state, events[1..], handler);
    }
  }

  /**
   While paused, controls that are showing stay shown under every input
   except the firing of a timer armed while playing.
   */
  lemma PausedControlsHideOnlyByStaleTimer(s: PlayerState, e: Event, handler: VolumeHandler)
    requires !s.isPlaying && s.showControls
    requires !(e.HideTimerFired? && s.hideTimer == Some(true))
    ensures Step(s, e, handler).state.showControls
  {
  }

  /**
   The timer closure reads the captured `isPlaying`, not the current one:
   play, move the mouse, pause, and let the timer fire, and the controls
   are hidden although the video is paused.
   */
  lemma StaleCaptureHidesControlsWhilePaused()
    ensures var r := Run(Initial(true), [TogglePlayClicked, MouseMoved, TogglePlayClicked, HideTimerFired], AsWritten).state;
      !r.isPlaying && !r.showControls
  {
  }

  // ----- the media element, for stating what the commands keep in step -----

  /** The element properties the controller writes. */
  datatype Media = Media(paused: bool, muted: bool, volume: real, position: real)

  function ApplyCommand(m: Media, c: Command): Media {
    match c
    case Play => m.(paused := false)
    case Pause => m.(paused := true)
    case SetVolume(v) => m.(volume := v)
    case SetMuted(b) => m.(muted := b)
    case SetPosition(t) => m.(position := t)
    case RequestFullscreen => m
    case ExitFullscreen => m
  }

  function Apply(m: Media, commands: seq<Command>): Media
    decreases |commands|
  {
    if |commands| == 0 then m else Apply(ApplyCommand(m, commands[0]), commands[1..])
  }

  /** The mute icon and the volume slider show `isMuted`; the element plays sound according to `muted`. */
  predicate MuteInSync(s: PlayerState, m: Media) {
    s.isMuted == m.muted && s.volume == m.volume
  }

  /**
   As written, `handleVolumeChange` breaks the agreement: mute with the
   button, then raise the volume, and the controller shows sound on while
   the element stays muted.
   */
  lemma VolumeChangeAsWrittenLeavesElementMuted()
    ensures var s0 := Initial(true);
      var m0 := Media(true, false, 1.0, 0.0);
      var t1 := ToggleMute(s0);
      var m1 := Apply(m0, t1.commands);
      var t2 := HandleVolumeChangeAsWritten(t1.state, 0.5);
      var m2 := Apply(m1, t2.commands);
      MuteInSync(s0, m0) && MuteInSync(t1.state, m1) && !t2.state.isMuted && m2.muted && !MuteInSync(t2.state, m2)
  {
  }

  lemma ApplyOne(m: Media, c: Command)
    ensures Apply(m, [c]) == ApplyCommand(m, c)
  {
    assert [c][1..] == [];
  }

  lemma ApplyTwo(m: Media, c: Command, d: Command)
    ensures Apply(m, [c, d]) == ApplyCommand(ApplyCommand(m, c), d)
  {
    assert [c, d][1..] == [d];
    ApplyOne(ApplyCommand(m, c), d);
  }

  /** Toggling play twice restores the state and sends the element back to where it was. */
  lemma TogglePlayTwiceRestores(s: PlayerState, m: Media)
    requires s.mediaMounted
    ensures TogglePlay(TogglePlay(s).state).state == s
    ensures var t1 := TogglePlay(s);
      var t2 := TogglePlay(t1.state);
      Apply(Apply(m, t1.commands), t2.commands).paused == !s.isPlaying
  {
    var t1 := TogglePlay(s);
    ApplyOne(m, t1.commands[0]);
    ApplyOne(Apply(m, t1.commands), TogglePlay(t1.state).commands[0]);
  }

  /** `togglePlay` keeps the element playing exactly when the controller says it is playing. */
  lemma TogglePlayKeepsPlaybackInSync(s: PlayerState, m: Media)
    requires s.mediaMounted && s.isPlaying == !m.paused
    ensures TogglePlay(s).state.isPlaying == !Apply(m, TogglePlay(s).commands).paused
  {
    ApplyOne(m, TogglePlay(s).commands[0]);
  }

  /** A seek moves the element to exactly the position the controller shows. */
  lemma SeekMovesElement(s: PlayerState, m: Media, t: real)
    requires s.mediaMounted
    ensures Apply(m, HandleSeek(s, t).commands).position == HandleSeek(s, t).state.currentTime == t
  {
    ApplyOne(m, SetPosition(t));
  }

  /** With the corrected volume handler wired in, every input keeps the controller and the element in agreement. */
  lemma StepKeepsMuteInSync(s: PlayerState, m: Media, e: Event)
    requires s.mediaMounted && MuteInSync(s, m)
    ensures MuteInSync(Step(s, e, Corrected).state, Apply(m, Step(s, e, Corrected).commands))
  {
    var t := Step(s, e, Corrected);
    if |t.commands| == 1 {
      ApplyOne(m, t.commands[0]);
    } else if |t.commands| == 2 {
      ApplyTwo(m, t.commands[0], t.commands[1]);
    }
  }

  lemma {:induction false} ApplyConcat(m: Media, a: seq<Command>, b: seq<Command>)
    ensures Apply(m, a + b) == Apply(Apply(m, a), b)
    decreases |a|
  {
    if |a| == 0 {
      assert a + b == b;
    } else {
      assert (a + b)[0] == a[0];
      assert (a + b)[1..] == a[1..] + b;
      ApplyConcat(ApplyCommand(m, a[0]), a[1..], b);
    }
  }

  lemma {:induction false} RunKeepsMuteInSync(s: PlayerState, m: Media, events: seq<Event>)
    requires s.mediaMounted && MuteInSync(s, m)
    ensures MuteInSync(Run(s, events, Corrected).state, Apply(m, Run(s, events, Corrected).commands))
    decreases |events|
  {
    if |events| > 0 {
      var first := Step(s, events[0], Corrected);
      StepKeepsMuteInSync(s, m, events[0]);
      var m1 := Apply(m, first.commands);
      assert first.state.mediaMounted;
      RunKeepsMuteInSync(first.state, m1, events[1..]);
      ApplyConcat(m, first.commands, Run(first.state, events[1..], Corrected).commands);
    }
  }

  // ----- formatTime -----

  /** JavaScript's `x % 60`: the remainder takes the sign of `x`. */
  function RemainderSixty(x: real): (r: real)
    ensures x >= 0.0 ==> 0.0 <= r < 60.0 && r == x - 60.0 * (x / 60.0).Floor as real
    ensures x < 0.0 ==> -60.0 < r <= 0.0
  {
    var q := x / 60.0;
    var t := if q >= 0.0 then q.Floor else -((-q).Floor);
    x - 60.0 * t as real
  }

  /**
   `formatTime(seconds)`: minutes, a colon, and the whole seconds padded to
   two digits. A non-negative time reads back as minutes and seconds under
   60 that make up its whole part.
   */
  function FormatTime(seconds: real): (r: string)
    ensures seconds >= 0.0 ==> ParseTime(r).Some?
    ensures seconds >= 0.0 ==> ParseTime(r).value.1 < 60
    ensures seconds >= 0.0 ==> ParseTime(r).value.0 * 60 + ParseTime(r).value.1 == seconds.Floor
  {
    var minutes := (seconds / 60.0).Floor;
    var remainingSeconds := RemainderSixty(seconds).Floor;
    var r := IntToString(minutes) + ":" + (if remainingSeconds < 10 then "0" else "") + IntToString(remainingSeconds);
    if seconds >= 0.0 then
      assert 0 <= remainingSeconds < 60 && minutes >= 0;
      ParseTimeOfDisplay(minutes, remainingSeconds);
      r
    else r
  }

  /** Position of the first ':' in a string. */
  function ColonIndex(s: string): (r: Option<nat>)
    ensures r.Some? ==> r.value < |s| && s[r.value] == ':' && forall k :: 0 <= k < r.value ==> s[k] != ':'
    ensures r.None? ==> forall k :: 0 <= k < |s| ==> s[k] != ':'
    decreases |s|
  {
    if |s| == 0 then None
    else if s[0] == ':' then Some(0)
    else
      match ColonIndex(s[1..])
      case Some(k) => Some(k + 1)
      case None => None
  }

  /** Reads back a "m:ss" display: some digits, a colon, exactly two digits. */
  function ParseTime(s: string): Option<(nat, nat)> {
    match ColonIndex(s)
    case None => None
    case Some(k) =>
      var mm := s[..k];
      var ss := s[k + 1..];
      if |mm| >= 1 && AllDigits(mm) && |ss| == 2 && AllDigits(ss) then
        Some((ParseDigits(mm), ParseDigits(ss)))
      else None
  }

  /** The minutes and seconds `formatTime` computes for a non-negative time. */
  lemma FormatTimeSplit(seconds: real) returns (m: nat, r: nat)
    requires seconds >= 0.0
    ensures m * 60 + r == seconds.Floor && r < 60
    ensures FormatTime(seconds) == NatToString(m) + ":" + (if r < 10 then "0" else "") + NatToString(r)
  {
    m := (seconds / 60.0).Floor;
    var rem := RemainderSixty(seconds);
    r := rem.Floor;
  }

  lemma ColonAfterDigits(ms: string, rest: string)
    requires AllDigits(ms)
    ensures ColonIndex(ms + ":" + rest) == Some(|ms|)
  {
    var out := ms + ":" + rest;
    assert out[|ms|] == ':';
    assert forall k :: 0 <= k < |ms| ==> out[k] == ms[k];
  }

  /** The zero-padded seconds field: two digits that read back as `r`. */
  lemma PaddedSecondsReadBack(r: nat)
    requires r < 60
    ensures var rs := (if r < 10 then "0" else "") + NatToString(r);
      |rs| == 2 && AllDigits(rs) && ParseDigits(rs) == r
  {
    var rs := (if r < 10 then "0" else "") + NatToString(r);
    if r < 10 {
      assert rs == ['0', DigitChar(r)];
      assert rs[..1] == ['0'];
      assert ParseDigits(rs[..1]) == ParseDigits(rs[..1][..0]) * 10 + DigitValue('0') == 0;
      assert DigitValue(DigitChar(r)) == r;
    } else {
      ParseNatToString(r);
      assert NatToString(r) == NatToString(r / 10) + [DigitChar(r % 10)];
    }
  }

  /** The "m:ss" display of minutes `m` and seconds `r < 60` reads back as `(m, r)`. */
  lemma ParseTimeOfDisplay(m: nat, r: nat)
    requires r < 60
    ensures ParseTime(NatToString(m) + ":" + (if r < 10 then "0" else "") + NatToString(r)) == Some((m, r))
  {
    var ms := NatToString(m);
    var rs := (if r < 10 then "0" else "") + NatToString(r);
    var out := ms + ":" + rs;
    assert out == NatToString(m) + ":" + (if r < 10 then "0" else "") + NatToString(r);
    ColonAfterDigits(ms, rs);
    assert out[..|ms|] == ms;
    assert out[|ms| + 1..] == rs;
    ParseNatToString(m);
    PaddedSecondsReadBack(r);
  }

  /**
   For a non-negative time the display reads back as minutes `m` and
   seconds `r` with `m * 60 + r == floor(seconds)` and `0 <= r < 60`; for a
   whole number of seconds, `m * 60 + r == seconds`.
   */
  lemma FormatTimeReadsBack(seconds: real)
    requires seconds >= 0.0
    ensures ParseTime(FormatTime(seconds)).Some?
    ensures var (m, r) := ParseTime(FormatTime(seconds)).value;
      m * 60 + r == seconds.Floor && r < 60
    ensures var (m, r) := ParseTime(FormatTime(seconds)).value;
      seconds == seconds.Floor as real ==> (m * 60 + r) as real == seconds
  {
    var m, r := FormatTimeSplit(seconds);
    ParseTimeOfDisplay(m, r);
  }
}

/** The playback controller of src/components/VideoPlayer.tsx: which clip is shown, whether it
    plays, whether the sound icon is muted, and how far the current clip's progress has run.

    Progress is counted in ticks of the 100 ms interval instead of as a percentage: a tick adds
    `100 / (duration * 10)` percent, so `10 * duration` ticks make the 100 percent at which the
    next tick moves on. */
module VideoPlayer {
  import opened Clips

  /** The four `useState` fields. */
  datatype PlayerState = PlayerState(currentIndex: int, isPlaying: bool, isMuted: bool, progress: nat)

  /** The events the component reacts to. A key press carries `e.key`; a swipe the `clientY` of
      the touch start and of the touch end. */
  datatype Event = KeyDown(key: string) | Swipe(startY: int, endY: int) | Tick | MuteClick | PlayClick

  /** `useState(0)`, `useState(true)`, `useState(false)`, `useState(0)`. */
  function Initial(): PlayerState {
    PlayerState(0, true, false, 0)
  }

  /** Ticks after which the progress of a clip of `duration` seconds reaches 100 percent. */
  function FullProgress(duration: nat): nat {
    10 * duration
  }

  /** `goToNext`: to the next clip with progress reset, unless this is the last clip. */
  function Next(st: PlayerState, count: nat): (r: PlayerState)
    ensures st.currentIndex < count - 1 ==> r == st.(currentIndex := st.currentIndex + 1, progress := 0)
    ensures st.currentIndex >= count - 1 ==> r == st
  {
    if st.currentIndex < count - 1 then st.(currentIndex := st.currentIndex + 1, progress := 0) else st
  }

  /** `goToPrev`: to the previous clip with progress reset, unless this is the first clip. */
  function Prev(st: PlayerState): (r: PlayerState)
    ensures st.currentIndex > 0 ==> r == st.(currentIndex := st.currentIndex - 1, progress := 0)
    ensures st.currentIndex <= 0 ==> r == st
  {
    if st.currentIndex > 0 then st.(currentIndex := st.currentIndex - 1, progress := 0) else st
  }

  /** The interval's updater: it runs only while playing a clip that exists; at 100 percent or
      more it calls `goToNext` and sets progress to 0, otherwise it adds one tick. */
  function Ticked(st: PlayerState, clips: seq<VideoClip>): PlayerState {
    if !st.isPlaying || !(0 <= st.currentIndex < |clips|) then st
    else if st.progress >= FullProgress(clips[st.currentIndex].duration) then Next(st, |clips|).(progress := 0)
    else st.(progress := st.progress + 1)
  }

  /** `handleKeyDown`: ArrowUp goes back, ArrowDown goes on, the space bar toggles playing. */
  function AfterKey(st: PlayerState, key: string, count: nat): PlayerState {
    if key == "ArrowUp" then Prev(st)
    else if key == "ArrowDown" then Next(st, count)
    else if key == " " then st.(isPlaying := !st.isPlaying)
    else st
  }

  /** `Math.abs(x)`. */
  function Abs(x: int): nat {
    if x < 0 then -x else x
  }

  /** `handleTouchEnd`: a vertical move of more than 50 pixels goes on when it was upwards
      (`touchStartY - touchEndY > 0`) and back otherwise. */
  function AfterSwipe(st: PlayerState, startY: int, endY: int, count: nat): PlayerState {
    var diff := startY - endY;
    if Abs(diff) > 50 then (if diff > 0 then Next(st, count) else Prev(st)) else st
  }

  /** One event. */
  function Step(st: PlayerState, e: Event, clips: seq<VideoClip>): PlayerState {
    match e
    case KeyDown(key) => AfterKey(st, key, |clips|)
    case Swipe(startY, endY) => AfterSwipe(st, startY, endY, |clips|)
    case Tick => Ticked(st, clips)
    case MuteClick => st.(isMuted := !st.isMuted)
    case PlayClick => st.(isPlaying := !st.isPlaying)
  }

  /** A sequence of events, in order. */
  function Steps(st: PlayerState, events: seq<Event>, clips: seq<VideoClip>): PlayerState
    decreases |events|
  {
    if events == [] then st else Steps(Step(st, events[0], clips), events[1..], clips)
  }

  /** The index points at a clip. */
  predicate InRange(st: PlayerState, count: nat) {
    0 <= st.currentIndex < count
  }

  /** Every event keeps the index at a clip. */
  lemma StepInRange(st: PlayerState, e: Event, clips: seq<VideoClip>)
    requires InRange(st, |clips|)
    ensures InRange(Step(st, e, clips), |clips|)
  {
  }

  /** For a non-empty clip list the index stays in `[0, |clips| - 1]` whatever happens. */
  lemma {:induction false} StepsInRange(st: PlayerState, events: seq<Event>, clips: seq<VideoClip>)
    requires InRange(st, |clips|)
    ensures InRange(Steps(st, events, clips), |clips|)
    decreases |events|
  {
    if events != [] {
      StepInRange(st, events[0], clips);
      StepsInRange(Step(st, events[0], clips), events[1..], clips);
    }
  }

  lemma InitialInRange(clips: seq<VideoClip>)
    requires |clips| > 0
    ensures InRange(Initial(), |clips|)
  {
  }

  /** Going on and then back returns to the same clip, at the start. */
  lemma PrevUndoesNext(st: PlayerState, count: nat)
    requires 0 <= st.currentIndex < count - 1
    ensures Prev(Next(st, count)) == st.(progress := 0)
  {
  }

  /** Going back and then on returns to the same clip, at the start. */
  lemma NextUndoesPrev(st: PlayerState, count: nat)
    requires 0 < st.currentIndex < count
    ensures Next(Prev(st), count) == st.(progress := 0)
  {
  }

  /** A paused player ignores the interval. */
  lemma PausedTickNoChange(st: PlayerState, clips: seq<VideoClip>)
    requires !st.isPlaying
    ensures Ticked(st, clips) == st
  {
  }

  /** On the last clip, the tick at 100 percent restarts its progress instead of holding it. */
  lemma LastClipRestarts(st: PlayerState, clips: seq<VideoClip>)
    requires st.isPlaying && st.currentIndex == |clips| - 1 && |clips| > 0
    requires st.progress >= FullProgress(clips[st.currentIndex].duration)
    ensures Ticked(st, clips) == st.(progress := 0)
  {
  }

  /** `n` ticks repeated. */
  function Ticks(n: nat): (es: seq<Event>)
    ensures |es| == n && forall i :: 0 <= i < n ==> es[i] == Tick
  {
    seq(n, i => Tick)
  }

  /** Playing a clip from progress `p` up to `FullProgress` only counts ticks. */
  lemma {:induction false} TicksCount(st: PlayerState, clips: seq<VideoClip>, n: nat)
    requires st.isPlaying && InRange(st, |clips|)
    requires st.progress + n <= FullProgress(clips[st.currentIndex].duration)
    ensures Steps(st, Ticks(n), clips) == st.(progress := st.progress + n)
    decreases n
  {
    if n > 0 {
      var next := Ticked(st, clips);
      assert next == st.(progress := st.progress + 1);
      assert Ticks(n)[1..] == Ticks(n - 1);
      TicksCount(next, clips, n - 1);
    }
  }

  /** A clip that plays from its start moves on to the next clip, at its start, after
      `10 * duration + 1` ticks. */
  lemma ClipPlaysThrough(st: PlayerState, clips: seq<VideoClip>)
    requires st.isPlaying && st.progress == 0 && 0 <= st.currentIndex < |clips| - 1
    ensures Steps(st, Ticks(FullProgress(clips[st.currentIndex].duration) + 1), clips)
      == st.(currentIndex := st.currentIndex + 1, progress := 0)
  {
    var full := FullProgress(clips[st.currentIndex].duration);
    TicksSnoc(st, full, clips);
    TicksCount(st, clips, full);
    TickAtFull(st.(progress := full), clips);
  }

  /** At 100 percent of a clip that is not the last, a tick moves on to the next clip. */
  lemma TickAtFull(st: PlayerState, clips: seq<VideoClip>)
    requires st.isPlaying && 0 <= st.currentIndex < |clips| - 1
    requires st.progress == FullProgress(clips[st.currentIndex].duration)
    ensures Ticked(st, clips) == st.(currentIndex := st.currentIndex + 1, progress := 0)
  {
  }

  /** The last of `n + 1` ticks comes after the first `n`. */
  lemma TicksSnoc(st: PlayerState, n: nat, clips: seq<VideoClip>)
    ensures Steps(st, Ticks(n + 1), clips) == Ticked(Steps(st, Ticks(n), clips), clips)
  {
    calc {
      Steps(st, Ticks(n + 1), clips);
      { assert Ticks(n + 1) == Ticks(n) + [Tick]; }
      Steps(st, Ticks(n) + [Tick], clips);
      { StepsAppend(st, Ticks(n), [Tick], clips); }
      Steps(Steps(st, Ticks(n), clips), [Tick], clips);
      { StepsSingle(Steps(st, Ticks(n), clips), Tick, clips); }
      Ticked(Steps(st, Ticks(n), clips), clips);
    }
  }

  lemma StepsSingle(st: PlayerState, e: Event, clips: seq<VideoClip>)
    ensures Steps(st, [e], clips) == Step(st, e, clips)
  {
    assert [e][1..] == [];
  }

  lemma {:induction false} StepsAppend(st: PlayerState, a: seq<Event>, b: seq<Event>, clips: seq<VideoClip>)
    ensures Steps(st, a + b, clips) == Steps(Steps(st, a, clips), b, clips)
    decreases |a|
  {
    if a == [] {
      assert a + b == b;
    } else {
      assert (a + b)[0] == a[0];
      assert (a + b)[1..] == a[1..] + b;
      StepsAppend(Step(st, a[0], clips), a[1..], b, clips);
    }
  }

  /** ArrowUp is `goToPrev`, ArrowDown `goToNext`, the space bar toggles playing, and any other
      key changes nothing. This documents `AfterKey` case by case; Dafny reads it off the
      definition. */
  lemma KeyMapping(st: PlayerState, key: string, count: nat)
    ensures key == "ArrowUp" ==> AfterKey(st, key, count) == Prev(st)
    ensures key == "ArrowDown" ==> AfterKey(st, key, count) == Next(st, count)
    ensures key == " " ==> AfterKey(st, key, count) == st.(isPlaying := !st.isPlaying)
    ensures key != "ArrowUp" && key != "ArrowDown" && key != " " ==> AfterKey(st, key, count) == st
  {
  }

  /** A move of 50 pixels or less does nothing; beyond that, a finger moving up (start below
      end on screen, `startY - endY > 0`) goes on and one moving down goes back. This documents
      `AfterSwipe` case by case; Dafny reads it off the definition. */
  lemma SwipeThreshold(st: PlayerState, startY: int, endY: int, count: nat)
    ensures -50 <= startY - endY <= 50 ==> AfterSwipe(st, startY, endY, count) == st
    ensures startY - endY > 50 ==> AfterSwipe(st, startY, endY, count) == Next(st, count)
    ensures startY - endY < -50 ==> AfterSwipe(st, startY, endY, count) == Prev(st)
  {
  }

  /** The two buttons each flip one flag and touch nothing else. */
  lemma ButtonsFlipOneFlag(st: PlayerState, clips: seq<VideoClip>)
    ensures var m := Step(st, MuteClick, clips);
      m.isMuted == !st.isMuted && m.isPlaying == st.isPlaying && m.currentIndex == st.currentIndex && m.progress == st.progress
    ensures var p := Step(st, PlayClick, clips);
      p.isPlaying == !st.isPlaying && p.isMuted == st.isMuted && p.currentIndex == st.currentIndex && p.progress == st.progress
  {
  }

  /** The component: the clips it is given and the state it keeps. */
  class Player {
    const clips: seq<VideoClip>
    var currentIndex: int
    var isPlaying: bool
    var isMuted: bool
    var progress: nat

    function State(): PlayerState
      reads this
    {
      PlayerState(currentIndex, isPlaying, isMuted, progress)
    }

    constructor(clips: seq<VideoClip>)
      ensures this.clips == clips && State() == Initial()
    {
      this.clips := clips;
      currentIndex, isPlaying, isMuted, progress := 0, true, false, 0;
    }

    method GoToNext()
      modifies this
      ensures State() == Next(old(State()), |clips|)
    {
      if currentIndex < |clips| - 1 {
        currentIndex := currentIndex + 1;
        progress := 0;
      }
    }

    method GoToPrev()
      modifies this
      ensures State() == Prev(old(State()))
    {
      if currentIndex > 0 {
        currentIndex := currentIndex - 1;
        progress := 0;
      }
    }

    /** One run of the interval callback. */
    method OnTick()
      modifies this
      ensures State() == Ticked(old(State()), clips)
    {
      if isPlaying && 0 <= currentIndex < |clips| {
        if progress >= FullProgress(clips[currentIndex].duration) {
          GoToNext();
          progress := 0;
        } else {
          progress := progress + 1;
        }
      }
    }

    method HandleKeyDown(key: string)
      modifies this
      ensures State() == AfterKey(old(State()), key, |clips|)
    {
      if key == "ArrowUp" {
        GoToPrev();
      }
      if key == "ArrowDown" {
        GoToNext();
      }
      if key == " " {
        isPlaying := !isPlaying;
      }
    }

    method HandleTouchEnd(touchStartY: int, touchEndY: int)
      modifies this
      ensures State() == AfterSwipe(old(State()), touchStartY, touchEndY, |clips|)
    {
      var diff := touchStartY - touchEndY;
      if Abs(diff) > 50 {
        if diff > 0 {
          GoToNext();
        } else {
          GoToPrev();
        }
      }
    }

    method ToggleMute()
      modifies this
      ensures State() == old(State()).(isMuted := !old(isMuted))
    {
      isMuted := !isMuted;
    }

    method TogglePlay()
      modifies this
      ensures State() == old(State()).(isPlaying := !old(isPlaying))
    {
      isPlaying := !isPlaying;
    }

    /** Dispatches an event to its handler. */
    method Handle(e: Event)
      modifies this
      ensures State() == Step(old(State()), e, clips)
    {
      match e {
        case KeyDown(key) => HandleKeyDown(key);
        case Swipe(startY, endY) => HandleTouchEnd(startY, endY);
        case Tick => OnTick();
        case MuteClick => ToggleMute();
        case PlayClick => TogglePlay();
      }
    }
  }
}

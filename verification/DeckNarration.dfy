/**
  The playback driver (assets/deck-narration/deck-narration.js): one audio
  element, one advance timer, and a watcher that calls `speak` whenever the
  current step differs from the last one it saw.
*/
module NarrationSpec {
  import opened Wrappers
  import opened StageSpec

  /** A step of a slide, by position. */
  datatype Cue = Cue(slide: int, step: nat)

  /** What a pending browser timer will call. */
  datatype Callback = AutoNext | EndCheck(before: Cue)

  datatype Narrator = Narrator(
    curIdx: int,
    narrationOn: bool,
    autoplay: bool,
    advanceTimer: Option<nat>,   // the stored timer id, possibly of a timer that already fired
    lastCue: Option<Cue>,
    source: Option<Cue>,         // the clip the audio element is set to
    playing: bool,
    handler: bool,               // an ended handler is attached
    timers: map<nat, Callback>,  // the browser's pending timers
    nextTimer: nat,
    spoken: seq<Cue>)            // every cue spoken with narration on, in order

  function StopAudio(n: Narrator): Narrator {
    n.(playing := false, handler := false)
  }

  function ClearAdvance(n: Narrator): Narrator {
    if n.advanceTimer.Some? then n.(timers := n.timers - {n.advanceTimer.value}, advanceTimer := None) else n
  }

  function SetTimer(n: Narrator, c: Callback): Narrator {
    n.(timers := n.timers[n.nextTimer := c], nextTimer := n.nextTimer + 1)
  }

  function ArmAdvance(n: Narrator): Narrator {
    SetTimer(n, AutoNext).(advanceTimer := Some(n.nextTimer))
  }

  function Speak(n: Narrator, clips: set<Cue>, c: Cue): Narrator {
    var m := ClearAdvance(StopAudio(n)).(lastCue := Some(c));
    if !m.narrationOn then m
    else if c !in clips then
      var b := m.(spoken := m.spoken + [c]);
      if b.autoplay then ArmAdvance(b) else b
    else m.(spoken := m.spoken + [c], source := Some(c), handler := true, playing := true)
  }

  /** The audio element reached the end of its clip. */
  function Ended(n: Narrator): Narrator {
    if !n.playing then n
    else
      var m := n.(playing := false);
      if m.handler && m.autoplay then ArmAdvance(m) else m
  }

  /** The browser refused to play. */
  function Rejected(n: Narrator): Narrator {
    n.(playing := false)
  }

  function SetNarration(n: Narrator, clips: set<Cue>, on: bool, current: Cue): Narrator {
    var m := n.(narrationOn := on);
    if on then Speak(m, clips, current) else StopAudio(ClearAdvance(m.(autoplay := false)))
  }

  function StartAutoplay(n: Narrator, clips: set<Cue>, current: Cue): Narrator {
    Speak(n.(autoplay := true, narrationOn := true), clips, current)
  }

  function StopAutoplay(n: Narrator): Narrator {
    ClearAdvance(n.(autoplay := false)).(playing := false)
  }

  function CheckCue(n: Narrator, clips: set<Cue>, current: Cue): Narrator {
    if n.lastCue == Some(current) then n else Speak(n.(lastCue := Some(current)), clips, current)
  }

  /** Narrate pressed: with no clips at all it only opens the authoring panel. */
  function NarratePressed(n: Narrator, clips: set<Cue>, current: Cue): Narrator {
    if !n.narrationOn && clips == {} then n else SetNarration(n, clips, !n.narrationOn, current)
  }

  function PlayPressed(n: Narrator, clips: set<Cue>, current: Cue): Narrator {
    if n.autoplay then StopAutoplay(n) else if clips == {} then n else StartAutoplay(n, clips, current)
  }

  /** A timer fires: it leaves the pending set before its callback runs. */
  function Taken(n: Narrator, id: nat): Narrator {
    n.(timers := n.timers - {id})
  }

  /** The end-of-deck check: auto-play stops when the advance did not move. */
  function EndChecked(n: Narrator, before: Cue, current: Cue): Narrator {
    if current == before then StopAutoplay(n) else n
  }

  // ----- single driver --------------------------------------------------------------------

  ghost predicate IsAdvance(n: Narrator, id: nat) {
    id in n.timers && n.timers[id] == AutoNext
  }

  /** One driver: at most one live advance timer, and only under auto-play; auto-play only with narration on;
      audio plays only the last spoken cue, only with narration on, and never while an advance is pending. */
  ghost predicate SingleDriver(n: Narrator) {
    && (forall id <- n.timers :: id < n.nextTimer)
    && (n.advanceTimer.Some? ==> n.advanceTimer.value < n.nextTimer)
    && (n.advanceTimer.Some? && n.advanceTimer.value in n.timers ==> IsAdvance(n, n.advanceTimer.value))
    && (forall id <- n.timers :: IsAdvance(n, id) ==> n.advanceTimer == Some(id) && n.autoplay && !n.playing)
    && (n.autoplay ==> n.narrationOn)
    && (n.playing ==> n.narrationOn && n.lastCue.Some? && n.source == n.lastCue)
  }

  /** What `stop everything` leaves behind. */
  ghost predicate Quiet(n: Narrator) {
    && (forall id <- n.timers :: id < n.nextTimer && !IsAdvance(n, id))
    && (n.advanceTimer.Some? ==> n.advanceTimer.value < n.nextTimer)
    && (n.advanceTimer.Some? ==> n.advanceTimer.value !in n.timers)
    && !n.playing
  }

  lemma ClearQuiets(n: Narrator)
    requires SingleDriver(n)
    ensures Quiet(ClearAdvance(n.(playing := false)))
    ensures ClearAdvance(n).advanceTimer == None
  {
    var m := ClearAdvance(n.(playing := false));
    forall id <- m.timers
      ensures id < m.nextTimer && !IsAdvance(m, id)
    {
      assert IsAdvance(n, id) ==> n.advanceTimer == Some(id);
    }
  }

  lemma ArmSingle(n: Narrator)
    requires Quiet(n) && n.autoplay && n.narrationOn
    ensures SingleDriver(ArmAdvance(n))
  {
    var m := ArmAdvance(n);
    forall id <- m.timers | IsAdvance(m, id)
      ensures m.advanceTimer == Some(id)
    {
      assert id != n.nextTimer ==> IsAdvance(n, id);
    }
  }

  lemma SpeakSingle(n: Narrator, clips: set<Cue>, c: Cue)
    requires Quiet(ClearAdvance(n.(playing := false))) && (n.autoplay ==> n.narrationOn)
    ensures SingleDriver(Speak(n, clips, c))
  {
    var m := ClearAdvance(StopAudio(n)).(lastCue := Some(c));
    assert Quiet(m) by {
      var q := ClearAdvance(n.(playing := false));
      forall id <- m.timers
        ensures id < m.nextTimer && !IsAdvance(m, id)
      {
        assert id in q.timers && !IsAdvance(q, id);
      }
    }
    if m.narrationOn && c !in clips && m.autoplay {
      var b := m.(spoken := m.spoken + [c]);
      forall id <- b.timers
        ensures id < b.nextTimer && !IsAdvance(b, id)
      {
        assert !IsAdvance(m, id);
      }
      ArmSingle(b);
    } else {
      var r := Speak(n, clips, c);
      forall id <- r.timers
        ensures id < r.nextTimer && !IsAdvance(r, id)
      {
        assert !IsAdvance(m, id);
      }
    }
  }

  lemma SpeakKeepsSingle(n: Narrator, m: Narrator, clips: set<Cue>, c: Cue)
    requires SingleDriver(n) && (m.autoplay ==> m.narrationOn)
    requires m.timers == n.timers && m.nextTimer == n.nextTimer && m.advanceTimer == n.advanceTimer
    ensures SingleDriver(Speak(m, clips, c))
  {
    ClearQuiets(n);
    var p, q := ClearAdvance(n.(playing := false)), ClearAdvance(m.(playing := false));
    forall id <- q.timers
      ensures id < q.nextTimer && !IsAdvance(q, id)
    {
      assert id in p.timers && !IsAdvance(p, id);
    }
    SpeakSingle(m, clips, c);
  }

  lemma StopKeepsSingle(n: Narrator, m: Narrator)
    requires SingleDriver(n) && !m.playing && !m.autoplay
    requires m.timers == ClearAdvance(n).timers && m.nextTimer == n.nextTimer && m.advanceTimer == None
    ensures SingleDriver(m)
  {
    ClearQuiets(n);
    var p := ClearAdvance(n.(playing := false));
    forall id <- m.timers
      ensures id < m.nextTimer && !IsAdvance(m, id)
    {
      assert id in p.timers && !IsAdvance(p, id);
    }
  }

  lemma StopAutoplaySingle(n: Narrator)
    requires SingleDriver(n)
    ensures SingleDriver(StopAutoplay(n))
  {
    StopKeepsSingle(n, StopAutoplay(n));
  }

  lemma PressesSingle(n: Narrator, clips: set<Cue>, current: Cue)
    requires SingleDriver(n)
    ensures SingleDriver(NarratePressed(n, clips, current)) && SingleDriver(PlayPressed(n, clips, current))
  {
    SpeakKeepsSingle(n, n.(narrationOn := true), clips, current);
    SpeakKeepsSingle(n, n.(autoplay := true, narrationOn := true), clips, current);
    if n.narrationOn {
      StopKeepsSingle(n, SetNarration(n, clips, false, current));
    }
    StopAutoplaySingle(n);
  }

  lemma CheckCueSingle(n: Narrator, clips: set<Cue>, current: Cue)
    requires SingleDriver(n)
    ensures SingleDriver(CheckCue(n, clips, current))
  {
    SpeakKeepsSingle(n, n.(lastCue := Some(current)), clips, current);
  }

  lemma EndedSingle(n: Narrator)
    requires SingleDriver(n)
    ensures SingleDriver(Ended(n))
  {
    if n.playing {
      var m := n.(playing := false);
      forall id <- m.timers
        ensures id < m.nextTimer && !IsAdvance(m, id)
      {
        assert !IsAdvance(n, id);
      }
      if m.handler && m.autoplay {
        ArmSingle(m);
      }
    }
  }

  lemma FewerTimersSingle(n: Narrator, m: Narrator)
    requires SingleDriver(n) && m.timers.Keys <= n.timers.Keys
             && (forall id <- m.timers :: m.timers[id] == n.timers[id])
    requires m == n.(timers := m.timers, playing := m.playing, curIdx := m.curIdx) && (m.playing ==> n.playing)
    ensures SingleDriver(m)
  {
    forall id <- m.timers
      ensures id < m.nextTimer && (IsAdvance(m, id) ==> m.advanceTimer == Some(id) && m.autoplay && !m.playing)
    {
      assert IsAdvance(m, id) ==> IsAdvance(n, id);
    }
  }

  lemma CheckTimerSingle(n: Narrator, before: Cue)
    requires SingleDriver(n)
    ensures SingleDriver(SetTimer(n, EndCheck(before)))
  {
    var m := SetTimer(n, EndCheck(before));
    forall id <- m.timers
      ensures id < m.nextTimer && (IsAdvance(m, id) ==> m.advanceTimer == Some(id) && m.autoplay && !m.playing)
    {
      assert IsAdvance(m, id) ==> IsAdvance(n, id);
    }
  }

  /** In words: never more than one live advance timer. */
  lemma SingleDriverMeaning(n: Narrator)
    requires SingleDriver(n)
    ensures |(set id | id in n.timers && IsAdvance(n, id))| <= 1
  {
    var live := set id | id in n.timers && IsAdvance(n, id);
    if live != {} {
      var id :| id in live;
      assert live == {id};
    }
  }

  // ----- what the buttons and the watcher do -------------------------------------------------

  /** Nothing plays and nothing will by itself. */
  ghost predicate Silent(n: Narrator) {
    !n.playing && forall id :: !IsAdvance(n, id)
  }

  /** The cue `c` is spoken now: its clip plays, or when it has none an advance is pending under auto-play. */
  ghost predicate Speaks(n: Narrator, m: Narrator, clips: set<Cue>, c: Cue) {
    && m.narrationOn && m.lastCue == Some(c) && m.spoken == n.spoken + [c]
    && (m.playing <==> c in clips) && (m.playing ==> m.source == Some(c) && m.handler)
    && ((exists id :: IsAdvance(m, id)) <==> m.autoplay && c !in clips)
  }

  lemma SpeakMeaning(n: Narrator, m: Narrator, clips: set<Cue>, c: Cue)
    requires SingleDriver(n) && m.spoken == n.spoken
    requires m.timers == n.timers && m.nextTimer == n.nextTimer && m.advanceTimer == n.advanceTimer
    ensures var r := Speak(m, clips, c);
            && r.autoplay == m.autoplay
            && if m.narrationOn then Speaks(n, r, clips, c)
               else Silent(r) && r.spoken == n.spoken && r.lastCue == Some(c) && !r.narrationOn
  {
    ClearQuiets(n);
    var p, r := ClearAdvance(n.(playing := false)), Speak(m, clips, c);
    forall id | id in p.timers
      ensures !IsAdvance(p, id)
    {
    }
    if m.narrationOn && c !in clips && m.autoplay {
      assert IsAdvance(r, n.nextTimer);
    }
  }

  lemma StopSilences(n: Narrator, m: Narrator)
    requires SingleDriver(n) && !m.playing && m.timers == ClearAdvance(n).timers
    ensures Silent(m)
  {
    ClearQuiets(n);
    var p := ClearAdvance(n.(playing := false));
    forall id
      ensures !IsAdvance(m, id)
    {
      assert id in p.timers ==> !IsAdvance(p, id);
    }
  }

  /** The Narrate button turns narration over: off means silence and no auto-play, on means that the cue on screen is
      spoken; only without any clip it turns nothing on. */
  lemma NarrateToggles(n: Narrator, clips: set<Cue>, current: Cue)
    requires SingleDriver(n)
    ensures var m := NarratePressed(n, clips, current);
            if n.narrationOn then !m.narrationOn && !m.autoplay && Silent(m) && m.spoken == n.spoken
            else if clips == {} then m == n
            else Speaks(n, m, clips, current) && !m.autoplay
  {
    SpeakMeaning(n, n.(narrationOn := true), clips, current);
    if n.narrationOn {
      StopSilences(n, NarratePressed(n, clips, current));
    }
    hide Speak, Speaks, Silent;
  }

  /** The Auto-play button turns auto-play over: off means silence, with narration left on, and on means that the cue on
      screen is spoken, with narration switched on too. */
  lemma PlayToggles(n: Narrator, clips: set<Cue>, current: Cue)
    requires SingleDriver(n)
    ensures var m := PlayPressed(n, clips, current);
            if n.autoplay then !m.autoplay && m.narrationOn && Silent(m) && m.spoken == n.spoken
            else if clips == {} then m == n
            else Speaks(n, m, clips, current) && m.autoplay
  {
    SpeakMeaning(n, n.(autoplay := true, narrationOn := true), clips, current);
    if n.autoplay {
      StopSilences(n, PlayPressed(n, clips, current));
    }
    hide Speak, Speaks, Silent;
  }

  /** The watcher speaks a cue once: when it came on screen, and not again as long as it stays there. */
  lemma CheckCueMeaning(n: Narrator, clips: set<Cue>, current: Cue)
    requires SingleDriver(n)
    ensures var m := CheckCue(n, clips, current);
            && m.lastCue == Some(current) && m.autoplay == n.autoplay && CheckCue(m, clips, current) == m
            && if n.lastCue == Some(current) then m == n
               else if n.narrationOn then Speaks(n, m, clips, current)
               else Silent(m) && m.spoken == n.spoken
  {
    SpeakMeaning(n, n.(lastCue := Some(current)), clips, current);
    hide Speak, Silent;
  }

  /** The end of a clip says nothing by itself; under auto-play it leaves one advance to come. */
  lemma EndedMeaning(n: Narrator)
    requires SingleDriver(n) && n.playing
    ensures var m := Ended(n);
            && !m.playing && m.spoken == n.spoken && m.lastCue == n.lastCue && m.autoplay == n.autoplay
            && ((exists id :: IsAdvance(m, id)) <==> n.handler && n.autoplay)
  {
    var m := Ended(n);
    forall id | IsAdvance(n, id)
      ensures false
    {
    }
    if n.handler && n.autoplay {
      assert IsAdvance(m, n.nextTimer);
    }
  }
}

/** The program's driver. */
module DeckNarration {
  import opened Wrappers
  import opened StageSpec
  import opened NarrationSpec

  class Driver {
    const clips: set<Cue>
    var curIdx: int
    var narrationOn: bool
    var autoplay: bool
    var advanceTimer: Option<nat>
    var lastCue: Option<Cue>
    var source: Option<Cue>
    var playing: bool
    var handler: bool
    var timers: map<nat, Callback>
    var nextTimer: nat
    var spoken: seq<Cue>

    function State(): Narrator
      reads this
    {
      Narrator(curIdx, narrationOn, autoplay, advanceTimer, lastCue, source, playing, handler, timers, nextTimer,
          spoken)
    }

    /** Boot: the watcher is seeded with the step on screen, so nothing plays before the first change. */
    constructor (clips: set<Cue>, stored: bool, current: Cue)
      ensures this.clips == clips
      ensures State() == Narrator(current.slide, stored, false, None, Some(current), None, false, false, map[], 0, [])
      ensures SingleDriver(State())
    {
      this.clips := clips;
      curIdx, narrationOn, autoplay, advanceTimer := current.slide, stored, false, None;
      lastCue, source, playing, handler := Some(current), None, false, false;
      timers, nextTimer, spoken := map[], 0, [];
    }

    method StopAudio()
      modifies this`playing, this`handler
      ensures State() == NarrationSpec.StopAudio(old(State()))
    {
      playing := false;
      handler := false;
    }

    method ClearAdvance()
      modifies this`timers, this`advanceTimer
      ensures State() == NarrationSpec.ClearAdvance(old(State()))
    {
      if advanceTimer.Some? {
        timers := timers - {advanceTimer.value};
        advanceTimer := None;
      }
    }

    method SetTimeout(c: Callback) returns (id: nat)
      modifies this`timers, this`nextTimer
      ensures id == old(nextTimer) && State() == SetTimer(old(State()), c)
    {
      id := nextTimer;
      timers := timers[id := c];
      nextTimer := nextTimer + 1;
    }

    /** The one entry point for audio. */
    method Speak(c: Cue)
      modifies this
      ensures State() == NarrationSpec.Speak(old(State()), clips, c)
    {
      StopAudio();
      ClearAdvance();
      lastCue := Some(c);
      if !narrationOn {
        return;
      }
      spoken := spoken + [c];
      if c !in clips {
        if autoplay {
          var id := SetTimeout(AutoNext);
          advanceTimer := Some(id);
        }
        return;
      }
      source := Some(c);
      handler := true;
      playing := true;
    }

    method OnEnded()
      modifies this
      ensures State() == Ended(old(State()))
    {
      if !playing {
        return;
      }
      playing := false;
      if handler && autoplay {
        var id := SetTimeout(AutoNext);
        advanceTimer := Some(id);
      }
    }

    method SetNarration(on: bool, current: Cue)
      modifies this
      ensures State() == NarrationSpec.SetNarration(old(State()), clips, on, current)
    {
      narrationOn := on;
      if !on {
        autoplay := false;
        ClearAdvance();
        StopAudio();
      } else {
        Speak(current);
      }
    }

    method StartAutoplay(current: Cue)
      modifies this
      ensures State() == NarrationSpec.StartAutoplay(old(State()), clips, current)
    {
      autoplay := true;
      if !narrationOn {
        narrationOn := true;
      }
      Speak(current);
    }

    method StopAutoplay()
      modifies this
      ensures State() == NarrationSpec.StopAutoplay(old(State()))
    {
      autoplay := false;
      ClearAdvance();
      playing := false;
    }

    /** The watcher. */
    method CheckCue(current: Cue)
      modifies this
      ensures State() == NarrationSpec.CheckCue(old(State()), clips, current)
    {
      if lastCue == Some(current) {
        return;
      }
      lastCue := Some(current);
      Speak(current);
    }

    method OnNarrate(current: Cue)
      modifies this
      ensures State() == NarratePressed(old(State()), clips, current)
    {
      if !narrationOn && clips == {} {
        return;
      }
      SetNarration(!narrationOn, current);
    }

    method OnPlay(current: Cue)
      modifies this
      ensures State() == PlayPressed(old(State()), clips, current)
    {
      if autoplay {
        StopAutoplay();
        return;
      }
      if clips == {} {
        return;
      }
      StartAutoplay(current);
    }

    /** The deferred half of the auto-advance. */
    method OnEndCheck(before: Cue, current: Cue)
      modifies this
      ensures State() == EndChecked(old(State()), before, current)
    {
      if current == before {
        StopAutoplay();
      }
    }
  }
}

/**
  The three scripts of a presented deck as one transition system: the stage, the
  reveals and the narration driver share the page's event queue.  A key press, a
  click, a delivered message, a fired timer and the end of a clip are atomic
  steps, in any order the page can produce.
*/
module Presentation {
  import opened Wrappers
  import opened Sequences
  import opened StageSpec
  import opened EnhanceSpec
  import opened NarrationSpec

  /** What the author supplied: the stepped elements of each slide, and the cues that have a clip. */
  datatype Deck = Deck(authored: Authored, clips: set<Cue>)

  datatype System = System(stage: Stage, steps: Enhance, nar: Narrator)

  datatype Event =
    | Key(forward: bool)              // an arrow, the space bar, a control button or a tap zone
    | Call(forward: bool)             // the public next() and prev(), past reveals not yet shown
    | Jump(target: int, reset: bool)  // Home, End, R, a digit, a thumbnail, the Reset button
    | DeleteSlide(at: int)
    | SkipSlide(at: int)
    | MoveSlide(from: nat, to: int)
    | Narrate
    | Play
    | Deliver                         // the oldest posted message reaches its listeners
    | ChildrenSeen                    // the reveals' mutation observer
    | SlotChanged
    | Poll                            // the watcher looks at the current step
    | ClipEnded
    | PlayRefused
    | Fire(id: nat)                   // a pending timer

  function CurrentCue(sys: System): Cue {
    var s := SlideAt(SlidesOf(sys.stage.children), sys.nar.curIdx);
    Cue(sys.nar.curIdx, if s.Some? then DotsOn(sys.steps, s.value) else 0)
  }

  /** The driver hears a slidechange event as it is fired. */
  function Heard(sys: System, t: Stage): System {
    sys.(stage := t,
         nar := if |t.fired| > |sys.stage.fired| then sys.nar.(curIdx := t.fired[|t.fired| - 1]) else sys.nar)
  }

  /** A step key: first the reveals of the shown slide, and only then the next slide. */
  function KeyPressed(sys: System, deck: Deck, forward: bool): System
    requires sys.stage.slides == [] || 0 <= sys.stage.index < |sys.stage.slides|
  {
    var slides := SlidesOf(sys.stage.children);
    if Consumes(sys.steps, deck.authored, slides, forward)
    then sys.(steps := Reveal(sys.steps, deck.authored, slides, forward))
    else Heard(sys, Advance(sys.stage, forward))
  }

  function Delivered(sys: System, deck: Deck): System {
    if sys.stage.outbox == [] then sys
    else
      var m := sys.stage.outbox[0];
      System(sys.stage.(outbox := sys.stage.outbox[1..]),
             Receive(sys.steps, deck.authored, SlidesOf(sys.stage.children), m),
             sys.nar.(curIdx := m.index))
  }

  /** The auto-advance: press the forward key, and look back later whether anything moved. */
  function AutoAdvanced(sys: System, deck: Deck): System
    requires sys.stage.slides == [] || 0 <= sys.stage.index < |sys.stage.slides|
  {
    if !sys.nar.autoplay then sys
    else
      var before := CurrentCue(sys);
      var moved := KeyPressed(sys, deck, true);
      moved.(nar := SetTimer(moved.nar, EndCheck(before)))
  }

  function Fired(sys: System, deck: Deck, id: nat): System
    requires sys.stage.slides == [] || 0 <= sys.stage.index < |sys.stage.slides|
  {
    if id !in sys.nar.timers then sys
    else
      var taken := sys.(nar := Taken(sys.nar, id));
      match sys.nar.timers[id]
      case AutoNext => AutoAdvanced(taken, deck)
      case EndCheck(before) => taken.(nar := EndChecked(taken.nar, before, CurrentCue(taken)))
  }

  predicate Enabled(sys: System, ev: Event) {
    ev.MoveSlide? ==> ev.from < |sys.stage.slides|
  }

  function Step(sys: System, deck: Deck, ev: Event): System
    requires 0 <= sys.stage.index < |sys.stage.slides| && Enabled(sys, ev)
  {
    match ev
    case Key(forward) => KeyPressed(sys, deck, forward)
    case Call(forward) => Heard(sys, Advance(sys.stage, forward))
    case Jump(target, reset) => Heard(sys, Go(sys.stage, target, reset))
    case DeleteSlide(at) => Heard(sys, Delete(sys.stage, at))
    case SkipSlide(at) => Heard(sys, ToggleSkip(sys.stage, at))
    case MoveSlide(from, to) => Heard(sys, Move(sys.stage, from, to))
    case Narrate => sys.(nar := NarratePressed(sys.nar, deck.clips, CurrentCue(sys)))
    case Play => sys.(nar := PlayPressed(sys.nar, deck.clips, CurrentCue(sys)))
    case Deliver => Delivered(sys, deck)
    case ChildrenSeen => sys.(steps := Observe(sys.steps, deck.authored, SlidesOf(sys.stage.children)))
    case SlotChanged => Heard(sys, SlotChange(sys.stage))
    case Poll => sys.(nar := CheckCue(sys.nar, deck.clips, CurrentCue(sys)))
    case ClipEnded => sys.(nar := Ended(sys.nar))
    case PlayRefused => sys.(nar := Rejected(sys.nar))
    case Fire(id) => Fired(sys, deck, id)
  }

  // ----- the invariant of every run ---------------------------------------------------------

  /** The listeners follow the stage: with nothing pending all three name the same slide, otherwise the
      newest pending message carries the stage's index. */
  ghost predicate Agreed(sys: System) {
    if sys.stage.outbox == [] then
      && sys.steps.currentIdx == sys.stage.index == sys.nar.curIdx
      && sys.steps.currentSlide == SlideAt(sys.stage.slides, sys.stage.index)
    else sys.stage.outbox[|sys.stage.outbox| - 1].index == sys.stage.index
  }

  ghost predicate Inv(sys: System, deck: Deck) {
    && Sound(sys.stage) && Synced(sys.stage) && sys.stage.slides != []
    && Tracked(sys.steps, deck.authored) && (forall s <- sys.stage.slides :: s in sys.steps.step)
    && SingleDriver(sys.nar)
    && Agreed(sys)
  }

  /** How an operation of the stage looks from outside: nothing to hear, or one more message that tells the new
      state. */
  ghost predicate Outcome(s: Stage, t: Stage) {
    || (t.outbox == s.outbox && t.fired == s.fired && t.index == s.index && t.slides == s.slides && t.skip == s.skip)
    || (&& |t.outbox| == |s.outbox| + 1 && t.outbox[..|s.outbox|] == s.outbox && Tells(t.outbox[|s.outbox|], t)
        && (t.fired == s.fired || t.fired == s.fired + [t.index]))
  }

  ghost predicate StageStep(s: Stage, t: Stage) {
    && Sound(t) && Synced(t) && t.slides != [] && (forall x <- t.slides :: x in s.slides)
    && Outcome(s, t)
  }

  /** No new message asks for a Reset. */
  ghost predicate NoReset(s: Stage, t: Stage) {
    forall k :: |s.outbox| <= k < |t.outbox| ==> !t.outbox[k].reset
  }

  lemma ApplyOutcome(s: Stage, reset: bool)
    requires s.slides != [] && 0 <= s.index < |s.slides|
    ensures var t := Apply(s, reset);
            && t.outbox == s.outbox + [Message(s.index, reset, |s.slides|, SkippedIndices(s.slides, s.skip))]
            && t.fired == s.fired + [s.index] && t.index == s.index && t.slides == s.slides && t.children == s.children
  {
  }

  lemma TellsOutcome(s: Stage, t: Stage, reset: bool)
    requires Posted(s, t, reset) && (t.fired == s.fired || t.fired == s.fired + [t.index])
    ensures Outcome(s, t) && (!reset ==> NoReset(s, t))
  {
  }

  lemma BroadcastOutcome(s: Stage, t: Stage, reset: bool)
    requires Broadcast(s, t, reset)
    ensures Outcome(s, t) && (!reset ==> NoReset(s, t))
  {
    TellsOutcome(s, t, reset);
  }

  lemma OutcomeStep(s: Stage, t: Stage)
    requires Sound(t) && Synced(t) && t.slides != [] && (forall x <- t.slides :: x in s.slides) && Outcome(s, t)
    ensures StageStep(s, t)
  {
  }

  lemma Unmoved(s: Stage)
    requires Sound(s) && Synced(s) && s.slides != []
    ensures StageStep(s, s) && NoReset(s, s)
  {
  }

  lemma SyncedSame(s: Stage, t: Stage)
    requires Synced(s) && t.slides == s.slides && t.children == s.children
    ensures Synced(t)
  {
  }

  lemma GoStep(s: Stage, i: int, force: bool)
    requires Sound(s) && Synced(s) && s.slides != []
    ensures StageStep(s, Go(s, i, force)) && Go(s, i, force).skip == s.skip
  {
    GoChildren(s, i, force);
    hide *;
    GoSound(s, i, force);
    var t := Go(s, i, force);
    SyncedSame(s, t);
    if t == s {
      Unmoved(s);
    } else {
      BroadcastOutcome(s, t, t.index == s.index);
      OutcomeStep(s, t);
    }
  }

  lemma GoChildren(s: Stage, i: int, force: bool)
    ensures Go(s, i, force).children == s.children
  {
    if s.slides != [] {
      hide LandsOn, LiveIndex;
      LiveIndexNearest(s.slides, s.skip, i);
    }
  }

  lemma AdvanceStep(s: Stage, forward: bool)
    requires Sound(s) && Synced(s) && s.slides != []
    ensures StageStep(s, Advance(s, forward)) && Advance(s, forward).skip == s.skip
            && Advance(s, forward).slides == s.slides
  {
    AdvanceSound(s, forward);
    hide *;
    var t := Advance(s, forward);
    SteppedParts(s, t, forward);
    SyncedSame(s, t);
    if t == s {
      Unmoved(s);
    } else {
      BroadcastOutcome(s, t, false);
      OutcomeStep(s, t);
    }
  }

  lemma SteppedParts(s: Stage, t: Stage, forward: bool)
    requires Stepped(s, t, forward)
    ensures t.slides == s.slides && t.skip == s.skip && t.children == s.children
    ensures t != s ==> Broadcast(s, t, false)
  {
  }

  lemma DeleteStep(s: Stage, i: int)
    requires Sound(s) && Synced(s) && s.slides != []
    ensures StageStep(s, Delete(s, i)) && NoReset(s, Delete(s, i))
  {
    hide *;
    DeleteSound(s, i);
    if 0 <= i < |s.slides| && |s.slides| > 1 {
      RemovedMembers(s.slides, i);
      BroadcastOutcome(s, Delete(s, i), false);
      OutcomeStep(s, Delete(s, i));
    } else {
      Unmoved(s);
    }
  }

  lemma RemovedMembers(slides: seq<SlideId>, i: nat)
    requires i < |slides|
    ensures |RemoveAt(slides, i)| == |slides| - 1 && forall x <- RemoveAt(slides, i) :: x in slides
  {
  }

  lemma ToggleStep(s: Stage, i: int)
    requires Sound(s) && Synced(s) && s.slides != []
    ensures StageStep(s, ToggleSkip(s, i)) && NoReset(s, ToggleSkip(s, i))
  {
    hide *;
    ToggleSkipSound(s, i);
    if 0 <= i < |s.slides| {
      var t := ToggleSkip(s, i);
      SyncedSame(s, t);
      TellsOutcome(s, t, false);
      OutcomeStep(s, t);
    } else {
      Unmoved(s);
    }
  }

  lemma MoveStep(s: Stage, i: nat, j: int)
    requires Sound(s) && Synced(s) && i < |s.slides|
    ensures StageStep(s, Move(s, i, j)) && NoReset(s, Move(s, i, j))
  {
    hide *;
    InRange(s);
    MoveSound(s, i, j);
    if 0 <= j < |s.slides| && j != i {
      MovedMembers(s.slides, i, j);
      BroadcastOutcome(s, Move(s, i, j), false);
      OutcomeStep(s, Move(s, i, j));
    } else {
      Unmoved(s);
    }
  }

  lemma MovedMembers(slides: seq<SlideId>, i: nat, j: nat)
    requires i < |slides| && j < |slides|
    ensures |MoveTo(slides, i, j)| == |slides| && forall x <- MoveTo(slides, i, j) :: x in slides
  {
  }

  lemma SlotChangeStep(s: Stage)
    requires Sound(s) && Synced(s) && s.slides != []
    ensures StageStep(s, SlotChange(s))
  {
    SyncedSlides(s);
    hide *;
    SlotChangeSound(s);
    if s.squelch {
      SquelchedSame(s);
      SquelchedOutcome(s);
      OutcomeStep(s, SlotChange(s));
    } else {
      SlotChangeSyncs(s);
      SlotChangeSlides(s);
      BroadcastOutcome(s, SlotChange(s), false);
      OutcomeStep(s, SlotChange(s));
    }
  }

  lemma SquelchedOutcome(s: Stage)
    ensures Outcome(s, s.(squelch := false))
  {
  }

  lemma SlotChangeSlides(s: Stage)
    requires !s.squelch
    ensures SlotChange(s).slides == SlidesOf(s.children)
  {
    SlotChanges(s);
    CollectKeeps(s);
    RestoreKeeps(Collect(s));
    hide SlotChange, Collect, Restore, Apply, SlidesOf;
    ApplyKeeps(Restore(Collect(s)), false);
  }

  lemma SquelchedSame(s: Stage)
    requires Sound(s) && Synced(s)
    ensures Sound(s.(squelch := false)) && Synced(s.(squelch := false))
  {
  }

  lemma StageStepKeepsInv(sys: System, deck: Deck, t: Stage)
    requires Inv(sys, deck) && StageStep(sys.stage, t)
    ensures Inv(Heard(sys, t), deck)
  {
    hide Sound, Synced, Tracked, SingleDriver;
    var after := Heard(sys, t);
    assert SingleDriver(after.nar) by {
      FewerTimersSingle(sys.nar, after.nar);
    }
    if t.outbox == sys.stage.outbox == [] {
      assert t.index == sys.stage.index && t.fired == sys.stage.fired;
    }
  }

  lemma KeyKeepsInv(sys: System, deck: Deck, forward: bool)
    requires Inv(sys, deck)
    ensures Inv(KeyPressed(sys, deck, forward), deck)
  {
    InRange(sys.stage);
    hide Sound, Tracked, SingleDriver, Consumes, Reveal, Advance;
    if Consumes(sys.steps, deck.authored, sys.stage.slides, forward) {
      ConsumesInRange(sys.steps, deck.authored, sys.stage.slides, forward);
      RevealEffect(sys.steps, deck.authored, sys.stage.slides, forward);
    } else {
      AdvanceStep(sys.stage, forward);
      StageStepKeepsInv(sys, deck, Advance(sys.stage, forward));
    }
  }

  lemma ConsumesInRange(e: Enhance, authored: Authored, slides: seq<SlideId>, forward: bool)
    requires Consumes(e, authored, slides, forward)
    ensures 0 <= e.currentIdx < |slides|
  {
  }

  lemma DeliveredKeepsInv(sys: System, deck: Deck)
    requires Inv(sys, deck)
    ensures Inv(Delivered(sys, deck), deck)
  {
    hide Sound, Tracked, SingleDriver, Receive, Entered;
    if sys.stage.outbox != [] {
      var m := sys.stage.outbox[0];
      var after := Delivered(sys, deck);
      SoundOutbox(sys.stage, sys.stage.outbox[1..]);
      ReceiveEffect(sys.steps, deck.authored, sys.stage.slides, m);
      FewerTimersSingle(sys.nar, after.nar);
    }
  }

  lemma SoundOutbox(s: Stage, outbox: seq<Message>)
    requires Sound(s)
    ensures Sound(s.(outbox := outbox))
  {
  }

  lemma NarKeepsInv(sys: System, deck: Deck, n: Narrator)
    requires Inv(sys, deck) && SingleDriver(n) && n.curIdx == sys.nar.curIdx
    ensures Inv(sys.(nar := n), deck)
  {
  }

  lemma SpeakKeepsIndex(n: Narrator, clips: set<Cue>, c: Cue)
    ensures Speak(n, clips, c).curIdx == n.curIdx
  {
  }

  lemma DriverKeepsIndex(n: Narrator, clips: set<Cue>, c: Cue)
    ensures CheckCue(n, clips, c).curIdx == n.curIdx
    ensures NarratePressed(n, clips, c).curIdx == n.curIdx && PlayPressed(n, clips, c).curIdx == n.curIdx
    ensures Ended(n).curIdx == n.curIdx && StopAutoplay(n).curIdx == n.curIdx
  {
    hide Speak;
    SpeakKeepsIndex(n.(lastCue := Some(c)), clips, c);
    SpeakKeepsIndex(n.(narrationOn := true), clips, c);
    SpeakKeepsIndex(n.(autoplay := true, narrationOn := true), clips, c);
  }

  lemma AutoAdvancedKeepsInv(sys: System, deck: Deck)
    requires Inv(sys, deck)
    ensures Inv(AutoAdvanced(sys, deck), deck)
  {
    InRange(sys.stage);
    hide Inv, KeyPressed;
    if sys.nar.autoplay {
      KeyKeepsInv(sys, deck, true);
      var moved := KeyPressed(sys, deck, true);
      InvParts(moved, deck);
      CheckTimerSingle(moved.nar, CurrentCue(sys));
      NarKeepsInv(moved, deck, SetTimer(moved.nar, EndCheck(CurrentCue(sys))));
    }
  }

  lemma InvParts(sys: System, deck: Deck)
    requires Inv(sys, deck)
    ensures SingleDriver(sys.nar) && Sound(sys.stage) && Synced(sys.stage) && sys.stage.slides != []
    ensures 0 <= sys.stage.index < |sys.stage.slides|
  {
  }

  lemma FiredKeepsInv(sys: System, deck: Deck, id: nat)
    requires Inv(sys, deck)
    ensures Inv(Fired(sys, deck, id), deck)
  {
    InvParts(sys, deck);
    hide Inv, AutoAdvanced, StopAutoplay;
    if id in sys.nar.timers {
      FewerTimersSingle(sys.nar, Taken(sys.nar, id));
      NarKeepsInv(sys, deck, Taken(sys.nar, id));
      var taken := sys.(nar := Taken(sys.nar, id));
      AutoAdvancedKeepsInv(taken, deck);
      StopAutoplaySingle(taken.nar);
      DriverKeepsIndex(taken.nar, deck.clips, CurrentCue(taken));
      NarKeepsInv(taken, deck, StopAutoplay(taken.nar));
    }
  }

  lemma ObserveEffect(e: Enhance, authored: Authored, slides: seq<SlideId>)
    requires Tracked(e, authored)
    ensures var f := Observe(e, authored, slides);
            && Tracked(f, authored) && f.currentIdx == e.currentIdx && f.currentSlide == e.currentSlide
            && Entered(f, slides, e.currentIdx) && forall s <- e.step :: s in f.step && f.step[s] == e.step[s]
  {
    hide Tracked, InitMissing, Activate, Entered;
    InitMissingTracks(e, authored, slides);
    ActivateTracks(InitMissing(e, authored, slides), authored, slides, e.currentIdx);
  }

  lemma RevealKeepsInv(sys: System, deck: Deck, e: Enhance)
    requires Inv(sys, deck) && Tracked(e, deck.authored)
    requires e.currentIdx == sys.steps.currentIdx && e.currentSlide == sys.steps.currentSlide
    requires forall s <- sys.steps.step :: s in e.step
    ensures Inv(sys.(steps := e), deck)
  {
  }

  lemma CallKeepsInv(sys: System, deck: Deck, forward: bool)
    requires Inv(sys, deck)
    ensures 0 <= sys.stage.index < |sys.stage.slides| && Inv(Heard(sys, Advance(sys.stage, forward)), deck)
  {
    InvParts(sys, deck);
    hide *;
    AdvanceStep(sys.stage, forward);
    StageStepKeepsInv(sys, deck, Advance(sys.stage, forward));
  }

  lemma JumpKeepsInv(sys: System, deck: Deck, target: int, reset: bool)
    requires Inv(sys, deck)
    ensures 0 <= sys.stage.index < |sys.stage.slides| && Inv(Heard(sys, Go(sys.stage, target, reset)), deck)
  {
    InvParts(sys, deck);
    hide *;
    GoStep(sys.stage, target, reset);
    StageStepKeepsInv(sys, deck, Go(sys.stage, target, reset));
  }

  lemma DeleteKeepsInv(sys: System, deck: Deck, at: int)
    requires Inv(sys, deck)
    ensures Inv(Heard(sys, Delete(sys.stage, at)), deck)
  {
    InvParts(sys, deck);
    hide *;
    DeleteStep(sys.stage, at);
    StageStepKeepsInv(sys, deck, Delete(sys.stage, at));
  }

  lemma SkipKeepsInv(sys: System, deck: Deck, at: int)
    requires Inv(sys, deck)
    ensures Inv(Heard(sys, ToggleSkip(sys.stage, at)), deck)
  {
    InvParts(sys, deck);
    hide *;
    ToggleStep(sys.stage, at);
    StageStepKeepsInv(sys, deck, ToggleSkip(sys.stage, at));
  }

  lemma MoveKeepsInv(sys: System, deck: Deck, from: nat, to: int)
    requires Inv(sys, deck) && from < |sys.stage.slides|
    ensures 0 <= sys.stage.index && Inv(Heard(sys, Move(sys.stage, from, to)), deck)
  {
    InvParts(sys, deck);
    hide *;
    MoveStep(sys.stage, from, to);
    StageStepKeepsInv(sys, deck, Move(sys.stage, from, to));
  }

  lemma SlotKeepsInv(sys: System, deck: Deck)
    requires Inv(sys, deck)
    ensures Inv(Heard(sys, SlotChange(sys.stage)), deck)
  {
    InvParts(sys, deck);
    hide *;
    SlotChangeStep(sys.stage);
    StageStepKeepsInv(sys, deck, SlotChange(sys.stage));
  }

  /** The events only the driver sees. */
  predicate DriverEvent(ev: Event) {
    ev.Narrate? || ev.Play? || ev.Poll? || ev.ClipEnded? || ev.PlayRefused?
  }

  function DriverAfter(n: Narrator, clips: set<Cue>, current: Cue, ev: Event): Narrator
    requires DriverEvent(ev)
  {
    if ev.Narrate? then NarratePressed(n, clips, current)
    else if ev.Play? then PlayPressed(n, clips, current)
    else if ev.Poll? then CheckCue(n, clips, current)
    else if ev.ClipEnded? then Ended(n)
    else Rejected(n)
  }

  lemma DriverEventKeepsInv(sys: System, deck: Deck, current: Cue, ev: Event)
    requires Inv(sys, deck) && DriverEvent(ev)
    ensures Inv(sys.(nar := DriverAfter(sys.nar, deck.clips, current, ev)), deck)
  {
    InvParts(sys, deck);
    PressesSingle(sys.nar, deck.clips, current);
    CheckCueSingle(sys.nar, deck.clips, current);
    EndedSingle(sys.nar);
    RejectedSingle(sys.nar);
    DriverKeepsIndex(sys.nar, deck.clips, current);
    hide Inv, SingleDriver, NarratePressed, PlayPressed, CheckCue, Ended, Rejected;
    NarKeepsInv(sys, deck, DriverAfter(sys.nar, deck.clips, current, ev));
  }

  lemma SeenKeepsInv(sys: System, deck: Deck)
    requires Inv(sys, deck)
    ensures Inv(sys.(steps := Observe(sys.steps, deck.authored, SlidesOf(sys.stage.children))), deck)
  {
    hide *;
    InvTracked(sys, deck);
    ObserveEffect(sys.steps, deck.authored, SlidesOf(sys.stage.children));
    RevealKeepsInv(sys, deck, Observe(sys.steps, deck.authored, SlidesOf(sys.stage.children)));
  }

  lemma DriverStep(sys: System, deck: Deck, ev: Event)
    requires 0 <= sys.stage.index < |sys.stage.slides| && DriverEvent(ev)
    ensures Enabled(sys, ev)
    ensures Step(sys, deck, ev) == sys.(nar := DriverAfter(sys.nar, deck.clips, CurrentCue(sys), ev))
  {
    hide NarratePressed, PlayPressed, CheckCue, Ended, Rejected, CurrentCue;
  }

  /** Every event the page can produce keeps the invariant. */
  lemma StepKeepsInv(sys: System, deck: Deck, ev: Event)
    requires Inv(sys, deck) && Enabled(sys, ev)
    ensures 0 <= sys.stage.index < |sys.stage.slides| && Inv(Step(sys, deck, ev), deck)
  {
    InvParts(sys, deck);
    hide Inv, Sound, Synced, KeyPressed, Delivered, Fired, Observe, SingleDriver, Heard, CurrentCue;
    hide Go, Advance, Delete, ToggleSkip, Move, SlotChange, NarratePressed, PlayPressed, CheckCue, Ended, Rejected,
         DriverAfter;
    if DriverEvent(ev) {
      DriverStep(sys, deck, ev);
      DriverEventKeepsInv(sys, deck, CurrentCue(sys), ev);
    } else if ev.Key? {
      KeyKeepsInv(sys, deck, ev.forward);
    } else if ev.Call? {
      CallKeepsInv(sys, deck, ev.forward);
    } else if ev.Jump? {
      JumpKeepsInv(sys, deck, ev.target, ev.reset);
    } else if ev.DeleteSlide? {
      DeleteKeepsInv(sys, deck, ev.at);
    } else if ev.SkipSlide? {
      SkipKeepsInv(sys, deck, ev.at);
    } else if ev.MoveSlide? {
      MoveKeepsInv(sys, deck, ev.from, ev.to);
    } else if ev.Deliver? {
      DeliveredKeepsInv(sys, deck);
    } else if ev.ChildrenSeen? {
      SeenKeepsInv(sys, deck);
    } else if ev.SlotChanged? {
      SlotKeepsInv(sys, deck);
    } else {
      FiredKeepsInv(sys, deck, ev.id);
    }
  }

  lemma RejectedSingle(n: Narrator)
    requires SingleDriver(n)
    ensures SingleDriver(Rejected(n)) && Rejected(n).curIdx == n.curIdx
  {
    FewerTimersSingle(n, Rejected(n));
  }

  lemma InvTracked(sys: System, deck: Deck)
    requires Inv(sys, deck)
    ensures Tracked(sys.steps, deck.authored)
  {
  }

  /** A run: each event enabled in the state it meets. */
  ghost predicate Run(start: System, deck: Deck, events: seq<Event>, end: System)
    decreases |events|
  {
    if events == [] then end == start
    else
      && 0 <= start.stage.index < |start.stage.slides| && Enabled(start, events[0])
      && Run(Step(start, deck, events[0]), deck, events[1..], end)
  }

  /** In every reachable state the deck is sound, the driver is single, the reveals agree with their dots,
      and the listeners follow the stage. */
  lemma {:induction false} EveryRunKeepsInv(start: System, deck: Deck, events: seq<Event>, end: System)
    requires Inv(start, deck) && Run(start, deck, events, end)
    ensures Inv(end, deck)
    decreases |events|
  {
    hide Inv, Step;
    if events != [] {
      StepKeepsInv(start, deck, events[0]);
      EveryRunKeepsInv(Step(start, deck, events[0]), deck, events[1..], end);
    }
  }

  // ----- start-up ------------------------------------------------------------------------------

  /** The stage once its first slotchange was handled. */
  function Mounted(children: seq<Child>, skip: set<SlideId>, hash: Option<int>): Stage {
    SlotChange(Stage(children, [], 0, None, skip, {}, {}, map[], hash, false, [], []))
  }

  /** The page once all three scripts have run: the reveals boot from the stage's marker, the narration at slide 0. */
  function Booted(deck: Deck, stage: Stage, stored: bool): System {
    var steps := InitAll(Enhance(map[], map[], map[], {}, 0, None), deck.authored, SlidesOf(stage.children),
                 stage.active, stage.hash);
    var s := SlideAt(SlidesOf(stage.children), 0);
    var seen := Cue(0, if s.Some? then DotsOn(steps, s.value) else 0);
    System(stage, steps, Narrator(0, stored, false, None, Some(seen), None, false, false, map[], 0, []))
  }

  lemma MountedStage(children: seq<Child>, skip: set<SlideId>, hash: Option<int>)
    requires Distinct(children) && SlidesOf(children) != []
    ensures var s := Mounted(children, skip, hash);
            && Sound(s) && Synced(s) && s.slides == SlidesOf(children)
            && |s.outbox| == 1 && Tells(s.outbox[0], s) && s.outbox[0].index == s.index
            && LandsOn(s.slides, skip,
                       if hash.Some? && 1 <= hash.value <= |s.slides| then hash.value - 1 else 0, s.index)
  {
    hide *;
    var s := Stage(children, [], 0, None, skip, {}, {}, map[], hash, false, [], []);
    MountedIs(children, skip, hash);
    Blank(children, skip, hash);
    SlotChangeSound(s);
    SlotChangeSyncs(s);
    SlotChangeSlides(s);
    OneTells(s, SlotChange(s));
  }

  /** Before anything was seen. */
  lemma Blank(children: seq<Child>, skip: set<SlideId>, hash: Option<int>)
    requires Distinct(children)
    ensures Sound(Stage(children, [], 0, None, skip, {}, {}, map[], hash, false, [], []))
  {
  }

  lemma OneTells(s: Stage, t: Stage)
    requires s.outbox == [] && Broadcast(s, t, false)
    ensures |t.outbox| == 1 && Tells(t.outbox[0], t) && t.outbox[0].index == t.index
  {
  }

  lemma MarkedIsIndex(s: Stage)
    requires Sound(s) && s.slides != []
    ensures CurrentIndex(s.slides, s.active, s.hash) == s.index
  {
    assert s.slides[s.index] in s.active * Elements(s.slides);
    var k := FirstMarked(s.slides, s.active, 0);
    if k >= 0 {
      assert s.slides[k] in s.active * Elements(s.slides);
    }
  }

  /** What the invariant asks of a freshly booted page. */
  lemma FreshPage(sys: System, deck: Deck)
    requires Sound(sys.stage) && Synced(sys.stage) && sys.stage.slides != []
    requires |sys.stage.outbox| == 1 && sys.stage.outbox[0].index == sys.stage.index
    requires Tracked(sys.steps, deck.authored) && (forall s <- sys.stage.slides :: s in sys.steps.step)
    requires sys.steps.currentIdx == sys.stage.index
    requires sys.steps.currentSlide == SlideAt(sys.stage.slides, sys.stage.index)
    requires sys.nar.timers == map[] && sys.nar.advanceTimer == None && !sys.nar.autoplay && !sys.nar.playing
    ensures Inv(sys, deck)
    ensures Inv(sys.(stage := sys.stage.(outbox := [])), deck) <==> sys.nar.curIdx == sys.stage.index
  {
    SoundOutbox(sys.stage, []);
    hide Sound, Tracked;
  }

  /** Start-up meets the invariant as long as the first message is still on its way.  Had it been lost, delivered
      before the listeners existed, the invariant would hold if and only if the deck opened on its first slide:
      the reveals boot from the stage's marker, but the narration believes it is on slide 0. */
  lemma {:induction false} StartUp(deck: Deck, children: seq<Child>, skip: set<SlideId>, hash: Option<int>,
                                   stored: bool)
    requires Distinct(children) && SlidesOf(children) != []
    ensures var sys := Booted(deck, Mounted(children, skip, hash), stored);
            && Inv(sys, deck)
            && var missed := sys.(stage := sys.stage.(outbox := []));
               Inv(missed, deck) <==> sys.stage.index == 0
  {
    var stage := Mounted(children, skip, hash);
    var sys := Booted(deck, stage, stored);
    var blank := Enhance(map[], map[], map[], {}, 0, None);
    hide *;
    MountedStage(children, skip, hash);
    MarkedIsIndex(stage);
    SoundDistinct(stage);
    InitAllTracks(blank, deck.authored, stage.slides, stage.active, stage.hash);
    BootedParts(deck, stage, stored);
    FreshPage(sys, deck);
  }

  lemma MountedAtHash(children: seq<Child>, skip: set<SlideId>, hash: Option<int>)
    requires hash.Some? && 1 <= hash.value <= |SlidesOf(children)| && SlidesOf(children)[hash.value - 1] !in skip
    requires Distinct(children)
    ensures Mounted(children, skip, hash).index == hash.value - 1
  {
    MountedStage(children, skip, hash);
    hide Mounted, SlidesOf, Sound, Synced;
  }

  lemma MountedIs(children: seq<Child>, skip: set<SlideId>, hash: Option<int>)
    ensures Mounted(children, skip, hash) ==
            SlotChange(Stage(children, [], 0, None, skip, {}, {}, map[], hash, false, [], []))
  {
    hide SlotChange;
  }

  /** A deck of two slides opened at its second: had the first message been lost, the narration would be off by one. */
  lemma DeepLinkLost(deck: Deck, stored: bool)
    ensures var sys := Booted(deck, Mounted([Slide(0), Slide(1)], {}, Some(2)), stored);
            sys.stage.index == 1 && !Inv(sys.(stage := sys.stage.(outbox := [])), deck)
  {
    var children := [Slide(0), Slide(1)];
    TwoSlides();
    hide *;
    MountedAtHash(children, {}, Some(2));
    StartUp(deck, children, {}, Some(2), stored);
    BootedParts(deck, Mounted(children, {}, Some(2)), stored);
  }

  lemma TwoSlides()
    ensures var children := [Slide(0), Slide(1)]; Distinct(children) && SlidesOf(children) == [0, 1]
  {
    var children := [Slide(0), Slide(1)];
    assert children[..1] == [Slide(0)] && children[1..] == [Slide(1)] && [Slide(1)][1..] == [];
  }

  lemma BootedParts(deck: Deck, stage: Stage, stored: bool)
    ensures var sys := Booted(deck, stage, stored);
            && sys.stage == stage
            && (Synced(stage) ==>
                  sys.steps == InitAll(Enhance(map[], map[], map[], {}, 0, None), deck.authored, stage.slides,
                      stage.active, stage.hash))
            && sys.nar.timers == map[] && sys.nar.advanceTimer == None && !sys.nar.autoplay && !sys.nar.playing
            && sys.nar.curIdx == 0
  {
    hide InitAll;
  }

  lemma SoundDistinct(s: Stage)
    requires Sound(s)
    ensures Distinct(s.slides) && (s.slides != [] ==> 0 <= s.index < |s.slides|)
  {
  }

  /** A lost first message is made good by the next one, whatever operation posts it. */
  lemma NextMessageHeals(sys: System, deck: Deck, missed: System, t: Stage)
    requires Inv(sys, deck) && missed == sys.(stage := sys.stage.(outbox := []))
    requires StageStep(missed.stage, t) && t.outbox != []
    ensures Inv(Heard(missed, t), deck)
  {
    hide Sound, Synced, Tracked, SingleDriver;
    var after := Heard(missed, t);
    FewerTimersSingle(sys.nar, after.nar);
  }

  // ----- content and reveals under rail edits -----------------------------------------------

  function Presented(s: Stage): SlideId
    requires 0 <= s.index < |s.slides|
  {
    s.slides[s.index]
  }

  /** The listeners catch up with one operation of the stage: the mutation observer runs, the message arrives. */
  function CaughtUp(sys: System, deck: Deck, t: Stage): System {
    var seen := Heard(sys, t);
    Delivered(seen.(steps := Observe(seen.steps, deck.authored, SlidesOf(t.children))), deck)
  }

  /** After the listeners caught up, the step of every slide is what it was before, except that a slide that
      newly came on screen, or was reset, starts from zero. */
  lemma CatchUp(sys: System, deck: Deck, t: Stage)
    requires Inv(sys, deck) && sys.stage.outbox == [] && StageStep(sys.stage, t)
    requires 0 <= t.index < |t.slides| && 0 <= sys.stage.index < |sys.stage.slides|
    ensures var after, p := CaughtUp(sys, deck, t), Presented(t);
            && Inv(after, deck) && after.stage.outbox == []
            && after.stage.slides == t.slides && after.stage.index == t.index
            && (forall x <- t.slides :: x in sys.stage.slides)
            && forall x <- t.slides ::
                 after.steps.step[x] ==
                 if x == p && (p != Presented(sys.stage) || exists m <- t.outbox :: m.reset) then 0
                    else sys.steps.step[x]
  {
    InvTracked(sys, deck);
    StageStepKeepsInv(sys, deck, t);
    var heard := Heard(sys, t);
    ObserveEffect(heard.steps, deck.authored, SlidesOf(t.children));
    var seen := heard.(steps := Observe(heard.steps, deck.authored, SlidesOf(t.children)));
    RevealKeepsInv(heard, deck, seen.steps);
    DeliveredKeepsInv(seen, deck);
    InvParts(seen, deck);
    SyncedSlides(t);
    CaughtSteps(sys, deck, t, seen);
  }

  lemma SyncedSlides(s: Stage)
    requires Synced(s)
    ensures SlidesOf(s.children) == s.slides
  {
  }

  lemma CaughtSteps(sys: System, deck: Deck, t: Stage, seen: System)
    requires Inv(sys, deck) && Inv(seen, deck) && sys.stage.outbox == [] && Outcome(sys.stage, t) && seen.stage == t
    requires 0 <= t.index < |t.slides| && 0 <= sys.stage.index < |sys.stage.slides| && SlidesOf(t.children) == t.slides
    requires forall x <- t.slides :: x in sys.stage.slides
    requires seen.steps.currentSlide == sys.steps.currentSlide
    requires forall x <- sys.steps.step :: x in seen.steps.step && seen.steps.step[x] == sys.steps.step[x]
    ensures var after, p := Delivered(seen, deck), Presented(t);
            && after.stage.outbox == [] && after.stage.slides == t.slides && after.stage.index == t.index
            && forall x <- t.slides ::
                 x in after.steps.step && x in sys.steps.step
                 && after.steps.step[x] ==
                    if x == p && (p != Presented(sys.stage) || exists m <- t.outbox :: m.reset) then 0
                       else sys.steps.step[x]
  {
    hide Sound, Synced, Tracked, SingleDriver, Receive, Entered;
    if t.outbox != [] {
      var m := t.outbox[0];
      assert t.outbox == [m];
      InvTracked(seen, deck);
      ReceiveEffect(seen.steps, deck.authored, t.slides, m);
    }
  }

  /** A rail edit: dragging any slide, deleting another one, skipping or unskipping any. */
  ghost predicate RailEdit(s: Stage, ev: Event) {
    match ev
    case MoveSlide(from, _) => from < |s.slides|
    case DeleteSlide(at) => at != s.index
    case SkipSlide(_) => true
    case _ => false
  }

  function Edited(s: Stage, ev: Event): Stage
    requires 0 <= s.index < |s.slides| && (ev.MoveSlide? ==> ev.from < |s.slides|)
  {
    match ev
    case MoveSlide(from, to) => Move(s, from, to)
    case DeleteSlide(at) => Delete(s, at)
    case SkipSlide(at) => ToggleSkip(s, at)
    case _ => s
  }

  lemma EditedKeepsSlide(s: Stage, ev: Event)
    requires Sound(s) && Synced(s) && s.slides != [] && RailEdit(s, ev) && 0 <= s.index < |s.slides|
    requires Presented(s) !in s.skip
    ensures StageStep(s, Edited(s, ev)) && NoReset(s, Edited(s, ev))
    ensures var t := Edited(s, ev); 0 <= t.index < |t.slides| && Presented(t) == Presented(s)
  {
    hide Sound, Synced, StageStep, NoReset, Move, Delete, ToggleSkip;
    match ev
    case MoveSlide(from, to) =>
      MoveStep(s, from, to);
      if 0 <= to < |s.slides| {
        MoveKeepsSlide(s, from, to);
        InRangeAfter(s, Move(s, from, to));
      } else {
        MoveNothing(s, from, to);
      }
    case DeleteSlide(at) =>
      DeleteStep(s, at);
      if 0 <= at < |s.slides| {
        DeleteKeepsSlide(s, at);
        InRangeAfter(s, Delete(s, at));
      } else {
        DeleteNothing(s, at);
      }
    case SkipSlide(at) =>
      ToggleStep(s, at);
      ToggleKeepsSlide(s, at);
  }

  lemma InRangeAfter(s: Stage, t: Stage)
    requires StageStep(s, t)
    ensures 0 <= t.index < |t.slides|
  {
  }

  lemma MoveNothing(s: Stage, i: nat, j: int)
    requires i < |s.slides| && 0 <= s.index && !(0 <= j < |s.slides|)
    ensures Move(s, i, j) == s
  {
  }

  lemma DeleteNothing(s: Stage, i: int)
    requires !(0 <= i < |s.slides|)
    ensures Delete(s, i) == s
  {
  }

  lemma ToggleKeepsSlide(s: Stage, i: int)
    ensures ToggleSkip(s, i).slides == s.slides && ToggleSkip(s, i).index == s.index
  {
  }

  /** The same slide is on screen, every remaining slide shows the same reveals, and nothing is pending. */
  ghost predicate SameContent(before: System, after: System) {
    && after.stage.outbox == []
    && 0 <= before.stage.index < |before.stage.slides| && 0 <= after.stage.index < |after.stage.slides|
    && Presented(after.stage) == Presented(before.stage)
    && forall x <- after.stage.slides ::
         x in before.stage.slides && x in before.steps.step && x in after.steps.step
         && after.steps.step[x] == before.steps.step[x]
  }

  /** Dragging any slide, deleting another or skipping one, while a live slide is presented and every message
      is delivered before the next edit, keeps the same slide on screen and every reveal step as it was. */
  lemma RailEditKeepsContent(sys: System, deck: Deck, ev: Event)
    requires Inv(sys, deck) && sys.stage.outbox == [] && RailEdit(sys.stage, ev)
    requires 0 <= sys.stage.index < |sys.stage.slides| && Presented(sys.stage) !in sys.stage.skip
    ensures Enabled(sys, ev) && Step(sys, deck, ev) == Heard(sys, Edited(sys.stage, ev))
    ensures Inv(CaughtUp(sys, deck, Edited(sys.stage, ev)), deck)
    ensures SameContent(sys, CaughtUp(sys, deck, Edited(sys.stage, ev)))
  {
    EditStep(sys, deck, ev);
    InvParts(sys, deck);
    InvSteps(sys, deck);
    hide Inv, Sound, Synced, StageStep, Edited, RailEdit, Step, Heard, CaughtUp;
    var t := Edited(sys.stage, ev);
    EditedKeepsSlide(sys.stage, ev);
    CatchUp(sys, deck, t);
    InvSteps(CaughtUp(sys, deck, t), deck);
  }

  lemma EditStep(sys: System, deck: Deck, ev: Event)
    requires RailEdit(sys.stage, ev) && 0 <= sys.stage.index < |sys.stage.slides|
    ensures Enabled(sys, ev) && Step(sys, deck, ev) == Heard(sys, Edited(sys.stage, ev))
  {
    hide Move, Delete, ToggleSkip, Heard;
  }

  lemma InvSteps(sys: System, deck: Deck)
    requires Inv(sys, deck)
    ensures forall x <- sys.stage.slides :: x in sys.steps.step
  {
  }

  /** Deleting the presented slide shows another one, from its first step. */
  lemma DeletePresentedStartsClean(sys: System, deck: Deck)
    requires Inv(sys, deck) && sys.stage.outbox == [] && |sys.stage.slides| > 1
    ensures var after := CaughtUp(sys, deck, Delete(sys.stage, sys.stage.index));
            && Inv(after, deck) && 0 <= after.stage.index < |after.stage.slides|
            && 0 <= sys.stage.index < |sys.stage.slides|
            && Presented(after.stage) != Presented(sys.stage) && after.steps.step[Presented(after.stage)] == 0
  {
    InvParts(sys, deck);
    hide Inv, Sound, Synced, StageStep, Delete, CaughtUp;
    DeleteStep(sys.stage, sys.stage.index);
    var p := DeleteShowsHeir(sys.stage);
    InRangeAfter(sys.stage, Delete(sys.stage, sys.stage.index));
    CatchUp(sys, deck, Delete(sys.stage, sys.stage.index));
  }

  /** A real navigation zeroes the slide it arrives on, Reset zeroes even the slide already shown, a jump to the
      slide already shown changes nothing, and every other slide keeps its step. */
  lemma {:induction false} NavigationZeroes(sys: System, deck: Deck, target: int, reset: bool)
    requires Inv(sys, deck) && sys.stage.outbox == []
    ensures var after := CaughtUp(sys, deck, Go(sys.stage, target, reset));
            && Inv(after, deck) && 0 <= after.stage.index < |after.stage.slides|
            && 0 <= sys.stage.index < |sys.stage.slides|
            && after.stage.slides == sys.stage.slides
            && LandsOn(sys.stage.slides, sys.stage.skip, target, after.stage.index)
            && var p := Presented(after.stage);
               forall x <- after.stage.slides ::
                 x in sys.steps.step && x in after.steps.step
                 && after.steps.step[x] ==
                    if x == p && (reset || p != Presented(sys.stage)) then 0 else sys.steps.step[x]
  {
    InvParts(sys, deck);
    InvSteps(sys, deck);
    hide Inv, Sound, Synced, StageStep, CaughtUp, Go, LandsOn, Broadcast;
    var t := Go(sys.stage, target, reset);
    GoStep(sys.stage, target, reset);
    GoSound(sys.stage, target, reset);
    InRangeAfter(sys.stage, t);
    GoMessages(sys.stage, target, reset);
    CatchUp(sys, deck, t);
    InvSteps(CaughtUp(sys, deck, t), deck);
    SameIndexSame(sys.stage, t);
  }

  lemma SameIndexSame(s: Stage, t: Stage)
    requires 0 <= s.index < |s.slides| && t.slides == s.slides && 0 <= t.index < |t.slides|
    ensures t.index == s.index ==> Presented(t) == Presented(s)
  {
  }

  lemma GoMessages(s: Stage, target: int, reset: bool)
    requires Sound(s) && s.outbox == [] && s.slides != []
    ensures var t := Go(s, target, reset);
            && t.slides == s.slides
            && ((exists m <- t.outbox :: m.reset) <==> reset && t.index == s.index)
  {
    hide Sound, Go, LandsOn, Tells;
    GoSound(s, target, reset);
    var t := Go(s, target, reset);
    if reset || t.index != s.index {
      assert t.outbox == [t.outbox[0]];
      assert t.outbox[0] in t.outbox;
    }
  }

  /** Reset, wherever it is pressed, starts the presentation over: on the first slide that is not skipped, at step
      zero. */
  lemma ResetStartsOver(sys: System, deck: Deck)
    requires Inv(sys, deck) && sys.stage.outbox == [] && AnyLive(sys.stage.slides, sys.stage.skip)
    ensures var after := CaughtUp(sys, deck, Go(sys.stage, 0, true));
            && 0 <= after.stage.index < |after.stage.slides| && after.stage.slides == sys.stage.slides
            && Presented(after.stage) !in sys.stage.skip
            && (forall k :: 0 <= k < after.stage.index ==> sys.stage.slides[k] in sys.stage.skip)
            && Presented(after.stage) in after.steps.step && after.steps.step[Presented(after.stage)] == 0
  {
    NavigationZeroes(sys, deck, 0, true);
    hide Inv, CaughtUp, Go;
  }

  // ----- keys and calls --------------------------------------------------------------------------

  /** A key first moves the reveals of the slide on screen, as far as they go, and only then the stage, in the same
      direction; it never does both. */
  lemma KeyMeaning(sys: System, deck: Deck, forward: bool)
    requires Inv(sys, deck) && sys.stage.outbox == [] && 0 <= sys.stage.index < |sys.stage.slides|
    ensures Presented(sys.stage) in sys.steps.step
    ensures var p, after := Presented(sys.stage), KeyPressed(sys, deck, forward);
            var k := sys.steps.step[p];
            if (if forward then k < MaxStep(deck.authored, p) else k > 0)
            then after.stage == sys.stage && after.nar == sys.nar
                 && after.steps.step == sys.steps.step[p := if forward then k + 1 else k - 1]
            else after.steps == sys.steps && Stepped(sys.stage, after.stage, forward)
                 && after.nar == sys.nar.(curIdx := after.stage.index)
  {
    hide *;
    KeyConsumes(sys, deck, forward);
    PresentedIs(sys.stage);
    InvParts(sys, deck);
    InvTracked(sys, deck);
    KeyIs(sys, deck, forward);
    AdvanceSound(sys.stage, forward);
    if Consumes(sys.steps, deck.authored, sys.stage.slides, forward) {
      RevealEffect(sys.steps, deck.authored, sys.stage.slides, forward);
    } else {
      HeardIndex(sys, forward);
    }
  }

  lemma PresentedIs(s: Stage)
    requires 0 <= s.index < |s.slides|
    ensures Presented(s) == s.slides[s.index]
  {
  }

  lemma KeyIs(sys: System, deck: Deck, forward: bool)
    requires Synced(sys.stage) && 0 <= sys.stage.index < |sys.stage.slides|
    ensures KeyPressed(sys, deck, forward) ==
            if Consumes(sys.steps, deck.authored, sys.stage.slides, forward)
            then sys.(steps := Reveal(sys.steps, deck.authored, sys.stage.slides, forward))
            else Heard(sys, Advance(sys.stage, forward))
  {
    SyncedSlides(sys.stage);
    hide Advance, Reveal, Consumes, Heard, Synced;
  }

  lemma KeyConsumes(sys: System, deck: Deck, forward: bool)
    requires Inv(sys, deck) && sys.stage.outbox == [] && 0 <= sys.stage.index < |sys.stage.slides|
    ensures Presented(sys.stage) in sys.steps.step && sys.steps.currentIdx == sys.stage.index == sys.nar.curIdx
    ensures var p, k := Presented(sys.stage), sys.steps.step[Presented(sys.stage)];
            Consumes(sys.steps, deck.authored, sys.stage.slides, forward) <==>
            if forward then k < MaxStep(deck.authored, p) else k > 0
  {
    StepWithin(sys.steps, deck.authored, Presented(sys.stage));
    hide Tracked, Sound, Synced, SingleDriver;
  }

  /** What the others get of a step of the stage. */
  lemma HeardIndex(sys: System, forward: bool)
    requires Sound(sys.stage) && 0 <= sys.stage.index < |sys.stage.slides| && sys.nar.curIdx == sys.stage.index
    ensures var t := Advance(sys.stage, forward);
            && Heard(sys, t).stage == t && Heard(sys, t).steps == sys.steps
            && Heard(sys, t).nar == sys.nar.(curIdx := t.index)
  {
    AdvanceSound(sys.stage, forward);
    hide Sound, Advance;
  }

  /** The public next() and prev() leave the reveals alone and move the stage one step in their direction. */
  lemma CallMeaning(sys: System, deck: Deck, forward: bool)
    requires Inv(sys, deck) && 0 <= sys.stage.index < |sys.stage.slides|
    ensures Enabled(sys, Call(forward))
    ensures var after := Step(sys, deck, Call(forward));
            && after.steps == sys.steps && Stepped(sys.stage, after.stage, forward)
            && (after.stage == sys.stage ==> after.nar == sys.nar)
            && (after.stage != sys.stage ==> after.nar == sys.nar.(curIdx := after.stage.index))
  {
    InvParts(sys, deck);
    AdvanceSound(sys.stage, forward);
    hide Inv, Sound, Advance, Stepped;
    if Advance(sys.stage, forward) != sys.stage {
      SteppedParts(sys.stage, Advance(sys.stage, forward), forward);
    }
  }

  /** What the operations of the rail and the jumps do to the stage. */
  ghost predicate EventDone(s: Stage, t: Stage, ev: Event)
    requires 0 <= s.index < |s.slides|
  {
    match ev
    case Jump(i, reset) =>
      && t.slides == s.slides && t.skip == s.skip && LandsOn(s.slides, s.skip, i, t.index)
      && (if t.index == s.index && !reset then t == s else Broadcast(s, t, t.index == s.index))
    case DeleteSlide(i) =>
      if 0 <= i < |s.slides| && |s.slides| > 1
      then t.slides == RemoveAt(s.slides, i) && LandsOn(t.slides, s.skip, HeirPlace(s, i), t.index)
           && Broadcast(s, t, false)
      else t == s
    case SkipSlide(i) =>
      if 0 <= i < |s.slides|
      then Posted(s, t, false) && t.slides == s.slides && t.index == s.index
           && forall x: SlideId :: x in t.skip <==> (x in s.skip) != (x == s.slides[i])
      else t == s
    case MoveSlide(i, j) =>
      if i < |s.slides| && 0 <= j < |s.slides| && i != j
      then t.slides == MoveTo(s.slides, i, j) && 0 <= t.index < |t.slides| && t.slides[t.index] == s.slides[s.index]
           && Broadcast(s, t, false)
      else t == s
    case _ => true
  }

  /** What the driver hears: the new index, whenever an event is fired. */
  ghost predicate Hears(s: Stage, t: Stage) {
    t.fired == s.fired || t.fired == s.fired + [t.index]
  }

  lemma JumpDone(s: Stage, i: int, reset: bool)
    requires Sound(s) && 0 <= s.index < |s.slides|
    ensures EventDone(s, Go(s, i, reset), Jump(i, reset)) && Hears(s, Go(s, i, reset))
  {
    hide Sound, Go, LandsOn, Tells;
    GoSound(s, i, reset);
  }

  lemma DeleteDone(s: Stage, i: int)
    requires Sound(s) && Synced(s) && 0 <= s.index < |s.slides|
    ensures EventDone(s, Delete(s, i), DeleteSlide(i)) && Hears(s, Delete(s, i))
  {
    hide Sound, Synced, Delete, LandsOn, RemoveAt, HeirPlace, Tells;
    DeleteSound(s, i);
    if 0 <= i < |s.slides| {
      RemovedMembers(s.slides, i);
    }
  }

  lemma SkipDone(s: Stage, i: int)
    requires Sound(s) && 0 <= s.index < |s.slides|
    ensures EventDone(s, ToggleSkip(s, i), SkipSlide(i)) && Hears(s, ToggleSkip(s, i))
  {
    hide Sound, ToggleSkip, Posted;
    ToggleSkipSound(s, i);
  }

  lemma MoveDone(s: Stage, i: nat, j: int)
    requires Sound(s) && Synced(s) && 0 <= s.index < |s.slides| && i < |s.slides|
    ensures EventDone(s, Move(s, i, j), MoveSlide(i, j)) && Hears(s, Move(s, i, j))
  {
    hide Sound, Synced, Move, MoveTo, Tells;
    MoveSound(s, i, j);
    if 0 <= j < |s.slides| && i != j {
      MovedMembers(s.slides, i, j);
      MoveKeepsSlide(s, i, j);
      MovedInRange(s, i, j);
    }
  }

  lemma MovedInRange(s: Stage, i: nat, j: int)
    requires Sound(s) && i < |s.slides|
    ensures 0 <= Move(s, i, j).index
  {
    InRange(s);
    hide Sound, Move;
    MoveSound(s, i, j);
    InRange(Move(s, i, j));
  }

  /** The events of the page do what their names say, and to the stage only; the driver hears the new index, whenever
      one is told. */
  lemma StageEventMeaning(sys: System, deck: Deck, ev: Event)
    requires Inv(sys, deck) && Enabled(sys, ev)
    requires ev.Jump? || ev.DeleteSlide? || ev.SkipSlide? || ev.MoveSlide?
    ensures 0 <= sys.stage.index < |sys.stage.slides|
    ensures EventDone(sys.stage, Step(sys, deck, ev).stage, ev)
    ensures var after := Step(sys, deck, ev);
            && after.steps == sys.steps
            && after.nar == sys.nar.(curIdx := if after.stage.fired == sys.stage.fired then sys.nar.curIdx
                    else after.stage.index)
  {
    InvParts(sys, deck);
    var s := sys.stage;
    hide Inv, Sound, Synced, Go, Delete, ToggleSkip, Move, EventDone, Hears, Heard;
    if ev.Jump? {
      JumpDone(s, ev.target, ev.reset);
      HeardMeaning(sys, Go(s, ev.target, ev.reset));
    } else if ev.DeleteSlide? {
      DeleteDone(s, ev.at);
      HeardMeaning(sys, Delete(s, ev.at));
    } else if ev.SkipSlide? {
      SkipDone(s, ev.at);
      HeardMeaning(sys, ToggleSkip(s, ev.at));
    } else {
      MoveDone(s, ev.from, ev.to);
      HeardMeaning(sys, Move(s, ev.from, ev.to));
    }
  }

  lemma HeardMeaning(sys: System, t: Stage)
    requires Hears(sys.stage, t)
    ensures var after := Heard(sys, t);
            && after.stage == t && after.steps == sys.steps
            && after.nar == sys.nar.(curIdx := if t.fired == sys.stage.fired then sys.nar.curIdx else t.index)
  {
  }

  /** The buttons and the watcher act on the cue on screen, and on the driver only. */
  lemma DriverEventMeaning(sys: System, deck: Deck, ev: Event)
    requires Inv(sys, deck) && DriverEvent(ev)
    ensures 0 <= sys.stage.index < |sys.stage.slides| && Enabled(sys, ev)
    ensures var n, after, cur := sys.nar, Step(sys, deck, ev), CurrentCue(sys);
            && after.stage == sys.stage && after.steps == sys.steps
            && match ev
               case Narrate =>
                 if n.narrationOn then !after.nar.narrationOn && Silent(after.nar)
                 else if deck.clips == {} then after.nar == n else Speaks(n, after.nar, deck.clips, cur)
               case Play =>
                 if n.autoplay then !after.nar.autoplay && after.nar.narrationOn && Silent(after.nar)
                 else if deck.clips == {} then after.nar == n
                 else after.nar.autoplay && Speaks(n, after.nar, deck.clips, cur)
               case ClipEnded =>
                 && !after.nar.playing && after.nar.spoken == n.spoken
                 && (n.playing ==> ((exists id :: IsAdvance(after.nar, id)) <==> n.handler && n.autoplay))
               case PlayRefused => after.nar == n.(playing := false)
               case _ =>
                 if n.lastCue == Some(cur) then after.nar == n
                 else if n.narrationOn then Speaks(n, after.nar, deck.clips, cur)
                 else Silent(after.nar) && after.nar.spoken == n.spoken
  {
    InvParts(sys, deck);
    NarrateToggles(sys.nar, deck.clips, CurrentCue(sys));
    PlayToggles(sys.nar, deck.clips, CurrentCue(sys));
    CheckCueMeaning(sys.nar, deck.clips, CurrentCue(sys));
    if sys.nar.playing {
      EndedMeaning(sys.nar);
    } else {
      EndedSilent(sys.nar);
    }
    hide Inv, CurrentCue, Speaks, Silent, NarratePressed, PlayPressed, CheckCue, Ended, SingleDriver;
  }

  lemma EndedSilent(n: Narrator)
    requires !n.playing
    ensures Ended(n) == n
  {
  }

  /** The mutation observer's event starts the slides it finds new, keeps every step, and puts the entrance class on the
      slide last told. */
  lemma SeenMeaning(sys: System, deck: Deck)
    requires Inv(sys, deck)
    ensures 0 <= sys.stage.index < |sys.stage.slides| && Enabled(sys, ChildrenSeen)
    ensures var after := Step(sys, deck, ChildrenSeen);
            && after.stage == sys.stage && after.nar == sys.nar
            && Entered(after.steps, sys.stage.slides, sys.steps.currentIdx)
            && forall s <- sys.steps.step :: s in after.steps.step && after.steps.step[s] == sys.steps.step[s]
  {
    InvParts(sys, deck);
    InvTracked(sys, deck);
    SyncedSlides(sys.stage);
    hide Inv, Observe, Entered, Synced, Sound, Tracked, SingleDriver;
    ObserveEffect(sys.steps, deck.authored, SlidesOf(sys.stage.children));
  }

  /** A booted page is silent, with narration on just as it was stored, and stays so until something is done: the
      watcher has seen the cue it would find. */
  lemma BootIsSilent(deck: Deck, children: seq<Child>, skip: set<SlideId>, hash: Option<int>, stored: bool)
    requires Distinct(children) && SlidesOf(children) != []
    ensures var sys := Booted(deck, Mounted(children, skip, hash), stored);
            && Silent(sys.nar) && sys.nar.spoken == [] && !sys.nar.autoplay && sys.nar.narrationOn == stored
            && sys.nar.timers == map[] && CheckCue(sys.nar, deck.clips, CurrentCue(sys)) == sys.nar
  {
    hide Mounted, InitAll, DotsOn, SlidesOf;
  }

  // ----- what everyone was told --------------------------------------------------------------------

  /** The newest message on its way tells the state of the stage: index, count and skipped slides.  With none on its
      way the entrance class is on the presented slide and on no other. */
  ghost predicate Told(sys: System) {
    if sys.stage.outbox != [] then Tells(sys.stage.outbox[|sys.stage.outbox| - 1], sys.stage)
    else Entered(sys.steps, sys.stage.slides, sys.stage.index)
  }

  lemma StageStepTells(sys: System, t: Stage)
    requires Told(sys) && Outcome(sys.stage, t)
    ensures Told(Heard(sys, t))
  {
    hide Entered;
  }

  lemma OutcomeOf(s: Stage, t: Stage)
    requires StageStep(s, t)
    ensures Outcome(s, t)
  {
  }

  lemma SameTold(sys: System, after: System)
    requires Told(sys) && after.stage == sys.stage && after.steps.activeClass == sys.steps.activeClass
    ensures Told(after)
  {
  }

  lemma KeyTells(sys: System, deck: Deck, forward: bool)
    requires Inv(sys, deck) && Told(sys)
    ensures Told(KeyPressed(sys, deck, forward))
  {
    InRange(sys.stage);
    SyncedSlides(sys.stage);
    hide Sound, Tracked, SingleDriver, Consumes, Reveal, Advance, Told, Outcome;
    if Consumes(sys.steps, deck.authored, sys.stage.slides, forward) {
      ConsumesInRange(sys.steps, deck.authored, sys.stage.slides, forward);
      RevealEffect(sys.steps, deck.authored, sys.stage.slides, forward);
      SameTold(sys, KeyPressed(sys, deck, forward));
    } else {
      AdvanceStep(sys.stage, forward);
      OutcomeOf(sys.stage, Advance(sys.stage, forward));
      StageStepTells(sys, Advance(sys.stage, forward));
    }
  }

  lemma FiredTells(sys: System, deck: Deck, id: nat)
    requires Inv(sys, deck) && Told(sys)
    ensures Told(Fired(sys, deck, id))
  {
    InvParts(sys, deck);
    hide Inv, KeyPressed, Told, StopAutoplay, CurrentCue, SingleDriver;
    if id in sys.nar.timers {
      var taken := sys.(nar := Taken(sys.nar, id));
      FewerTimersSingle(sys.nar, taken.nar);
      NarKeepsInv(sys, deck, taken.nar);
      SameTold(sys, taken);
      KeyTells(taken, deck, true);
      if sys.nar.timers[id] == AutoNext && taken.nar.autoplay {
        SameTold(KeyPressed(taken, deck, true), Fired(sys, deck, id));
      } else {
        SameTold(sys, Fired(sys, deck, id));
      }
    }
  }

  lemma DeliveredTells(sys: System, deck: Deck)
    requires Inv(sys, deck) && Told(sys)
    ensures Told(Delivered(sys, deck))
  {
    hide Sound, Tracked, SingleDriver, Receive, Entered;
    if sys.stage.outbox != [] {
      ReceiveEffect(sys.steps, deck.authored, sys.stage.slides, sys.stage.outbox[0]);
    }
  }

  lemma SeenTells(sys: System, deck: Deck)
    requires Inv(sys, deck) && Told(sys)
    ensures Told(sys.(steps := Observe(sys.steps, deck.authored, SlidesOf(sys.stage.children))))
  {
    ObserveEffect(sys.steps, deck.authored, SlidesOf(sys.stage.children));
    hide Sound, Tracked, SingleDriver, Observe, Entered;
  }

  lemma StepTells(sys: System, deck: Deck, ev: Event)
    requires Inv(sys, deck) && Told(sys) && Enabled(sys, ev)
    ensures 0 <= sys.stage.index < |sys.stage.slides| && Told(Step(sys, deck, ev))
  {
    InvParts(sys, deck);
    hide *;
    if DriverEvent(ev) {
      DriverStep(sys, deck, ev);
      SameTold(sys, Step(sys, deck, ev));
    } else {
      OwnStep(sys, deck, ev);
      match ev {
        case Key(forward) => KeyTells(sys, deck, forward);
        case Deliver => DeliveredTells(sys, deck);
        case ChildrenSeen => SeenTells(sys, deck);
        case Fire(id) => FiredTells(sys, deck, id);
        case _ =>
          var t := StageOutcome(sys, deck, ev);
          StageStepTells(sys, t);
      }
    }
  }

  lemma OwnStep(sys: System, deck: Deck, ev: Event)
    requires 0 <= sys.stage.index < |sys.stage.slides| && Enabled(sys, ev)
    ensures match ev
            case Key(forward) => Step(sys, deck, ev) == KeyPressed(sys, deck, forward)
            case Deliver => Step(sys, deck, ev) == Delivered(sys, deck)
            case ChildrenSeen =>
              Step(sys, deck, ev) == sys.(steps := Observe(sys.steps, deck.authored, SlidesOf(sys.stage.children)))
            case Fire(id) => Step(sys, deck, ev) == Fired(sys, deck, id)
            case _ => true
  {
    hide KeyPressed, Delivered, Observe, Fired;
  }

  /** The events that are one operation of the stage. */
  predicate StageEvent(ev: Event) {
    ev.Call? || ev.Jump? || ev.DeleteSlide? || ev.SkipSlide? || ev.MoveSlide? || ev.SlotChanged?
  }

  lemma StageOutcome(sys: System, deck: Deck, ev: Event) returns (t: Stage)
    requires Inv(sys, deck) && Enabled(sys, ev) && StageEvent(ev)
    ensures 0 <= sys.stage.index < |sys.stage.slides|
    ensures Outcome(sys.stage, t) && Step(sys, deck, ev) == Heard(sys, t)
  {
    InvParts(sys, deck);
    hide Inv, Sound, Synced, StageStep, Heard, Go, Advance, Delete, ToggleSkip, Move, SlotChange, Outcome;
    if ev.Call? {
      t := Advance(sys.stage, ev.forward);
      AdvanceStep(sys.stage, ev.forward);
    } else if ev.Jump? {
      t := Go(sys.stage, ev.target, ev.reset);
      GoStep(sys.stage, ev.target, ev.reset);
    } else if ev.DeleteSlide? {
      t := Delete(sys.stage, ev.at);
      DeleteStep(sys.stage, ev.at);
    } else if ev.SkipSlide? {
      t := ToggleSkip(sys.stage, ev.at);
      ToggleStep(sys.stage, ev.at);
    } else if ev.MoveSlide? {
      t := Move(sys.stage, ev.from, ev.to);
      MoveStep(sys.stage, ev.from, ev.to);
    } else {
      t := SlotChange(sys.stage);
      SlotChangeStep(sys.stage);
    }
    OutcomeOf(sys.stage, t);
  }

  /** In every state of every run whoever listens has been told the truth, or the truth is on its way. */
  lemma {:induction false} EveryRunTells(start: System, deck: Deck, events: seq<Event>, end: System)
    requires Inv(start, deck) && Told(start) && Run(start, deck, events, end)
    ensures Told(end)
    decreases |events|
  {
    hide Inv, Step, Told;
    if events != [] {
      StepKeepsInv(start, deck, events[0]);
      StepTells(start, deck, events[0]);
      EveryRunTells(Step(start, deck, events[0]), deck, events[1..], end);
    }
  }

  /** A booted page starts that way. */
  lemma BootTells(deck: Deck, children: seq<Child>, skip: set<SlideId>, hash: Option<int>, stored: bool)
    requires Distinct(children) && SlidesOf(children) != []
    ensures Told(Booted(deck, Mounted(children, skip, hash), stored))
  {
    MountedStage(children, skip, hash);
    hide Mounted, SlidesOf, InitAll, Tells, Sound, Synced;
  }
}

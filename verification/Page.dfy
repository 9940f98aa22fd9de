/**
  The page: the three objects wired together as the browser wires them, proved to
  perform the transition system that the theorems about whole runs speak of.
*/
module Page {
  import opened Wrappers
  import opened Sequences
  import opened StageSpec
  import opened EnhanceSpec
  import opened NarrationSpec
  import opened Presentation
  import S = DeckStage
  import E = DeckEnhance
  import N = DeckNarration

  class Page {
    const stage: S.DeckStage
    const steps: E.DeckEnhance
    const driver: N.Driver

    ghost function DeckOf(): Deck {
      Deck(steps.authored, driver.clips)
    }

    function State(): System
      reads stage, steps, driver
    {
      System(stage.State(), steps.State(), driver.State())
    }

    ghost predicate Valid()
      reads stage, steps, driver
    {
      Inv(State(), DeckOf())
    }

    constructor (stage: S.DeckStage, steps: E.DeckEnhance, driver: N.Driver)
      requires Inv(System(stage.State(), steps.State(), driver.State()), Deck(steps.authored, driver.clips))
      ensures this.stage == stage && this.steps == steps && this.driver == driver && Valid()
    {
      this.stage, this.steps, this.driver := stage, steps, driver;
    }

    /** The page boots: the stage mounts, the reveals start from its marker, the narration seeds its watcher. */
    constructor Boot(children: seq<Child>, skip: set<SlideId>, hash: Option<int>, authored: Authored, clips: set<Cue>,
                     stored: bool)
      requires Distinct(children) && SlidesOf(children) != []
      ensures fresh(stage) && fresh(steps) && fresh(driver) && DeckOf() == Deck(authored, clips)
      ensures State() == Booted(DeckOf(), Mounted(children, skip, hash), stored) && Valid()
    {
      hide Sound, Synced, Inv, EnhanceSpec.InitAll, DotsOn, Distinct, Collect, Restore, Apply;
      var s := new S.DeckStage(children, skip, hash);
      s.OnSlotChange();
      MountedStage(children, skip, hash);
      SoundDistinct(Mounted(children, skip, hash));
      SyncedSlides(Mounted(children, skip, hash));
      StartUp(Deck(authored, clips), children, skip, hash, stored);
      var slides := SlidesOf(s.children);
      var e := new E.DeckEnhance(authored);
      e.InitAll(slides, s.active, s.hash);
      var first := SlideAt(slides, 0);
      var d := new N.Driver(clips, stored, Cue(0, if first.Some? then DotsOn(e.State(), first.value) else 0));
      stage, steps, driver := s, e, d;
      new;
      hide Mounted;
    }

    /** The driver's slidechange listener, run when the stage fired since `was`. */
    method Hear(count: nat, ghost was: System)
      requires count == |was.stage.fired| && was.steps == steps.State() && was.nar == driver.State()
      modifies driver`curIdx
      ensures State() == Heard(was, stage.State())
    {
      if |stage.fired| > count {
        driver.curIdx := stage.fired[|stage.fired| - 1];
      }
    }

    /** A forward or backward key: the reveals see it first, and the stage only what they let through. */
    method OnKey(forward: bool)
      requires Valid()
      modifies stage, steps, driver
      ensures old(stage.index) >= 0 && State() == KeyPressed(old(State()), DeckOf(), forward) && Valid()
    {
      KeyKeepsInv(State(), DeckOf(), forward);
      StageReady(State(), DeckOf());
      hide Inv, Consumes, Reveal, StageSpec.Advance, Heard;
      var count := |stage.State().fired|;
      ghost var was := State();
      var handled := steps.OnStepKey(SlidesOf(stage.children), forward);
      if !handled {
        stage.Advance(forward);
        Hear(count, was);
      }
    }

    /** The public next() and prev(): the slide at once, whatever is still to be revealed. */
    method OnCall(forward: bool)
      requires Valid()
      modifies stage, driver
      ensures old(stage.index) >= 0
      ensures State() == Heard(old(State()), StageSpec.Advance(old(stage.State()), forward)) && Valid()
    {
      StageReady(State(), DeckOf());
      AdvanceStep(stage.State(), forward);
      StageStepKeepsInv(State(), DeckOf(), StageSpec.Advance(stage.State(), forward));
      hide Inv, StageSpec.Advance, Heard, S.DeckStage.State;
      var count := |stage.State().fired|;
      ghost var was := State();
      stage.Advance(forward);
      Hear(count, was);
    }

    method OnJump(target: int, reset: bool)
      requires Valid()
      modifies stage, driver
      ensures State() == Heard(old(State()), StageSpec.Go(old(stage.State()), target, reset)) && Valid()
    {
      StageReady(State(), DeckOf());
      GoStep(stage.State(), target, reset);
      StageStepKeepsInv(State(), DeckOf(), StageSpec.Go(stage.State(), target, reset));
      hide Inv, StageSpec.Go, Heard, S.DeckStage.State;
      var count := |stage.State().fired|;
      ghost var was := State();
      stage.Go(target, reset);
      Hear(count, was);
    }

    method OnDelete(at: int)
      requires Valid()
      modifies stage, driver
      ensures State() == Heard(old(State()), Delete(old(stage.State()), at)) && Valid()
    {
      StageReady(State(), DeckOf());
      DeleteStep(stage.State(), at);
      StageStepKeepsInv(State(), DeckOf(), Delete(stage.State(), at));
      hide Inv, Delete, Heard, S.DeckStage.State;
      var count := |stage.State().fired|;
      ghost var was := State();
      stage.DeleteSlide(at);
      Hear(count, was);
    }

    method OnSkip(at: int)
      requires Valid()
      modifies stage, driver
      ensures State() == Heard(old(State()), StageSpec.ToggleSkip(old(stage.State()), at)) && Valid()
    {
      StageReady(State(), DeckOf());
      ToggleStep(stage.State(), at);
      StageStepKeepsInv(State(), DeckOf(), StageSpec.ToggleSkip(stage.State(), at));
      hide Inv, StageSpec.ToggleSkip, Heard, S.DeckStage.State;
      var count := |stage.State().fired|;
      ghost var was := State();
      stage.ToggleSkip(at);
      Hear(count, was);
    }

    method OnMove(from: nat, to: int)
      requires Valid() && from < |stage.slides|
      modifies stage, driver
      ensures old(stage.index) >= 0 && State() == Heard(old(State()), Move(old(stage.State()), from, to)) && Valid()
    {
      StageReady(State(), DeckOf());
      SlidesAreChildren(stage.State());
      MoveStep(stage.State(), from, to);
      StageStepKeepsInv(State(), DeckOf(), Move(stage.State(), from, to));
      hide Inv, Move, Heard, S.DeckStage.State, Sound, Synced;
      var count := |stage.State().fired|;
      ghost var was := State();
      var threw := stage.MoveSlide(from, to);
      Hear(count, was);
    }

    method OnSlotChange()
      requires Valid()
      modifies stage, driver
      ensures State() == Heard(old(State()), SlotChange(old(stage.State()))) && Valid()
    {
      StageReady(State(), DeckOf());
      SlotChangeStep(stage.State());
      StageStepKeepsInv(State(), DeckOf(), SlotChange(stage.State()));
      hide Inv, SlotChange, Heard, S.DeckStage.State;
      var count := |stage.State().fired|;
      ghost var was := State();
      stage.OnSlotChange();
      Hear(count, was);
    }

    /** The oldest posted message reaches both listeners. */
    method OnDeliver()
      requires Valid()
      modifies stage, steps, driver
      ensures State() == Delivered(old(State()), DeckOf()) && Valid()
    {
      DeliveredKeepsInv(State(), DeckOf());
      StageReady(State(), DeckOf());
      DeliveredParts(State(), DeckOf());
      hide Inv, Receive, E.DeckEnhance.State, SlidesOf, Distinct, Sound, Synced, Delivered;
      if stage.outbox != [] {
        var m := stage.outbox[0];
        stage.outbox := stage.outbox[1..];
        steps.OnMessage(SlidesOf(stage.children), m);
        driver.curIdx := m.index;
      }
    }

    method OnChildrenSeen()
      requires Valid()
      modifies steps
      ensures State() == old(State()).(steps := Observe(old(steps.State()), steps.authored, SlidesOf(stage.children)))
    {
      StageReady(State(), DeckOf());
      hide Inv, Observe;
      steps.OnChildren(SlidesOf(stage.children));
    }

    /** The auto-advance presses the forward key and looks back later. */
    method OnAutoNext()
      requires Valid()
      modifies stage, steps, driver
      ensures 0 <= old(stage.index) < |old(stage.slides)| && State() == AutoAdvanced(old(State()), DeckOf()) && Valid()
    {
      AutoAdvancedKeepsInv(State(), DeckOf());
      StageReady(State(), DeckOf());
      hide Inv, KeyPressed, CurrentCue;
      if driver.autoplay {
        var before := CurrentCue(State());
        OnKey(true);
        var t := driver.SetTimeout(EndCheck(before));
      }
    }

    /** A timer fires: it leaves the pending timers, then its callback runs. */
    method OnFire(id: nat)
      requires Valid()
      modifies stage, steps, driver
      ensures 0 <= old(stage.index) < |old(stage.slides)| && State() == Fired(old(State()), DeckOf(), id) && Valid()
    {
      FiredKeepsInv(State(), DeckOf(), id);
      StageReady(State(), DeckOf());
      hide Inv, AutoAdvanced, CurrentCue, NarrationSpec.StopAutoplay, EndChecked;
      if id !in driver.timers {
        return;
      }
      var callback := driver.timers[id];
      TakenValid(State(), DeckOf(), id);
      driver.timers := driver.timers - {id};
      match callback {
        case AutoNext => OnAutoNext();
        case EndCheck(before) => driver.OnEndCheck(before, CurrentCue(State()));
      }
    }

    method OnNarrate()
      requires Valid()
      modifies driver
      ensures State() ==
              old(State()).(nar := NarratePressed(old(driver.State()), driver.clips, old(CurrentCue(State()))))
    {
      StageReady(State(), DeckOf());
      hide Inv, CurrentCue, NarratePressed, S.DeckStage.State, E.DeckEnhance.State;
      driver.OnNarrate(CurrentCue(State()));
    }

    method OnPlay()
      requires Valid()
      modifies driver
      ensures State() ==
              old(State()).(nar := PlayPressed(old(driver.State()), driver.clips, old(CurrentCue(State()))))
    {
      StageReady(State(), DeckOf());
      hide Inv, CurrentCue, PlayPressed, S.DeckStage.State, E.DeckEnhance.State;
      driver.OnPlay(CurrentCue(State()));
    }

    method OnPoll()
      requires Valid()
      modifies driver
      ensures State() ==
              old(State()).(nar := NarrationSpec.CheckCue(old(driver.State()), driver.clips, old(CurrentCue(State()))))
    {
      StageReady(State(), DeckOf());
      hide Inv, CurrentCue, NarrationSpec.CheckCue, S.DeckStage.State, E.DeckEnhance.State;
      driver.CheckCue(CurrentCue(State()));
    }

    /** The events only the driver sees. */
    method OnDriverEvent(ev: Event)
      requires Valid() && DriverEvent(ev)
      modifies driver
      ensures 0 <= stage.index < |stage.slides| && State() == Step(old(State()), DeckOf(), ev)
    {
      StageReady(State(), DeckOf());
      DriverStep(State(), DeckOf(), ev);
      hide Inv, CurrentCue, NarratePressed, PlayPressed, NarrationSpec.CheckCue, Ended, Step;
      hide S.DeckStage.State, E.DeckEnhance.State;
      if ev.Narrate? {
        OnNarrate();
      } else if ev.Play? {
        OnPlay();
      } else if ev.Poll? {
        OnPoll();
      } else if ev.ClipEnded? {
        driver.OnEnded();
      } else {
        driver.playing := false;
      }
    }

    /** The events that go to the stage alone. */
    method OnStageEvent(ev: Event)
      requires Valid() && Enabled(State(), ev)
      requires ev.Call? || ev.Jump? || ev.DeleteSlide? || ev.SkipSlide? || ev.MoveSlide? || ev.SlotChanged?
      modifies stage, driver
      ensures 0 <= old(stage.index) < |old(stage.slides)| && State() == Step(old(State()), DeckOf(), ev)
    {
      StageReady(State(), DeckOf());
      hide Inv, Heard, StageSpec.Go, StageSpec.Advance, Delete, StageSpec.ToggleSkip, Move, SlotChange, Sound, Synced;
      if ev.Call? {
        OnCall(ev.forward);
      } else if ev.Jump? {
        OnJump(ev.target, ev.reset);
      } else if ev.DeleteSlide? {
        OnDelete(ev.at);
      } else if ev.SkipSlide? {
        OnSkip(ev.at);
      } else if ev.MoveSlide? {
        OnMove(ev.from, ev.to);
      } else {
        OnSlotChange();
      }
    }

    /** One event of the page is one step of the transition system, and keeps the invariant. */
    method OnEvent(ev: Event)
      requires Valid() && Enabled(State(), ev)
      modifies stage, steps, driver
      ensures 0 <= old(stage.index) < |old(stage.slides)|
      ensures State() == Step(old(State()), DeckOf(), ev) && Valid()
    {
      StageReady(State(), DeckOf());
      StepKeepsInv(State(), DeckOf(), ev);
      hide Inv, KeyPressed, Heard, Delivered, Observe, Fired, CurrentCue, Sound, Synced;
      hide S.DeckStage.State, E.DeckEnhance.State, N.Driver.State;
      if DriverEvent(ev) {
        OnDriverEvent(ev);
      } else if ev.Key? {
        OnKey(ev.forward);
      } else if ev.Deliver? {
        OnDeliver();
      } else if ev.ChildrenSeen? {
        OnChildrenSeen();
      } else if ev.Fire? {
        OnFire(ev.id);
      } else {
        OnStageEvent(ev);
      }
    }
  }

  lemma StageReady(sys: System, deck: Deck)
    requires Inv(sys, deck)
    ensures Sound(sys.stage) && Synced(sys.stage) && Distinct(sys.stage.children) && Distinct(sys.stage.slides)
    ensures 0 <= sys.stage.index < |sys.stage.slides|
    ensures SlidesOf(sys.stage.children) == sys.stage.slides
  {
  }

  lemma DeliveredParts(sys: System, deck: Deck)
    ensures sys.stage.outbox == [] ==> Delivered(sys, deck) == sys
    ensures sys.stage.outbox != [] ==>
              var m, after := sys.stage.outbox[0], Delivered(sys, deck);
              && after.stage == sys.stage.(outbox := sys.stage.outbox[1..])
              && after.steps == Receive(sys.steps, deck.authored, SlidesOf(sys.stage.children), m)
              && after.nar == sys.nar.(curIdx := m.index)
  {
    hide Receive;
  }

  lemma SlidesAreChildren(s: Stage)
    requires Synced(s)
    ensures forall x <- s.slides :: Slide(x) in s.children
  {
    forall x | x in s.slides
      ensures Slide(x) in s.children
    {
      SlidesMembers(s.children, x);
    }
  }

  lemma TakenValid(sys: System, deck: Deck, id: nat)
    requires Inv(sys, deck)
    ensures Inv(sys.(nar := Taken(sys.nar, id)), deck)
  {
    InvParts(sys, deck);
    hide Inv, SingleDriver;
    FewerTimersSingle(sys.nar, Taken(sys.nar, id));
    NarKeepsInv(sys, deck, Taken(sys.nar, id));
  }
}

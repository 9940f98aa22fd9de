/**
  Auto-play over whole runs.  Without user input, with every clip ending and every
  message delivered before the watcher next looks, auto-play speaks the rest of
  the deck: every remaining step of the slide it starts on, then every step of
  each later slide that is not skipped, each once and in order.  It does so in
  every run exactly when no look-back of an earlier session can cut it short.
*/
module AutoPlay {
  import opened Wrappers
  import opened Sequences
  import opened StageSpec
  import opened EnhanceSpec
  import opened NarrationSpec
  import opened Presentation

  // ----- the plan ---------------------------------------------------------------------------

  /** The cues `from`..`to` of one slide. */
  function CuesOf(slide: nat, from: nat, to: nat): (r: seq<Cue>)
    requires from <= to + 1
    ensures |r| == to + 1 - from
  {
    seq(to + 1 - from, d requires 0 <= d => Cue(slide, from + d))
  }

  /** Every cue of the slides from `i` on that are not skipped. */
  function LaterCues(authored: Authored, slides: seq<SlideId>, skip: set<SlideId>, i: nat): seq<Cue>
    requires i <= |slides|
    decreases |slides| - i
  {
    if i == |slides| then []
    else (if slides[i] in skip then [] else CuesOf(i, 0, MaxStep(authored, slides[i])))
         + LaterCues(authored, slides, skip, i + 1)
  }

  predicate ValidCue(authored: Authored, slides: seq<SlideId>, c: Cue) {
    0 <= c.slide < |slides| && c.step <= MaxStep(authored, slides[c.slide])
  }

  /** What remains to be spoken after `c`. */
  function Upcoming(authored: Authored, slides: seq<SlideId>, skip: set<SlideId>, c: Cue): seq<Cue>
    requires ValidCue(authored, slides, c)
  {
    CuesOf(c.slide, c.step + 1, MaxStep(authored, slides[c.slide])) + LaterCues(authored, slides, skip, c.slide + 1)
  }

  ghost predicate Earlier(a: Cue, b: Cue) {
    a.slide < b.slide || (a.slide == b.slide && a.step < b.step)
  }

  ghost predicate Ascending(cues: seq<Cue>) {
    forall i, j :: 0 <= i < j < |cues| ==> Earlier(cues[i], cues[j])
  }

  lemma {:induction false} LaterMembers(authored: Authored, slides: seq<SlideId>, skip: set<SlideId>, i: nat, c: Cue)
    requires i <= |slides|
    ensures c in LaterCues(authored, slides, skip, i) <==>
            ValidCue(authored, slides, c) && i <= c.slide && slides[c.slide] !in skip
    decreases |slides| - i
  {
    hide MaxStep;
    if i < |slides| {
      LaterMembers(authored, slides, skip, i + 1, c);
      var m := MaxStep(authored, slides[i]);
      CuesMembers(i, 0, m, c);
    }
  }

  lemma CuesMembers(slide: nat, from: nat, to: nat, c: Cue)
    requires from <= to + 1
    ensures c in CuesOf(slide, from, to) <==> c.slide == slide && from <= c.step <= to
  {
    if c.slide == slide && from <= c.step <= to {
      assert CuesOf(slide, from, to)[c.step - from] == c;
    }
  }

  lemma {:induction false} LaterAscending(authored: Authored, slides: seq<SlideId>, skip: set<SlideId>, i: nat)
    requires i <= |slides|
    ensures Ascending(LaterCues(authored, slides, skip, i))
    decreases |slides| - i
  {
    hide MaxStep;
    if i < |slides| {
      LaterAscending(authored, slides, skip, i + 1);
      var rest := LaterCues(authored, slides, skip, i + 1);
      forall c <- rest
        ensures c.slide > i
      {
        LaterMembers(authored, slides, skip, i + 1, c);
      }
    }
  }

  /** The plan in plain words: strictly ascending, hence nothing twice, and exactly the later steps of the
      slide of `c` together with all steps of each later slide that is not skipped. */
  lemma PlanMeaning(authored: Authored, slides: seq<SlideId>, skip: set<SlideId>, c: Cue, x: Cue)
    requires ValidCue(authored, slides, c)
    ensures Ascending([c] + Upcoming(authored, slides, skip, c))
    ensures x in Upcoming(authored, slides, skip, c) <==>
            && ValidCue(authored, slides, x)
            && ((x.slide == c.slide && x.step > c.step) || (x.slide > c.slide && slides[x.slide] !in skip))
  {
    hide MaxStep;
    var m := MaxStep(authored, slides[c.slide]);
    var here, later := CuesOf(c.slide, c.step + 1, m), LaterCues(authored, slides, skip, c.slide + 1);
    LaterAscending(authored, slides, skip, c.slide + 1);
    forall y <- later
      ensures y.slide > c.slide
    {
      LaterMembers(authored, slides, skip, c.slide + 1, y);
    }
    LaterMembers(authored, slides, skip, c.slide + 1, x);
    CuesMembers(c.slide, c.step + 1, m, x);
  }

  /** A next step on the same slide is the next thing to speak. */
  lemma UpcomingStep(authored: Authored, slides: seq<SlideId>, skip: set<SlideId>, c: Cue)
    requires ValidCue(authored, slides, c) && c.step < MaxStep(authored, slides[c.slide])
    ensures ValidCue(authored, slides, Cue(c.slide, c.step + 1))
    ensures Upcoming(authored, slides, skip, c) ==
            [Cue(c.slide, c.step + 1)] + Upcoming(authored, slides, skip, Cue(c.slide, c.step + 1))
  {
    hide MaxStep, LaterCues;
    var m := MaxStep(authored, slides[c.slide]);
    assert CuesOf(c.slide, c.step + 1, m) == [Cue(c.slide, c.step + 1)] + CuesOf(c.slide, c.step + 2, m);
  }

  lemma {:induction false} LaterSkips(authored: Authored, slides: seq<SlideId>, skip: set<SlideId>, i: nat)
    requires i <= |slides|
    ensures var j := NextLive(slides, skip, i);
            LaterCues(authored, slides, skip, i) == LaterCues(authored, slides, skip, j)
    decreases |slides| - i
  {
    hide MaxStep, CuesOf;
    if i < |slides| && slides[i] in skip {
      LaterSkips(authored, slides, skip, i + 1);
    }
  }

  /** With the slide's steps used up, the next thing is the first cue of the next live slide, or nothing. */
  lemma UpcomingSlide(authored: Authored, slides: seq<SlideId>, skip: set<SlideId>, c: Cue)
    requires ValidCue(authored, slides, c) && c.step == MaxStep(authored, slides[c.slide])
    ensures var j := NextLive(slides, skip, c.slide + 1);
            if j < |slides| then
              && ValidCue(authored, slides, Cue(j, 0))
              && Upcoming(authored, slides, skip, c) == [Cue(j, 0)] + Upcoming(authored, slides, skip, Cue(j, 0))
            else Upcoming(authored, slides, skip, c) == []
  {
    hide *;
    UpcomingIs(authored, slides, skip, c);
    var j := NextLive(slides, skip, c.slide + 1);
    LaterSkips(authored, slides, skip, c.slide + 1);
    LaterStarts(authored, slides, skip, j);
    if j < |slides| {
      var m := MaxStep(authored, slides[j]);
      FirstCue(authored, slides, j);
      UpcomingIs(authored, slides, skip, Cue(j, 0));
      assert [Cue(j, 0)] + CuesOf(j, 1, m) + LaterCues(authored, slides, skip, j + 1)
          == [Cue(j, 0)] + (CuesOf(j, 1, m) + LaterCues(authored, slides, skip, j + 1));
    }
  }

  lemma FirstCue(authored: Authored, slides: seq<SlideId>, j: nat)
    requires j < |slides|
    ensures ValidCue(authored, slides, Cue(j, 0))
    ensures var m := MaxStep(authored, slides[j]); CuesOf(j, 0, m) == [Cue(j, 0)] + CuesOf(j, 1, m)
  {
    hide MaxStep;
  }

  lemma UpcomingIs(authored: Authored, slides: seq<SlideId>, skip: set<SlideId>, c: Cue)
    requires ValidCue(authored, slides, c)
    ensures 0 <= c.slide < |slides| && c.step <= MaxStep(authored, slides[c.slide])
    ensures var m := MaxStep(authored, slides[c.slide]);
            Upcoming(authored, slides, skip, c) ==
            CuesOf(c.slide, c.step + 1, m) + LaterCues(authored, slides, skip, c.slide + 1)
  {
    hide MaxStep, CuesOf, LaterCues;
  }

  lemma LaterStarts(authored: Authored, slides: seq<SlideId>, skip: set<SlideId>, j: nat)
    requires j <= |slides| && (j < |slides| ==> slides[j] !in skip)
    ensures j == |slides| ==> LaterCues(authored, slides, skip, j) == []
    ensures j < |slides| ==>
              LaterCues(authored, slides, skip, j) ==
              CuesOf(j, 0, MaxStep(authored, slides[j])) + LaterCues(authored, slides, skip, j + 1)
  {
    hide MaxStep, CuesOf;
  }

  // ----- the phases of a run -------------------------------------------------------------------

  ghost predicate NoAdvance(n: Narrator) {
    forall id <- n.timers :: n.timers[id] != AutoNext
  }

  /** A look-back for cue `b` is pending. */
  predicate Pending(n: Narrator, id: nat, b: Cue) {
    id in n.timers && n.timers[id] == EndCheck(b)
  }

  datatype Phase = Speaking | Waiting | Moved | Announced | AtEnd | Done

  /** The cues after `c`. */
  function Remaining(sys: System, deck: Deck, c: Cue): seq<Cue> {
    if ValidCue(deck.authored, sys.stage.slides, c) then Upcoming(deck.authored, sys.stage.slides, sys.stage.skip, c)
    else []
  }

  /** What holds in each phase; `last` is the last cue spoken.  Auto-play may have been switched off under way. */
  ghost predicate InPhase(sys: System, deck: Deck, last: Cue, phase: Phase) {
    && ValidCue(deck.authored, sys.stage.slides, last)
    && match phase
       case Speaking =>
         && sys.nar.playing && sys.nar.handler && NoAdvance(sys.nar)
         && sys.stage.outbox == [] && CurrentCue(sys) == last
       case Waiting =>
         && sys.nar.autoplay && !sys.nar.playing && !NoAdvance(sys.nar)
         && sys.stage.outbox == [] && CurrentCue(sys) == last
       case Moved =>
         var cur := CurrentCue(sys);
         && !sys.nar.playing && NoAdvance(sys.nar) && sys.stage.outbox == [] && cur != last
         && ValidCue(deck.authored, sys.stage.slides, cur)
         && Remaining(sys, deck, last) == [cur] + Remaining(sys, deck, cur)
       case Announced =>
         && !sys.nar.playing && NoAdvance(sys.nar)
         && 0 <= sys.stage.index < |sys.stage.slides| && |sys.stage.outbox| == 1
         && sys.steps.currentSlide != Some(sys.stage.slides[sys.stage.index])
         && sys.nar.curIdx == sys.stage.index && last.slide < sys.stage.index
         && ValidCue(deck.authored, sys.stage.slides, Cue(sys.stage.index, 0))
         && Remaining(sys, deck, last) == [Cue(sys.stage.index, 0)] + Remaining(sys, deck, Cue(sys.stage.index, 0))
       case AtEnd =>
         && sys.nar.autoplay && !sys.nar.playing && NoAdvance(sys.nar)
         && sys.stage.outbox == [] && CurrentCue(sys) == last
         && (exists id :: Pending(sys.nar, id, last)) && Remaining(sys, deck, last) == []
       case Done =>
         && !sys.nar.autoplay && !sys.nar.playing && NoAdvance(sys.nar)
         && sys.stage.outbox == [] && CurrentCue(sys) == last
  }

  /** The state of an auto-play run on its way through `goal`. */
  ghost predicate AutoInv(sys: System, deck: Deck, goal: seq<Cue>, last: Cue, phase: Phase) {
    && Inv(sys, deck)
    && sys.nar.narrationOn
    && sys.nar.lastCue == Some(last)
    && InPhase(sys, deck, last, phase)
    && sys.nar.spoken + Remaining(sys, deck, last) == goal
  }

  /** What the page does by itself: messages arrive, clips end, timers fire, and the watcher looks only
      after the pending message arrived. */
  predicate Automatic(sys: System, ev: Event) {
    match ev
    case Deliver => true
    case ClipEnded => true
    case Fire(id) => id in sys.nar.timers
    case Poll => sys.stage.outbox == []
    case _ => false
  }

  function Rank(phase: Phase): nat {
    match phase
    case Speaking => 5
    case Waiting => 3
    case _ => 0
  }

  /** What is left to do; every automatic event that changes anything lowers it. */
  function Work(sys: System, deck: Deck, last: Cue, phase: Phase): nat {
    8 * |Remaining(sys, deck, last)| + Rank(phase) + |sys.nar.timers| + |sys.stage.outbox|
  }

  /** The slide a phase is about. */
  function Pos(sys: System, last: Cue, phase: Phase): int {
    match phase
    case Moved => CurrentCue(sys).slide
    case Announced => sys.stage.index
    case _ => last.slide
  }

  /** The reveal step a slide was left at. */
  function Stored(sys: System, i: int): nat {
    if 0 <= i < |sys.stage.slides| then StepOf(sys.steps, sys.stage.slides[i]) else 0
  }

  /** How many cues stay unspoken once auto-play is off: what was announced or moved to is still spoken. */
  function Left(sys: System, deck: Deck, last: Cue, phase: Phase): int {
    |Remaining(sys, deck, last)| - if phase == Moved || phase == Announced then 1 else 0
  }

  /** One event of a run that is not a look-back: what it keeps. */
  ghost predicate Moves(sys: System, deck: Deck, last: Cue, phase: Phase, after: System, last': Cue, phase': Phase) {
    && after.stage.slides == sys.stage.slides && after.stage.skip == sys.stage.skip
    && after.nar.autoplay == sys.nar.autoplay
    && (forall id, b :: Pending(sys.nar, id, b) ==> Pending(after.nar, id, b))
    && (forall id, b :: Pending(after.nar, id, b) ==> Pending(sys.nar, id, b) || (phase == Waiting && b == last))
    && (forall i :: i > Pos(sys, last, phase) ==> Stored(after, i) == Stored(sys, i))
    && last' == (if phase == Moved then CurrentCue(sys) else last)
    && (phase' != Announced ==> Pos(after, last', phase') == Pos(sys, last, phase))
    && match phase
       case Speaking => phase' == if sys.nar.autoplay then Waiting else Done
       case Waiting =>
         if Remaining(sys, deck, last) == [] then phase' == AtEnd else phase' == Moved || phase' == Announced
       case Announced => phase' == Moved
       case Moved => phase' == Speaking || phase' == if sys.nar.autoplay then Waiting else Done
       case _ => false
  }

  // ----- transitions -----------------------------------------------------------------------------

  lemma FewerTimers<V>(m: map<nat, V>, id: nat)
    ensures |m - {id}| <= |m| && (id in m ==> |m - {id}| == |m| - 1)
  {
    assert (m - {id}).Keys == m.Keys - {id};
  }

  lemma OneMoreTimer<V>(m: map<nat, V>, id: nat, v: V)
    requires id !in m
    ensures |m[id := v]| == |m| + 1
  {
    assert m[id := v].Keys == m.Keys + {id};
  }

  /** With nothing pending, the cue the watcher computes is the presented slide and its step. */
  lemma CueNow(sys: System, deck: Deck)
    requires Inv(sys, deck) && sys.stage.outbox == []
    ensures 0 <= sys.stage.index < |sys.stage.slides| && sys.nar.curIdx == sys.stage.index == sys.steps.currentIdx
    ensures var p := sys.stage.slides[sys.stage.index];
            && p in sys.steps.step && sys.steps.currentSlide == Some(p)
            && CurrentCue(sys) == Cue(sys.stage.index, sys.steps.step[p])
            && sys.steps.step[p] <= MaxStep(deck.authored, p)
  {
    hide Tracked, SingleDriver, DotsOn, MaxStep;
    var p := sys.stage.slides[sys.stage.index];
    DotsShowStep(sys.steps, deck.authored, p);
    StepWithin(sys.steps, deck.authored, p);
  }

  lemma StoredIs(sys: System, deck: Deck, i: int)
    requires Inv(sys, deck) && 0 <= i < |sys.stage.slides|
    ensures sys.stage.slides[i] in sys.steps.step && Stored(sys, i) == sys.steps.step[sys.stage.slides[i]]
  {
    hide Sound, Tracked, SingleDriver;
  }

  lemma NarOnly(sys: System, deck: Deck, n: Narrator, c: Cue)
    requires n.curIdx == sys.nar.curIdx
    ensures CurrentCue(sys.(nar := n)) == CurrentCue(sys)
    ensures Remaining(sys.(nar := n), deck, c) == Remaining(sys, deck, c)
    ensures forall i :: Stored(sys.(nar := n), i) == Stored(sys, i)
  {
    hide MaxStep, LaterCues, CuesOf;
  }

  lemma EndedDriver(n: Narrator)
    requires SingleDriver(n) && n.playing && n.handler && n.nextTimer !in n.timers
    ensures var m := Ended(n);
            && !m.playing && m.autoplay == n.autoplay && m.spoken == n.spoken && m.lastCue == n.lastCue
            && m.narrationOn == n.narrationOn && m.curIdx == n.curIdx
            && (forall id, b :: Pending(m, id, b) <==> Pending(n, id, b))
            && (if n.autoplay then !NoAdvance(m) && |m.timers| == |n.timers| + 1 else m.timers == n.timers)
  {
    OneMoreTimer(n.timers, n.nextTimer, AutoNext);
    var m := Ended(n);
    if n.autoplay {
      assert m.timers[n.nextTimer] == AutoNext;
    }
  }

  lemma EndedRuns(sys: System, deck: Deck, goal: seq<Cue>, last: Cue) returns (next: Phase)
    requires AutoInv(sys, deck, goal, last, Speaking)
    ensures var after := sys.(nar := Ended(sys.nar));
            && AutoInv(after, deck, goal, last, next) && Moves(sys, deck, last, Speaking, after, last, next)
            && Work(after, deck, last, next) < Work(sys, deck, last, Speaking)
  {
    hide Inv, Remaining, CurrentCue, SingleDriver, Ended, Stored;
    next := if sys.nar.autoplay then Waiting else Done;
    var n := Ended(sys.nar);
    InvParts(sys, deck);
    DriverFresh(sys, deck);
    EndedDriver(sys.nar);
    EndedSingle(sys.nar);
    NarKeepsInv(sys, deck, n);
    NarOnly(sys, deck, n, last);
  }

  lemma DriverFresh(sys: System, deck: Deck)
    requires Inv(sys, deck)
    ensures sys.nar.nextTimer !in sys.nar.timers
  {
  }

  lemma AnnouncedMessage(sys: System, deck: Deck)
    requires Inv(sys, deck) && |sys.stage.outbox| == 1 && 0 <= sys.stage.index < |sys.stage.slides|
    requires sys.steps.currentSlide != Some(sys.stage.slides[sys.stage.index])
    ensures var after := Delivered(sys, deck);
            && after.stage == sys.stage.(outbox := []) && after.nar == sys.nar.(curIdx := sys.stage.index)
            && sys.stage.slides[sys.stage.index] in after.steps.step
            && after.steps.step[sys.stage.slides[sys.stage.index]] == 0
            && forall i :: i != sys.stage.index ==> Stored(after, i) == Stored(sys, i)
  {
    hide Inv, Sound, Synced, Tracked, SingleDriver, Receive, Entered;
    InvParts(sys, deck);
    InvTracked(sys, deck);
    InvSteps(sys, deck);
    OnlyMessage(sys, deck);
    SoundDistinct(sys.stage);
    SyncedSlides(sys.stage);
    ReceiveEffect(sys.steps, deck.authored, sys.stage.slides, sys.stage.outbox[0]);
  }

  lemma OnlyMessage(sys: System, deck: Deck)
    requires Inv(sys, deck) && |sys.stage.outbox| == 1
    ensures sys.stage.outbox[0].index == sys.stage.index && sys.stage.outbox[1..] == []
  {
  }

  lemma SameDeck(sys: System, after: System, deck: Deck, c: Cue)
    requires after.stage.slides == sys.stage.slides && after.stage.skip == sys.stage.skip
    ensures Remaining(after, deck, c) == Remaining(sys, deck, c)
  {
    hide MaxStep, LaterCues, CuesOf;
  }

  lemma DeliveredRuns(sys: System, deck: Deck, goal: seq<Cue>, last: Cue)
    requires AutoInv(sys, deck, goal, last, Announced)
    ensures var after := Delivered(sys, deck);
            && AutoInv(after, deck, goal, last, Moved) && Moves(sys, deck, last, Announced, after, last, Moved)
            && Work(after, deck, last, Moved) < Work(sys, deck, last, Announced)
  {
    hide Inv, Remaining, CurrentCue, Receive, Delivered, Stored, Pending, MaxStep;
    DeliveredKeepsInv(sys, deck);
    AnnouncedMessage(sys, deck);
    var after := Delivered(sys, deck);
    CueNow(after, deck);
    SameDeck(sys, after, deck, last);
    SameDeck(sys, after, deck, Cue(sys.stage.index, 0));
  }

  lemma MovedFacts(sys: System, deck: Deck, goal: seq<Cue>, last: Cue)
    requires AutoInv(sys, deck, goal, last, Moved)
    ensures var cur := CurrentCue(sys);
            && ValidCue(deck.authored, sys.stage.slides, cur) && ValidCue(deck.authored, sys.stage.slides, last)
            && Inv(sys, deck) && sys.nar.narrationOn && sys.nar.lastCue == Some(last) && cur != last
            && !sys.nar.playing && NoAdvance(sys.nar) && sys.stage.outbox == []
            && Remaining(sys, deck, last) == [cur] + Remaining(sys, deck, cur)
            && sys.nar.spoken + Remaining(sys, deck, last) == goal
            && Work(sys, deck, last, Moved) == 8 * (1 + |Remaining(sys, deck, cur)|) + |sys.nar.timers|
            && Pos(sys, last, Moved) == cur.slide
  {
    hide Inv, Remaining, CurrentCue, MaxStep;
  }

  lemma ArriveSpoken(sys: System, deck: Deck, goal: seq<Cue>, cur: Cue, next: Phase)
    requires ValidCue(deck.authored, sys.stage.slides, cur) && Inv(sys, deck) && sys.nar.narrationOn
    requires sys.nar.lastCue == Some(cur) == Some(CurrentCue(sys)) && sys.stage.outbox == []
    requires next == Speaking || next == Waiting || next == Done
    requires next == Speaking ==> sys.nar.playing && sys.nar.handler && NoAdvance(sys.nar)
    requires next == Waiting ==> sys.nar.autoplay && !sys.nar.playing && !NoAdvance(sys.nar)
    requires next == Done ==> !sys.nar.autoplay && !sys.nar.playing && NoAdvance(sys.nar)
    requires sys.nar.spoken + Remaining(sys, deck, cur) == goal
    ensures AutoInv(sys, deck, goal, cur, next) && Pos(sys, cur, next) == cur.slide
    ensures Work(sys, deck, cur, next) <= 8 * |Remaining(sys, deck, cur)| + 5 + |sys.nar.timers|
    ensures next != Speaking ==> Work(sys, deck, cur, next) <= 8 * |Remaining(sys, deck, cur)| + 3 + |sys.nar.timers|
  {
    hide Inv, Remaining, CurrentCue, MaxStep;
  }

  /** The driver after a cue was spoken: only an advance was added to its timers. */
  ghost predicate Spoke(n: Narrator, m: Narrator, clips: set<Cue>, c: Cue) {
    && m.spoken == n.spoken + [c] && m.lastCue == Some(c) && m.narrationOn && m.autoplay == n.autoplay
    && (forall id, b :: Pending(m, id, b) <==> Pending(n, id, b)) && m.curIdx == n.curIdx
    && (if c in clips then m.playing && m.handler && NoAdvance(m) && |m.timers| <= |n.timers|
        else if n.autoplay then !m.playing && !NoAdvance(m) && |m.timers| <= |n.timers| + 1
        else !m.playing && NoAdvance(m) && |m.timers| <= |n.timers|)
  }

  lemma SpokenNext(n: Narrator, clips: set<Cue>, cur: Cue)
    requires SingleDriver(n) && n.lastCue != Some(cur) && n.narrationOn && n.nextTimer !in n.timers && NoAdvance(n)
    ensures var m := CheckCue(n, clips, cur);
            && m.spoken == n.spoken + [cur] && m.lastCue == Some(cur) && m.narrationOn && m.autoplay == n.autoplay
            && (forall id, b :: Pending(m, id, b) <==> Pending(n, id, b)) && m.curIdx == n.curIdx
            && (if cur in clips then m.playing && m.handler && NoAdvance(m) && |m.timers| <= |n.timers|
                else if n.autoplay then !m.playing && !NoAdvance(m) && |m.timers| <= |n.timers| + 1
                else !m.playing && NoAdvance(m) && |m.timers| <= |n.timers|)
  {
    SpeakTimers(n.(lastCue := Some(cur)), clips, cur);
    hide Speak, NoAdvance;
  }

  lemma SpeakShape(n: Narrator, clips: set<Cue>, c: Cue)
    requires n.narrationOn && (n.advanceTimer.Some? ==> n.advanceTimer.value !in n.timers)
    ensures var m := Speak(n, clips, c);
            && m.spoken == n.spoken + [c] && m.lastCue == Some(c) && m.narrationOn && m.autoplay == n.autoplay
            && m.curIdx == n.curIdx && m.playing == (c in clips) && (c in clips ==> m.handler)
            && m.timers == if c !in clips && n.autoplay then n.timers[n.nextTimer := AutoNext] else n.timers
  {
    assert ClearAdvance(n).timers == n.timers;
  }

  /** What speaking does to the timers: only an advance can be added. */
  lemma SpeakTimers(n: Narrator, clips: set<Cue>, c: Cue)
    requires n.nextTimer !in n.timers && n.narrationOn && NoAdvance(n)
    requires n.advanceTimer.Some? ==> n.advanceTimer.value !in n.timers
    ensures Spoke(n, Speak(n, clips, c), clips, c)
  {
    hide Speak;
    SpeakShape(n, clips, c);
    var m := Speak(n, clips, c);
    if c !in clips && n.autoplay {
      OneMoreTimer(n.timers, n.nextTimer, AutoNext);
      assert m.timers[n.nextTimer] == AutoNext;
    }
  }

  /** The watcher sees the new cue and speaks it. */
  lemma PollRuns(sys: System, deck: Deck, goal: seq<Cue>, last: Cue) returns (next: Phase)
    requires AutoInv(sys, deck, goal, last, Moved)
    ensures var after, cur := sys.(nar := CheckCue(sys.nar, deck.clips, CurrentCue(sys))), CurrentCue(sys);
            && AutoInv(after, deck, goal, cur, next) && Moves(sys, deck, last, Moved, after, cur, next)
            && Work(after, deck, cur, next) < Work(sys, deck, last, Moved)
  {
    hide *;
    var cur := CurrentCue(sys);
    var n := CheckCue(sys.nar, deck.clips, cur);
    var after := sys.(nar := n);
    next := if cur in deck.clips then Speaking else if sys.nar.autoplay then Waiting else Done;
    MovedFacts(sys, deck, goal, last);
    InvParts(sys, deck);
    CheckCueSingle(sys.nar, deck.clips, cur);
    DriverKeepsIndex(sys.nar, deck.clips, cur);
    NarKeepsInv(sys, deck, n);
    NarOnly(sys, deck, n, cur);
    DriverFresh(sys, deck);
    SpokenNext(sys.nar, deck.clips, cur);
    assert sys.nar.spoken + ([cur] + Remaining(sys, deck, cur)) == (sys.nar.spoken + [cur]) + Remaining(sys, deck, cur);
    ArriveSpoken(after, deck, goal, cur, next);
    PollMoves(sys, deck, last, after, next);
  }

  lemma PollMoves(sys: System, deck: Deck, last: Cue, after: System, next: Phase)
    requires after.stage == sys.stage && after.nar.autoplay == sys.nar.autoplay
    requires forall id, b :: Pending(after.nar, id, b) <==> Pending(sys.nar, id, b)
    requires forall i :: Stored(after, i) == Stored(sys, i)
    requires next == if CurrentCue(sys) in deck.clips then Speaking else if sys.nar.autoplay then Waiting else Done
    ensures Moves(sys, deck, last, Moved, after, CurrentCue(sys), next)
  {
    hide Remaining, CurrentCue, Pending, Stored;
  }

  // ----- the advance timer fires ---------------------------------------------------------------

  /** The driver's side of an advance: the fired timer is gone, a look-back for `last` is pending. */
  lemma AdvanceTimers(n: Narrator, m: Narrator, id: nat, last: Cue)
    requires SingleDriver(n) && id in n.timers && n.timers[id] == AutoNext && n.nextTimer !in n.timers
    requires m == SetTimer(Taken(n, id), EndCheck(last)).(curIdx := m.curIdx)
    ensures NoAdvance(m) && |m.timers| == |n.timers| && (exists k :: Pending(m, k, last))
    ensures forall k, b :: Pending(n, k, b) ==> Pending(m, k, b)
    ensures forall k, b :: Pending(m, k, b) ==> Pending(n, k, b) || b == last
  {
    FewerTimers(n.timers, id);
    OneMoreTimer(n.timers - {id}, n.nextTimer, EndCheck(last));
    assert m.timers == (n.timers - {id})[n.nextTimer := EndCheck(last)];
    assert Pending(m, n.nextTimer, last);
    forall k <- m.timers
      ensures m.timers[k] != AutoNext
    {
      if k != n.nextTimer {
        assert IsAdvance(n, id) && (IsAdvance(n, k) ==> k == id);
      }
    }
  }

  /** What a forward key with reveals left does. */
  lemma KeyIsReveal(sys: System, deck: Deck)
    requires Inv(sys, deck) && sys.stage.outbox == [] && 0 <= sys.stage.index < |sys.stage.slides|
    requires CurrentCue(sys).step < MaxStep(deck.authored, sys.stage.slides[sys.stage.index])
    ensures Consumes(sys.steps, deck.authored, sys.stage.slides, true)
    ensures KeyPressed(sys, deck, true) ==
            sys.(steps := Reveal(sys.steps, deck.authored, sys.stage.slides, true))
  {
    CueNow(sys, deck);
    InvParts(sys, deck);
    SyncedSlides(sys.stage);
    hide Inv, CurrentCue, MaxStep, Advance, Reveal, Tracked, Sound, Synced;
  }

  /** A forward key with reveals left reveals one, of the shown slide only. */
  lemma KeyReveals(sys: System, deck: Deck)
    requires Inv(sys, deck) && sys.stage.outbox == []
    requires 0 <= sys.stage.index < |sys.stage.slides|
    requires CurrentCue(sys).step < MaxStep(deck.authored, sys.stage.slides[sys.stage.index])
    ensures var moved, p := KeyPressed(sys, deck, true), sys.stage.slides[sys.stage.index];
            && moved.stage == sys.stage && moved.nar == sys.nar && Inv(moved, deck)
            && CurrentCue(moved) == Cue(sys.stage.index, CurrentCue(sys).step + 1)
            && forall i :: i != sys.stage.index ==> Stored(moved, i) == Stored(sys, i)
  {
    hide *;
    CueNow(sys, deck);
    KeyKeepsInv(sys, deck, true);
    InvTracked(sys, deck);
    KeyIsReveal(sys, deck);
    RevealEffect(sys.steps, deck.authored, sys.stage.slides, true);
    var moved := KeyPressed(sys, deck, true);
    CueNow(moved, deck);
    StoredElsewhere(sys, moved, deck, sys.steps.step[sys.stage.slides[sys.stage.index]] + 1);
  }

  lemma StoredElsewhere(sys: System, after: System, deck: Deck, to: nat)
    requires Inv(sys, deck) && 0 <= sys.stage.index < |sys.stage.slides| && after.stage == sys.stage
    requires after.steps.step == sys.steps.step[sys.stage.slides[sys.stage.index] := to]
    ensures forall i :: i != sys.stage.index ==> Stored(after, i) == Stored(sys, i)
  {
    InvParts(sys, deck);
    SoundDistinct(sys.stage);
    hide Inv, Sound, Synced;
  }

  lemma KeyAdvances(sys: System, deck: Deck)
    requires Inv(sys, deck) && sys.stage.outbox == []
    requires 0 <= sys.stage.index < |sys.stage.slides|
    requires CurrentCue(sys).step == MaxStep(deck.authored, sys.stage.slides[sys.stage.index])
    ensures KeyPressed(sys, deck, true) == Heard(sys, Advance(sys.stage, true))
  {
    CueNow(sys, deck);
    InvParts(sys, deck);
    SyncedSlides(sys.stage);
    hide Inv, CurrentCue, MaxStep, Advance, Reveal;
  }

  /** A forward key on the last step of a slide moves the stage to the next live slide and leaves one message
      pending. */
  lemma AdvanceAnnounces(sys: System, deck: Deck)
    requires Inv(sys, deck) && sys.stage.outbox == [] && 0 <= sys.stage.index < |sys.stage.slides|
    requires NextLive(sys.stage.slides, sys.stage.skip, sys.stage.index + 1) < |sys.stage.slides|
    ensures var s, moved := sys.stage, Heard(sys, Advance(sys.stage, true));
            var j := NextLive(s.slides, s.skip, s.index + 1);
            && moved.stage.slides == s.slides && moved.stage.skip == s.skip && moved.stage.index == j
            && |moved.stage.outbox| == 1 && moved.steps == sys.steps && moved.nar == sys.nar.(curIdx := j)
            && sys.steps.currentSlide == Some(s.slides[s.index]) && s.slides[j] != s.slides[s.index]
  {
    InvParts(sys, deck);
    hide *;
    AgreedSlide(sys, deck);
    AdvanceTo(sys.stage);
    HearsOne(sys.stage, Advance(sys.stage, true));
    HeardMeaning(sys, Advance(sys.stage, true));
  }

  lemma HearsOne(s: Stage, t: Stage)
    requires t.fired == s.fired + [t.index]
    ensures Hears(s, t) && t.fired != s.fired
  {
    assert |t.fired| == |s.fired| + 1;
  }

  lemma AgreedSlide(sys: System, deck: Deck)
    requires Inv(sys, deck) && sys.stage.outbox == []
    ensures 0 <= sys.stage.index < |sys.stage.slides| && sys.nar.curIdx == sys.stage.index
    ensures sys.steps.currentSlide == Some(sys.stage.slides[sys.stage.index])
  {
    InvParts(sys, deck);
    hide Sound, Synced, Tracked, SingleDriver;
  }

  /** The stage goes to the next live slide and says so once. */
  lemma AdvanceTo(s: Stage)
    requires Sound(s) && s.outbox == [] && 0 <= s.index < |s.slides|
    requires NextLive(s.slides, s.skip, s.index + 1) < |s.slides|
    ensures var t, j := Advance(s, true), NextLive(s.slides, s.skip, s.index + 1);
            && t.slides == s.slides && t.skip == s.skip && t.index == j && |t.outbox| == 1
            && t.fired == s.fired + [j] && s.slides[j] != s.slides[s.index]
  {
    InRange(s);
    var j := NextLive(s.slides, s.skip, s.index + 1);
    assert s.index < j;
    hide Sound, NextLive, Apply, Advance;
    AdvanceUnfolded(s, true);
    ApplyOutcome(s.(index := j), false);
    ApplyKeeps(s.(index := j), false);
  }

  lemma AdvanceStays(sys: System, deck: Deck)
    requires Inv(sys, deck) && 0 <= sys.stage.index < |sys.stage.slides|
    requires NextLive(sys.stage.slides, sys.stage.skip, sys.stage.index + 1) == |sys.stage.slides|
    ensures Heard(sys, Advance(sys.stage, true)) == sys
  {
    hide Inv, Advance, NextLive;
    AdvanceUnfolded(sys.stage, true);
  }

  lemma WaitingFacts(sys: System, deck: Deck, goal: seq<Cue>, last: Cue, id: nat)
    requires AutoInv(sys, deck, goal, last, Waiting) && id in sys.nar.timers && sys.nar.timers[id] == AutoNext
    ensures var taken := sys.(nar := Taken(sys.nar, id));
            && Inv(sys, deck) && Inv(taken, deck) && CurrentCue(taken) == last == CurrentCue(sys)
            && ValidCue(deck.authored, sys.stage.slides, last) && last.slide == sys.stage.index
            && sys.nar.narrationOn && sys.nar.lastCue == Some(last) && sys.nar.autoplay && !sys.nar.playing
            && sys.stage.outbox == [] && Pos(sys, last, Waiting) == sys.stage.index
            && sys.nar.spoken + Remaining(sys, deck, last) == goal
            && Work(sys, deck, last, Waiting) == 8 * |Remaining(sys, deck, last)| + 3 + |sys.nar.timers|
            && (forall i :: Stored(taken, i) == Stored(sys, i))
            && Fired(sys, deck, id) ==
                 var moved := KeyPressed(taken, deck, true); moved.(nar := SetTimer(moved.nar, EndCheck(last)))
  {
    InvParts(sys, deck);
    hide Inv, Remaining, CurrentCue, MaxStep, KeyPressed, SingleDriver, Stored;
    FewerTimersSingle(sys.nar, Taken(sys.nar, id));
    NarKeepsInv(sys, deck, Taken(sys.nar, id));
    NarOnly(sys, deck, Taken(sys.nar, id), last);
    CueNow(sys, deck);
  }

  lemma ArriveMoved(sys: System, deck: Deck, goal: seq<Cue>, last: Cue)
    requires Inv(sys, deck) && sys.stage.outbox == [] && sys.nar.narrationOn && !sys.nar.playing
    requires sys.nar.lastCue == Some(last) && NoAdvance(sys.nar)
    requires ValidCue(deck.authored, sys.stage.slides, last)
    requires ValidCue(deck.authored, sys.stage.slides, CurrentCue(sys)) && CurrentCue(sys) != last
    requires Remaining(sys, deck, last) == [CurrentCue(sys)] + Remaining(sys, deck, CurrentCue(sys))
    requires sys.nar.spoken + Remaining(sys, deck, last) == goal
    ensures AutoInv(sys, deck, goal, last, Moved) && Pos(sys, last, Moved) == CurrentCue(sys).slide
    ensures Work(sys, deck, last, Moved) == 8 * |Remaining(sys, deck, last)| + |sys.nar.timers|
  {
    hide Inv, Remaining, CurrentCue, MaxStep;
  }

  lemma ArriveAnnounced(sys: System, deck: Deck, goal: seq<Cue>, last: Cue)
    requires Inv(sys, deck) && |sys.stage.outbox| == 1 && sys.nar.narrationOn && !sys.nar.playing
    requires 0 <= sys.stage.index < |sys.stage.slides|
    requires sys.steps.currentSlide != Some(sys.stage.slides[sys.stage.index])
    requires sys.nar.curIdx == sys.stage.index && last.slide < sys.stage.index
    requires sys.nar.lastCue == Some(last) && NoAdvance(sys.nar)
    requires ValidCue(deck.authored, sys.stage.slides, last)
    requires ValidCue(deck.authored, sys.stage.slides, Cue(sys.stage.index, 0))
    requires Remaining(sys, deck, last) == [Cue(sys.stage.index, 0)] + Remaining(sys, deck, Cue(sys.stage.index, 0))
    requires sys.nar.spoken + Remaining(sys, deck, last) == goal
    ensures AutoInv(sys, deck, goal, last, Announced)
    ensures Work(sys, deck, last, Announced) == 8 * |Remaining(sys, deck, last)| + |sys.nar.timers| + 1
  {
    hide Inv, Remaining, CurrentCue, MaxStep;
  }

  lemma ArriveAtEnd(sys: System, deck: Deck, goal: seq<Cue>, last: Cue)
    requires Inv(sys, deck) && sys.stage.outbox == [] && sys.nar.narrationOn && sys.nar.autoplay && !sys.nar.playing
    requires sys.nar.lastCue == Some(last) && NoAdvance(sys.nar) && CurrentCue(sys) == last
    requires exists k :: Pending(sys.nar, k, last)
    requires ValidCue(deck.authored, sys.stage.slides, last) && Remaining(sys, deck, last) == []
    requires sys.nar.spoken + Remaining(sys, deck, last) == goal
    ensures AutoInv(sys, deck, goal, last, AtEnd) && Pos(sys, last, AtEnd) == last.slide
    ensures Work(sys, deck, last, AtEnd) == |sys.nar.timers|
  {
    hide Inv, Remaining, CurrentCue, MaxStep;
  }

  /** What an advance keeps, for whichever phase it arrives in. */
  lemma AdvanceMoves(sys: System, deck: Deck, last: Cue, after: System, next: Phase)
    requires after.stage.slides == sys.stage.slides && after.stage.skip == sys.stage.skip
    requires after.nar.autoplay == sys.nar.autoplay
    requires forall id, b :: Pending(sys.nar, id, b) ==> Pending(after.nar, id, b)
    requires forall id, b :: Pending(after.nar, id, b) ==> Pending(sys.nar, id, b) || b == last
    requires forall i :: i > last.slide ==> Stored(after, i) == Stored(sys, i)
    requires next != Announced ==> Pos(after, last, next) == last.slide
    requires if Remaining(sys, deck, last) == [] then next == AtEnd else next == Moved || next == Announced
    ensures Moves(sys, deck, last, Waiting, after, last, next)
  {
    hide Remaining, CurrentCue, Pending, Stored;
  }

  /** The advance timer fires: the next reveal, the next slide, or nothing at all. */
  lemma AdvanceRuns(sys: System, deck: Deck, goal: seq<Cue>, last: Cue, id: nat) returns (next: Phase)
    requires AutoInv(sys, deck, goal, last, Waiting) && id in sys.nar.timers && sys.nar.timers[id] == AutoNext
    ensures 0 <= sys.stage.index < |sys.stage.slides|
    ensures AutoInv(Fired(sys, deck, id), deck, goal, last, next)
    ensures Moves(sys, deck, last, Waiting, Fired(sys, deck, id), last, next)
    ensures Work(Fired(sys, deck, id), deck, last, next) < Work(sys, deck, last, Waiting)
  {
    hide *;
    WaitingFacts(sys, deck, goal, last, id);
    InvParts(sys, deck);
    if last.step < MaxStep(deck.authored, sys.stage.slides[sys.stage.index]) {
      next := Moved;
      RevealRuns(sys, deck, goal, last, id);
    } else {
      next := SlideRuns(sys, deck, goal, last, id);
    }
  }

  lemma ValidStep(authored: Authored, slides: seq<SlideId>, c: Cue)
    requires ValidCue(authored, slides, c)
    ensures 0 <= c.slide < |slides| && c.step <= MaxStep(authored, slides[c.slide])
  {
  }

  /** The driver after an advance, apart from its timers and the slide it listens to. */
  lemma AdvancedNar(n: Narrator, id: nat, last: Cue, at: int)
    ensures var m := SetTimer(Taken(n, id).(curIdx := at), EndCheck(last));
            && m.spoken == n.spoken && m.lastCue == n.lastCue && m.narrationOn == n.narrationOn
            && m.autoplay == n.autoplay && m.playing == n.playing && m.curIdx == at
            && m == SetTimer(Taken(n, id), EndCheck(last)).(curIdx := at)
            && (at == n.curIdx ==> m == SetTimer(Taken(n, id), EndCheck(last)))
  {
  }

  lemma AfterReveal(sys: System, deck: Deck, goal: seq<Cue>, last: Cue, id: nat)
    requires AutoInv(sys, deck, goal, last, Waiting) && id in sys.nar.timers && sys.nar.timers[id] == AutoNext
    requires 0 <= sys.stage.index < |sys.stage.slides|
    requires last.step < MaxStep(deck.authored, sys.stage.slides[sys.stage.index])
    ensures var after := Fired(sys, deck, id);
            && after.stage == sys.stage && after.nar == SetTimer(Taken(sys.nar, id), EndCheck(last))
            && CurrentCue(after) == Cue(last.slide, last.step + 1)
            && forall i :: i != last.slide ==> Stored(after, i) == Stored(sys, i)
  {
    hide AutoInv, Inv, Fired, KeyPressed, CurrentCue, MaxStep, Remaining, ValidCue, Stored;
    WaitingFacts(sys, deck, goal, last, id);
    var taken := sys.(nar := Taken(sys.nar, id));
    var moved := KeyPressed(taken, deck, true);
    KeyReveals(taken, deck);
    CueOfNar(moved, SetTimer(moved.nar, EndCheck(last)));
  }

  lemma CueOfNar(sys: System, n: Narrator)
    requires n.curIdx == sys.nar.curIdx
    ensures CurrentCue(sys.(nar := n)) == CurrentCue(sys)
    ensures forall i :: Stored(sys.(nar := n), i) == Stored(sys, i)
  {
  }

  lemma RevealRuns(sys: System, deck: Deck, goal: seq<Cue>, last: Cue, id: nat)
    requires AutoInv(sys, deck, goal, last, Waiting) && id in sys.nar.timers && sys.nar.timers[id] == AutoNext
    requires 0 <= sys.stage.index < |sys.stage.slides|
    requires last.step < MaxStep(deck.authored, sys.stage.slides[sys.stage.index])
    ensures AutoInv(Fired(sys, deck, id), deck, goal, last, Moved)
    ensures Moves(sys, deck, last, Waiting, Fired(sys, deck, id), last, Moved)
    ensures Work(Fired(sys, deck, id), deck, last, Moved) < Work(sys, deck, last, Waiting)
  {
    var after, next := Fired(sys, deck, id), Cue(last.slide, last.step + 1);
    hide *;
    WaitingFacts(sys, deck, goal, last, id);
    InvParts(sys, deck);
    DriverFresh(sys, deck);
    FiredKeepsInv(sys, deck, id);
    AfterReveal(sys, deck, goal, last, id);
    AdvancedNar(sys.nar, id, last, sys.nar.curIdx);
    AdvanceTimers(sys.nar, after.nar, id, last);
    UpcomingStep(deck.authored, sys.stage.slides, sys.stage.skip, last);
    SameDeck(sys, after, deck, last);
    SameDeck(sys, after, deck, next);
    RemainingIs(sys, deck, last);
    RemainingIs(sys, deck, next);
    ArriveMoved(after, deck, goal, last);
    AdvanceMoves(sys, deck, last, after, Moved);
  }

  lemma RemainingIs(sys: System, deck: Deck, c: Cue)
    requires ValidCue(deck.authored, sys.stage.slides, c)
    ensures Remaining(sys, deck, c) == Upcoming(deck.authored, sys.stage.slides, sys.stage.skip, c)
  {
  }

  lemma AfterLastStep(sys: System, deck: Deck, goal: seq<Cue>, last: Cue, id: nat)
    requires AutoInv(sys, deck, goal, last, Waiting) && id in sys.nar.timers && sys.nar.timers[id] == AutoNext
    requires 0 <= sys.stage.index < |sys.stage.slides|
    requires last.step == MaxStep(deck.authored, sys.stage.slides[sys.stage.index])
    ensures var s, after := sys.stage, Fired(sys, deck, id);
            var j := NextLive(s.slides, s.skip, s.index + 1);
            && after.stage.slides == s.slides && after.stage.skip == s.skip && after.steps == sys.steps
            && (if j < |s.slides| then
                  && after.stage.index == j && |after.stage.outbox| == 1
                  && after.nar == SetTimer(Taken(sys.nar, id).(curIdx := j), EndCheck(last))
                  && after.steps.currentSlide != Some(s.slides[j])
                else
                  && after.stage == s && CurrentCue(after) == last
                  && after.nar == SetTimer(Taken(sys.nar, id), EndCheck(last)))
  {
    var s, taken := sys.stage, sys.(nar := Taken(sys.nar, id));
    var j := NextLive(s.slides, s.skip, s.index + 1);
    var moved := KeyPressed(taken, deck, true);
    hide *;
    WaitingFacts(sys, deck, goal, last, id);
    KeyAdvances(taken, deck);
    if j < |s.slides| {
      AdvanceAnnounces(taken, deck);
    } else {
      AdvanceStays(taken, deck);
      AdvancedNar(sys.nar, id, last, sys.nar.curIdx);
      CueOfNar(taken, SetTimer(taken.nar, EndCheck(last)));
    }
  }

  lemma SameStored(sys: System, after: System)
    requires after.stage.slides == sys.stage.slides && after.steps == sys.steps
    ensures forall i :: Stored(after, i) == Stored(sys, i)
  {
  }

  lemma SlideRuns(sys: System, deck: Deck, goal: seq<Cue>, last: Cue, id: nat) returns (next: Phase)
    requires AutoInv(sys, deck, goal, last, Waiting) && id in sys.nar.timers && sys.nar.timers[id] == AutoNext
    requires 0 <= sys.stage.index < |sys.stage.slides|
    requires last.step >= MaxStep(deck.authored, sys.stage.slides[sys.stage.index])
    ensures AutoInv(Fired(sys, deck, id), deck, goal, last, next)
    ensures Moves(sys, deck, last, Waiting, Fired(sys, deck, id), last, next)
    ensures Work(Fired(sys, deck, id), deck, last, next) < Work(sys, deck, last, Waiting)
  {
    hide *;
    WaitingFacts(sys, deck, goal, last, id);
    ValidStep(deck.authored, sys.stage.slides, last);
    if NextLive(sys.stage.slides, sys.stage.skip, sys.stage.index + 1) < |sys.stage.slides| {
      next := Announced;
      AnnounceRuns(sys, deck, goal, last, id);
    } else {
      next := AtEnd;
      EndRuns(sys, deck, goal, last, id);
    }
  }

  lemma AnnounceRuns(sys: System, deck: Deck, goal: seq<Cue>, last: Cue, id: nat)
    requires AutoInv(sys, deck, goal, last, Waiting) && id in sys.nar.timers && sys.nar.timers[id] == AutoNext
    requires 0 <= sys.stage.index < |sys.stage.slides|
    requires last.step == MaxStep(deck.authored, sys.stage.slides[sys.stage.index])
    requires NextLive(sys.stage.slides, sys.stage.skip, sys.stage.index + 1) < |sys.stage.slides|
    ensures AutoInv(Fired(sys, deck, id), deck, goal, last, Announced)
    ensures Moves(sys, deck, last, Waiting, Fired(sys, deck, id), last, Announced)
    ensures Work(Fired(sys, deck, id), deck, last, Announced) < Work(sys, deck, last, Waiting)
  {
    hide *;
    WaitingFacts(sys, deck, goal, last, id);
    InvParts(sys, deck);
    DriverFresh(sys, deck);
    FiredKeepsInv(sys, deck, id);
    AfterLastStep(sys, deck, goal, last, id);
    UpcomingSlide(deck.authored, sys.stage.slides, sys.stage.skip, last);
    RemainingIs(sys, deck, last);
    var after := Fired(sys, deck, id);
    var j := NextLive(sys.stage.slides, sys.stage.skip, sys.stage.index + 1);
    AdvancedNar(sys.nar, id, last, j);
    AdvanceTimers(sys.nar, after.nar, id, last);
    NextLater(sys.stage.slides, sys.stage.skip, sys.stage.index + 1);
    SameDeck(sys, after, deck, last);
    SameDeck(sys, after, deck, Cue(j, 0));
    RemainingIs(sys, deck, Cue(j, 0));
    ArriveAnnounced(after, deck, goal, last);
    SameStored(sys, after);
    AdvanceMoves(sys, deck, last, after, Announced);
  }

  lemma EndRuns(sys: System, deck: Deck, goal: seq<Cue>, last: Cue, id: nat)
    requires AutoInv(sys, deck, goal, last, Waiting) && id in sys.nar.timers && sys.nar.timers[id] == AutoNext
    requires 0 <= sys.stage.index < |sys.stage.slides|
    requires last.step == MaxStep(deck.authored, sys.stage.slides[sys.stage.index])
    requires NextLive(sys.stage.slides, sys.stage.skip, sys.stage.index + 1) >= |sys.stage.slides|
    ensures AutoInv(Fired(sys, deck, id), deck, goal, last, AtEnd)
    ensures Moves(sys, deck, last, Waiting, Fired(sys, deck, id), last, AtEnd)
    ensures Work(Fired(sys, deck, id), deck, last, AtEnd) < Work(sys, deck, last, Waiting)
  {
    hide *;
    WaitingFacts(sys, deck, goal, last, id);
    InvParts(sys, deck);
    DriverFresh(sys, deck);
    FiredKeepsInv(sys, deck, id);
    AfterLastStep(sys, deck, goal, last, id);
    UpcomingSlide(deck.authored, sys.stage.slides, sys.stage.skip, last);
    RemainingIs(sys, deck, last);
    var after := Fired(sys, deck, id);
    AdvancedNar(sys.nar, id, last, sys.nar.curIdx);
    AdvanceTimers(sys.nar, after.nar, id, last);
    SameDeck(sys, after, deck, last);
    ArriveAtEnd(after, deck, goal, last);
    SameStored(sys, after);
    AdvanceMoves(sys, deck, last, after, AtEnd);
  }

  lemma NextLater(slides: seq<SlideId>, skip: set<SlideId>, i: nat)
    requires i <= |slides|
    ensures i <= NextLive(slides, skip, i)
  {
  }

  // ----- look-backs that do harm ---------------------------------------------------------------

  predicate Going(phase: Phase) {
    phase == Speaking || phase == Waiting || phase == Moved || phase == Announced
  }

  /** The cues a run has ahead of it, with the one being spoken. */
  function Ahead(sys: System, deck: Deck, last: Cue, phase: Phase): seq<Cue> {
    (if phase == Speaking || phase == Waiting then [last] else []) + Remaining(sys, deck, last)
  }

  /** The slide a run has reached. */
  function Reached(sys: System, last: Cue, phase: Phase): int {
    if phase == Moved then CurrentCue(sys).slide else last.slide
  }

  /** A look-back for `b` can cut a run over `cues` short.  It stops the run when it fires while `b` is current:
      too early unless `b` is the last cue.  And while the message announcing the slide of `b` is pending, the
      current cue is that slide at the step it was left at; stopping there leaves all but its first cue unspoken. */
  predicate Harmful(sys: System, reached: int, cues: seq<Cue>, b: Cue) {
    && b in cues
    && (b != cues[|cues| - 1] || (b.slide > reached && b.step > 0 && Stored(sys, b.slide) == b.step))
  }

  ghost predicate Harmless(sys: System, reached: int, cues: seq<Cue>) {
    forall id, b :: Pending(sys.nar, id, b) ==> !Harmful(sys, reached, cues, b)
  }

  /** The run will speak everything: under auto-play no pending look-back can stop it, and without it nothing is
      left. */
  ghost predicate Safe(sys: System, deck: Deck, last: Cue, phase: Phase) {
    if !sys.nar.autoplay then Left(sys, deck, last, phase) <= 0
    else Going(phase) ==> Harmless(sys, Reached(sys, last, phase), Ahead(sys, deck, last, phase))
  }

  /** What an event does to the outlook of a run. */
  ghost predicate Kept(sys: System, deck: Deck, last: Cue, phase: Phase, after: System, last': Cue, phase': Phase) {
    && (!sys.nar.autoplay ==>
          !after.nar.autoplay && Left(after, deck, last', phase') == Left(sys, deck, last, phase))
    && (Safe(sys, deck, last, phase) ==> Safe(after, deck, last', phase'))
  }

  lemma LastIsFirst(cues: seq<Cue>)
    requires Ascending(cues) && cues != []
    ensures cues[|cues| - 1] == cues[0] <==> |cues| == 1
  {
    assert |cues| > 1 ==> Earlier(cues[0], cues[|cues| - 1]);
  }

  lemma AheadFacts(sys: System, deck: Deck, goal: seq<Cue>, last: Cue, phase: Phase)
    requires AutoInv(sys, deck, goal, last, phase)
    ensures Ascending([last] + Remaining(sys, deck, last)) && Ascending(Ahead(sys, deck, last, phase))
    ensures phase == Moved ==>
              Remaining(sys, deck, last) == [CurrentCue(sys)] + Remaining(sys, deck, CurrentCue(sys))
    ensures phase == Announced ==>
              var first := Cue(sys.stage.index, 0);
              && last.slide < first.slide && Ascending([first] + Remaining(sys, deck, first))
              && Remaining(sys, deck, last) == [first] + Remaining(sys, deck, first)
  {
    hide Inv, CurrentCue, MaxStep, Upcoming, Ascending;
    PlanMeaning(deck.authored, sys.stage.slides, sys.stage.skip, last, last);
    var rest := Remaining(sys, deck, last);
    AscendingTail(last, rest);
    assert [] + rest == rest;
    if phase == Announced {
      PlanMeaning(deck.authored, sys.stage.slides, sys.stage.skip, Cue(sys.stage.index, 0), last);
    }
  }

  lemma AscendingTail(c: Cue, rest: seq<Cue>)
    requires Ascending([c] + rest)
    ensures Ascending(rest)
    ensures forall x <- rest :: Earlier(c, x)
  {
    assert forall k :: 0 <= k < |rest| ==> ([c] + rest)[k + 1] == rest[k];
    forall x <- rest
      ensures Earlier(c, x)
    {
      var k :| 0 <= k < |rest| && rest[k] == x;
      assert Earlier(([c] + rest)[0], ([c] + rest)[k + 1]);
    }
  }

  /** While a message is pending, the current cue is the announced slide at the step it was left at. */
  lemma AnnouncedCue(sys: System, deck: Deck, goal: seq<Cue>, last: Cue)
    requires AutoInv(sys, deck, goal, last, Announced)
    ensures CurrentCue(sys) == Cue(sys.stage.index, Stored(sys, sys.stage.index))
    ensures CurrentCue(sys) in Remaining(sys, deck, last)
  {
    var index, slides := sys.stage.index, sys.stage.slides;
    StoredIs(sys, deck, index);
    InvParts(sys, deck);
    SyncedSlides(sys.stage);
    InvTracked(sys, deck);
    DotsShowStep(sys.steps, deck.authored, slides[index]);
    StepWithin(sys.steps, deck.authored, slides[index]);
    var first := Cue(index, 0);
    assert first in Remaining(sys, deck, last);
    hide Inv, Tracked, Sound, Synced, SingleDriver, DotsOn, MaxStep, Upcoming;
    PlanMeaning(deck.authored, slides, sys.stage.skip, last, first);
    PlanMeaning(deck.authored, slides, sys.stage.skip, last, CurrentCue(sys));
  }

  /** How the current cue stands to what is ahead. */
  lemma GoingFacts(sys: System, deck: Deck, goal: seq<Cue>, last: Cue, phase: Phase)
    requires AutoInv(sys, deck, goal, last, phase) && Going(phase)
    ensures var ahead, cur := Ahead(sys, deck, last, phase), CurrentCue(sys);
            && ahead != [] && Ascending(ahead) && Left(sys, deck, last, phase) == |ahead| - 1 && cur in ahead
            && (if phase != Announced then ahead[0] == cur && Reached(sys, last, phase) == cur.slide
                else
                  && ahead[0] == Cue(sys.stage.index, 0) && Reached(sys, last, phase) < sys.stage.index
                  && cur == Cue(sys.stage.index, Stored(sys, sys.stage.index)))
  {
    hide AutoInv, Remaining, CurrentCue, Stored, Ascending, Pending;
    AheadFacts(sys, deck, goal, last, phase);
    PhaseCue(sys, deck, goal, last, phase);
    if phase == Announced {
      AnnouncedCue(sys, deck, goal, last);
    }
    assert phase != Announced ==> Ahead(sys, deck, last, phase)[0] == CurrentCue(sys);
  }

  /** A look-back for the current cue does harm exactly when it leaves something unspoken. */
  lemma CurrentHarm(sys: System, deck: Deck, goal: seq<Cue>, last: Cue, phase: Phase)
    requires AutoInv(sys, deck, goal, last, phase) && Going(phase)
    ensures Harmful(sys, Reached(sys, last, phase), Ahead(sys, deck, last, phase), CurrentCue(sys)) <==>
            Left(sys, deck, last, phase) > 0
  {
    GoingFacts(sys, deck, goal, last, phase);
    LastIsFirst(Ahead(sys, deck, last, phase));
    hide AutoInv, CurrentCue, Stored, Ascending, Ahead, Reached, Left;
  }

  lemma PhaseCue(sys: System, deck: Deck, goal: seq<Cue>, last: Cue, phase: Phase)
    requires AutoInv(sys, deck, goal, last, phase)
    ensures phase != Moved && phase != Announced ==> CurrentCue(sys) == last
  {
    hide Inv, Remaining, MaxStep, CurrentCue;
  }

  lemma AheadIs(sys: System, deck: Deck, last: Cue, phase: Phase)
    ensures Ahead(sys, deck, last, phase) ==
            if phase == Speaking || phase == Waiting then [last] + Remaining(sys, deck, last)
               else Remaining(sys, deck, last)
    ensures Reached(sys, last, phase) == if phase == Moved then CurrentCue(sys).slide else last.slide
  {
    hide Remaining, CurrentCue;
    assert [] + Remaining(sys, deck, last) == Remaining(sys, deck, last);
  }

  lemma MovesPos(sys: System, deck: Deck, last: Cue, phase: Phase, after: System, last': Cue, phase': Phase)
    requires Moves(sys, deck, last, phase, after, last', phase')
    ensures after.stage.slides == sys.stage.slides && after.stage.skip == sys.stage.skip
    ensures phase != AtEnd && phase != Done
    ensures phase == Speaking ==> phase' == Waiting || phase' == Done
    ensures phase == Moved ==> phase' == Speaking || phase' == Waiting || phase' == Done
    ensures phase' != Announced && phase != Announced ==>
              (if phase' == Moved then CurrentCue(after).slide else last'.slide)
              == (if phase == Moved then CurrentCue(sys).slide else last.slide)
    ensures phase == Announced ==> CurrentCue(after).slide == sys.stage.index
  {
    hide Remaining, CurrentCue, Stored, Pending;
  }

  /** A move changes what is ahead only by the cue left behind, and touches no stored step still ahead. */
  lemma MovesAhead(sys: System, deck: Deck, goal: seq<Cue>, last: Cue, phase: Phase,
                   after: System, last': Cue, phase': Phase)
    requires AutoInv(sys, deck, goal, last, phase) && Moves(sys, deck, last, phase, after, last', phase')
    requires Going(phase')
    ensures var ahead, ahead' := Ahead(sys, deck, last, phase), Ahead(after, deck, last', phase');
            && ahead == (if phase == Waiting then [last] else []) + ahead' && ahead' != []
            && Reached(after, last', phase') ==
                 (if phase == Announced then sys.stage.index else Reached(sys, last, phase))
  {
    hide *;
    AheadFacts(sys, deck, goal, last, phase);
    MovesLast(sys, deck, last, phase, after, last', phase');
    MovesPos(sys, deck, last, phase, after, last', phase');
    SameDeck(sys, after, deck, last);
    SameDeck(sys, after, deck, last');
    AheadIs(sys, deck, last, phase);
    AheadIs(after, deck, last', phase');
    assert [] + Ahead(after, deck, last', phase') == Ahead(after, deck, last', phase');
    GoingPhases(phase);
    GoingPhases(phase');
  }

  /** Across a move, harm neither appears nor, unless the look-back's cue is current, disappears. */
  lemma MovesHarm(sys: System, deck: Deck, goal: seq<Cue>, last: Cue, phase: Phase,
                  after: System, last': Cue, phase': Phase, b: Cue)
    requires AutoInv(sys, deck, goal, last, phase) && Going(phase)
    requires Moves(sys, deck, last, phase, after, last', phase') && Going(phase')
    ensures var harmful := Harmful(sys, Reached(sys, last, phase), Ahead(sys, deck, last, phase), b);
            var harmful' := Harmful(after, Reached(after, last', phase'), Ahead(after, deck, last', phase'), b);
            && (harmful' ==> harmful && (phase == Waiting ==> b != last))
            && (harmful && b != CurrentCue(sys) ==> harmful')
  {
    hide *;
    GoingFacts(sys, deck, goal, last, phase);
    MovesAhead(sys, deck, goal, last, phase, after, last', phase');
    StoredAhead(sys, deck, last, phase, after, last', phase');
    var ahead, ahead' := Ahead(sys, deck, last, phase), Ahead(after, deck, last', phase');
    var reached, reached' := Reached(sys, last, phase), Reached(after, last', phase');
    EarlierSlides(ahead);
    if phase == Waiting {
      PhaseCue(sys, deck, goal, last, phase);
      HarmAfterFirst(sys, after, reached, ahead, b);
    } else {
      assert ahead == ahead';
      HarmFrom(sys, after, reached, reached', ahead, b);
    }
  }

  /** Past the first of the cues ahead, nothing changes. */
  lemma HarmAfterFirst(sys: System, after: System, reached: int, ahead: seq<Cue>, b: Cue)
    requires |ahead| > 1 && Ascending(ahead) && (forall i :: i > reached ==> Stored(after, i) == Stored(sys, i))
    ensures Harmful(after, reached, ahead[1..], b) <==> Harmful(sys, reached, ahead, b) && b != ahead[0]
  {
    hide Stored;
    assert ahead == [ahead[0]] + ahead[1..];
    AscendingTail(ahead[0], ahead[1..]);
  }

  /** Going on to slide `reached'` changes the harm of a look-back only if that slide was left at its step. */
  lemma HarmFrom(sys: System, after: System, reached: int, reached': int, ahead: seq<Cue>, b: Cue)
    requires reached <= reached' && forall i :: i > reached' ==> Stored(after, i) == Stored(sys, i)
    requires forall x <- ahead :: x.slide >= reached'
    ensures Harmful(after, reached', ahead, b) ==> Harmful(sys, reached, ahead, b)
    ensures Harmful(sys, reached, ahead, b) && !(reached < reached' && b == Cue(reached', Stored(sys, reached'))) ==>
              Harmful(after, reached', ahead, b)
  {
    hide Stored;
  }

  lemma EarlierSlides(cues: seq<Cue>)
    requires Ascending(cues) && cues != []
    ensures forall x <- cues :: x.slide >= cues[0].slide
  {
    forall x <- cues
      ensures x.slide >= cues[0].slide
    {
      var k :| 0 <= k < |cues| && cues[k] == x;
      assert k > 0 ==> Earlier(cues[0], cues[k]);
    }
  }

  lemma StoredAhead(sys: System, deck: Deck, last: Cue, phase: Phase, after: System, last': Cue, phase': Phase)
    requires Moves(sys, deck, last, phase, after, last', phase')
    ensures forall i :: i > Pos(sys, last, phase) ==> Stored(after, i) == Stored(sys, i)
    ensures phase != Announced ==> Pos(sys, last, phase) == Reached(sys, last, phase)
    ensures phase == Announced ==> Pos(sys, last, phase) == sys.stage.index
  {
    hide Remaining, CurrentCue, Stored, Pending;
  }

  lemma MovesKept(sys: System, deck: Deck, goal: seq<Cue>, last: Cue, phase: Phase,
                  after: System, last': Cue, phase': Phase)
    requires AutoInv(sys, deck, goal, last, phase) && Going(phase)
    requires Moves(sys, deck, last, phase, after, last', phase')
    ensures Kept(sys, deck, last, phase, after, last', phase')
  {
    MovesLeft(sys, deck, goal, last, phase, after, last', phase');
    if sys.nar.autoplay && Going(phase') && Safe(sys, deck, last, phase) {
      forall id, b | Pending(after.nar, id, b)
        ensures !Harmful(after, Reached(after, last', phase'), Ahead(after, deck, last', phase'), b)
      {
        MovesHarm(sys, deck, goal, last, phase, after, last', phase', b);
        PendingMoves(sys, deck, last, phase, after, last', phase', id, b);
      }
    }
    hide AutoInv, Moves, Left, Ahead, Reached, Harmful;
  }

  lemma PendingMoves(sys: System, deck: Deck, last: Cue, phase: Phase, after: System, last': Cue, phase': Phase,
                     id: nat, b: Cue)
    requires Moves(sys, deck, last, phase, after, last', phase')
    ensures Pending(sys.nar, id, b) ==> Pending(after.nar, id, b)
    ensures Pending(after.nar, id, b) ==> Pending(sys.nar, id, b) || (phase == Waiting && b == last)
  {
    hide Remaining, CurrentCue, Stored, Pending;
  }

  lemma MovesLeft(sys: System, deck: Deck, goal: seq<Cue>, last: Cue, phase: Phase,
                  after: System, last': Cue, phase': Phase)
    requires AutoInv(sys, deck, goal, last, phase) && Going(phase)
    requires Moves(sys, deck, last, phase, after, last', phase')
    ensures after.nar.autoplay == sys.nar.autoplay
    ensures !sys.nar.autoplay ==> Left(after, deck, last', phase') == Left(sys, deck, last, phase)
  {
    hide AutoInv, Remaining, CurrentCue, Stored, Ascending, Pending, Ahead, Plan, MaxStep;
    AheadFacts(sys, deck, goal, last, phase);
    SameDeck(sys, after, deck, last);
    SameDeck(sys, after, deck, last');
    OffPhases(sys, deck, goal, last, phase);
  }

  lemma OffPhases(sys: System, deck: Deck, goal: seq<Cue>, last: Cue, phase: Phase)
    requires AutoInv(sys, deck, goal, last, phase)
    ensures phase == Waiting || phase == AtEnd ==> sys.nar.autoplay
    ensures phase == Done ==> !sys.nar.autoplay
  {
    hide Inv, Remaining, MaxStep, CurrentCue;
  }

  // ----- a look-back fires ---------------------------------------------------------------------

  lemma TakenKeeps(sys: System, deck: Deck, id: nat)
    requires Inv(sys, deck)
    ensures Inv(sys.(nar := Taken(sys.nar, id)), deck) && CurrentCue(sys.(nar := Taken(sys.nar, id))) == CurrentCue(sys)
    ensures id in sys.nar.timers ==> |Taken(sys.nar, id).timers| == |sys.nar.timers| - 1
  {
    InvParts(sys, deck);
    hide Inv, SingleDriver;
    FewerTimers(sys.nar.timers, id);
    FewerTimersSingle(sys.nar, Taken(sys.nar, id));
    NarKeepsInv(sys, deck, Taken(sys.nar, id));
  }

  /** What `Fired` does for a look-back: nothing more than losing the timer, unless the deck did not move. */
  lemma LookBack(sys: System, deck: Deck, id: nat, before: Cue)
    requires 0 <= sys.stage.index < |sys.stage.slides| && Pending(sys.nar, id, before)
    ensures var taken := sys.(nar := Taken(sys.nar, id));
            Fired(sys, deck, id) == if CurrentCue(sys) == before then taken.(nar := StopAutoplay(taken.nar)) else taken
  {
    hide StopAutoplay, AutoAdvanced;
  }

  lemma TakenInPhase(sys: System, deck: Deck, last: Cue, phase: Phase, id: nat, before: Cue)
    requires InPhase(sys, deck, last, phase) && Pending(sys.nar, id, before) && CurrentCue(sys) != before
    ensures InPhase(sys.(nar := Taken(sys.nar, id)), deck, last, phase)
  {
    hide Remaining, MaxStep, CurrentCue;
    var after := sys.(nar := Taken(sys.nar, id));
    assert forall k <- after.nar.timers :: after.nar.timers[k] == sys.nar.timers[k];
    NarOnly(sys, deck, after.nar, last);
    match phase
    case Speaking =>
    case Waiting =>
      var k :| k in sys.nar.timers && sys.nar.timers[k] == AutoNext;
      assert k in after.nar.timers && after.nar.timers[k] == AutoNext;
    case Moved => NarOnly(sys, deck, after.nar, CurrentCue(sys));
    case Announced => NarOnly(sys, deck, after.nar, Cue(sys.stage.index, 0));
    case AtEnd =>
      var k :| Pending(sys.nar, k, last);
      assert Pending(after.nar, k, last);
    case Done =>
  }

  lemma InPhaseValid(sys: System, deck: Deck, goal: seq<Cue>, last: Cue, phase: Phase)
    requires AutoInv(sys, deck, goal, last, phase)
    ensures Inv(sys, deck) && InPhase(sys, deck, last, phase) && 0 <= sys.stage.index < |sys.stage.slides|
    ensures sys.nar.narrationOn && sys.nar.lastCue == Some(last) && sys.nar.spoken + Remaining(sys, deck, last) == goal
  {
    InvParts(sys, deck);
    hide Inv, InPhase, Remaining;
  }

  /** The look-back of another cue only disappears. */
  lemma CheckGone(sys: System, deck: Deck, goal: seq<Cue>, last: Cue, phase: Phase, id: nat, before: Cue)
    requires AutoInv(sys, deck, goal, last, phase) && Pending(sys.nar, id, before) && CurrentCue(sys) != before
    ensures var after := sys.(nar := Taken(sys.nar, id));
            && AutoInv(after, deck, goal, last, phase) && Kept(sys, deck, last, phase, after, last, phase)
            && Work(after, deck, last, phase) < Work(sys, deck, last, phase)
  {
    var after := sys.(nar := Taken(sys.nar, id));
    InPhaseValid(sys, deck, goal, last, phase);
    TakenKeeps(sys, deck, id);
    TakenInPhase(sys, deck, last, phase, id, before);
    NarOnly(sys, deck, after.nar, last);
    FewerChecksKept(sys, deck, last, phase, after.nar);
    hide Inv, InPhase, Remaining, MaxStep, CurrentCue, Stored, Kept;
  }

  lemma FewerChecksKept(sys: System, deck: Deck, last: Cue, phase: Phase, n: Narrator)
    requires n.curIdx == sys.nar.curIdx && n.autoplay == sys.nar.autoplay
    requires forall k, b :: Pending(n, k, b) ==> Pending(sys.nar, k, b)
    ensures Kept(sys, deck, last, phase, sys.(nar := n), last, phase)
  {
    hide Remaining, MaxStep, CurrentCue, Stored, Pending;
    NarOnly(sys, deck, n, last);
  }

  lemma PendingTimer(n: Narrator, id: nat, b: Cue)
    ensures Pending(n, id, b) ==> id in n.timers
  {
  }

  /** Where stopping leaves a run: what was moved to or announced is still spoken. */
  function Stopped(phase: Phase): Phase {
    if phase == Moved || phase == Announced then phase else Done
  }

  lemma StopFacts(n: Narrator)
    requires SingleDriver(n)
    ensures var m := StopAutoplay(n);
            && NoAdvance(m) && |m.timers| <= |n.timers| && !m.playing && !m.autoplay && m.curIdx == n.curIdx
            && m.spoken == n.spoken && m.lastCue == n.lastCue && m.narrationOn == n.narrationOn
  {
    if n.advanceTimer.Some? {
      FewerTimers(n.timers, n.advanceTimer.value);
    }
    forall id <- StopAutoplay(n).timers
      ensures n.timers[id] != AutoNext
    {
      assert IsAdvance(n, id) ==> n.advanceTimer == Some(id);
    }
  }

  lemma StoppedInPhase(sys: System, deck: Deck, last: Cue, phase: Phase, n: Narrator)
    requires InPhase(sys, deck, last, phase)
    requires NoAdvance(n) && !n.playing && !n.autoplay && n.curIdx == sys.nar.curIdx
    ensures InPhase(sys.(nar := n), deck, last, Stopped(phase))
  {
    hide Remaining, MaxStep, CurrentCue, NoAdvance;
    NarOnly(sys, deck, n, last);
    NarOnly(sys, deck, n, CurrentCue(sys));
    NarOnly(sys, deck, n, Cue(sys.stage.index, 0));
  }

  /** The look-back of the current cue stops auto-play, with as much left unspoken as there was to come. */
  lemma CheckStops(sys: System, deck: Deck, goal: seq<Cue>, last: Cue, phase: Phase, id: nat)
    requires AutoInv(sys, deck, goal, last, phase) && Pending(sys.nar, id, CurrentCue(sys))
    ensures var taken := sys.(nar := Taken(sys.nar, id)); var after := taken.(nar := StopAutoplay(taken.nar));
            && AutoInv(after, deck, goal, last, Stopped(phase)) && !after.nar.autoplay
            && Left(after, deck, last, Stopped(phase)) == Left(sys, deck, last, phase)
            && Work(after, deck, last, Stopped(phase)) < Work(sys, deck, last, phase)
  {
    hide *;
    var taken := sys.(nar := Taken(sys.nar, id));
    var after := taken.(nar := StopAutoplay(taken.nar));
    InPhaseValid(sys, deck, goal, last, phase);
    PendingTimer(sys.nar, id, CurrentCue(sys));
    TakenKeeps(sys, deck, id);
    TakenSame(sys.nar, id);
    InvParts(taken, deck);
    StopFacts(taken.nar);
    StopAutoplaySingle(taken.nar);
    NarKeepsInv(taken, deck, after.nar);
    StoppedInPhase(sys, deck, last, phase, after.nar);
    NarOnly(sys, deck, after.nar, last);
    Stops(sys, deck, goal, last, phase, after.nar);
  }

  lemma TakenSame(n: Narrator, id: nat)
    ensures var m := Taken(n, id);
            && m.spoken == n.spoken && m.lastCue == n.lastCue && m.narrationOn == n.narrationOn && m.curIdx == n.curIdx
  {
  }

  /** Where a stopped run stands. */
  lemma Stops(sys: System, deck: Deck, goal: seq<Cue>, last: Cue, phase: Phase, n: Narrator)
    requires var after := sys.(nar := n);
             && Inv(after, deck) && InPhase(after, deck, last, Stopped(phase))
             && Remaining(after, deck, last) == Remaining(sys, deck, last)
    requires n.narrationOn && n.lastCue == Some(last) && n.spoken + Remaining(sys, deck, last) == goal
    requires |n.timers| < |sys.nar.timers|
    ensures var after := sys.(nar := n);
            && AutoInv(after, deck, goal, last, Stopped(phase))
            && Left(after, deck, last, Stopped(phase)) == Left(sys, deck, last, phase)
            && Work(after, deck, last, Stopped(phase)) < Work(sys, deck, last, phase)
  {
    hide Inv, InPhase, Remaining;
  }

  lemma StopKept(sys: System, deck: Deck, goal: seq<Cue>, last: Cue, phase: Phase, id: nat)
    requires AutoInv(sys, deck, goal, last, phase) && Pending(sys.nar, id, CurrentCue(sys))
    ensures Safe(sys, deck, last, phase) ==> Left(sys, deck, last, phase) <= 0
  {
    if Going(phase) {
      CurrentHarm(sys, deck, goal, last, phase);
    } else {
      OffPhases(sys, deck, goal, last, phase);
      EndFacts(sys, deck, goal, last, phase);
    }
    hide AutoInv, Pending, Harmful, Left, Ahead, Reached;
  }

  lemma EndFacts(sys: System, deck: Deck, goal: seq<Cue>, last: Cue, phase: Phase)
    requires AutoInv(sys, deck, goal, last, phase)
    ensures phase == AtEnd ==> Left(sys, deck, last, phase) == 0
  {
    hide Inv, Remaining, MaxStep, CurrentCue;
  }

  /** A fired look-back: the one of the current cue stops auto-play, any other only disappears. */
  lemma CheckRuns(sys: System, deck: Deck, goal: seq<Cue>, last: Cue, phase: Phase, id: nat, before: Cue)
    returns (next: Phase)
    requires AutoInv(sys, deck, goal, last, phase) && Pending(sys.nar, id, before)
    ensures 0 <= sys.stage.index < |sys.stage.slides|
    ensures AutoInv(Fired(sys, deck, id), deck, goal, last, next)
    ensures Kept(sys, deck, last, phase, Fired(sys, deck, id), last, next)
    ensures Work(Fired(sys, deck, id), deck, last, next) < Work(sys, deck, last, phase)
  {
    hide AutoInv, Pending, Fired, CurrentCue, Taken, StopAutoplay, Work, Left, Harmless;
    InPhaseValid(sys, deck, goal, last, phase);
    LookBack(sys, deck, id, before);
    if CurrentCue(sys) != before {
      next := phase;
      CheckGone(sys, deck, goal, last, phase, id, before);
    } else {
      next := Stopped(phase);
      CheckStops(sys, deck, goal, last, phase, id);
      StopKept(sys, deck, goal, last, phase, id);
    }
  }

  // ----- every automatic event ------------------------------------------------------------------

  lemma PhaseFacts(sys: System, deck: Deck, goal: seq<Cue>, last: Cue, phase: Phase)
    requires AutoInv(sys, deck, goal, last, phase)
    ensures 0 <= sys.stage.index < |sys.stage.slides| && sys.nar.lastCue == Some(last) && Inv(sys, deck)
    ensures phase == Announced <==> sys.stage.outbox != []
    ensures phase != Announced && phase != Moved ==> CurrentCue(sys) == last
    ensures phase == Speaking <==> sys.nar.playing
    ensures phase != Waiting <==> NoAdvance(sys.nar)
  {
    InvParts(sys, deck);
    hide Inv, Remaining, MaxStep, CurrentCue;
    SingleMeans(sys, deck);
  }

  lemma SingleMeans(sys: System, deck: Deck)
    requires Inv(sys, deck)
    ensures sys.nar.playing ==> NoAdvance(sys.nar)
  {
    InvParts(sys, deck);
    hide Inv;
    forall id <- sys.nar.timers
      ensures sys.nar.playing ==> sys.nar.timers[id] != AutoNext
    {
      assert IsAdvance(sys.nar, id) ==> !sys.nar.playing;
    }
  }

  lemma StepIs(sys: System, deck: Deck, ev: Event)
    requires 0 <= sys.stage.index < |sys.stage.slides| && Automatic(sys, ev)
    ensures Enabled(sys, ev)
    ensures ev == Deliver ==> Step(sys, deck, ev) == Delivered(sys, deck)
    ensures ev == ClipEnded ==> Step(sys, deck, ev) == sys.(nar := Ended(sys.nar))
    ensures ev == Poll ==> Step(sys, deck, ev) == sys.(nar := CheckCue(sys.nar, deck.clips, CurrentCue(sys)))
    ensures ev.Fire? ==> ev.id in sys.nar.timers && Step(sys, deck, ev) == Fired(sys, deck, ev.id)
    ensures ev in {Deliver, ClipEnded, Poll} || ev.Fire?
    ensures ev == Poll ==> sys.stage.outbox == []
  {
    hide Delivered, Ended, CheckCue, CurrentCue, Fired;
  }

  lemma NothingToDo(sys: System, deck: Deck)
    ensures sys.stage.outbox == [] ==> Delivered(sys, deck) == sys
    ensures !sys.nar.playing ==> Ended(sys.nar) == sys.nar
    ensures forall c :: sys.nar.lastCue == Some(c) ==> CheckCue(sys.nar, deck.clips, c) == sys.nar
  {
    hide Speak;
  }

  lemma KeptSame(sys: System, deck: Deck, last: Cue, phase: Phase)
    ensures Kept(sys, deck, last, phase, sys, last, phase)
  {
    hide Left, Safe;
  }

  /** One automatic event of an auto-play run: it stays on course for `goal`, keeps the outlook of the run, and
      either changes nothing or lowers the remaining work. */
  lemma {:induction false} AutoStep(sys: System, deck: Deck, goal: seq<Cue>, last: Cue, phase: Phase, ev: Event)
    returns (last': Cue, phase': Phase)
    requires AutoInv(sys, deck, goal, last, phase) && Automatic(sys, ev)
    ensures 0 <= sys.stage.index < |sys.stage.slides| && Enabled(sys, ev)
    ensures AutoInv(Step(sys, deck, ev), deck, goal, last', phase')
    ensures Kept(sys, deck, last, phase, Step(sys, deck, ev), last', phase')
    ensures (Step(sys, deck, ev) == sys && last' == last && phase' == phase)
         || Work(Step(sys, deck, ev), deck, last', phase') < Work(sys, deck, last, phase)
  {
    hide *;
    PhaseFacts(sys, deck, goal, last, phase);
    StepIs(sys, deck, ev);
    NothingToDo(sys, deck);
    KeptSame(sys, deck, last, phase);
    last', phase' := last, phase;
    if ev.Fire? {
      phase' := FireRuns(sys, deck, goal, last, phase, ev.id);
    } else if (ev == Deliver && phase == Announced) || (ev == ClipEnded && phase == Speaking)
           || (ev == Poll && phase == Moved) {
      last', phase' := MoveOn(sys, deck, goal, last, phase, ev);
    }
  }

  /** What moves a run on from its phase. */
  lemma MoveOn(sys: System, deck: Deck, goal: seq<Cue>, last: Cue, phase: Phase, ev: Event)
    returns (last': Cue, phase': Phase)
    requires AutoInv(sys, deck, goal, last, phase) && Automatic(sys, ev)
    requires || (ev == Deliver && phase == Announced) || (ev == ClipEnded && phase == Speaking)
             || (ev == Poll && phase == Moved)
             || (ev.Fire? && phase == Waiting && ev.id in sys.nar.timers && sys.nar.timers[ev.id] == AutoNext)
    ensures 0 <= sys.stage.index < |sys.stage.slides| && Enabled(sys, ev)
    ensures var after := Step(sys, deck, ev);
            && AutoInv(after, deck, goal, last', phase') && Moves(sys, deck, last, phase, after, last', phase')
            && Kept(sys, deck, last, phase, after, last', phase')
            && Work(after, deck, last', phase') < Work(sys, deck, last, phase)
  {
    hide *;
    PhaseFacts(sys, deck, goal, last, phase);
    StepIs(sys, deck, ev);
    last' := last;
    if phase == Announced {
      phase' := Moved;
      DeliveredRuns(sys, deck, goal, last);
    } else if phase == Speaking {
      phase' := EndedRuns(sys, deck, goal, last);
    } else if phase == Moved {
      last' := CurrentCue(sys);
      phase' := PollRuns(sys, deck, goal, last);
    } else {
      phase' := AdvanceRuns(sys, deck, goal, last, ev.id);
    }
    GoingPhases(phase);
    MovesKept(sys, deck, goal, last, phase, Step(sys, deck, ev), last', phase');
  }

  lemma GoingPhases(phase: Phase)
    ensures Going(phase) <==> phase != AtEnd && phase != Done
  {
  }

  lemma FireRuns(sys: System, deck: Deck, goal: seq<Cue>, last: Cue, phase: Phase, id: nat) returns (next: Phase)
    requires AutoInv(sys, deck, goal, last, phase) && Automatic(sys, Fire(id))
    ensures 0 <= sys.stage.index < |sys.stage.slides| && Enabled(sys, Fire(id))
    ensures var after := Step(sys, deck, Fire(id));
            && AutoInv(after, deck, goal, last, next) && Kept(sys, deck, last, phase, after, last, next)
            && Work(after, deck, last, next) < Work(sys, deck, last, phase)
  {
    hide *;
    PhaseFacts(sys, deck, goal, last, phase);
    StepIs(sys, deck, Fire(id));
    AdvanceOnlyWaiting(sys, id);
    if sys.nar.timers[id] == AutoNext {
      var last';
      last', next := MoveOn(sys, deck, goal, last, phase, Fire(id));
      MovesLast(sys, deck, last, phase, Step(sys, deck, Fire(id)), last', next);
    } else {
      next := CheckRuns(sys, deck, goal, last, phase, id, sys.nar.timers[id].before);
    }
  }

  lemma MovesLast(sys: System, deck: Deck, last: Cue, phase: Phase, after: System, last': Cue, phase': Phase)
    requires Moves(sys, deck, last, phase, after, last', phase')
    ensures last' == if phase == Moved then CurrentCue(sys) else last
    ensures after.nar.autoplay == sys.nar.autoplay
    ensures phase == Speaking && sys.nar.autoplay ==> phase' == Waiting
    ensures phase == Announced ==> phase' == Moved
    ensures phase == Moved && sys.nar.autoplay ==> phase' == Speaking || phase' == Waiting
    ensures phase == Waiting ==>
              if Remaining(sys, deck, last) == [] then phase' == AtEnd else phase' == Moved || phase' == Announced
  {
    hide Remaining, CurrentCue, Stored, Pending;
  }

  lemma AdvanceOnlyWaiting(sys: System, id: nat)
    requires id in sys.nar.timers
    ensures sys.nar.timers[id] == AutoNext ==> !NoAdvance(sys.nar)
    ensures sys.nar.timers[id] != AutoNext ==> Pending(sys.nar, id, sys.nar.timers[id].before)
  {
  }

  /** The page has come to rest. */
  ghost predicate Settled(sys: System, deck: Deck) {
    && 0 <= sys.stage.index < |sys.stage.slides|
    && forall ev :: Automatic(sys, ev) ==> Enabled(sys, ev) && Step(sys, deck, ev) == sys
  }

  lemma SomeAdvance(sys: System) returns (id: nat)
    requires !NoAdvance(sys.nar)
    ensures id in sys.nar.timers && sys.nar.timers[id] == AutoNext
  {
    id :| id in sys.nar.timers && sys.nar.timers[id] == AutoNext;
  }

  /** The event that moves a run on, in every phase but the last two. */
  lemma NextMove(sys: System, deck: Deck, goal: seq<Cue>, last: Cue, phase: Phase)
    returns (ev: Event, last': Cue, phase': Phase)
    requires AutoInv(sys, deck, goal, last, phase) && Going(phase)
    ensures 0 <= sys.stage.index < |sys.stage.slides| && Automatic(sys, ev) && Enabled(sys, ev)
    ensures var after := Step(sys, deck, ev);
            && AutoInv(after, deck, goal, last', phase') && Moves(sys, deck, last, phase, after, last', phase')
            && Work(after, deck, last', phase') < Work(sys, deck, last, phase)
  {
    hide *;
    PhaseFacts(sys, deck, goal, last, phase);
    GoingPhases(phase);
    if phase == Waiting {
      var id := SomeAdvance(sys);
      ev := Fire(id);
    } else {
      ev := if phase == Announced then Deliver else if phase == Speaking then ClipEnded else Poll;
    }
    CanHappen(sys, ev);
    last', phase' := MoveOn(sys, deck, goal, last, phase, ev);
  }

  lemma CanHappen(sys: System, ev: Event)
    requires ev in {Deliver, ClipEnded} || (ev == Poll && sys.stage.outbox == [])
             || (ev.Fire? && ev.id in sys.nar.timers)
    ensures Automatic(sys, ev)
  {
  }

  lemma SettledStays(sys: System, deck: Deck, ev: Event)
    requires Settled(sys, deck) && Automatic(sys, ev)
    ensures 0 <= sys.stage.index < |sys.stage.slides| && Enabled(sys, ev) && Step(sys, deck, ev) == sys
  {
    hide Automatic, Enabled, Step;
  }

  /** A run that has come to rest is over. */
  lemma SettledIsDone(sys: System, deck: Deck, goal: seq<Cue>, last: Cue, phase: Phase)
    requires AutoInv(sys, deck, goal, last, phase) && Settled(sys, deck)
    ensures phase == Done
  {
    hide *;
    PhaseFacts(sys, deck, goal, last, phase);
    GoingPhases(phase);
    if Going(phase) {
      var ev, l, p := NextMove(sys, deck, goal, last, phase);
      SettledStays(sys, deck, ev);
      MovesDiffer(sys, deck, goal, last, phase, Step(sys, deck, ev), l, p);
    } else if phase == AtEnd {
      var id := EndCheckPending(sys, deck, goal, last);
      CanHappen(sys, Fire(id));
      SettledStays(sys, deck, Fire(id));
      StepIs(sys, deck, Fire(id));
      LookBack(sys, deck, id, last);
      OffPhases(sys, deck, goal, last, phase);
      StopsPlaying(Taken(sys.nar, id));
    }
  }

  lemma StopsPlaying(n: Narrator)
    ensures !StopAutoplay(n).autoplay
  {
  }

  lemma EndCheckPending(sys: System, deck: Deck, goal: seq<Cue>, last: Cue) returns (id: nat)
    requires AutoInv(sys, deck, goal, last, AtEnd)
    ensures id in sys.nar.timers && Pending(sys.nar, id, last)
  {
    hide Inv, Remaining, CurrentCue, MaxStep;
    id :| Pending(sys.nar, id, last);
  }

  /** A move is never back to the same state. */
  lemma MovesDiffer(sys: System, deck: Deck, goal: seq<Cue>, last: Cue, phase: Phase,
                    after: System, last': Cue, phase': Phase)
    requires AutoInv(sys, deck, goal, last, phase) && AutoInv(after, deck, goal, last', phase')
    requires Moves(sys, deck, last, phase, after, last', phase')
    ensures after != sys
  {
    PhaseFacts(sys, deck, goal, last, phase);
    PhaseFacts(after, deck, goal, last', phase');
    OffPhases(sys, deck, goal, last, phase);
    OffPhases(after, deck, goal, last', phase');
    if phase == Moved {
      MovedFacts(sys, deck, goal, last);
    }
    hide AutoInv, Inv, Remaining, CurrentCue, Stored, Pending, NoAdvance;
  }

  // ----- whole runs -----------------------------------------------------------------------------

  /** A run of automatic events. */
  ghost predicate AutoRun(start: System, deck: Deck, events: seq<Event>, end: System)
    decreases |events|
  {
    if events == [] then end == start
    else
      && 0 <= start.stage.index < |start.stage.slides| && Automatic(start, events[0]) && Enabled(start, events[0])
      && AutoRun(Step(start, deck, events[0]), deck, events[1..], end)
  }

  /** How many events of the run changed anything. */
  function Changes(start: System, deck: Deck, events: seq<Event>): nat
    decreases |events|
  {
    if events == [] || !(0 <= start.stage.index < |start.stage.slides|) || !Enabled(start, events[0]) then 0
    else
      (if Step(start, deck, events[0]) == start then 0 else 1)
      + Changes(Step(start, deck, events[0]), deck, events[1..])
  }

  lemma KeptChains(sys: System, deck: Deck, last: Cue, phase: Phase, mid: System, l: Cue, p: Phase,
                   end: System, last': Cue, phase': Phase)
    requires Kept(sys, deck, last, phase, mid, l, p) && Kept(mid, deck, l, p, end, last', phase')
    ensures Kept(sys, deck, last, phase, end, last', phase')
  {
    hide Left, Safe;
  }

  lemma {:induction false} RunsOn(start: System, deck: Deck, goal: seq<Cue>, last: Cue, phase: Phase,
                                  events: seq<Event>, end: System)
    returns (last': Cue, phase': Phase)
    requires AutoInv(start, deck, goal, last, phase) && AutoRun(start, deck, events, end)
    ensures AutoInv(end, deck, goal, last', phase') && Kept(start, deck, last, phase, end, last', phase')
    ensures Changes(start, deck, events) + Work(end, deck, last', phase') <= Work(start, deck, last, phase)
    decreases |events|
  {
    hide AutoInv, Step, Automatic, Work, Kept;
    last', phase' := last, phase;
    if events == [] {
      KeptSame(start, deck, last, phase);
    } else {
      var l, p := AutoStep(start, deck, goal, last, phase, events[0]);
      var next := Step(start, deck, events[0]);
      last', phase' := RunsOn(next, deck, goal, l, p, events[1..], end);
      KeptChains(start, deck, last, phase, next, l, p, end, last', phase');
    }
  }

  /** The cues an auto-play started now should speak. */
  function Plan(sys: System, deck: Deck): seq<Cue> {
    [CurrentCue(sys)] + Remaining(sys, deck, CurrentCue(sys))
  }

  /** The Auto-play button will start a session: no message is pending and there are clips.  Look-backs of earlier
      sessions may still be pending. */
  ghost predicate Startable(sys: System, deck: Deck) {
    && Inv(sys, deck) && 0 <= sys.stage.index < |sys.stage.slides| && sys.stage.outbox == []
    && !sys.nar.autoplay && deck.clips != {}
  }

  lemma StartSpeaks(n: Narrator, clips: set<Cue>, cur: Cue)
    requires SingleDriver(n) && !n.autoplay && clips != {}
    ensures var m := PlayPressed(n, clips, cur);
            && m.narrationOn && m.autoplay && m.lastCue == Some(cur) && m.spoken == n.spoken + [cur]
            && (forall id, b :: Pending(m, id, b) <==> Pending(n, id, b)) && m.curIdx == n.curIdx
            && |m.timers| <= |n.timers| + (if cur in clips then 0 else 1)
            && if cur in clips then m.playing && m.handler && NoAdvance(m) else !m.playing && !NoAdvance(m)
  {
    assert forall id <- n.timers :: !IsAdvance(n, id);
    SpeakTimers(n.(autoplay := true, narrationOn := true), clips, cur);
    hide Speak;
  }

  lemma PlayStep(sys: System, deck: Deck)
    requires 0 <= sys.stage.index < |sys.stage.slides|
    ensures Enabled(sys, Play)
    ensures Step(sys, deck, Play) == sys.(nar := PlayPressed(sys.nar, deck.clips, CurrentCue(sys)))
  {
    hide PlayPressed, CurrentCue;
  }

  lemma StartableMeans(sys: System, deck: Deck)
    requires Startable(sys, deck)
    ensures Inv(sys, deck) && SingleDriver(sys.nar) && 0 <= sys.stage.index < |sys.stage.slides|
    ensures sys.stage.outbox == [] && !sys.nar.autoplay && deck.clips != {}
    ensures ValidCue(deck.authored, sys.stage.slides, CurrentCue(sys))
    ensures Plan(sys, deck) == [CurrentCue(sys)] + Remaining(sys, deck, CurrentCue(sys))
  {
    InvParts(sys, deck);
    CueNow(sys, deck);
    hide Inv, Remaining, CurrentCue, MaxStep, SingleDriver;
  }

  /** Pressing Auto-play enters the run. */
  lemma StartRuns(sys: System, deck: Deck) returns (next: Phase)
    requires Startable(sys, deck)
    ensures 0 <= sys.stage.index < |sys.stage.slides| && Enabled(sys, Play)
    ensures var started := Step(sys, deck, Play);
            && AutoInv(started, deck, sys.nar.spoken + Plan(sys, deck), CurrentCue(sys), next) && started.nar.autoplay
            && Work(started, deck, CurrentCue(sys), next) <= 8 * |Plan(sys, deck)| + |sys.nar.timers|
            && sys.nar.spoken + [CurrentCue(sys)] <= started.nar.spoken
    ensures next == Speaking || next == Waiting
  {
    hide *;
    StartableMeans(sys, deck);
    var cur := CurrentCue(sys);
    var n := PlayPressed(sys.nar, deck.clips, cur);
    next := if cur in deck.clips then Speaking else Waiting;
    PlayStep(sys, deck);
    StartSpeaks(sys.nar, deck.clips, cur);
    PressesSingle(sys.nar, deck.clips, cur);
    DriverKeepsIndex(sys.nar, deck.clips, cur);
    NarKeepsInv(sys, deck, n);
    NarOnly(sys, deck, n, cur);
    assert sys.nar.spoken + ([cur] + Remaining(sys, deck, cur)) == (sys.nar.spoken + [cur]) + Remaining(sys, deck, cur);
    ArriveSpoken(sys.(nar := n), deck, sys.nar.spoken + Plan(sys, deck), cur, next);
  }

  /** The start of a session leaves every old look-back as harmful as it is. */
  lemma StartHarm(sys: System, deck: Deck, next: Phase, id: nat, b: Cue)
    requires Startable(sys, deck) && (next == Speaking || next == Waiting)
    ensures 0 <= sys.stage.index < |sys.stage.slides|
    ensures var started, cur := Step(sys, deck, Play), CurrentCue(sys);
            && (Pending(started.nar, id, b) <==> Pending(sys.nar, id, b))
            && (Harmful(started, Reached(started, cur, next), Ahead(started, deck, cur, next), b) <==>
                Harmful(sys, cur.slide, Plan(sys, deck), b))
  {
    StartableMeans(sys, deck);
    var cur := CurrentCue(sys);
    PlayStep(sys, deck);
    StartSpeaks(sys.nar, deck.clips, cur);
    NarOnly(sys, deck, PlayPressed(sys.nar, deck.clips, cur), cur);
    hide Startable, Inv, Step, CurrentCue, PlayPressed, Remaining, Pending, Stored, SingleDriver, MaxStep;
  }

  /** A session is safe from the start exactly when no old look-back is harmful. */
  lemma StartSafe(sys: System, deck: Deck, next: Phase)
    requires Startable(sys, deck) && (next == Speaking || next == Waiting) && Enabled(sys, Play)
    requires Step(sys, deck, Play).nar.autoplay
    ensures Safe(Step(sys, deck, Play), deck, CurrentCue(sys), next) <==>
            Harmless(sys, CurrentCue(sys).slide, Plan(sys, deck))
  {
    hide *;
    StartableMeans(sys, deck);
    forall id, b {
      StartHarm(sys, deck, next, id, b);
    }
    SafeMeans(Step(sys, deck, Play), deck, CurrentCue(sys), next);
    HarmlessMeans(sys, CurrentCue(sys).slide, Plan(sys, deck));
    GoingPhases(next);
  }

  lemma HarmlessMeans(sys: System, reached: int, cues: seq<Cue>)
    ensures Harmless(sys, reached, cues) <==>
            forall id, b :: Pending(sys.nar, id, b) ==> !Harmful(sys, reached, cues, b)
  {
    hide Pending, Harmful;
  }

  lemma SafeMeans(sys: System, deck: Deck, last: Cue, phase: Phase)
    ensures sys.nar.autoplay && Going(phase) ==>
              (Safe(sys, deck, last, phase) <==>
               forall id, b :: Pending(sys.nar, id, b) ==>
                 !Harmful(sys, Reached(sys, last, phase), Ahead(sys, deck, last, phase), b))
  {
    hide Pending, Harmful, Reached, Ahead;
  }

  lemma FiredSpeaks(sys: System, deck: Deck, id: nat)
    requires 0 <= sys.stage.index < |sys.stage.slides|
    ensures Fired(sys, deck, id).nar.spoken == sys.nar.spoken
  {
    hide CurrentCue, Consumes, Reveal, Advance;
  }

  /** What was spoken stays spoken. */
  lemma SpokenGrows(sys: System, deck: Deck, ev: Event)
    requires 0 <= sys.stage.index < |sys.stage.slides| && Automatic(sys, ev)
    ensures Enabled(sys, ev) && sys.nar.spoken <= Step(sys, deck, ev).nar.spoken
  {
    hide CurrentCue, Fired, Receive;
    if ev.Fire? {
      FiredSpeaks(sys, deck, ev.id);
    }
  }

  lemma {:induction false} RunGrows(start: System, deck: Deck, events: seq<Event>, end: System)
    requires AutoRun(start, deck, events, end)
    ensures start.nar.spoken <= end.nar.spoken
    decreases |events|
  {
    hide Step, Automatic;
    if events != [] {
      SpokenGrows(start, deck, events[0]);
      RunGrows(Step(start, deck, events[0]), deck, events[1..], end);
    }
  }

  /** What the state of a run says about what was spoken. */
  lemma AutoMeans(sys: System, deck: Deck, goal: seq<Cue>, last: Cue, phase: Phase)
    requires AutoInv(sys, deck, goal, last, phase)
    ensures sys.nar.narrationOn && sys.nar.spoken <= goal
    ensures phase == Done ==>
              && !sys.nar.autoplay && !sys.nar.playing
              && (Left(sys, deck, last, phase) <= 0 <==> sys.nar.spoken == goal)
              && (Safe(sys, deck, last, phase) <==> sys.nar.spoken == goal)
  {
    hide Inv, Remaining, CurrentCue, MaxStep;
    assert |sys.nar.spoken| + |Remaining(sys, deck, last)| == |goal|;
  }

  /** The course of every session, whatever look-backs are pending.  Press Auto-play and leave the page alone: at
      every moment what was spoken is a beginning of the plan; only so many events change anything; narration
      stays on; and once the page is at rest, auto-play is off and nothing plays. */
  lemma AutoPlayCourse(sys: System, deck: Deck, events: seq<Event>, end: System)
    requires Startable(sys, deck) && AutoRun(Step(sys, deck, Play), deck, events, end)
    ensures sys.nar.spoken + [CurrentCue(sys)] <= end.nar.spoken <= sys.nar.spoken + Plan(sys, deck)
    ensures Changes(Step(sys, deck, Play), deck, events) <= 8 * |Plan(sys, deck)| + |sys.nar.timers|
    ensures end.nar.narrationOn
    ensures Settled(end, deck) ==> !end.nar.autoplay && !end.nar.playing
  {
    hide *;
    var p := StartRuns(sys, deck);
    var started, goal := Step(sys, deck, Play), sys.nar.spoken + Plan(sys, deck);
    var last, phase := RunsOn(started, deck, goal, CurrentCue(sys), p, events, end);
    RunGrows(started, deck, events, end);
    AutoMeans(end, deck, goal, last, phase);
    if Settled(end, deck) {
      SettledIsDone(end, deck, goal, last, phase);
    }
  }

  lemma Unsettled(sys: System, deck: Deck) returns (ev: Event)
    requires !Settled(sys, deck) && 0 <= sys.stage.index < |sys.stage.slides|
    ensures Automatic(sys, ev) && !(Enabled(sys, ev) && Step(sys, deck, ev) == sys)
  {
    hide Automatic, Enabled, Step;
    ev :| Automatic(sys, ev) && !(Enabled(sys, ev) && Step(sys, deck, ev) == sys);
  }

  lemma RunCons(sys: System, deck: Deck, ev: Event, rest: seq<Event>, end: System)
    requires 0 <= sys.stage.index < |sys.stage.slides| && Automatic(sys, ev) && Enabled(sys, ev)
    requires AutoRun(Step(sys, deck, ev), deck, rest, end)
    ensures AutoRun(sys, deck, [ev] + rest, end)
  {
    hide Automatic, Step, Enabled;
    assert ([ev] + rest)[1..] == rest;
  }

  lemma NoRun(sys: System, deck: Deck)
    ensures AutoRun(sys, deck, [], sys)
  {
  }

  /** And it does get there: from every state of a run the page can come to rest, with the outlook it had. */
  lemma {:induction false} AutoPlayFinishes(sys: System, deck: Deck, goal: seq<Cue>, last: Cue, phase: Phase)
    returns (events: seq<Event>, end: System, last': Cue)
    requires AutoInv(sys, deck, goal, last, phase)
    ensures AutoRun(sys, deck, events, end) && Settled(end, deck)
    ensures AutoInv(end, deck, goal, last', Done) && Kept(sys, deck, last, phase, end, last', Done)
    ensures !end.nar.autoplay && end.nar.narrationOn && end.nar.spoken <= goal
    ensures Safe(sys, deck, last, phase) ==> end.nar.spoken == goal
    decreases Work(sys, deck, last, phase)
  {
    hide *;
    PhaseFacts(sys, deck, goal, last, phase);
    if Settled(sys, deck) {
      SettledIsDone(sys, deck, goal, last, phase);
      AutoMeans(sys, deck, goal, last, phase);
      NoRun(sys, deck);
      KeptSame(sys, deck, last, phase);
      events, end, last' := [], sys, last;
    } else {
      var ev := Unsettled(sys, deck);
      var l, p := AutoStep(sys, deck, goal, last, phase, ev);
      var next := Step(sys, deck, ev);
      var rest;
      rest, end, last' := AutoPlayFinishes(next, deck, goal, l, p);
      events := [ev] + rest;
      RunCons(sys, deck, ev, rest, end);
      KeptChains(sys, deck, last, phase, next, l, p, end, last', Done);
      SafeKept(sys, deck, last, phase, next, l, p);
    }
  }

  lemma SafeKept(sys: System, deck: Deck, last: Cue, phase: Phase, after: System, last': Cue, phase': Phase)
    requires Kept(sys, deck, last, phase, after, last', phase')
    ensures Safe(sys, deck, last, phase) ==> Safe(after, deck, last', phase')
    ensures !sys.nar.autoplay ==>
              !after.nar.autoplay && Left(after, deck, last', phase') == Left(sys, deck, last, phase)
  {
    hide Left, Safe;
  }

  /** A harmful look-back does cut a run short: let the run go on until the cue is current, and let the timer fire. */
  lemma {:induction false} HarmBreaks(sys: System, deck: Deck, goal: seq<Cue>, last: Cue, phase: Phase, id: nat, b: Cue)
    returns (events: seq<Event>, end: System)
    requires AutoInv(sys, deck, goal, last, phase) && Going(phase) && sys.nar.autoplay && Pending(sys.nar, id, b)
    requires Harmful(sys, Reached(sys, last, phase), Ahead(sys, deck, last, phase), b)
    ensures AutoRun(sys, deck, events, end) && Settled(end, deck) && end.nar.spoken != goal
    decreases Work(sys, deck, last, phase)
  {
    hide *;
    PhaseFacts(sys, deck, goal, last, phase);
    GoingPhases(phase);
    var ev, rest;
    if b == CurrentCue(sys) {
      ev := Fire(id);
      rest, end := StopsShort(sys, deck, goal, last, phase, id);
    } else {
      var l, p;
      ev, l, p := NextMove(sys, deck, goal, last, phase);
      HarmGoesOn(sys, deck, goal, last, phase, Step(sys, deck, ev), l, p, id, b);
      rest, end := HarmBreaks(Step(sys, deck, ev), deck, goal, l, p, id, b);
    }
    events := [ev] + rest;
    RunCons(sys, deck, ev, rest, end);
  }

  lemma HarmGoesOn(sys: System, deck: Deck, goal: seq<Cue>, last: Cue, phase: Phase,
                   after: System, last': Cue, phase': Phase, id: nat, b: Cue)
    requires AutoInv(sys, deck, goal, last, phase) && Going(phase) && sys.nar.autoplay && Pending(sys.nar, id, b)
    requires Moves(sys, deck, last, phase, after, last', phase') && b != CurrentCue(sys)
    requires Harmful(sys, Reached(sys, last, phase), Ahead(sys, deck, last, phase), b)
    ensures Going(phase') && after.nar.autoplay && Pending(after.nar, id, b)
    ensures Harmful(after, Reached(after, last', phase'), Ahead(after, deck, last', phase'), b)
  {
    hide *;
    GoingPhases(phase);
    GoingPhases(phase');
    MovesLast(sys, deck, last, phase, after, last', phase');
    PendingMoves(sys, deck, last, phase, after, last', phase', id, b);
    PhaseCue(sys, deck, goal, last, phase);
    if phase == Waiting {
      StillAhead(sys, deck, last, phase, b);
    }
    MovesHarm(sys, deck, goal, last, phase, after, last', phase', b);
  }

  lemma StillAhead(sys: System, deck: Deck, last: Cue, phase: Phase, b: Cue)
    requires Harmful(sys, Reached(sys, last, phase), Ahead(sys, deck, last, phase), b) && b != last
    ensures Remaining(sys, deck, last) != []
  {
    hide Remaining, Stored, CurrentCue;
  }

  lemma StopsShort(sys: System, deck: Deck, goal: seq<Cue>, last: Cue, phase: Phase, id: nat)
    returns (rest: seq<Event>, end: System)
    requires AutoInv(sys, deck, goal, last, phase) && Going(phase) && Pending(sys.nar, id, CurrentCue(sys))
    requires Harmful(sys, Reached(sys, last, phase), Ahead(sys, deck, last, phase), CurrentCue(sys))
    ensures 0 <= sys.stage.index < |sys.stage.slides| && Automatic(sys, Fire(id)) && Enabled(sys, Fire(id))
    ensures AutoRun(Step(sys, deck, Fire(id)), deck, rest, end) && Settled(end, deck) && end.nar.spoken != goal
  {
    hide *;
    PhaseFacts(sys, deck, goal, last, phase);
    PendingTimer(sys.nar, id, CurrentCue(sys));
    CanHappen(sys, Fire(id));
    StepIs(sys, deck, Fire(id));
    LookBack(sys, deck, id, CurrentCue(sys));
    CurrentHarm(sys, deck, goal, last, phase);
    CheckStops(sys, deck, goal, last, phase, id);
    var stopped := Step(sys, deck, Fire(id));
    var last';
    rest, end, last' := AutoPlayFinishes(stopped, deck, goal, last, Stopped(phase));
    SafeKept(stopped, deck, last, Stopped(phase), end, last', Done);
    AutoMeans(end, deck, goal, last', Done);
  }

  /** The whole run, exactly.  Press Auto-play and leave the page alone: every run that comes to rest has spoken the
      whole plan, once and in order, if and only if no look-back of an earlier session can cut it short. */
  lemma AutoPlaySpeaksThePlan(sys: System, deck: Deck)
    requires Startable(sys, deck)
    ensures (forall events, end :: AutoRun(Step(sys, deck, Play), deck, events, end) && Settled(end, deck) ==>
               end.nar.spoken == sys.nar.spoken + Plan(sys, deck))
            <==> Harmless(sys, CurrentCue(sys).slide, Plan(sys, deck))
  {
    hide *;
    var p := StartRuns(sys, deck);
    var started, goal, cur := Step(sys, deck, Play), sys.nar.spoken + Plan(sys, deck), CurrentCue(sys);
    StartSafe(sys, deck, p);
    if Harmless(sys, cur.slide, Plan(sys, deck)) {
      forall events, end | AutoRun(started, deck, events, end) && Settled(end, deck)
        ensures end.nar.spoken == goal
      {
        var last, phase := RunsOn(started, deck, goal, cur, p, events, end);
        SettledIsDone(end, deck, goal, last, phase);
        SafeKept(started, deck, cur, p, end, last, phase);
        AutoMeans(end, deck, goal, last, phase);
      }
    } else {
      HarmlessMeans(sys, cur.slide, Plan(sys, deck));
      var id, b :| Pending(sys.nar, id, b) && Harmful(sys, cur.slide, Plan(sys, deck), b);
      StartHarm(sys, deck, p, id, b);
      GoingPhases(p);
      var events, end := HarmBreaks(started, deck, goal, cur, p, id, b);
    }
  }

  /** The nearest such run: a look-back left over from an earlier session for the very cue on screen, with more to
      come, stops the new session as soon as it fires, with only that cue spoken. */
  lemma StaleCheckStops(sys: System, deck: Deck, id: nat)
    requires Startable(sys, deck) && Remaining(sys, deck, CurrentCue(sys)) != []
    requires Pending(sys.nar, id, CurrentCue(sys))
    ensures var started := Step(sys, deck, Play);
            && started.nar.autoplay && id in started.nar.timers
            && var stopped := Step(started, deck, Fire(id));
               && !stopped.nar.autoplay && !stopped.nar.playing
               && stopped.nar.spoken == sys.nar.spoken + [CurrentCue(sys)]
               && stopped.nar.spoken < sys.nar.spoken + Plan(sys, deck)
  {
    hide *;
    StartableMeans(sys, deck);
    var cur := CurrentCue(sys);
    var n := PlayPressed(sys.nar, deck.clips, cur);
    var started := sys.(nar := n);
    PlayStep(sys, deck);
    StartSpeaks(sys.nar, deck.clips, cur);
    CueOfNar(sys, n);
    PendingFires(started, id, cur);
    StepIs(started, deck, Fire(id));
    LookBack(started, deck, id, cur);
    StoppedFacts(Taken(n, id));
    TakenSpoken(n, id);
  }

  lemma PendingFires(sys: System, id: nat, b: Cue)
    requires Pending(sys.nar, id, b)
    ensures id in sys.nar.timers && Automatic(sys, Fire(id))
  {
  }

  lemma StoppedFacts(n: Narrator)
    ensures var m := StopAutoplay(n); !m.autoplay && !m.playing && m.spoken == n.spoken
  {
  }

  lemma TakenSpoken(n: Narrator, id: nat)
    ensures Taken(n, id).spoken == n.spoken
  {
  }

  // ----- look-backs that fire before the first advance ---------------------------------------------

  /** A run in which no advance timer fires. */
  ghost predicate BeforeAdvance(start: System, deck: Deck, events: seq<Event>)
    decreases |events|
  {
    if events == [] then true
    else
      && 0 <= start.stage.index < |start.stage.slides| && Automatic(start, events[0]) && Enabled(start, events[0])
      && (events[0].Fire? ==> start.nar.timers[events[0].id] != AutoNext)
      && BeforeAdvance(Step(start, deck, events[0]), deck, events[1..])
  }

  /** What an event before the first advance leaves as it was. */
  ghost predicate Waits(sys: System, deck: Deck, goal: seq<Cue>, cur: Cue, phase: Phase) {
    && AutoInv(sys, deck, goal, cur, phase) && sys.nar.autoplay && (phase == Speaking || phase == Waiting)
    && forall id :: !Pending(sys.nar, id, cur)
  }

  lemma WaitsOn(sys: System, deck: Deck, goal: seq<Cue>, cur: Cue, phase: Phase, ev: Event) returns (next: Phase)
    requires Waits(sys, deck, goal, cur, phase) && Automatic(sys, ev)
    requires ev.Fire? ==> ev.id in sys.nar.timers && sys.nar.timers[ev.id] != AutoNext
    ensures 0 <= sys.stage.index < |sys.stage.slides| && Enabled(sys, ev)
    ensures Waits(Step(sys, deck, ev), deck, goal, cur, next)
  {
    hide AutoInv, Pending, Automatic, Step, Enabled, Moves, Kept, Work, CurrentCue;
    PhaseFacts(sys, deck, goal, cur, phase);
    StepIs(sys, deck, ev);
    NothingToDo(sys, deck);
    next := phase;
    if ev.Fire? {
      AdvanceOnlyWaiting(sys, ev.id);
      var b := sys.nar.timers[ev.id].before;
      LookBack(sys, deck, ev.id, b);
      CheckGone(sys, deck, goal, cur, phase, ev.id, b);
      TakenChecks(sys.nar, ev.id, cur);
    } else if ev == ClipEnded && phase == Speaking {
      var last';
      last', next := MoveOn(sys, deck, goal, cur, phase, ev);
      MovesLast(sys, deck, cur, phase, Step(sys, deck, ev), last', next);
      forall id
        ensures !Pending(Step(sys, deck, ev).nar, id, cur)
      {
        PendingMoves(sys, deck, cur, phase, Step(sys, deck, ev), last', next, id, cur);
      }
    }
  }

  lemma TakenChecks(n: Narrator, id: nat, b: Cue)
    ensures Taken(n, id).autoplay == n.autoplay
    ensures (forall k :: !Pending(n, k, b)) ==> forall k :: !Pending(Taken(n, id), k, b)
  {
    forall k
      ensures Pending(Taken(n, id), k, b) ==> Pending(n, k, b)
    {
    }
  }

  lemma {:induction false} WaitsRun(start: System, deck: Deck, goal: seq<Cue>, cur: Cue, phase: Phase,
                                    events: seq<Event>, end: System)
    returns (next: Phase)
    requires Waits(start, deck, goal, cur, phase)
    requires AutoRun(start, deck, events, end) && BeforeAdvance(start, deck, events)
    ensures Waits(end, deck, goal, cur, next)
    decreases |events|
  {
    hide Waits, Step, Automatic, Enabled;
    next := phase;
    if events != [] {
      FireHasTimer(start, events[0]);
      var p := WaitsOn(start, deck, goal, cur, phase, events[0]);
      next := WaitsRun(Step(start, deck, events[0]), deck, goal, cur, p, events[1..], end);
    }
  }

  lemma FireHasTimer(sys: System, ev: Event)
    requires Automatic(sys, ev)
    ensures ev.Fire? ==> ev.id in sys.nar.timers
  {
  }

  /** With the usual gaps between clips every old look-back fires before the session first advances.  Then only one for
      the cue on screen can do harm: without it, every run that comes to rest has spoken the whole plan. */
  lemma EarlyChecksHarmless(sys: System, deck: Deck, early: seq<Event>, mid: System, late: seq<Event>, end: System)
    requires Startable(sys, deck) && forall id :: !Pending(sys.nar, id, CurrentCue(sys))
    requires AutoRun(Step(sys, deck, Play), deck, early, mid) && BeforeAdvance(Step(sys, deck, Play), deck, early)
    requires forall id, b :: !Pending(mid.nar, id, b)
    requires AutoRun(mid, deck, late, end) && Settled(end, deck)
    ensures end.nar.spoken == sys.nar.spoken + Plan(sys, deck)
  {
    hide *;
    var p := StartRuns(sys, deck);
    var started, goal, cur := Step(sys, deck, Play), sys.nar.spoken + Plan(sys, deck), CurrentCue(sys);
    StartWaits(sys, deck, goal, p);
    var q := WaitsRun(started, deck, goal, cur, p, early, mid);
    NoChecksSafe(mid, deck, goal, cur, q);
    var last, phase := RunsOn(mid, deck, goal, cur, q, late, end);
    SettledIsDone(end, deck, goal, last, phase);
    SafeKept(mid, deck, cur, q, end, last, phase);
    AutoMeans(end, deck, goal, last, phase);
  }

  lemma StartWaits(sys: System, deck: Deck, goal: seq<Cue>, phase: Phase)
    requires Startable(sys, deck) && (forall id :: !Pending(sys.nar, id, CurrentCue(sys))) && Enabled(sys, Play)
    requires AutoInv(Step(sys, deck, Play), deck, goal, CurrentCue(sys), phase) && Step(sys, deck, Play).nar.autoplay
    requires phase == Speaking || phase == Waiting
    ensures Waits(Step(sys, deck, Play), deck, goal, CurrentCue(sys), phase)
  {
    StartableMeans(sys, deck);
    hide Startable, AutoInv, Step, Enabled, CurrentCue, Pending, Inv;
    forall id
      ensures !Pending(Step(sys, deck, Play).nar, id, CurrentCue(sys))
    {
      StartHarm(sys, deck, phase, id, CurrentCue(sys));
    }
  }

  lemma NoChecksSafe(sys: System, deck: Deck, goal: seq<Cue>, cur: Cue, phase: Phase)
    requires Waits(sys, deck, goal, cur, phase) && forall id, b :: !Pending(sys.nar, id, b)
    ensures AutoInv(sys, deck, goal, cur, phase) && Safe(sys, deck, cur, phase)
  {
    hide AutoInv, Pending, Harmful, Left, Ahead, Reached;
  }

  // ----- how a look-back gets left over --------------------------------------------------------------

  lemma RunStep(start: System, deck: Deck, ev: Event, rest: seq<Event>, end: System)
    requires 0 <= start.stage.index < |start.stage.slides| && Enabled(start, ev)
    requires Run(Step(start, deck, ev), deck, rest, end)
    ensures Run(start, deck, [ev] + rest, end)
  {
    hide Step, Enabled;
    assert ([ev] + rest)[1..] == rest;
  }

  lemma RunEnds(sys: System, deck: Deck)
    ensures Run(sys, deck, [], sys)
  {
  }

  /** What a backward key does with reveals shown. */
  lemma KeyIsHide(sys: System, deck: Deck)
    requires Inv(sys, deck) && sys.stage.outbox == [] && 0 <= sys.stage.index < |sys.stage.slides|
    requires CurrentCue(sys).step > 0
    ensures Consumes(sys.steps, deck.authored, sys.stage.slides, false)
    ensures KeyPressed(sys, deck, false) ==
            sys.(steps := Reveal(sys.steps, deck.authored, sys.stage.slides, false))
  {
    CueNow(sys, deck);
    InvParts(sys, deck);
    SyncedSlides(sys.stage);
    hide Inv, CurrentCue, MaxStep, Advance, Reveal, Tracked, Sound, Synced;
  }

  lemma KeyHides(sys: System, deck: Deck)
    requires Inv(sys, deck) && sys.stage.outbox == [] && 0 <= sys.stage.index < |sys.stage.slides|
    requires CurrentCue(sys).step > 0
    ensures var moved := KeyPressed(sys, deck, false);
            && moved.stage == sys.stage && moved.nar == sys.nar && Inv(moved, deck)
            && CurrentCue(moved) == Cue(sys.stage.index, CurrentCue(sys).step - 1)
  {
    hide *;
    CueNow(sys, deck);
    KeyKeepsInv(sys, deck, false);
    InvTracked(sys, deck);
    KeyIsHide(sys, deck);
    RevealEffect(sys.steps, deck.authored, sys.stage.slides, false);
    CueNow(KeyPressed(sys, deck, false), deck);
  }

  lemma KeyStep(sys: System, deck: Deck, forward: bool)
    requires 0 <= sys.stage.index < |sys.stage.slides|
    ensures Enabled(sys, Key(forward)) && Step(sys, deck, Key(forward)) == KeyPressed(sys, deck, forward)
  {
    hide KeyPressed;
  }

  /** Stopping by the button leaves the look-backs where they are. */
  lemma StopLeavesChecks(n: Narrator, clips: set<Cue>, cur: Cue, id: nat, b: Cue)
    requires SingleDriver(n) && n.autoplay && Pending(n, id, b)
    ensures var m := PlayPressed(n, clips, cur);
            !m.autoplay && m.curIdx == n.curIdx && Pending(m, id, b) && SingleDriver(m)
  {
    StopAutoplaySingle(n);
    assert n.advanceTimer == Some(id) ==> IsAdvance(n, id);
  }

  /** After the advance: the reveal is shown, and the look-back of the cue before it is pending. */
  lemma AdvanceLeaves(sys: System, deck: Deck, goal: seq<Cue>, cur: Cue, id: nat)
    requires AutoInv(sys, deck, goal, cur, Waiting) && id in sys.nar.timers && sys.nar.timers[id] == AutoNext
    requires 0 <= sys.stage.index < |sys.stage.slides| && Enabled(sys, Fire(id))
    requires cur.step < MaxStep(deck.authored, sys.stage.slides[sys.stage.index])
    ensures var after := Step(sys, deck, Fire(id));
            && Inv(after, deck) && after.stage == sys.stage && after.stage.outbox == [] && after.nar.autoplay
            && CurrentCue(after) == Cue(cur.slide, cur.step + 1) && cur.slide == sys.stage.index
            && exists k :: Pending(after.nar, k, cur)
  {
    hide *;
    CanHappen(sys, Fire(id));
    StepIs(sys, deck, Fire(id));
    WaitingFacts(sys, deck, goal, cur, id);
    InvParts(sys, deck);
    DriverFresh(sys, deck);
    FiredKeepsInv(sys, deck, id);
    AfterReveal(sys, deck, goal, cur, id);
    AdvancedNar(sys.nar, id, cur, sys.nar.curIdx);
    AdvanceTimers(sys.nar, Fired(sys, deck, id).nar, id, cur);
  }

  /** The button stops a session in place. */
  lemma StopInPlace(sys: System, deck: Deck, cur: Cue) returns (stopped: System)
    requires Inv(sys, deck) && sys.stage.outbox == [] && sys.nar.autoplay && deck.clips != {}
    requires exists k :: Pending(sys.nar, k, cur)
    ensures 0 <= sys.stage.index < |sys.stage.slides| && Enabled(sys, Play) && stopped == Step(sys, deck, Play)
    ensures stopped.stage == sys.stage && Inv(stopped, deck) && CurrentCue(stopped) == CurrentCue(sys)
    ensures !stopped.nar.autoplay && exists k :: Pending(stopped.nar, k, cur)
  {
    var k :| Pending(sys.nar, k, cur);
    hide Inv, CurrentCue, Step, Enabled, PlayPressed, Pending;
    InvParts(sys, deck);
    PlayStep(sys, deck);
    StopLeavesChecks(sys.nar, deck.clips, CurrentCue(sys), k, cur);
    stopped := Step(sys, deck, Play);
    NarKeepsInv(sys, deck, stopped.nar);
    CueOfNar(sys, stopped.nar);
  }

  /** Stop by the button and go one reveal back. */
  lemma StopAndGoBack(sys: System, deck: Deck, cur: Cue) returns (end: System)
    requires Inv(sys, deck) && sys.stage.outbox == [] && sys.nar.autoplay && deck.clips != {}
    requires CurrentCue(sys) == Cue(cur.slide, cur.step + 1) && cur.slide == sys.stage.index
    requires exists k :: Pending(sys.nar, k, cur)
    ensures Run(sys, deck, [Play, Key(false)], end)
    ensures Startable(end, deck) && CurrentCue(end) == cur && end.stage == sys.stage
    ensures exists k :: Pending(end.nar, k, cur)
  {
    hide Inv, CurrentCue, Step, Enabled, KeyPressed, Pending, Run;
    var stopped := StopInPlace(sys, deck, cur);
    KeyStep(stopped, deck, false);
    KeyHides(stopped, deck);
    end := Step(stopped, deck, Key(false));
    RunEnds(end, deck);
    RunStep(stopped, deck, Key(false), [], end);
    assert [Key(false)] + [] == [Key(false)] && [Play] + [Key(false)] == [Play, Key(false)];
    RunStep(sys, deck, Play, [Key(false)], end);
  }

  /** A session on a slide with reveals to come, stopped right after its first advance and taken one reveal back, leaves
      the look-back of the cue on screen behind: the next session can be cut short by it. */
  lemma LeavesStale(sys: System, deck: Deck) returns (events: seq<Event>, end: System)
    requires Startable(sys, deck) && CurrentCue(sys).step < MaxStep(deck.authored, sys.stage.slides[sys.stage.index])
    ensures Run(sys, deck, events, end) && Startable(end, deck)
    ensures !Harmless(end, CurrentCue(end).slide, Plan(end, deck))
  {
    hide *;
    var cur := CurrentCue(sys);
    StartableMeans(sys, deck);
    var p := StartRuns(sys, deck);
    var goal, started := sys.nar.spoken + Plan(sys, deck), Step(sys, deck, Play);
    StartKeepsStage(sys, deck);
    var waiting, first := ToWaiting(started, deck, goal, cur, p);
    PhaseFacts(waiting, deck, goal, cur, Waiting);
    var id := SomeAdvance(waiting);
    CanHappen(waiting, Fire(id));
    StepIs(waiting, deck, Fire(id));
    AdvanceLeaves(waiting, deck, goal, cur, id);
    var moved := Step(waiting, deck, Fire(id));
    end := StopAndGoBack(moved, deck, cur);
    RunStep(waiting, deck, Fire(id), [Play, Key(false)], end);
    events := [Fire(id)] + [Play, Key(false)];
    if first {
      RunStep(started, deck, ClipEnded, events, end);
      events := [ClipEnded] + events;
    }
    RunStep(sys, deck, Play, events, end);
    events := [Play] + events;
    CurrentIsHarmful(end, deck, cur);
  }

  lemma StartKeepsStage(sys: System, deck: Deck)
    requires Startable(sys, deck) && Enabled(sys, Play)
    ensures Step(sys, deck, Play).stage == sys.stage
  {
    PlayStep(sys, deck);
    hide Startable, Step, Enabled, PlayPressed, CurrentCue;
  }

  /** Up to the end of the first clip, if there is one. */
  lemma ToWaiting(sys: System, deck: Deck, goal: seq<Cue>, cur: Cue, phase: Phase) returns (next: System, clip: bool)
    requires AutoInv(sys, deck, goal, cur, phase) && sys.nar.autoplay && (phase == Speaking || phase == Waiting)
    ensures 0 <= sys.stage.index < |sys.stage.slides| && Enabled(sys, ClipEnded)
    ensures next == if clip then Step(sys, deck, ClipEnded) else sys
    ensures AutoInv(next, deck, goal, cur, Waiting) && next.stage == sys.stage
  {
    hide *;
    PhaseFacts(sys, deck, goal, cur, phase);
    CanHappen(sys, ClipEnded);
    StepIs(sys, deck, ClipEnded);
    clip := phase == Speaking;
    next := sys;
    if clip {
      var last', phase' := MoveOn(sys, deck, goal, cur, phase, ClipEnded);
      next := Step(sys, deck, ClipEnded);
      MovesLast(sys, deck, cur, phase, next, last', phase');
    }
  }

  lemma CurrentIsHarmful(sys: System, deck: Deck, cur: Cue)
    requires Startable(sys, deck) && CurrentCue(sys) == cur && (exists k :: Pending(sys.nar, k, cur))
    requires cur.step < MaxStep(deck.authored, sys.stage.slides[sys.stage.index])
    ensures !Harmless(sys, cur.slide, Plan(sys, deck))
  {
    StartableMeans(sys, deck);
    CueNow(sys, deck);
    UpcomingStep(deck.authored, sys.stage.slides, sys.stage.skip, cur);
    PlanMeaning(deck.authored, sys.stage.slides, sys.stage.skip, cur, cur);
    RemainingIs(sys, deck, cur);
    var plan := Plan(sys, deck);
    LastIsFirst(plan);
    hide Startable, Inv, Upcoming, MaxStep, Ascending, Stored, CurrentCue, Pending;
    assert plan[0] == cur && |plan| > 1;
    var k :| Pending(sys.nar, k, cur);
    assert Harmful(sys, cur.slide, plan, cur);
  }

  /** And such a session can be had on every deck with clips that opens on a slide with steps: from the booted page to a
      state in which Auto-play can be pressed and not every run speaks its plan. */
  lemma StaleReachable(deck: Deck, children: seq<Child>, skip: set<SlideId>, hash: Option<int>, stored: bool)
    returns (events: seq<Event>, end: System)
    requires Distinct(children) && SlidesOf(children) != [] && deck.clips != {}
    requires var stage := Mounted(children, skip, hash);
             && 0 <= stage.index < |stage.slides| && MaxStep(deck.authored, stage.slides[stage.index]) > 0
    ensures Run(Booted(deck, Mounted(children, skip, hash), stored), deck, events, end) && Startable(end, deck)
    ensures !(forall late, rest :: AutoRun(Step(end, deck, Play), deck, late, rest) && Settled(rest, deck) ==>
                rest.nar.spoken == end.nar.spoken + Plan(end, deck))
  {
    hide *;
    var booted := Booted(deck, Mounted(children, skip, hash), stored);
    var ready := Opened(deck, children, skip, hash, stored);
    InvIndex(booted, deck);
    events, end := LeavesStale(ready, deck);
    RunStep(booted, deck, Deliver, events, end);
    events := [Deliver] + events;
    AutoPlaySpeaksThePlan(end, deck);
  }

  lemma InvIndex(sys: System, deck: Deck)
    requires Inv(sys, deck)
    ensures 0 <= sys.stage.index < |sys.stage.slides|
  {
    InvParts(sys, deck);
  }

  /** The page once its first message arrived. */
  lemma Opened(deck: Deck, children: seq<Child>, skip: set<SlideId>, hash: Option<int>, stored: bool)
    returns (ready: System)
    requires Distinct(children) && SlidesOf(children) != [] && deck.clips != {}
    requires var stage := Mounted(children, skip, hash);
             && 0 <= stage.index < |stage.slides| && MaxStep(deck.authored, stage.slides[stage.index]) > 0
    ensures var booted := Booted(deck, Mounted(children, skip, hash), stored);
            Inv(booted, deck) && 0 <= booted.stage.index < |booted.stage.slides| && Enabled(booted, Deliver)
            && ready == Step(booted, deck, Deliver)
    ensures Startable(ready, deck)
    ensures CurrentCue(ready).step < MaxStep(deck.authored, ready.stage.slides[ready.stage.index])
  {
    hide *;
    var stage := Mounted(children, skip, hash);
    var booted := Booted(deck, stage, stored);
    MountedStage(children, skip, hash);
    SoundDistinct(stage);
    StartUp(deck, children, skip, hash, stored);
    BootedParts(deck, stage, stored);
    InvIndex(booted, deck);
    CanHappen(booted, Deliver);
    StepIs(booted, deck, Deliver);
    ready := Step(booted, deck, Deliver);
    InitAllTracks(Enhance(map[], map[], map[], {}, 0, None), deck.authored, stage.slides, stage.active, stage.hash);
    FirstDelivery(booted, deck);
    DeliveredKeepsInv(booted, deck);
    OpenedAtZero(ready, deck);
  }

  /** Delivering the only message moves nothing and changes no step but to zero. */
  lemma FirstDelivery(sys: System, deck: Deck)
    requires Inv(sys, deck) && |sys.stage.outbox| == 1 && 0 <= sys.stage.index < |sys.stage.slides|
    requires forall s <- sys.stage.slides :: s in sys.steps.step && sys.steps.step[s] == 0
    ensures var after := Delivered(sys, deck);
            && after.stage == sys.stage.(outbox := []) && after.nar.autoplay == sys.nar.autoplay
            && forall s <- sys.stage.slides :: s in after.steps.step && after.steps.step[s] == 0
  {
    InvParts(sys, deck);
    InvTracked(sys, deck);
    SyncedSlides(sys.stage);
    assert sys.stage.outbox[0].index == sys.stage.index;
    hide Inv, Tracked, Sound, Synced, Receive, Entered;
    ReceiveEffect(sys.steps, deck.authored, sys.stage.slides, sys.stage.outbox[0]);
  }

  lemma OpenedAtZero(sys: System, deck: Deck)
    requires Inv(sys, deck) && sys.stage.outbox == [] && !sys.nar.autoplay && deck.clips != {}
    requires 0 <= sys.stage.index < |sys.stage.slides| && sys.steps.step.Keys >= {sys.stage.slides[sys.stage.index]}
    requires sys.steps.step[sys.stage.slides[sys.stage.index]] == 0
    requires MaxStep(deck.authored, sys.stage.slides[sys.stage.index]) > 0
    ensures Startable(sys, deck) && CurrentCue(sys).step < MaxStep(deck.authored, sys.stage.slides[sys.stage.index])
  {
    CueNow(sys, deck);
    hide Inv, MaxStep, CurrentCue;
  }
}

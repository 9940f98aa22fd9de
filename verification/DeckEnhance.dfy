/**
  The stepped reveals (assets/deck-kit/deck-enhance.js): each slide carries the
  number of its last revealed step, moved by keys and zeroed by the stage's
  asynchronous messages.
*/
module EnhanceSpec {
  import opened Wrappers
  import opened Sequences
  import opened StageSpec

  /** The data-step numbers of the stepped elements of each slide, in document order. */
  type Authored = map<SlideId, seq<int>>

  /** The step classes of one stepped element. */
  datatype Mark = Mark(visible: bool, current: bool, past: bool)

  /** The classes of one progress dot. */
  datatype Dot = Dot(on: bool, current: bool)

  datatype Enhance = Enhance(
    step: map<SlideId, nat>,
    marks: map<SlideId, seq<Mark>>,
    dots: map<SlideId, seq<Dot>>,
    activeClass: set<SlideId>,
    currentIdx: int,
    currentSlide: Option<SlideId>)

  function StepsOf(authored: Authored, slide: SlideId): seq<int> {
    if slide in authored then authored[slide] else []
  }

  function Largest(steps: seq<int>): (m: nat)
    ensures forall s <- steps :: s <= m
    ensures m == 0 || m in steps
  {
    if steps == [] then 0
    else
      var m := Largest(steps[..|steps| - 1]);
      assert steps == steps[..|steps| - 1] + [steps[|steps| - 1]];
      if steps[|steps| - 1] > m then steps[|steps| - 1] else m
  }

  function MaxStep(authored: Authored, slide: SlideId): nat {
    Largest(StepsOf(authored, slide))
  }

  function MarksFor(steps: seq<int>, step: nat): (r: seq<Mark>)
    ensures |r| == |steps|
  {
    seq(|steps|, i requires 0 <= i < |steps| => Mark(steps[i] <= step, steps[i] == step, 0 < steps[i] < step))
  }

  function DotsFor(count: nat, step: nat): (r: seq<Dot>)
    ensures |r| == count
  {
    seq(count, i => Dot(i + 1 <= step, i + 1 == step))
  }

  function SlideAt(slides: seq<SlideId>, i: int): Option<SlideId> {
    if 0 <= i < |slides| then Some(slides[i]) else None
  }

  function ApplyStep(e: Enhance, authored: Authored, slide: SlideId, step: nat): Enhance {
    e.(marks := e.marks[slide := MarksFor(StepsOf(authored, slide), step)],
       step := e.step[slide := step],
       dots := if slide in e.dots then e.dots[slide := DotsFor(|e.dots[slide]|, step)] else e.dots)
  }

  function EnsureDots(e: Enhance, authored: Authored, slide: SlideId): Enhance {
    var m := MaxStep(authored, slide);
    if m == 0 then e.(dots := e.dots - {slide})
    else if slide in e.dots then e
    else e.(dots := e.dots[slide := seq(m, i => Dot(false, false))])
  }

  function InitSlide(e: Enhance, authored: Authored, slide: SlideId): Enhance {
    ApplyStep(EnsureDots(e, authored, slide), authored, slide, 0)
  }

  function Activate(e: Enhance, authored: Authored, slides: seq<SlideId>, i: int): Enhance {
    var shown := if 0 <= i < |slides| then {slides[i]} else {};
    var a := e.(activeClass := e.activeClass - Elements(slides) + shown);
    if 0 <= i < |slides| && slides[i] !in a.step then InitSlide(a, authored, slides[i]) else a
  }

  /** A message from the stage: reveals are zeroed only when another slide element came on screen, or on a Reset. */
  function Receive(e: Enhance, authored: Authored, slides: seq<SlideId>, m: Message): Enhance {
    var s := SlideAt(slides, m.index);
    var changed := s != e.currentSlide || m.reset;
    var f := e.(currentIdx := m.index, currentSlide := s);
    Activate(if s.Some? && changed then ApplyStep(f, authored, s.value, 0) else f, authored, slides, m.index)
  }

  function StepOf(e: Enhance, slide: SlideId): nat {
    if slide in e.step then e.step[slide] else 0
  }

  /** Whether a forward or backward key or tap is used up by a reveal. */
  predicate Consumes(e: Enhance, authored: Authored, slides: seq<SlideId>, forward: bool) {
    var s := SlideAt(slides, e.currentIdx);
    s.Some? && if forward then StepOf(e, s.value) < MaxStep(authored, s.value)
               else MaxStep(authored, s.value) > 0 && StepOf(e, s.value) > 0
  }

  function Reveal(e: Enhance, authored: Authored, slides: seq<SlideId>, forward: bool): Enhance
    requires Consumes(e, authored, slides, forward)
  {
    var s := slides[e.currentIdx];
    ApplyStep(e, authored, s, if forward then StepOf(e, s) + 1 else StepOf(e, s) - 1)
  }

  function InitMissing(e: Enhance, authored: Authored, slides: seq<SlideId>): Enhance
    decreases |slides|
  {
    if slides == [] then e
    else
      var f := InitMissing(e, authored, slides[..|slides| - 1]);
      var s := slides[|slides| - 1];
      if s in f.step then f else InitSlide(f, authored, s)
  }

  /** The safety net after the children changed. */
  function Observe(e: Enhance, authored: Authored, slides: seq<SlideId>): Enhance {
    Activate(InitMissing(e, authored, slides), authored, slides, e.currentIdx)
  }

  /** The first slide at or after `from` that carries the stage's marker, or -1. */
  function FirstMarked(slides: seq<SlideId>, active: set<SlideId>, from: nat): (r: int)
    requires from <= |slides|
    ensures r == -1 || (from <= r < |slides| && slides[r] in active)
    ensures forall k :: from <= k < (if r < 0 then |slides| else r) ==> slides[k] !in active
    decreases |slides| - from
  {
    if from == |slides| then -1 else if slides[from] in active then from else FirstMarked(slides, active, from + 1)
  }

  /** The slide on screen as the stage sees it: its marker, else the address, else the first. */
  function CurrentIndex(slides: seq<SlideId>, active: set<SlideId>, hash: Option<int>): int {
    var marked := FirstMarked(slides, active, 0);
    if marked >= 0 then marked
    else if hash.Some? && 1 <= hash.value <= |slides| then hash.value - 1
    else 0
  }

  function InitEach(e: Enhance, authored: Authored, slides: seq<SlideId>): Enhance
    decreases |slides|
  {
    if slides == [] then e
    else InitSlide(InitEach(e, authored, slides[..|slides| - 1]), authored, slides[|slides| - 1])
  }

  function InitAll(e: Enhance, authored: Authored, slides: seq<SlideId>, active: set<SlideId>,
                   hash: Option<int>): Enhance {
    var i := CurrentIndex(slides, active, hash);
    Activate(InitEach(e, authored, slides).(currentIdx := i, currentSlide := SlideAt(slides, i)), authored, slides, i)
  }

  // ----- what the reveals keep -----------------------------------------------------------

  /** A stepped element is visible up to its step, current at it, and past when its own step is behind. */
  ghost predicate MarksShow(marks: seq<Mark>, steps: seq<int>, step: nat) {
    && |marks| == |steps|
    && forall i :: 0 <= i < |steps| ==>
         && (marks[i].visible <==> steps[i] <= step)
         && (marks[i].current <==> steps[i] == step)
         && (marks[i].past <==> 0 < steps[i] < step)
  }

  /** The first `step` of `count` dots are lit, and the last lit one is the current one. */
  ghost predicate DotsShow(dots: seq<Dot>, count: nat, step: nat) {
    && |dots| == count
    && forall i :: 0 <= i < count ==> (dots[i].on <==> i < step) && (dots[i].current <==> i == step - 1)
  }

  /** Step, step classes and dots of every slide agree, and the step never passes the last one. */
  ghost predicate Tracked(e: Enhance, authored: Authored) {
    && e.dots.Keys <= e.step.Keys
    && forall s <- e.step :: TracksSlide(e, authored, s)
  }

  ghost predicate TracksSlide(e: Enhance, authored: Authored, s: SlideId)
    requires s in e.step
  {
    var m := MaxStep(authored, s);
    && e.step[s] <= m
    && s in e.marks && MarksShow(e.marks[s], StepsOf(authored, s), e.step[s])
    && (s in e.dots <==> m > 0)
    && (m > 0 ==> DotsShow(e.dots[s], m, e.step[s]))
  }

  function OnCount(dots: seq<Dot>): nat {
    if dots == [] then 0 else OnCount(dots[..|dots| - 1]) + if dots[|dots| - 1].on then 1 else 0
  }

  /** The step that a reader of the dots sees. */
  function DotsOn(e: Enhance, slide: SlideId): nat {
    if slide in e.dots then OnCount(e.dots[slide]) else 0
  }

  lemma {:induction false} OnCountOf(dots: seq<Dot>, step: nat)
    requires DotsShow(dots, |dots|, step)
    ensures OnCount(dots) == if step < |dots| then step else |dots|
    decreases |dots|
  {
    if dots != [] {
      OnCountOf(dots[..|dots| - 1], step);
    }
  }

  /** Counting lit dots recovers the step. */
  lemma DotsShowStep(e: Enhance, authored: Authored, s: SlideId)
    requires Tracked(e, authored) && s in e.step
    ensures DotsOn(e, s) == e.step[s]
  {
    assert TracksSlide(e, authored, s);
    if s in e.dots {
      OnCountOf(e.dots[s], e.step[s]);
    }
  }

  lemma ApplyStepTracks(e: Enhance, authored: Authored, slide: SlideId, step: nat)
    requires Tracked(e, authored) && slide in e.step && step <= MaxStep(authored, slide)
    ensures Tracked(ApplyStep(e, authored, slide, step), authored)
  {
    assert TracksSlide(e, authored, slide);
    var f := ApplyStep(e, authored, slide, step);
    forall s <- f.step
      ensures TracksSlide(f, authored, s)
    {
      assert TracksSlide(e, authored, s);
    }
  }

  lemma InitSlideTracks(e: Enhance, authored: Authored, slide: SlideId)
    requires Tracked(e, authored) && slide !in e.step
    ensures Tracked(InitSlide(e, authored, slide), authored)
  {
    var f := InitSlide(e, authored, slide);
    forall s <- f.step
      ensures TracksSlide(f, authored, s)
    {
      if s != slide {
        assert TracksSlide(e, authored, s);
      }
    }
  }

  /** The entrance class is on slide `i`, when there is one, and on no other of the slides. */
  ghost predicate Entered(e: Enhance, slides: seq<SlideId>, i: int) {
    e.activeClass * Elements(slides) == if 0 <= i < |slides| then {slides[i]} else {}
  }

  lemma ActivateTracks(e: Enhance, authored: Authored, slides: seq<SlideId>, i: int)
    requires Tracked(e, authored)
    ensures var a := Activate(e, authored, slides, i);
            && Tracked(a, authored) && a.currentIdx == e.currentIdx && a.currentSlide == e.currentSlide
            && (forall s <- e.step :: s in a.step && a.step[s] == e.step[s])
            && (0 <= i < |slides| ==> slides[i] in a.step) && Entered(a, slides, i)
  {
    hide InitSlide, Tracked;
    var shown := if 0 <= i < |slides| then {slides[i]} else {};
    var a := e.(activeClass := e.activeClass - Elements(slides) + shown);
    ClassTracks(e, a, authored);
    if 0 <= i < |slides| && slides[i] !in a.step {
      InitSlideTracks(a, authored, slides[i]);
      InitSlideKeeps(a, authored, slides[i]);
    }
  }

  lemma ClassTracks(e: Enhance, a: Enhance, authored: Authored)
    requires Tracked(e, authored) && a.step == e.step && a.marks == e.marks && a.dots == e.dots
    ensures Tracked(a, authored)
  {
    forall s <- a.step
      ensures TracksSlide(a, authored, s)
    {
      assert TracksSlide(e, authored, s);
    }
  }

  lemma InitSlideKeeps(e: Enhance, authored: Authored, slide: SlideId)
    ensures InitSlide(e, authored, slide).step == e.step[slide := 0]
    ensures InitSlide(e, authored, slide).currentIdx == e.currentIdx
    ensures InitSlide(e, authored, slide).currentSlide == e.currentSlide
    ensures InitSlide(e, authored, slide).activeClass == e.activeClass
  {
  }

  /** A message leaves every other slide's step alone; the slide it shows is zeroed exactly when it was
      not the one on screen before, or on a Reset. */
  lemma ReceiveEffect(e: Enhance, authored: Authored, slides: seq<SlideId>, m: Message)
    requires Tracked(e, authored)
    requires SlideAt(slides, m.index).Some? ==> slides[m.index] in e.step
    ensures var f, s := Receive(e, authored, slides, m), SlideAt(slides, m.index);
            && Tracked(f, authored) && f.currentIdx == m.index && f.currentSlide == s && Entered(f, slides, m.index)
            && (forall t <- e.step :: t in f.step)
            && (forall t <- e.step :: s != Some(t) ==> f.step[t] == e.step[t])
            && (s.Some? ==> f.step[s.value] == if s != e.currentSlide || m.reset then 0 else e.step[s.value])
  {
    hide Activate, Tracked;
    var s := SlideAt(slides, m.index);
    var f := e.(currentIdx := m.index, currentSlide := s);
    ClassTracks(e, f, authored);
    if s.Some? && (s != e.currentSlide || m.reset) {
      ApplyStepTracks(f, authored, s.value, 0);
      ActivateTracks(ApplyStep(f, authored, s.value, 0), authored, slides, m.index);
    } else {
      ActivateTracks(f, authored, slides, m.index);
    }
  }

  lemma {:induction false} InitMissingTracks(e: Enhance, authored: Authored, slides: seq<SlideId>)
    requires Tracked(e, authored)
    ensures var f := InitMissing(e, authored, slides);
            && Tracked(f, authored) && f.currentIdx == e.currentIdx && f.currentSlide == e.currentSlide
            && (forall s <- slides :: s in f.step) && (forall s <- e.step :: s in f.step && f.step[s] == e.step[s])
    decreases |slides|
  {
    hide InitSlide, Tracked;
    if slides != [] {
      var front, last := slides[..|slides| - 1], slides[|slides| - 1];
      InitMissingTracks(e, authored, front);
      var f := InitMissing(e, authored, front);
      assert slides == front + [last];
      if last !in f.step {
        InitSlideTracks(f, authored, last);
        InitSlideKeeps(f, authored, last);
      }
    }
  }

  lemma {:induction false} InitEachTracks(e: Enhance, authored: Authored, slides: seq<SlideId>)
    requires Tracked(e, authored) && Distinct(slides) && (forall s <- slides :: s !in e.step)
    ensures var f := InitEach(e, authored, slides);
            && Tracked(f, authored)
            && (forall s <- f.step :: s in slides || s in e.step)
            && (forall s <- slides :: s in f.step && f.step[s] == 0)
    decreases |slides|
  {
    hide InitSlide, Tracked;
    if slides != [] {
      var front, last := slides[..|slides| - 1], slides[|slides| - 1];
      InitEachTracks(e, authored, front);
      var f := InitEach(e, authored, front);
      assert slides == front + [last];
      InitSlideTracks(f, authored, last);
      InitSlideKeeps(f, authored, last);
    }
  }

  /** Where booting looks: at the first slide the stage marks; before it has marked one, at the slide the hash names, if
      there is one; else at the first. */
  lemma CurrentIndexMeaning(slides: seq<SlideId>, active: set<SlideId>, hash: Option<int>)
    ensures var i := CurrentIndex(slides, active, hash);
            if exists k :: 0 <= k < |slides| && slides[k] in active
            then 0 <= i < |slides| && slides[i] in active && forall k :: 0 <= k < i ==> slides[k] !in active
            else if hash.Some? && 1 <= hash.value <= |slides| then i == hash.value - 1 else i == 0
  {
  }

  /** Booting tracks every slide at step 0 and shows the slide the stage marks, whatever came before it. */
  lemma InitAllTracks(e: Enhance, authored: Authored, slides: seq<SlideId>, active: set<SlideId>, hash: Option<int>)
    requires e.step == map[] && e.dots == map[] && Distinct(slides)
    ensures var f, i := InitAll(e, authored, slides, active, hash), CurrentIndex(slides, active, hash);
            && Tracked(f, authored) && f.currentIdx == i && f.currentSlide == SlideAt(slides, i)
            && Entered(f, slides, i)
            && forall s <- slides :: s in f.step && f.step[s] == 0
  {
    hide InitEach, Activate, CurrentIndex;
    InitEachTracks(e, authored, slides);
    var i := CurrentIndex(slides, active, hash);
    var f := InitEach(e, authored, slides);
    ClassTracks(f, f.(currentIdx := i, currentSlide := SlideAt(slides, i)), authored);
    ActivateTracks(f.(currentIdx := i, currentSlide := SlideAt(slides, i)), authored, slides, i);
  }

  lemma StepWithin(e: Enhance, authored: Authored, s: SlideId)
    requires Tracked(e, authored) && s in e.step
    ensures e.step[s] <= MaxStep(authored, s)
  {
    assert TracksSlide(e, authored, s);
  }

  lemma ApplyStepKeeps(e: Enhance, authored: Authored, slide: SlideId, step: nat)
    ensures var f := ApplyStep(e, authored, slide, step);
            && f.currentIdx == e.currentIdx && f.currentSlide == e.currentSlide && f.step == e.step[slide := step]
            && f.activeClass == e.activeClass
            && forall t <- e.marks :: t != slide ==> t in f.marks && f.marks[t] == e.marks[t]
  {
  }

  lemma RevealUnfolded(e: Enhance, authored: Authored, slides: seq<SlideId>, forward: bool)
    requires Consumes(e, authored, slides, forward) && slides[e.currentIdx] in e.step
    ensures 0 <= e.currentIdx < |slides|
    ensures var s := slides[e.currentIdx];
            && (if forward then e.step[s] < MaxStep(authored, s) else e.step[s] > 0)
            && Reveal(e, authored, slides, forward) ==
               ApplyStep(e, authored, s, if forward then e.step[s] + 1 else e.step[s] - 1)
  {
    hide MaxStep, ApplyStep;
  }

  /** A reveal moves the shown slide one step and stays within its steps. */
  lemma RevealEffect(e: Enhance, authored: Authored, slides: seq<SlideId>, forward: bool)
    requires Tracked(e, authored) && Consumes(e, authored, slides, forward) && slides[e.currentIdx] in e.step
    ensures var f, s := Reveal(e, authored, slides, forward), slides[e.currentIdx];
            && Tracked(f, authored) && f.currentIdx == e.currentIdx && f.currentSlide == e.currentSlide
            && f.step == e.step[s := if forward then e.step[s] + 1 else e.step[s] - 1]
            && f.activeClass == e.activeClass
            && forall t <- e.marks :: t != s ==> t in f.marks && f.marks[t] == e.marks[t]
  {
    hide *;
    RevealUnfolded(e, authored, slides, forward);
    var s := slides[e.currentIdx];
    var to := if forward then e.step[s] + 1 else e.step[s] - 1;
    StepWithin(e, authored, s);
    ApplyStepTracks(e, authored, s, to);
    ApplyStepKeeps(e, authored, s, to);
  }

  /** A key is used up by a reveal exactly when it has one to do: forward, when some element of the shown slide is still
      hidden; back, when some step is shown. */
  lemma ConsumesMeaning(e: Enhance, authored: Authored, slides: seq<SlideId>, forward: bool)
    requires Tracked(e, authored) && (0 <= e.currentIdx < |slides| ==> slides[e.currentIdx] in e.step)
    ensures Consumes(e, authored, slides, forward) <==>
            && 0 <= e.currentIdx < |slides|
            && var s := slides[e.currentIdx];
               if forward then exists i :: 0 <= i < |e.marks[s]| && !e.marks[s][i].visible else e.step[s] > 0
  {
    if 0 <= e.currentIdx < |slides| {
      var s := slides[e.currentIdx];
      assert TracksSlide(e, authored, s);
      var steps := StepsOf(authored, s);
      if e.step[s] < MaxStep(authored, s) {
        var i :| 0 <= i < |steps| && steps[i] == MaxStep(authored, s);
        assert !e.marks[s][i].visible;
      }
      if i :| 0 <= i < |e.marks[s]| && !e.marks[s][i].visible {
        assert steps[i] in steps;
      }
    }
  }

  /** A reveal on screen: going forward hides nothing and shows exactly the elements of the new step; going back hides
      exactly the elements of the step left and shows nothing. */
  lemma RevealShows(e: Enhance, authored: Authored, slides: seq<SlideId>, forward: bool, i: nat)
    requires Tracked(e, authored) && Consumes(e, authored, slides, forward) && slides[e.currentIdx] in e.step
    requires i < |StepsOf(authored, slides[e.currentIdx])|
    ensures var f, s := Reveal(e, authored, slides, forward), slides[e.currentIdx];
            && s in e.marks && s in f.marks && |e.marks[s]| == |f.marks[s]| == |StepsOf(authored, s)|
            && var own, was, now := StepsOf(authored, s)[i], e.marks[s][i], f.marks[s][i];
               if forward then now.visible == (was.visible || own == e.step[s] + 1)
               else now.visible == (was.visible && own != e.step[s])
  {
    RevealEffect(e, authored, slides, forward);
    var f, s := Reveal(e, authored, slides, forward), slides[e.currentIdx];
    assert TracksSlide(e, authored, s) && TracksSlide(f, authored, s);
    hide Reveal, Consumes, Tracked, StepsOf, MaxStep;
  }

  /** What is on screen of a slide in any tracked state, read off the authored steps. */
  lemma ShownUpToStep(e: Enhance, authored: Authored, s: SlideId, i: nat)
    requires Tracked(e, authored) && s in e.step && i < |StepsOf(authored, s)|
    ensures s in e.marks && |e.marks[s]| == |StepsOf(authored, s)|
    ensures var own, m := StepsOf(authored, s)[i], e.marks[s][i];
            && (m.visible <==> own <= e.step[s]) && (m.current <==> own == e.step[s])
            && (m.past <==> 0 < own < e.step[s])
            && (own > 0 ==> s in e.dots && own <= |e.dots[s]| && (m.visible <==> e.dots[s][own - 1].on)
                            && (m.current <==> e.dots[s][own - 1].current))
  {
    assert TracksSlide(e, authored, s);
    assert StepsOf(authored, s)[i] in StepsOf(authored, s);
  }
}

/** The program's handlers. */
module DeckEnhance {
  import opened Wrappers
  import opened Sequences
  import opened StageSpec
  import opened EnhanceSpec

  class DeckEnhance {
    const authored: Authored
    var step: map<SlideId, nat>
    var marks: map<SlideId, seq<Mark>>
    var dots: map<SlideId, seq<Dot>>
    var activeClass: set<SlideId>
    var currentIdx: int
    var currentSlide: Option<SlideId>

    function State(): Enhance
      reads this
    {
      Enhance(step, marks, dots, activeClass, currentIdx, currentSlide)
    }

    constructor (authored: Authored)
      ensures this.authored == authored
      ensures State() == Enhance(map[], map[], map[], {}, 0, None)
    {
      this.authored := authored;
      step, marks, dots, activeClass, currentIdx, currentSlide := map[], map[], map[], {}, 0, None;
    }

    method LastStep(slide: SlideId) returns (m: nat)
      ensures m == MaxStep(authored, slide)
    {
      var steps := StepsOf(authored, slide);
      m := 0;
      for i := 0 to |steps|
        invariant m == Largest(steps[..i])
      {
        assert steps[..i + 1][..i] == steps[..i];
        if steps[i] > m {
          m := steps[i];
        }
      }
      assert steps[..|steps|] == steps;
    }

    method UpdateDots(slide: SlideId, to: nat)
      modifies this`dots
      ensures dots == if slide in old(dots) then old(dots)[slide := DotsFor(|old(dots)[slide]|, to)] else old(dots)
    {
      if slide !in dots {
        return;
      }
      var row: seq<Dot> := [];
      for i := 0 to |dots[slide]|
        invariant dots == old(dots)
        invariant row == DotsFor(i, to)
      {
        var idx := i + 1;
        row := row + [Dot(idx <= to, idx == to)];
      }
      dots := dots[slide := row];
    }

    method ApplyStep(slide: SlideId, to: nat)
      modifies this`step, this`marks, this`dots
      ensures State() == EnhanceSpec.ApplyStep(old(State()), authored, slide, to)
    {
      var all := StepsOf(authored, slide);
      var row: seq<Mark> := [];
      for i := 0 to |all|
        modifies {}
        invariant row == MarksFor(all[..i], to)
      {
        var s := all[i];
        row := row + [Mark(s <= to, s == to, s > 0 && s < to)];
      }
      assert all[..|all|] == all;
      marks := marks[slide := row];
      step := step[slide := to];
      UpdateDots(slide, to);
    }

    method EnsureDots(slide: SlideId)
      modifies this`dots
      ensures State() == EnhanceSpec.EnsureDots(old(State()), authored, slide)
    {
      var m := LastStep(slide);
      if m == 0 {
        dots := dots - {slide};
        return;
      }
      if slide !in dots {
        var row: seq<Dot> := [];
        for i := 0 to m
          modifies {}
          invariant row == seq(i, j => Dot(false, false))
        {
          row := row + [Dot(false, false)];
        }
        dots := dots[slide := row];
      }
    }

    method InitSlide(slide: SlideId)
      modifies this`step, this`marks, this`dots
      ensures State() == EnhanceSpec.InitSlide(old(State()), authored, slide)
    {
      EnsureDots(slide);
      ApplyStep(slide, 0);
    }

    method Activate(slides: seq<SlideId>, i: int)
      requires Distinct(slides)
      modifies this`activeClass, this`step, this`marks, this`dots
      ensures State() == EnhanceSpec.Activate(old(State()), authored, slides, i)
    {
      hide EnhanceSpec.InitSlide;
      for k := 0 to |slides|
        modifies this`activeClass
        invariant activeClass == old(activeClass) - Elements(slides[..k]) + if 0 <= i < k then {slides[i]} else {}
      {
        assert slides[..k + 1] == slides[..k] + [slides[k]];
        assert Elements(slides[..k + 1]) == Elements(slides[..k]) + {slides[k]};
        activeClass := if k == i then activeClass + {slides[k]} else activeClass - {slides[k]};
      }
      assert slides[..|slides|] == slides;
      if 0 <= i < |slides| && slides[i] !in step {
        InitSlide(slides[i]);
      }
    }

    method InitAll(slides: seq<SlideId>, active: set<SlideId>, hash: Option<int>)
      requires Distinct(slides)
      modifies this
      ensures State() == EnhanceSpec.InitAll(old(State()), authored, slides, active, hash)
    {
      hide EnhanceSpec.InitSlide, EnhanceSpec.Activate;
      ghost var before := State();
      for i := 0 to |slides|
        modifies this`step, this`marks, this`dots
        invariant State() == InitEach(before, authored, slides[..i])
      {
        assert slides[..i + 1][..i] == slides[..i];
        InitSlide(slides[i]);
      }
      assert slides[..|slides|] == slides;
      currentIdx := CurrentIndex(slides, active, hash);
      currentSlide := SlideAt(slides, currentIdx);
      Activate(slides, currentIdx);
    }

    /** The message handler. */
    method OnMessage(slides: seq<SlideId>, m: Message)
      requires Distinct(slides)
      modifies this
      ensures State() == Receive(old(State()), authored, slides, m)
    {
      hide EnhanceSpec.Activate, EnhanceSpec.ApplyStep;
      currentIdx := m.index;
      var s := SlideAt(slides, currentIdx);
      var changed := s != currentSlide || m.reset;
      currentSlide := s;
      if s.Some? && changed {
        ApplyStep(s.value, 0);
      }
      Activate(slides, currentIdx);
    }

    /** The stepping half of the key and tap handlers; `handled` says whether the event stops here. */
    method OnStepKey(slides: seq<SlideId>, forward: bool) returns (handled: bool)
      modifies this
      ensures handled == Consumes(old(State()), authored, slides, forward)
      ensures State() == if handled then Reveal(old(State()), authored, slides, forward) else old(State())
    {
      if !(0 <= currentIdx < |slides|) {
        return false;
      }
      var slide := slides[currentIdx];
      var m := LastStep(slide);
      var cur := StepOf(State(), slide);
      if m > 0 && forward && cur < m {
        ApplyStep(slide, cur + 1);
        return true;
      }
      if m > 0 && !forward && cur > 0 {
        ApplyStep(slide, cur - 1);
        return true;
      }
      return false;
    }

    /** The mutation observer's safety net. */
    method OnChildren(slides: seq<SlideId>)
      requires Distinct(slides)
      modifies this
      ensures State() == Observe(old(State()), authored, slides)
    {
      hide EnhanceSpec.InitSlide, EnhanceSpec.Activate;
      ghost var before := State();
      for i := 0 to |slides|
        modifies this`step, this`marks, this`dots
        invariant State() == InitMissing(before, authored, slides[..i])
      {
        assert slides[..i + 1][..i] == slides[..i];
        if slides[i] !in step {
          InitSlide(slides[i]);
        }
      }
      assert slides[..|slides|] == slides;
      Activate(slides, currentIdx);
    }
  }
}

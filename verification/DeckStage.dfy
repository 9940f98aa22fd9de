/** Small facts about sequences without repetition. */
module Sequences {

  function Elements<T>(s: seq<T>): set<T> {
    set x | x in s
  }

  ghost predicate Distinct<T>(s: seq<T>) {
    forall i, j :: 0 <= i < j < |s| ==> s[i] != s[j]
  }

  function RemoveAt<T>(s: seq<T>, i: nat): (r: seq<T>)
    requires i < |s|
    ensures |r| == |s| - 1
  {
    s[..i] + s[i + 1..]
  }

  function InsertAt<T>(s: seq<T>, i: nat, x: T): (r: seq<T>)
    requires i <= |s|
    ensures |r| == |s| + 1
  {
    s[..i] + [x] + s[i..]
  }

  /** The element at `i` taken out and put back so that it ends up at `j`. */
  function MoveTo<T>(s: seq<T>, i: nat, j: nat): (r: seq<T>)
    requires i < |s| && j < |s|
    ensures |r| == |s|
  {
    InsertAt(RemoveAt(s, i), j, s[i])
  }

  lemma RemoveAtDistinct<T>(s: seq<T>, i: nat)
    requires Distinct(s) && i < |s|
    ensures Distinct(RemoveAt(s, i)) && s[i] !in RemoveAt(s, i)
    ensures Elements(RemoveAt(s, i)) == Elements(s) - {s[i]}
  {
    var r := RemoveAt(s, i);
    forall x | x in s && x != s[i]
      ensures x in r
    {
      var k :| 0 <= k < |s| && s[k] == x;
      assert if k < i then r[k] == x else r[k - 1] == x;
    }
  }

  lemma InsertAtDistinct<T>(s: seq<T>, i: nat, x: T)
    requires Distinct(s) && i <= |s| && x !in s
    ensures Distinct(InsertAt(s, i, x)) && Elements(InsertAt(s, i, x)) == Elements(s) + {x}
  {
    var r := InsertAt(s, i, x);
    assert r[i] == x;
    forall y | y in s
      ensures y in r
    {
      var k :| 0 <= k < |s| && s[k] == y;
      assert if k < i then r[k] == y else r[k + 1] == y;
    }
  }

  /** Where the element at `k` ends up when the one at `i` moves to `j`. */
  function Followed(k: int, i: int, j: int): int {
    if k == i then j else if i < k && j >= k then k - 1 else if i > k && j <= k then k + 1 else k
  }

  lemma MoveToFollowed<T>(s: seq<T>, i: nat, j: nat, k: nat)
    requires i < |s| && j < |s| && k < |s|
    ensures 0 <= Followed(k, i, j) < |s| && MoveTo(s, i, j)[Followed(k, i, j)] == s[k]
  {
  }
}

/**
  The slide-deck state (assets/deck-kit/deck-stage.js).  A slide element is named
  by a number; the attributes the stage writes on elements are sets and a map
  keyed by that name, so that an element keeps its attributes while it is outside
  the list.  Each operation is a function on states first; the class further down
  has the program's fields and loops and is proved to perform those functions.
*/
module StageSpec {
  import opened Wrappers
  import opened Sequences

  type SlideId = nat

  /** A light-DOM child of the stage: a slide, or a node the slide list leaves out (text, template, script, style). */
  datatype Child = Slide(id: SlideId) | Aside(id: nat)

  /** The message every listener in the page receives later, in order. */
  datatype Message = Message(index: int, reset: bool, total: nat, skipped: seq<nat>)

  datatype Stage = Stage(
    children: seq<Child>,
    slides: seq<SlideId>,
    index: int,
    prevIndex: Option<int>,
    skip: set<SlideId>,
    active: set<SlideId>,
    lastVisible: set<SlideId>,
    number: map<SlideId, nat>,
    hash: Option<int>,
    squelch: bool,
    outbox: seq<Message>,   // posted, not yet delivered
    fired: seq<int>)        // slidechange events, delivered as they happen

  function SlidesOf(children: seq<Child>): seq<SlideId> {
    if children == [] then []
    else SlidesOf(children[..|children| - 1])
         + if children[|children| - 1].Slide? then [children[|children| - 1].id] else []
  }

  // ----- skipping ---------------------------------------------------------------

  /** The first slide at or after `j` that is not skipped, or the length. */
  function NextLive(slides: seq<SlideId>, skip: set<SlideId>, j: int): (r: int)
    requires 0 <= j <= |slides|
    ensures j <= r <= |slides| && (r < |slides| ==> slides[r] !in skip)
    ensures forall k :: j <= k < r ==> slides[k] in skip
    decreases |slides| - j
  {
    if j == |slides| || slides[j] !in skip then j else NextLive(slides, skip, j + 1)
  }

  /** The last slide at or before `j` that is not skipped, or -1. */
  function PrevLive(slides: seq<SlideId>, skip: set<SlideId>, j: int): (r: int)
    requires -1 <= j < |slides|
    ensures -1 <= r <= j && (r >= 0 ==> slides[r] !in skip)
    ensures forall k :: r < k <= j ==> slides[k] in skip
    decreases j + 1
  {
    if j < 0 || slides[j] !in skip then j else PrevLive(slides, skip, j - 1)
  }

  ghost predicate AnyLive(slides: seq<SlideId>, skip: set<SlideId>) {
    exists k :: 0 <= k < |slides| && slides[k] !in skip
  }

  function Clamp(n: nat, i: int): int {
    var low := if i < n - 1 then i else n - 1;
    if low > 0 then low else 0
  }

  function LiveIndex(slides: seq<SlideId>, skip: set<SlideId>, i: int): int {
    var c := Clamp(|slides|, i);
    if c < |slides| && slides[c] in skip then
      var j := NextLive(slides, skip, c);
      var k := if j < |slides| then j else PrevLive(slides, skip, c);
      if 0 <= k then k else c
    else c
  }

  /** Where a wish for place `i` ends: at the place nearest to `i` when that slide is not skipped, else at the nearest
      later slide that is not, else at the nearest earlier one; with every slide skipped there is no better place. */
  ghost predicate LandsOn(slides: seq<SlideId>, skip: set<SlideId>, i: int, r: int) {
    var c := if i < 0 then 0 else if i >= |slides| then |slides| - 1 else i;
    && 0 <= r < |slides|
    && (slides[r] in skip ==> r == c && forall k :: 0 <= k < |slides| ==> slides[k] in skip)
    && (r > c ==> forall k :: c <= k < r ==> slides[k] in skip)
    && (r < c ==> forall k :: r < k < |slides| ==> slides[k] in skip)
  }

  /** There is just one such place. */
  lemma LandsOnOne(slides: seq<SlideId>, skip: set<SlideId>, i: int, r: int, q: int)
    requires LandsOn(slides, skip, i, r) && LandsOn(slides, skip, i, q)
    ensures r == q
  {
  }

  /** Any target lands in range, on a slide that is not skipped whenever there is one, and just there. */
  lemma LiveIndexNearest(slides: seq<SlideId>, skip: set<SlideId>, i: int)
    requires slides != []
    ensures var r := LiveIndex(slides, skip, i);
            && 0 <= r < |slides| && (AnyLive(slides, skip) <==> slides[r] !in skip) && LandsOn(slides, skip, i, r)
  {
  }

  function SkippedIndices(slides: seq<SlideId>, skip: set<SlideId>): seq<nat> {
    if slides == [] then []
    else
      var k := |slides| - 1;
      SkippedIndices(slides[..k], skip) + if slides[k] in skip then [k] else []
  }

  lemma SkippedSnoc(slides: seq<SlideId>, skip: set<SlideId>, x: SlideId)
    ensures SkippedIndices(slides + [x], skip) == SkippedIndices(slides, skip) + if x in skip then [|slides|] else []
  {
    assert (slides + [x])[..|slides|] == slides;
  }

  /** The skipped places, each once and ascending. */
  lemma {:induction false} SkippedMeaning(slides: seq<SlideId>, skip: set<SlideId>, k: nat)
    ensures k in SkippedIndices(slides, skip) <==> k < |slides| && slides[k] in skip
    ensures var r := SkippedIndices(slides, skip);
            && (forall i, j :: 0 <= i < j < |r| ==> r[i] < r[j])
            && (forall i :: 0 <= i < |r| ==> r[i] < |slides|)
    decreases |slides|
  {
    if slides != [] {
      var n := |slides| - 1;
      assert slides == slides[..n] + [slides[n]];
      SkippedMeaning(slides[..n], skip, k);
      SkippedSnoc(slides[..n], skip, slides[n]);
    }
  }

  // ----- what a message tells --------------------------------------------------------

  /** A message tells where the stage is: its index, how many slides there are, and exactly which are skipped. */
  ghost predicate Tells(m: Message, s: Stage) {
    && m.index == s.index && m.total == |s.slides|
    && (forall k: nat :: k in m.skipped <==> k < |s.slides| && s.slides[k] in s.skip)
    && (forall i, j :: 0 <= i < j < |m.skipped| ==> m.skipped[i] < m.skipped[j])
  }

  /** One more message, which tells the new state. */
  ghost predicate Posted(s: Stage, t: Stage, reset: bool) {
    && |t.outbox| == |s.outbox| + 1 && t.outbox[..|s.outbox|] == s.outbox
    && Tells(t.outbox[|s.outbox|], t) && t.outbox[|s.outbox|].reset == reset
  }

  /** And one more event, with the hash following. */
  ghost predicate Broadcast(s: Stage, t: Stage, reset: bool) {
    Posted(s, t, reset) && t.fired == s.fired + [t.index] && t.prevIndex == Some(t.index)
  }

  lemma PostTells(s: Stage, reset: bool)
    ensures Posted(s, Post(s, reset), reset)
  {
    forall k: nat
      ensures k in SkippedIndices(s.slides, s.skip) <==> k < |s.slides| && s.slides[k] in s.skip
    {
      SkippedMeaning(s.slides, s.skip, k);
    }
    SkippedMeaning(s.slides, s.skip, 0);
  }

  lemma ApplyTells(s: Stage, reset: bool)
    requires s.slides != [] && 0 <= s.index < |s.slides|
    ensures Broadcast(s, Apply(s, reset), reset)
  {
    PostTells(s, reset);
    hide SkippedIndices;
  }

  /** It does not matter where the stage was before. */
  lemma BroadcastFrom(s: Stage, u: Stage, t: Stage, reset: bool)
    requires Broadcast(u, t, reset) && u.outbox == s.outbox && u.fired == s.fired
    ensures Broadcast(s, t, reset)
  {
  }

  function LastLive(slides: seq<SlideId>, skip: set<SlideId>): set<SlideId> {
    var k := PrevLive(slides, skip, |slides| - 1);
    if k < 0 then {} else {slides[k]}
  }

  // ----- operations ---------------------------------------------------------------

  function Numbered(number: map<SlideId, nat>, slides: seq<SlideId>): map<SlideId, nat> {
    if slides == [] then number
    else Numbered(number, slides[..|slides| - 1])[slides[|slides| - 1] := |slides| - 1]
  }

  function MarkLastVisible(s: Stage): Stage {
    s.(lastVisible := s.lastVisible - Elements(s.slides) + LastLive(s.slides, s.skip))
  }

  function Collect(s: Stage): Stage {
    var slides := SlidesOf(s.children);
    MarkLastVisible(s.(
      slides := slides,
      number := Numbered(s.number, slides),
      index := if s.index >= |slides| then (if |slides| > 0 then |slides| - 1 else 0) else s.index))
  }

  function Restore(s: Stage): Stage {
    var at := if s.hash.Some? && 1 <= s.hash.value <= |s.slides| then s.hash.value - 1 else s.index;
    s.(index := LiveIndex(s.slides, s.skip, at))
  }

  function Post(s: Stage, reset: bool): Stage {
    s.(outbox := s.outbox + [Message(s.index, reset, |s.slides|, SkippedIndices(s.slides, s.skip))])
  }

  function Apply(s: Stage, reset: bool): Stage
    requires s.slides == [] || 0 <= s.index < |s.slides|
  {
    if s.slides == [] then s
    else
      Post(s, reset).(
        hash := Some(s.index + 1),
        active := s.active - Elements(s.slides) + {s.slides[s.index]},
        fired := s.fired + [s.index],
        prevIndex := Some(s.index))
  }

  function SlotChange(s: Stage): Stage {
    if s.squelch then s.(squelch := false)
    else
      var c := Restore(Collect(s));
      RestoreInRange(Collect(s));
      Apply(c, false)
  }

  lemma RestoreInRange(s: Stage)
    ensures Restore(s).slides == [] || 0 <= Restore(s).index < |Restore(s).slides|
  {
    if s.slides != [] {
      LiveIndexNearest(s.slides, s.skip, s.index);
      if s.hash.Some? {
        LiveIndexNearest(s.slides, s.skip, s.hash.value - 1);
      }
    }
  }

  function Go(s: Stage, i: int, force: bool): Stage {
    if s.slides == [] then s
    else
      var target := LiveIndex(s.slides, s.skip, i);
      LiveIndexNearest(s.slides, s.skip, i);
      if target == s.index && !force then s
      else Apply(s.(index := target), force && target == s.index)
  }

  function Advance(s: Stage, forward: bool): Stage
    requires s.slides == [] || 0 <= s.index < |s.slides|
  {
    if s.slides == [] then s
    else
      var i := if forward then NextLive(s.slides, s.skip, s.index + 1) else PrevLive(s.slides, s.skip, s.index - 1);
      if 0 <= i < |s.slides| then Go(s, i, false) else s
  }

  function WithoutChild<T(==)>(children: seq<T>, c: T): seq<T> {
    if children == [] then []
    else
      var k := |children| - 1;
      WithoutChild(children[..k], c) + if children[k] == c then [] else [children[k]]
  }

  /** The index moved off a skipped slide. */
  function Landed(s: Stage): Stage {
    s.(index := LiveIndex(s.slides, s.skip, s.index))
  }

  lemma LandedInRange(s: Stage)
    ensures s.slides == [] || 0 <= Landed(s).index < |s.slides|
  {
    if s.slides != [] {
      LiveIndexNearest(s.slides, s.skip, s.index);
    }
  }

  /** Slide `i` taken out of the document; the index is renumbered so that it keeps naming the same slide. */
  function Unlinked(s: Stage, i: nat): Stage
    requires i < |s.slides|
  {
    s.(index := if i < s.index || (i == s.index && i == |s.slides| - 1) then s.index - 1 else s.index,
       squelch := true,
       children := WithoutChild(s.children, Slide(s.slides[i])))
  }

  function Delete(s: Stage, i: int): Stage {
    if i < 0 || i >= |s.slides| || |s.slides| <= 1 then s
    else
      LandedInRange(Collect(Unlinked(s, i)));
      Apply(Landed(Collect(Unlinked(s, i))), false)
  }

  function ToggleSkip(s: Stage, i: int): Stage {
    if i < 0 || i >= |s.slides| then s
    else
      var slide := s.slides[i];
      Post(MarkLastVisible(s.(skip := if slide in s.skip then s.skip - {slide} else s.skip + {slide})), false)
  }

  /** The node inserted before the node `ref`, or at the end. */
  function InsertedBefore<T(==)>(children: seq<T>, c: T, ref: Option<T>): seq<T> {
    if children == [] then [c]
    else if ref == Some(children[0]) then [c] + children
    else [children[0]] + InsertedBefore(children[1..], c, ref)
  }

  function SiblingAfter<T(==)>(children: seq<T>, c: T): Option<T> {
    if children == [] then None
    else if children[0] == c then if |children| > 1 then Some(children[1]) else None
    else SiblingAfter(children[1..], c)
  }

  /** The node `c` is really put before: asked to go before itself, it goes before its next sibling. */
  function PlacedBefore<T(==)>(children: seq<T>, c: T, ref: Option<T>): Option<T> {
    if ref == Some(c) then SiblingAfter(children, c) else ref
  }

  /** Slide `i` re-inserted so that it ends up at place `j`; the index follows the slide it names. */
  function Relinked(s: Stage, i: nat, j: nat): Stage
    requires i < |s.slides| && j < |s.slides|
  {
    var slide := Slide(s.slides[i]);
    var ref := if j < i then Some(Slide(s.slides[j])) else SiblingAfter(s.children, Slide(s.slides[j]));
    s.(index := Followed(s.index, i, j),
       squelch := true,
       children := InsertedBefore(WithoutChild(s.children, slide), slide, PlacedBefore(s.children, slide, ref)))
  }

  function Move(s: Stage, i: nat, j: int): Stage
    requires i < |s.slides| && 0 <= s.index
  {
    if j < 0 || j >= |s.slides| || j == i then s else Apply(Collect(Relinked(s, i, j)), false)
  }

  /** The browser refuses to insert: there is no such slide, or the node to insert before is no longer a child. */
  predicate MoveRefused(s: Stage, i: nat, j: int) {
    0 <= j < |s.slides| && j != i && (i >= |s.slides| || (j < i && Slide(s.slides[j]) !in s.children))
  }

  /** What an exception in the middle of a move leaves behind: the index already follows, the squelch is set. */
  function Interrupted(s: Stage, i: nat, j: int): Stage {
    s.(index := Followed(s.index, i, j), squelch := true)
  }

  /** A move of any slide, even one that is gone. */
  function MoveTried(s: Stage, i: nat, j: int): Stage
    requires 0 <= s.index
  {
    if MoveRefused(s, i, j) then Interrupted(s, i, j) else if i < |s.slides| then Move(s, i, j) else s
  }

  /** Where a thumbnail dropped on the one at `at` goes, on the given side of it. */
  function DropTarget(from: nat, at: nat, after: bool): (to: int)
    ensures 0 <= to
  {
    var to := if after then at + 1 else at;
    if from < to then to - 1 else to
  }

  /** A dropped slide ends up right beside the slide it was dropped on, on the side it was dropped; on its own thumb
      it stays. */
  lemma DropLandsBeside(slides: seq<SlideId>, from: nat, at: nat, after: bool)
    requires from < |slides| && at < |slides|
    ensures var to := DropTarget(from, at, after);
            && to < |slides|
            && (from == at ==> to == from)
            && (from != at ==>
                  var moved, beside := MoveTo(slides, from, to), if after then to - 1 else to + 1;
                  moved[to] == slides[from] && 0 <= beside < |slides| && moved[beside] == slides[at])
  {
    var to := DropTarget(from, at, after);
    MoveToFollowed(slides, from, to, from);
    MoveToFollowed(slides, from, to, at);
  }

  // ----- the slide list under edits of the children ---------------------------------

  /** The stage has seen every change of its children. */
  predicate Synced(s: Stage) {
    s.slides == SlidesOf(s.children)
  }

  lemma {:induction false} SlidesConcat(a: seq<Child>, b: seq<Child>)
    ensures SlidesOf(a + b) == SlidesOf(a) + SlidesOf(b)
    decreases |b|
  {
    if b == [] {
      assert a + b == a;
    } else {
      var k := |b| - 1;
      assert (a + b)[..|a + b| - 1] == a + b[..k];
      SlidesConcat(a, b[..k]);
    }
  }

  lemma {:induction false} SlidesMembers(children: seq<Child>, id: SlideId)
    ensures id in SlidesOf(children) <==> Slide(id) in children
    decreases |children|
  {
    if children != [] {
      var k := |children| - 1;
      SlidesMembers(children[..k], id);
      assert children == children[..k] + [children[k]];
    }
  }

  lemma {:induction false} SlidesDistinct(children: seq<Child>)
    requires Distinct(children)
    ensures Distinct(SlidesOf(children))
    decreases |children|
  {
    if children != [] {
      var k := |children| - 1;
      SlidesDistinct(children[..k]);
      if children[k].Slide? {
        SlidesMembers(children[..k], children[k].id);
      }
    }
  }

  lemma LastChild(children: seq<Child>)
    requires children != []
    ensures SlidesOf(children) == SlidesOf(children[..|children| - 1]) + Own(children[|children| - 1])
  {
  }

  function Own(c: Child): seq<SlideId> {
    if c.Slide? then [c.id] else []
  }

  lemma NoChild()
    ensures SlidesOf([]) == []
  {
  }

  lemma OneChild(c: Child)
    ensures SlidesOf([c]) == Own(c)
  {
    hide SlidesOf;
    assert [c][..0] == [];
    LastChild([c]);
    NoChild();
  }

  lemma FoundInFront(front: seq<Child>, last: Child, i: nat, p: nat)
    requires i < |SlidesOf(front)| && p < |front| && SlidesOf(front[p + 1..]) == SlidesOf(front)[i + 1..]
    ensures (front + [last])[..p] == front[..p]
    ensures SlidesOf(front + [last]) == SlidesOf(front) + SlidesOf([last])
    ensures SlidesOf((front + [last])[p + 1..]) == SlidesOf(front + [last])[i + 1..]
  {
    hide SlidesOf;
    assert (front + [last])[p + 1..] == front[p + 1..] + [last];
    SlidesConcat(front[p + 1..], [last]);
    SlidesConcat(front, [last]);
  }

  /** A slide's place among the children, found from its place among the slides. */
  lemma {:induction false} ChildOf(children: seq<Child>, i: nat) returns (p: nat)
    requires i < |SlidesOf(children)|
    ensures p < |children| && children[p] == Slide(SlidesOf(children)[i])
            && SlidesOf(children[..p]) == SlidesOf(children)[..i]
    ensures SlidesOf(children[p + 1..]) == SlidesOf(children)[i + 1..]
    decreases |children|
  {
    hide SlidesOf;
    NoChild();
    LastChild(children);
    var k := |children| - 1;
    var front := children[..k];
    assert children == front + [children[k]];
    if i < |SlidesOf(front)| {
      p := ChildOf(front, i);
      FoundInFront(front, children[k], i, p);
    } else {
      p := k;
      assert children[p + 1..] == [];
    }
  }

  lemma {:induction false} WithoutAbsent<T>(children: seq<T>, c: T)
    requires c !in children
    ensures WithoutChild(children, c) == children
    decreases |children|
  {
    if children != [] {
      var k := |children| - 1;
      assert children == children[..k] + [children[k]];
      WithoutAbsent(children[..k], c);
    }
  }

  lemma {:induction false} WithoutAt<T>(children: seq<T>, p: nat)
    requires Distinct(children) && p < |children|
    ensures WithoutChild(children, children[p]) == RemoveAt(children, p)
    decreases |children|
  {
    var k := |children| - 1;
    if p == k {
      WithoutAbsent(children[..k], children[k]);
      assert RemoveAt(children, p) == children[..k];
    } else {
      WithoutAt(children[..k], p);
      assert children[..k][..p] == children[..p] && children[..k][p + 1..] == children[p + 1..k];
      assert children[p + 1..] == children[p + 1..k] + [children[k]];
      assert RemoveAt(children, p) == RemoveAt(children[..k], p) + [children[k]];
    }
  }

  lemma {:induction false} InsertedAt<T>(children: seq<T>, c: T, p: nat)
    requires Distinct(children) && p < |children|
    ensures InsertedBefore(children, c, Some(children[p])) == InsertAt(children, p, c)
    decreases p
  {
    if p != 0 {
      InsertedAt(children[1..], c, p - 1);
      assert children[0] != children[p];
      assert InsertAt(children, p, c) == [children[0]] + InsertAt(children[1..], p - 1, c);
    }
  }

  lemma {:induction false} InsertedAtEnd<T>(children: seq<T>, c: T)
    ensures InsertedBefore(children, c, None) == children + [c]
    decreases |children|
  {
    if children != [] {
      InsertedAtEnd(children[1..], c);
    }
  }

  lemma {:induction false} SiblingAt<T>(children: seq<T>, p: nat)
    requires Distinct(children) && p < |children|
    ensures SiblingAfter(children, children[p]) == if p + 1 < |children| then Some(children[p + 1]) else None
    decreases p
  {
    if p != 0 {
      assert children[0] != children[p];
      SiblingAt(children[1..], p - 1);
    }
  }

  lemma SlidesRemoved(children: seq<Child>, i: nat)
    requires Distinct(children) && i < |SlidesOf(children)|
    ensures var rest := WithoutChild(children, Slide(SlidesOf(children)[i]));
            Distinct(rest) && SlidesOf(rest) == RemoveAt(SlidesOf(children), i)
  {
    var p := ChildOf(children, i);
    WithoutAt(children, p);
    RemoveAtDistinct(children, p);
    SlidesConcat(children[..p], children[p + 1..]);
  }

  lemma SlidesInserted(children: seq<Child>, p: nat, id: SlideId)
    requires p <= |children|
    ensures SlidesOf(InsertAt(children, p, Slide(id))) == SlidesOf(children[..p]) + [id] + SlidesOf(children[p..])
  {
    SlidesConcat(children[..p] + [Slide(id)], children[p..]);
    SlidesConcat(children[..p], [Slide(id)]);
    assert SlidesOf([Slide(id)]) == [id];
  }

  /** The children after dragging slide `i` to place `j`. */
  function Dragged(children: seq<Child>, i: nat, j: nat): seq<Child>
    requires i < |SlidesOf(children)| && j < |SlidesOf(children)|
  {
    var slides := SlidesOf(children);
    var slide := Slide(slides[i]);
    var ref := if j < i then Some(Slide(slides[j])) else SiblingAfter(children, Slide(slides[j]));
    InsertedBefore(WithoutChild(children, slide), slide, PlacedBefore(children, slide, ref))
  }

  lemma DraggedPlace(children: seq<Child>, i: nat, j: nat, p: nat, q: nat)
    requires Distinct(children) && i < |SlidesOf(children)| && j < |SlidesOf(children)| && i != j
    requires p < |children| && q < |children| && p != q && (i < j <==> p < q)
    requires children[p] == Slide(SlidesOf(children)[i]) && children[q] == Slide(SlidesOf(children)[j])
    ensures Dragged(children, i, j) == InsertAt(RemoveAt(children, p), q, children[p])
  {
    hide SlidesOf;
    var rest := RemoveAt(children, p);
    WithoutAt(children, p);
    RemoveAtDistinct(children, p);
    if j < i {
      InsertedAt(rest, children[p], q);
    } else {
      SiblingAt(children, q);
      if q + 1 < |children| {
        InsertedAt(rest, children[p], q);
      } else {
        InsertedAtEnd(rest, children[p]);
      }
    }
  }

  lemma SlidesBeforePlace(children: seq<Child>, i: nat, j: nat, p: nat, q: nat)
    requires i < |SlidesOf(children)| && j < |SlidesOf(children)| && p < |children| && q < |children|
             && (i < j <==> p < q)
    requires children[p] == Slide(SlidesOf(children)[i]) && children[q] == Slide(SlidesOf(children)[j])
    requires SlidesOf(children[..p]) == SlidesOf(children)[..i]
             && SlidesOf(children[p + 1..]) == SlidesOf(children)[i + 1..]
    requires SlidesOf(children[..q]) == SlidesOf(children)[..j]
    ensures SlidesOf(RemoveAt(children, p)) == RemoveAt(SlidesOf(children), i)
    ensures |SlidesOf(RemoveAt(children, p)[..q])| == j
  {
    hide SlidesOf;
    var rest := RemoveAt(children, p);
    SlidesConcat(children[..p], children[p + 1..]);
    if q < p {
      assert rest[..q] == children[..q];
    } else if p < q {
      var middle := children[p + 1..q];
      assert rest[..q] == rest[..q - 1] + [children[q]];
      assert rest[..q - 1] == children[..p] + middle;
      assert children[..q] == children[..p] + ([children[p]] + middle);
      SlidesConcat(children[..p], [children[p]] + middle);
      SlidesConcat([children[p]], middle);
      SlidesConcat(children[..p], middle);
      SlidesConcat(rest[..q - 1], [children[q]]);
      OneChild(children[p]);
      OneChild(children[q]);
    } else {
      assert rest[..q] == children[..p];
    }
  }

  /** Which children a drag is about: the one node taken goes to the place of the other. */
  lemma DraggedPlaces(children: seq<Child>, i: nat, j: nat) returns (p: nat, q: nat)
    requires Distinct(children) && i < |SlidesOf(children)| && j < |SlidesOf(children)| && i != j
    ensures p < |children| && q < |children| && p != q && (i < j <==> p < q)
    ensures children[p] == Slide(SlidesOf(children)[i]) && children[q] == Slide(SlidesOf(children)[j])
    ensures Dragged(children, i, j) == MoveTo(children, p, q)
    ensures SlidesOf(children[..p]) == SlidesOf(children)[..i] && SlidesOf(children[..q]) == SlidesOf(children)[..j]
    ensures SlidesOf(children[p + 1..]) == SlidesOf(children)[i + 1..]
  {
    hide SlidesOf, Dragged;
    p := ChildOf(children, i);
    q := ChildOf(children, j);
    if i < j {
      ChildOrder(children, i, j, p, q);
    } else {
      ChildOrder(children, j, i, q, p);
    }
    DraggedPlace(children, i, j, p, q);
  }

  /** However text and other nodes are interleaved, one insertBefore moves the slide to place `j`. */
  lemma SlidesDragged(children: seq<Child>, i: nat, j: nat)
    requires Distinct(children) && i < |SlidesOf(children)| && j < |SlidesOf(children)| && i != j
    ensures Distinct(Dragged(children, i, j)) && SlidesOf(Dragged(children, i, j)) == MoveTo(SlidesOf(children), i, j)
  {
    hide SlidesOf, Dragged;
    var slides := SlidesOf(children);
    var p, q := DraggedPlaces(children, i, j);
    var rest := RemoveAt(children, p);
    RemoveAtDistinct(children, p);
    InsertAtDistinct(rest, q, children[p]);
    SlidesBeforePlace(children, i, j, p, q);
    SlidesInserted(rest, q, slides[i]);
    assert rest == rest[..q] + rest[q..];
    SlidesConcat(rest[..q], rest[q..]);
  }

  lemma ChildOrder(children: seq<Child>, i: nat, j: nat, p: nat, q: nat)
    requires Distinct(children) && i < j < |SlidesOf(children)| && p < |children| && q < |children|
    requires children[p] == Slide(SlidesOf(children)[i]) && SlidesOf(children[..p]) == SlidesOf(children)[..i]
    requires children[q] == Slide(SlidesOf(children)[j]) && SlidesOf(children[..q]) == SlidesOf(children)[..j]
    ensures p < q
  {
    if q <= p {
      assert children[..p] == children[..q] + children[q..p];
      SlidesConcat(children[..q], children[q..p]);
    }
  }

  // ----- what every operation keeps ---------------------------------------------------

  ghost predicate Sound(s: Stage) {
    && Distinct(s.children)
    && Distinct(s.slides)
    && 0 <= s.index
    && (s.slides == [] ==> s.index == 0)
    && (s.slides != [] ==>
          && s.index < |s.slides|
          && s.active * Elements(s.slides) == {s.slides[s.index]}
          && (forall k :: 0 <= k < |s.slides| ==> s.slides[k] in s.number && s.number[s.slides[k]] == k)
          && s.hash == Some(s.index + 1)
          && s.lastVisible * Elements(s.slides) == LastLive(s.slides, s.skip))
  }

  /** The mark for print: on the last slide that is not skipped, and on no other. */
  lemma LastLiveMeaning(slides: seq<SlideId>, skip: set<SlideId>, x: SlideId)
    requires Distinct(slides)
    ensures x in LastLive(slides, skip) <==>
            exists k :: 0 <= k < |slides| && slides[k] == x && x !in skip
                        && forall m :: k < m < |slides| ==> slides[m] in skip
  {
    var k := PrevLive(slides, skip, |slides| - 1);
    if x in LastLive(slides, skip) {
      assert slides[k] == x;
    }
  }

  lemma {:induction false} NumberedPositions(number: map<SlideId, nat>, slides: seq<SlideId>)
    requires Distinct(slides)
    ensures forall k :: 0 <= k < |slides| ==>
            slides[k] in Numbered(number, slides) && Numbered(number, slides)[slides[k]] == k
    decreases |slides|
  {
    if slides != [] {
      NumberedPositions(number, slides[..|slides| - 1]);
    }
  }

  /** Everything `Sound` asks for that does not depend on the index. */
  ghost predicate Collected(s: Stage) {
    && Distinct(s.children)
    && Distinct(s.slides)
    && (forall k :: 0 <= k < |s.slides| ==> s.slides[k] in s.number && s.number[s.slides[k]] == k)
    && s.lastVisible * Elements(s.slides) == LastLive(s.slides, s.skip)
  }

  lemma CollectCollects(s: Stage)
    requires Distinct(s.children) && 0 <= s.index
    ensures Collected(Collect(s)) && Synced(Collect(s)) && 0 <= Collect(s).index
    ensures Collect(s).slides == [] || Collect(s).index < |Collect(s).slides|
    ensures Collect(s).slides == [] ==> Collect(s).index == 0
  {
    var slides := SlidesOf(s.children);
    SlidesDistinct(s.children);
    NumberedPositions(s.number, slides);
    MarkRight(s.lastVisible, slides, s.skip);
  }

  lemma MarkRight(marks: set<SlideId>, slides: seq<SlideId>, skip: set<SlideId>)
    ensures (marks - Elements(slides) + LastLive(slides, skip)) * Elements(slides) == LastLive(slides, skip)
  {
  }

  lemma CollectDistinct(s: Stage)
    requires Distinct(s.children)
    ensures Distinct(Collect(s).slides)
  {
    SlidesDistinct(s.children);
  }

  lemma ApplySound(s: Stage, reset: bool)
    requires Collected(s) && 0 <= s.index && (s.slides == [] ==> s.index == 0)
    requires s.slides != [] ==> s.index < |s.slides|
    ensures Sound(Apply(s, reset))
  {
  }

  lemma SoundCollected(s: Stage)
    requires Sound(s)
    ensures s.slides != [] ==> Collected(s)
  {
  }

  lemma RestoreLands(c: Stage)
    requires Collected(c)
    ensures var r := Restore(c);
            && Collected(r) && r.slides == c.slides && r.skip == c.skip
            && (c.slides != [] ==>
                  0 <= r.index < |r.slides| && (AnyLive(c.slides, c.skip) ==> c.slides[r.index] !in c.skip))
            && (c.slides == [] && c.index == 0 ==> r.index == 0)
  {
    if c.slides != [] {
      var at := if c.hash.Some? && 1 <= c.hash.value <= |c.slides| then c.hash.value - 1 else c.index;
      LiveIndexNearest(c.slides, c.skip, at);
      hide LiveIndex, AnyLive;
    }
  }

  lemma SlotChanges(s: Stage)
    requires !s.squelch
    ensures Restore(Collect(s)).slides == [] || 0 <= Restore(Collect(s)).index < |Restore(Collect(s)).slides|
    ensures SlotChange(s) == Apply(Restore(Collect(s)), false)
  {
    RestoreInRange(Collect(s));
    hide Collect, Restore, Apply;
  }

  lemma ApplyKeeps(s: Stage, reset: bool)
    requires s.slides == [] || 0 <= s.index < |s.slides|
    ensures var t := Apply(s, reset);
            t.slides == s.slides && t.skip == s.skip && t.index == s.index && t.children == s.children
  {
  }

  lemma SoundReady(s: Stage)
    requires Sound(s)
    ensures Distinct(s.children) && 0 <= s.index && Sound(s.(squelch := false)) && Collect(s).skip == s.skip
  {
  }

  /** The place restored: the one the hash names, if it is in the deck, else the old one. */
  lemma RestoreLandsOn(s: Stage)
    requires SlidesOf(s.children) != [] && 0 <= s.index
    ensures var r := Restore(Collect(s));
            && r.slides == SlidesOf(s.children) && r.outbox == s.outbox && r.fired == s.fired
            && LandsOn(r.slides, s.skip,
                       if s.hash.Some? && 1 <= s.hash.value <= |r.slides| then s.hash.value - 1 else s.index, r.index)
  {
    var c := Collect(s);
    var at := if c.hash.Some? && 1 <= c.hash.value <= |c.slides| then c.hash.value - 1 else c.index;
    LiveIndexNearest(c.slides, c.skip, at);
    hide LiveIndex, Numbered, SlidesOf, LastLive;
  }

  /** A slotchange that is not squelched makes the whole state right, goes to the slide that the hash names, or stays,
      and tells everyone; a squelched one only ends the squelch. */
  lemma SlotChangeSound(s: Stage)
    requires Sound(s)
    ensures Sound(SlotChange(s)) && !SlotChange(s).squelch
    ensures s.squelch ==> SlotChange(s) == s.(squelch := false)
    ensures !s.squelch && SlotChange(s).slides != [] ==>
              var t, hash := SlotChange(s), s.hash;
              && t.slides == SlidesOf(s.children) && t.skip == s.skip && Broadcast(s, t, false)
              && LandsOn(t.slides, t.skip,
                         if hash.Some? && 1 <= hash.value <= |t.slides| then hash.value - 1 else s.index, t.index)
  {
    SoundReady(s);
    if !s.squelch {
      hide *;
      var c := Collect(s);
      CollectCollects(s);
      CollectKeeps(s);
      RestoreLands(c);
      SlotChanges(s);
      ApplySound(Restore(c), false);
      ApplyKeeps(Restore(c), false);
      RestoreKeeps(c);
      if c.slides != [] {
        RestoreLandsOn(s);
        ApplyTells(Restore(c), false);
        BroadcastFrom(s, Restore(c), SlotChange(s), false);
      }
    }
  }

  lemma RestoreKeeps(s: Stage)
    ensures Restore(s) == s.(index := Restore(s).index)
  {
  }

  /** A jump ends where the wish for its target ends, and tells everyone, as a Reset when it was forced and moved
      nothing; unforced and already there it changes nothing. */
  lemma GoSound(s: Stage, i: int, force: bool)
    requires Sound(s)
    ensures Sound(Go(s, i, force)) && Go(s, i, force).slides == s.slides && Go(s, i, force).skip == s.skip
    ensures s.slides == [] ==> Go(s, i, force) == s
    ensures s.slides != [] ==> LandsOn(s.slides, s.skip, i, Go(s, i, force).index)
    ensures s.slides != [] ==>
              var t := Go(s, i, force);
              if t.index == s.index && !force then t == s else Broadcast(s, t, t.index == s.index)
  {
    if s.slides != [] {
      hide Sound, LandsOn, LiveIndex, Apply, Collected, Broadcast;
      LiveIndexNearest(s.slides, s.skip, i);
      var moved := s.(index := LiveIndex(s.slides, s.skip, i));
      SoundCollected(s);
      CollectedAnyIndex(s, moved);
      InRange(s);
      var reset := force && moved.index == s.index;
      ApplySound(moved, reset);
      ApplyKeeps(moved, reset);
      ApplyTells(moved, reset);
      BroadcastFrom(s, moved, Apply(moved, reset), reset);
    }
  }

  /** A step moves straight to the next slide in its direction that is not skipped. */
  lemma AdvanceUnfolded(s: Stage, forward: bool)
    requires s.slides != [] && 0 <= s.index < |s.slides|
    ensures var i := if forward then NextLive(s.slides, s.skip, s.index + 1)
            else PrevLive(s.slides, s.skip, s.index - 1);
            Advance(s, forward) == if 0 <= i < |s.slides| then Apply(s.(index := i), false) else s
  {
    hide Apply, NextLive, PrevLive;
    var i := if forward then NextLive(s.slides, s.skip, s.index + 1) else PrevLive(s.slides, s.skip, s.index - 1);
    if 0 <= i < |s.slides| {
      LiveIndexNearest(s.slides, s.skip, i);
    }
  }

  /** One step: to the nearest slide in its direction that is not skipped, telling everyone, or nothing at all because
      there is none. */
  ghost predicate Stepped(s: Stage, t: Stage, forward: bool) {
    && t.slides == s.slides && t.skip == s.skip && t.children == s.children
    && (t == s ==> SkippedBetween(s, if forward then s.index else -1, if forward then |s.slides| else s.index))
    && (t != s ==>
          && 0 <= t.index < |s.slides| && s.slides[t.index] !in s.skip && Broadcast(s, t, false)
          && (if forward then t.index > s.index && SkippedBetween(s, s.index, t.index)
              else t.index < s.index && SkippedBetween(s, t.index, s.index)))
  }

  ghost predicate SkippedBetween(s: Stage, i: int, j: int) {
    forall k :: i < k < j && 0 <= k < |s.slides| ==> s.slides[k] in s.skip
  }

  lemma AdvanceSound(s: Stage, forward: bool)
    requires Sound(s)
    ensures (s.slides == [] || 0 <= s.index < |s.slides|)
    ensures Sound(Advance(s, forward)) && Stepped(s, Advance(s, forward), forward)
  {
    if s.slides != [] {
      SoundCollected(s);
      InRange(s);
      hide Sound, Collected, Advance, Apply, Stepped;
      AdvanceUnfolded(s, forward);
      var i := if forward then NextLive(s.slides, s.skip, s.index + 1) else PrevLive(s.slides, s.skip, s.index - 1);
      if 0 <= i < |s.slides| {
        CollectedAnyIndex(s, s.(index := i));
        ApplySound(s.(index := i), false);
        SteppedTo(s, i, forward);
      } else {
        SteppedNowhere(s, forward);
      }
    } else {
      SteppedNowhere(s, forward);
    }
  }

  lemma SteppedNowhere(s: Stage, forward: bool)
    requires SkippedBetween(s, if forward then s.index else -1, if forward then |s.slides| else s.index)
    ensures Stepped(s, s, forward)
  {
  }

  lemma SteppedTo(s: Stage, i: int, forward: bool)
    requires 0 <= s.index < |s.slides| && 0 <= i < |s.slides| && s.slides[i] !in s.skip
    requires if forward then i > s.index && SkippedBetween(s, s.index, i)
             else i < s.index && SkippedBetween(s, i, s.index)
    ensures Stepped(s, Apply(s.(index := i), false), forward)
  {
    hide Apply, Broadcast;
    var moved := s.(index := i);
    ApplyKeeps(moved, false);
    ApplyTells(moved, false);
    BroadcastFrom(s, moved, Apply(moved, false), false);
  }

  lemma InRange(s: Stage)
    requires Sound(s)
    ensures 0 <= s.index && (s.slides == [] ==> s.index == 0) && (s.slides != [] ==> s.index < |s.slides|)
    ensures Distinct(s.children) && Distinct(s.slides)
  {
  }

  lemma CollectedAnyIndex(s: Stage, t: Stage)
    requires Collected(s) && t == s.(index := t.index)
    ensures Collected(t)
  {
  }

  lemma {:induction false} WithoutDistinct<T>(children: seq<T>, c: T)
    requires Distinct(children)
    ensures Distinct(WithoutChild(children, c))
    decreases |children|
  {
    if c in children {
      var p :| 0 <= p < |children| && children[p] == c;
      WithoutAt(children, p);
      RemoveAtDistinct(children, p);
    } else {
      WithoutAbsent(children, c);
    }
  }

  lemma LandedLive(s: Stage)
    requires Collected(s) && s.slides != []
    ensures Collected(Landed(s)) && 0 <= Landed(s).index < |s.slides| && Landed(s).slides == s.slides
            && Landed(s).skip == s.skip
    ensures AnyLive(s.slides, s.skip) <==> s.slides[Landed(s).index] !in s.skip
  {
    LiveIndexNearest(s.slides, s.skip, s.index);
  }

  lemma UnlinkedFacts(s: Stage, i: nat)
    requires Sound(s) && i < |s.slides| && |s.slides| > 1
    ensures Distinct(Unlinked(s, i).children) && 0 <= Unlinked(s, i).index && Unlinked(s, i).skip == s.skip
    ensures Synced(s) ==> SlidesOf(Unlinked(s, i).children) == RemoveAt(s.slides, i)
  {
    WithoutDistinct(s.children, Slide(s.slides[i]));
    if Synced(s) {
      SlidesRemoved(s.children, i);
    }
  }

  /** Where a deletion wishes to be: on the slide presented, or when that is the one deleted, on the one that followed
      it, or on the one before when it was the last. */
  function HeirPlace(s: Stage, i: int): int {
    if i < s.index then s.index - 1
    else if i == s.index && i == |s.slides| - 1 then s.index - 1
    else s.index
  }

  lemma {:induction false} DeleteSound(s: Stage, i: int)
    requires Sound(s)
    ensures Sound(Delete(s, i)) && Delete(s, i).skip == s.skip
    ensures !(0 <= i < |s.slides|) || |s.slides| <= 1 ==> Delete(s, i) == s
    ensures Synced(s) ==> Synced(Delete(s, i))
    ensures Synced(s) && 0 <= i < |s.slides| && |s.slides| > 1 ==> Delete(s, i).slides == RemoveAt(s.slides, i)
    ensures 0 <= i < |s.slides| && |s.slides| > 1 && Delete(s, i).slides != [] ==>
              var t := Delete(s, i);
              LandsOn(t.slides, s.skip, HeirPlace(s, i), t.index) && Broadcast(s, t, false)
  {
    hide Sound, Collected, Apply, Collect, Landed, Unlinked, LandsOn, Broadcast;
    if 0 <= i < |s.slides| && |s.slides| > 1 {
      LandedKeeps(Collect(Unlinked(s, i)));
      var e := Unlinked(s, i);
      UnlinkedFacts(s, i);
      CollectCollects(e);
      CollectKeeps(e);
      var c := Collect(e);
      LandedInRange(c);
      if c.slides != [] {
        LandedLive(c);
        InRange(s);
        UnlinkedLands(s, i);
        ApplyTells(Landed(c), false);
        UnlinkedQuiet(s, i);
        BroadcastFrom(s, Landed(c), Delete(s, i), false);
      } else {
        LandedEmpty(c);
      }
      ApplySound(Landed(c), false);
      ApplyKeeps(Landed(c), false);
    }
  }

  lemma UnlinkedQuiet(s: Stage, i: nat)
    requires i < |s.slides|
    ensures Unlinked(s, i).outbox == s.outbox && Unlinked(s, i).fired == s.fired
  {
  }

  lemma UnlinkedLands(s: Stage, i: nat)
    requires 0 <= s.index < |s.slides| && i < |s.slides| && |s.slides| > 1
    requires Collect(Unlinked(s, i)).slides != []
    ensures var c := Collect(Unlinked(s, i)); LandsOn(c.slides, c.skip, HeirPlace(s, i), Landed(c).index)
  {
    var c := Collect(Unlinked(s, i));
    LiveIndexNearest(c.slides, c.skip, c.index);
    hide LiveIndex, Numbered, SlidesOf, LastLive, WithoutChild;
  }

  lemma LandedEmpty(s: Stage)
    requires Collected(s) && s.slides == [] && s.index == 0
    ensures Collected(Landed(s)) && Landed(s) == s
  {
  }

  lemma CollectKeeps(s: Stage)
    ensures Collect(s).skip == s.skip && Collect(s).children == s.children && Collect(s).slides == SlidesOf(s.children)
    ensures Collect(s).outbox == s.outbox && Collect(s).fired == s.fired && Collect(s).hash == s.hash
    ensures Collect(s).active == s.active && Collect(s).squelch == s.squelch && Collect(s).prevIndex == s.prevIndex
    ensures s.index < |SlidesOf(s.children)| ==> Collect(s).index == s.index
  {
  }

  /** Toggling turns the mark of slide `i` and of no other, tells it, and changes nothing else but the mark for
      print. */
  lemma ToggleSkipSound(s: Stage, i: int)
    requires Sound(s)
    ensures Sound(ToggleSkip(s, i))
    ensures !(0 <= i < |s.slides|) ==> ToggleSkip(s, i) == s
    ensures 0 <= i < |s.slides| ==>
              var t := ToggleSkip(s, i);
              && (forall x: SlideId :: x in t.skip <==> (x in s.skip) != (x == s.slides[i]))
              && Posted(s, t, false) && t == s.(skip := t.skip, lastVisible := t.lastVisible, outbox := t.outbox)
  {
    if 0 <= i < |s.slides| {
      ToggledSound(s, i);
      var slide := s.slides[i];
      var skip := if slide in s.skip then s.skip - {slide} else s.skip + {slide};
      PostTells(MarkLastVisible(s.(skip := skip)), false);
      hide LastLive, SkippedIndices, Elements, Sound, Tells;
    }
  }

  lemma ToggledSound(s: Stage, i: nat)
    requires Sound(s) && i < |s.slides|
    ensures Sound(ToggleSkip(s, i))
  {
    var slide := s.slides[i];
    MarkRight(s.lastVisible, s.slides, if slide in s.skip then s.skip - {slide} else s.skip + {slide});
    hide LastLive, SkippedIndices, Elements;
  }

  lemma RelinkedFacts(s: Stage, i: nat, j: nat)
    requires Sound(s) && Synced(s) && i < |s.slides| && j < |s.slides| && i != j
    ensures var r := Relinked(s, i, j);
            && Distinct(r.children) && 0 <= r.index < |s.slides| && r.skip == s.skip
            && SlidesOf(r.children) == MoveTo(s.slides, i, j) && Distinct(SlidesOf(r.children))
            && r.index == Followed(s.index, i, j)
  {
    SlidesDragged(s.children, i, j);
    assert Relinked(s, i, j).children == Dragged(s.children, i, j);
    SlidesDistinct(Dragged(s.children, i, j));
  }

  lemma RelinkedSteady(s: Stage, i: nat, j: nat)
    requires Sound(s) && i < |s.slides| && j < |s.slides|
    ensures var r := Relinked(s, i, j); Distinct(r.children) && 0 <= r.index && r.skip == s.skip
  {
    var slide := Slide(s.slides[i]);
    WithoutDistinct(s.children, slide);
    WithoutGone(s.children, slide);
    InsertedDistinct(WithoutChild(s.children, slide), slide,
                     PlacedBefore(s.children, slide, if j < i then Some(Slide(s.slides[j]))
                         else SiblingAfter(s.children, Slide(s.slides[j]))));
  }

  lemma {:induction false} WithoutGone<T>(children: seq<T>, c: T)
    ensures c !in WithoutChild(children, c) && forall x <- WithoutChild(children, c) :: x in children
    decreases |children|
  {
    if children != [] {
      WithoutGone(children[..|children| - 1], c);
    }
  }

  lemma {:induction false} InsertedDistinct<T>(children: seq<T>, c: T, ref: Option<T>)
    requires Distinct(children) && c !in children
    ensures Distinct(InsertedBefore(children, c, ref))
    ensures forall x <- InsertedBefore(children, c, ref) :: x in children || x == c
  {
    if children != [] && ref != Some(children[0]) {
      InsertedDistinct(children[1..], c, ref);
      var rest := InsertedBefore(children[1..], c, ref);
      assert children[0] !in rest;
      assert InsertedBefore(children, c, ref) == [children[0]] + rest;
    }
  }

  /** A refused move leaves the state right if and only if the presented slide lies outside the stretch moved over. */
  lemma RefusedMove(s: Stage, i: nat, j: int)
    requires Sound(s) && MoveRefused(s, i, j)
    ensures Sound(Interrupted(s, i, j)) <==> (s.index < i && s.index < j) || (s.index > i && s.index > j)
    ensures Interrupted(s, i, j).squelch
  {
    var t := Interrupted(s, i, j);
    if Sound(t) {
      assert s.slides[s.index] in s.active * Elements(s.slides);
      assert t.slides[t.index] == s.slides[s.index];
    }
  }

  /** Moving a slide keeps the state right, even when the host changed the children unseen, and then sees them;
      with nothing unseen it is exactly the move asked for. */
  lemma MoveSound(s: Stage, i: nat, j: int)
    requires Sound(s) && i < |s.slides|
    ensures Sound(Move(s, i, j)) && Move(s, i, j).skip == s.skip
    ensures Synced(s) || (0 <= j < |s.slides| && i != j) ==> Synced(Move(s, i, j))
    ensures if 0 <= j < |s.slides| && j != i then Move(s, i, j).slides != [] ==> Broadcast(s, Move(s, i, j), false)
            else Move(s, i, j) == s
    ensures Synced(s) && 0 <= j < |s.slides| ==>
              Move(s, i, j).slides == if i == j then s.slides else MoveTo(s.slides, i, j)
  {
    hide Sound, Collect, Apply, Relinked, Broadcast;
    if 0 <= j < |s.slides| && j != i {
      RelinkedSteady(s, i, j);
      if Synced(s) {
        RelinkedFacts(s, i, j);
      }
      var r := Relinked(s, i, j);
      CollectCollects(r);
      CollectKeeps(r);
      ApplySound(Collect(r), false);
      ApplyKeeps(Collect(r), false);
      if Collect(r).slides != [] {
        RelinkedQuiet(s, i, j);
        InRange(s);
        ApplyTells(Collect(r), false);
        BroadcastFrom(s, Collect(r), Move(s, i, j), false);
      }
    }
  }

  lemma RelinkedQuiet(s: Stage, i: nat, j: nat)
    requires i < |s.slides| && j < |s.slides|
    ensures Relinked(s, i, j).outbox == s.outbox && Relinked(s, i, j).fired == s.fired
  {
  }

  // ----- the presented slide under rail edits -------------------------------------------

  /** Dragging any slide anywhere keeps the same slide on screen. */
  lemma MoveKeepsSlide(s: Stage, i: nat, j: nat)
    requires Sound(s) && Synced(s) && i < |s.slides| && j < |s.slides|
    ensures var t := Move(s, i, j); t.index < |t.slides| == |s.slides| && t.slides[t.index] == s.slides[s.index]
  {
    InRange(s);
    hide Sound, Apply, Relinked, SlidesOf;
    if i != j {
      RelinkedFacts(s, i, j);
      ApplyKeeps(Collect(Relinked(s, i, j)), false);
      MoveToFollowed(s.slides, i, j, s.index);
    }
  }

  lemma UnlinkedIndex(s: Stage, i: nat)
    requires i < |s.slides| && 0 <= s.index < |s.slides| && i != s.index
    ensures var u := Unlinked(s, i);
            u.skip == s.skip && 0 <= u.index < |s.slides| - 1 && RemoveAt(s.slides, i)[u.index] == s.slides[s.index]
  {
  }

  /** Deleting another slide keeps a slide that is not skipped on screen. */
  lemma DeleteKeepsSlide(s: Stage, i: nat)
    requires Sound(s) && Synced(s) && i < |s.slides| && i != s.index && s.slides[s.index] !in s.skip
    ensures var t := Delete(s, i); t.index < |t.slides| == |s.slides| - 1 && t.slides[t.index] == s.slides[s.index]
  {
    hide Sound, Apply, SlidesOf, Unlinked, Collect, RemoveAt;
    InRange(s);
    UnlinkedFacts(s, i);
    UnlinkedIndex(s, i);
    var u := Unlinked(s, i);
    CollectKeeps(u);
    LandedInRange(Collect(u));
    ApplyKeeps(Landed(Collect(u)), false);
    LiveIndexNearest(Collect(u).slides, s.skip, u.index);
  }

  /** Deleting the presented slide shows the one that followed it, or the one before when it was the last: wherever that
      is now, the stage lands on it, or next to it when it is skipped. */
  lemma DeleteShowsHeir(s: Stage) returns (p: nat)
    requires Sound(s) && Synced(s) && |s.slides| > 1
    ensures var t := Delete(s, s.index);
            && t.index < |t.slides| && t.slides[t.index] != s.slides[s.index] && t.slides[t.index] in s.slides
            && p < |t.slides| && LandsOn(t.slides, t.skip, p, t.index)
            && t.slides[p] == if s.index + 1 < |s.slides| then s.slides[s.index + 1] else s.slides[s.index - 1]
  {
    hide *;
    InRange(s);
    RemoveAtDistinct(s.slides, s.index);
    DeleteSound(s, s.index);
    InRange(Delete(s, s.index));
    RemovedMember(s.slides, s.index, Delete(s, s.index).index);
    HeirStays(s);
    p := HeirPlace(s, s.index);
  }

  lemma RemovedMember(slides: seq<SlideId>, i: nat, k: nat)
    requires Distinct(slides) && i < |slides| && k < |slides| - 1
    ensures RemoveAt(slides, i)[k] in slides && RemoveAt(slides, i)[k] != slides[i]
  {
  }

  lemma HeirStays(s: Stage)
    requires 0 <= s.index < |s.slides| && |s.slides| > 1
    ensures var p := HeirPlace(s, s.index);
            && 0 <= p < |s.slides| - 1
            && RemoveAt(s.slides, s.index)[p] ==
               if s.index + 1 < |s.slides| then s.slides[s.index + 1] else s.slides[s.index - 1]
  {
  }

  /** Marks are set and taken on the slides of the deck only: an element that left the deck keeps those it had. */
  lemma MarksElsewhere(s: Stage, reset: bool, x: SlideId)
    requires (s.slides == [] || 0 <= s.index < |s.slides|) && x !in s.slides
    ensures x in Apply(s, reset).active <==> x in s.active
    ensures x in MarkLastVisible(s).lastVisible <==> x in s.lastVisible
  {
    LastLiveIn(s.slides, s.skip);
    hide LastLive, SkippedIndices;
  }

  lemma LastLiveIn(slides: seq<SlideId>, skip: set<SlideId>)
    ensures LastLive(slides, skip) <= Elements(slides)
  {
  }

  // ----- the nodes between the slides ------------------------------------------------------

  /** Deleting takes exactly the slide's node out of the children. */
  lemma DeleteTakesOne(s: Stage, i: nat) returns (p: nat)
    requires Sound(s) && Synced(s) && i < |s.slides| && |s.slides| > 1
    ensures p < |s.children| && s.children[p] == Slide(s.slides[i])
    ensures Delete(s, i).children == RemoveAt(s.children, p)
  {
    InRange(s);
    p := ChildOf(s.children, i);
    WithoutAt(s.children, p);
    var u := Unlinked(s, i);
    CollectKeeps(u);
    LandedInRange(Collect(u));
    LandedKeeps(Collect(u));
    hide Sound, SlidesOf, WithoutChild, Collect, Landed, Apply, RemoveAt;
    ApplyKeeps(Landed(Collect(u)), false);
  }

  /** Moving takes the slide's node to the place of the other's, and leaves all others in order. */
  lemma MoveTakesOne(s: Stage, i: nat, j: nat) returns (p: nat, q: nat)
    requires Sound(s) && Synced(s) && i < |s.slides| && j < |s.slides| && i != j
    ensures p < |s.children| && s.children[p] == Slide(s.slides[i])
    ensures q < |s.children| && s.children[q] == Slide(s.slides[j])
    ensures Move(s, i, j).children == MoveTo(s.children, p, q)
  {
    InRange(s);
    p, q := DraggedPlaces(s.children, i, j);
    RelinkedFacts(s, i, j);
    CollectKeeps(Relinked(s, i, j));
    assert Relinked(s, i, j).children == Dragged(s.children, i, j);
    hide Sound, SlidesOf, Dragged, Relinked, Collect, Apply, MoveTo;
    ApplyKeeps(Collect(Relinked(s, i, j)), false);
  }

  // ----- the slot-change squelch --------------------------------------------------------

  /** The host page edits the children of the stage. */
  function HostChange(s: Stage, children: seq<Child>): Stage {
    s.(children := children)
  }

  /** After a slotchange the slide list matches the children exactly when the event was not squelched,
      or there was nothing new to see. */
  lemma SlotChangeSyncs(s: Stage)
    requires Sound(s)
    ensures Synced(SlotChange(s)) <==> !s.squelch || Synced(s)
  {
    if !s.squelch {
      CollectCollects(s);
      CollectKeeps(s);
      RestoreInRange(Collect(s));
      ApplyKeeps(Restore(Collect(s)), false);
    }
  }

  /** A slide the host appends right after a rail delete, before the pending slotchange, is not picked up:
      whatever the deck, the squelched event leaves the list out of step with the new children. */
  lemma SquelchLosesHostChange(s: Stage, i: nat, children: seq<Child>)
    requires Sound(s) && i < |s.slides| && |s.slides| > 1
    ensures var t := SlotChange(HostChange(Delete(s, i), children));
            Synced(t) <==> SlidesOf(children) == Delete(s, i).slides
  {
    hide Delete;
    DeleteSquelches(s, i);
  }

  lemma DeleteSquelches(s: Stage, i: nat)
    requires i < |s.slides| && |s.slides| > 1
    ensures Delete(s, i).squelch
  {
    hide Landed;
    CollectKeeps(Unlinked(s, i));
    LandedInRange(Collect(Unlinked(s, i)));
    LandedKeeps(Collect(Unlinked(s, i)));
  }

  lemma LandedKeeps(s: Stage)
    ensures Landed(s) == s.(index := Landed(s).index)
  {
  }
}

/** The program's component: fields updated in place by handlers and loops. */
module DeckStage {
  import opened Wrappers
  import opened Sequences
  import opened StageSpec

  class DeckStage {
    var children: seq<Child>
    var slides: seq<SlideId>
    var index: int
    var prevIndex: Option<int>
    var skip: set<SlideId>
    var active: set<SlideId>
    var lastVisible: set<SlideId>
    var number: map<SlideId, nat>
    var hash: Option<int>
    var squelch: bool
    var outbox: seq<Message>
    var fired: seq<int>

    function State(): Stage
      reads this
    {
      Stage(children, slides, index, prevIndex, skip, active, lastVisible, number, hash, squelch, outbox, fired)
    }

    constructor (children: seq<Child>, skip: set<SlideId>, hash: Option<int>)
      ensures State() == Stage(children, [], 0, None, skip, {}, {}, map[], hash, false, [], [])
    {
      this.children, this.slides, this.index, this.prevIndex := children, [], 0, None;
      this.skip, this.active, this.lastVisible, this.number := skip, {}, {}, map[];
      this.hash, this.squelch, this.outbox, this.fired := hash, false, [], [];
    }

    method MarkLastVisible()
      modifies this`lastVisible
      ensures State() == StageSpec.MarkLastVisible(old(State()))
    {
      var last: Option<SlideId> := None;
      ghost var marks := lastVisible;
      for i := 0 to |slides|
        invariant lastVisible == marks - Elements(slides[..i])
        invariant last == var k := PrevLive(slides, skip, i - 1); if k < 0 then None else Some(slides[k])
      {
        assert slides[..i + 1] == slides[..i] + [slides[i]];
        assert Elements(slides[..i + 1]) == Elements(slides[..i]) + {slides[i]};
        lastVisible := lastVisible - {slides[i]};
        if slides[i] !in skip {
          last := Some(slides[i]);
        }
      }
      assert slides[..|slides|] == slides;
      if last.Some? {
        lastVisible := lastVisible + {last.value};
      }
    }

    method AssignedSlides() returns (found: seq<SlideId>)
      ensures found == SlidesOf(children)
    {
      found := [];
      for i := 0 to |children|
        invariant found == SlidesOf(children[..i])
      {
        assert children[..i + 1][..i] == children[..i];
        if children[i].Slide? {
          found := found + [children[i].id];
        }
      }
      assert children[..|children|] == children;
    }

    method NumberSlides()
      modifies this`number
      ensures number == Numbered(old(number), slides)
    {
      ghost var before := number;
      for i := 0 to |slides|
        invariant number == Numbered(before, slides[..i])
      {
        assert slides[..i + 1][..i] == slides[..i];
        number := number[slides[i] := i];
      }
      assert slides[..|slides|] == slides;
    }

    method CollectSlides()
      modifies this`slides, this`number, this`index, this`lastVisible
      ensures State() == Collect(old(State()))
    {
      hide SlidesOf, Numbered, StageSpec.MarkLastVisible;
      slides := AssignedSlides();
      NumberSlides();
      if index >= |slides| {
        index := if |slides| > 0 then |slides| - 1 else 0;
      }
      MarkLastVisible();
    }

    /** The target of a jump: clamped, then searched forward, then back. */
    method LiveIndex(i: int) returns (r: int)
      ensures r == StageSpec.LiveIndex(slides, skip, i)
    {
      var clamped := if i < |slides| - 1 then i else |slides| - 1;
      clamped := if clamped > 0 then clamped else 0;
      if clamped < |slides| && slides[clamped] in skip {
        var j := clamped;
        while j < |slides| && slides[j] in skip
          invariant clamped <= j <= |slides|
          invariant NextLive(slides, skip, clamped) == NextLive(slides, skip, j)
        {
          j := j + 1;
        }
        if j >= |slides| {
          j := clamped;
          while j >= 0 && slides[j] in skip
            invariant -1 <= j <= clamped
            invariant PrevLive(slides, skip, clamped) == PrevLive(slides, skip, j)
          {
            j := j - 1;
          }
        }
        if 0 <= j < |slides| {
          clamped := j;
        }
      }
      r := clamped;
    }

    method RestoreIndex()
      modifies this`index
      ensures State() == Restore(old(State()))
    {
      if hash.Some? {
        var n := hash.value - 1;
        if n >= 0 && n < |slides| {
          index := n;
        }
      }
      index := LiveIndex(index);
    }

    method Skipped() returns (out: seq<nat>)
      ensures out == SkippedIndices(slides, skip)
    {
      out := [];
      for i := 0 to |slides|
        invariant out == SkippedIndices(slides[..i], skip)
      {
        assert slides[..i + 1][..i] == slides[..i];
        if slides[i] in skip {
          out := out + [i];
        }
      }
      assert slides[..|slides|] == slides;
    }

    method MarkActive()
      requires Distinct(slides) && 0 <= index < |slides|
      modifies this`active
      ensures active == old(active) - Elements(slides) + {slides[index]}
    {
      ghost var marked := active;
      for i := 0 to |slides|
        invariant active == marked - Elements(slides[..i]) + if index < i then {slides[index]} else {}
      {
        assert slides[..i + 1] == slides[..i] + [slides[i]];
        assert Elements(slides[..i + 1]) == Elements(slides[..i]) + {slides[i]};
        if i == index {
          active := active + {slides[i]};
        } else {
          active := active - {slides[i]};
        }
      }
      assert slides[..|slides|] == slides;
    }

    method ApplyIndex(reset: bool)
      requires Distinct(slides) && (slides == [] || 0 <= index < |slides|)
      modifies this`hash, this`active, this`outbox, this`fired, this`prevIndex
      ensures State() == Apply(old(State()), reset)
    {
      hide SkippedIndices, Distinct;
      if slides == [] {
        return;
      }
      hash := Some(index + 1);
      MarkActive();
      var skipped := Skipped();
      outbox := outbox + [Message(index, reset, |slides|, skipped)];
      fired := fired + [index];
      prevIndex := Some(index);
    }

    method OnSlotChange()
      requires Distinct(children)
      modifies this
      ensures State() == SlotChange(old(State()))
    {
      if squelch {
        squelch := false;
        return;
      }
      CollectSlides();
      SlidesDistinct(children);
      RestoreInRange(State());
      RestoreIndex();
      ApplyIndex(false);
    }

    method Go(i: int, force: bool)
      requires Distinct(slides)
      modifies this
      ensures State() == StageSpec.Go(old(State()), i, force)
    {
      if slides == [] {
        return;
      }
      var clamped := LiveIndex(i);
      LiveIndexNearest(slides, skip, i);
      if clamped == index && !force {
        return;
      }
      var sameSlide := clamped == index;
      index := clamped;
      ApplyIndex(force && sameSlide);
    }

    method Advance(forward: bool)
      requires Distinct(slides) && (slides == [] || 0 <= index < |slides|)
      modifies this
      ensures State() == StageSpec.Advance(old(State()), forward)
    {
      hide StageSpec.Go;
      if slides == [] {
        return;
      }
      var dir := if forward then 1 else -1;
      var i := index + dir;
      while i >= 0 && i < |slides| && slides[i] in skip
        invariant -1 <= i <= |slides|
        invariant forward ==> i >= 0 && NextLive(slides, skip, index + 1) == NextLive(slides, skip, i)
        invariant !forward ==> i < |slides| && PrevLive(slides, skip, index - 1) == PrevLive(slides, skip, i)
        decreases if forward then |slides| - i else i
      {
        i := i + dir;
      }
      if i < 0 || i >= |slides| {
        return;
      }
      Go(i, false);
    }

    method DeleteSlide(i: int)
      requires Distinct(children) && (slides == [] || 0 <= index < |slides|)
      modifies this
      ensures State() == Delete(old(State()), i)
    {
      hide Collect, Apply, StageSpec.LiveIndex, WithoutChild, SlidesOf;
      if i < 0 || i >= |slides| || |slides| <= 1 {
        return;
      }
      var wasCurrent := i == index;
      var slide := slides[i];
      if i < index || (wasCurrent && i == |slides| - 1) {
        index := index - 1;
      }
      squelch := true;
      RemoveChild(Slide(slide));
      ghost var unlinked := State();
      assert unlinked == Unlinked(old(State()), i);
      WithoutDistinct(old(children), Slide(slide));
      SlidesDistinct(children);
      CollectKeeps(unlinked);
      CollectSlides();
      LandedInRange(State());
      index := LiveIndex(index);
      ApplyIndex(false);
    }

    method RemoveChild(c: Child)
      modifies this`children
      ensures children == WithoutChild(old(children), c)
    {
      var kept: seq<Child> := [];
      for i := 0 to |children|
        invariant kept == WithoutChild(children[..i], c)
      {
        assert children[..i + 1][..i] == children[..i];
        if children[i] != c {
          kept := kept + [children[i]];
        }
      }
      assert children[..|children|] == children;
      children := kept;
    }

    method ToggleSkip(i: int)
      modifies this`skip, this`lastVisible, this`outbox
      ensures State() == StageSpec.ToggleSkip(old(State()), i)
    {
      if i < 0 || i >= |slides| {
        return;
      }
      var on := slides[i] !in skip;
      if on {
        skip := skip + {slides[i]};
      } else {
        skip := skip - {slides[i]};
      }
      MarkLastVisible();
      var skipped := Skipped();
      outbox := outbox + [Message(index, false, |slides|, skipped)];
    }

    /** The re-insertion of a drag, with the index following the slide it names. */
    method Relink(i: nat, j: nat)
      requires i < |slides| && j < |slides|
      modifies this`index, this`squelch, this`children
      ensures State() == Relinked(old(State()), i, j)
    {
      var slide := Slide(slides[i]);
      var ref := if j < i then Some(Slide(slides[j])) else SiblingAfter(children, Slide(slides[j]));
      Follow(i, j);
      squelch := true;
      InsertBefore(slide, ref);
    }

    /** Moves slide `i` to place `j`; `threw` says whether the browser refused. */
    method MoveSlide(i: nat, j: int) returns (threw: bool)
      requires Sound(State())
      modifies this
      ensures threw == MoveRefused(old(State()), i, j) && State() == MoveTried(old(State()), i, j)
    {
      InRange(State());
      hide Sound, Collect, Apply, Relinked;
      if j < 0 || j >= |slides| || j == i {
        return false;
      }
      if i >= |slides| || (j < i && Slide(slides[j]) !in children) {
        Follow(i, j);
        squelch := true;
        return true;
      }
      RelinkedSteady(State(), i, j);
      CollectCollects(Relinked(State(), i, j));
      Relink(i, j);
      CollectKeeps(State());
      CollectDistinct(State());
      CollectSlides();
      ApplyIndex(false);
      threw := false;
    }

    /** The drop handler of a thumbnail. */
    method OnDrop(from: nat, at: nat, after: bool) returns (threw: bool)
      requires Sound(State())
      modifies this
      ensures var to := DropTarget(from, at, after);
              && threw == MoveRefused(old(State()), from, to)
              && State() == if to != from then MoveTried(old(State()), from, to) else old(State())
    {
      threw := false;
      var to := if after then at + 1 else at;
      if from < to {
        to := to - 1;
      }
      if to != from {
        threw := MoveSlide(from, to);
      }
    }

    /** The index of the slide it names once the slide at `i` is at `j`. */
    method Follow(i: nat, j: nat)
      modifies this`index
      ensures index == Followed(old(index), i, j)
    {
      var cur := index;
      if cur == i {
        index := j;
      } else if i < cur && j >= cur {
        index := cur - 1;
      } else if i > cur && j <= cur {
        index := cur + 1;
      }
    }

    method InsertBefore(c: Child, ref: Option<Child>)
      modifies this`children
      ensures children == InsertedBefore(WithoutChild(old(children), c), c, PlacedBefore(old(children), c, ref))
    {
      var at := PlacedBefore(children, c, ref);
      RemoveChild(c);
      children := InsertedBefore(children, c, at);
    }
  }
}

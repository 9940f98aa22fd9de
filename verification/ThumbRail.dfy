/**
  The thumbnail rail (`_renderRail` in assets/deck-kit/deck-stage.js): after any
  change of the slide list the rail is reconciled in place, so that a slide that
  stays keeps its thumbnail element.
*/
module ThumbRail {
  import opened Wrappers
  import opened Sequences
  import opened StageSpec

  /** One thumbnail: its element, the slide it shows, and the position its handlers use. */
  class Thumb {
    const slide: SlideId
    var i: int
    var number: nat
    var marked: bool

    constructor (slide: SlideId)
      ensures this.slide == slide
    {
      this.slide := slide;
      i, number, marked := -1, 0, false;
    }
  }

  function SlidesShown(thumbs: seq<Thumb>): (r: seq<SlideId>)
    ensures |r| == |thumbs|
  {
    seq(|thumbs|, k requires 0 <= k < |thumbs| => thumbs[k].slide)
  }

  /** Distinct thumbs for distinct slides. */
  ghost predicate OnePerSlide(thumbs: seq<Thumb>) {
    forall j, k :: 0 <= j < k < |thumbs| ==> thumbs[j].slide != thumbs[k].slide
  }

  lemma OnePerSlideDistinct(thumbs: seq<Thumb>)
    requires OnePerSlide(thumbs)
    ensures Distinct(thumbs)
  {
  }

  // ----- the in-place insert loop ------------------------------------------------------------

  /** How far the rail has been put into the wanted order. */
  ghost predicate Placed(children: seq<Thumb>, next: seq<Thumb>, k: nat) {
    && k <= |next| && k <= |children|
    && children[..k] == next[..k]
    && Distinct(children)
    && forall c <- children :: c in next
  }

  lemma SamePrefix(children: seq<Thumb>, next: seq<Thumb>, k: nat)
    requires k <= |next| && k <= |children| && children[..k] == next[..k]
    ensures forall p :: 0 <= p < k ==> children[p] == next[p]
  {
    forall p | 0 <= p < k
      ensures children[p] == next[p]
    {
      assert children[..k][p] == next[..k][p];
    }
  }

  lemma NotYetPlaced(children: seq<Thumb>, next: seq<Thumb>, k: nat, p: nat)
    requires Placed(children, next, k) && Distinct(next) && k < |next| && p < |children| && children[p] == next[k]
    ensures k <= p
  {
    SamePrefix(children, next, k);
  }

  /** The wanted thumb put back at its place. */
  lemma PutBack(rest: seq<Thumb>, next: seq<Thumb>, k: nat)
    requires k < |next| && k <= |rest| && rest[..k] == next[..k] && Distinct(rest) && next[k] !in rest
    requires forall c <- rest :: c in next
    ensures Placed(InsertAt(rest, k, next[k]), next, k + 1)
  {
    var want := next[k];
    var all := InsertAt(rest, k, want);
    InsertAtDistinct(rest, k, want);
    assert all[..k + 1] == rest[..k] + [want];
    assert next[..k + 1] == next[..k] + [want];
    forall c <- all
      ensures c in next
    {
      assert c in Elements(all);
    }
  }

  lemma InsertedThere(rest: seq<Thumb>, want: Thumb, k: nat, ref: Option<Thumb>)
    requires Distinct(rest) && k <= |rest| && (if k < |rest| then ref == Some(rest[k]) else ref == None)
    ensures InsertedBefore(rest, want, ref) == InsertAt(rest, k, want)
  {
    if k < |rest| {
      InsertedAt(rest, want, k);
    } else {
      InsertedAtEnd(rest, want);
    }
  }

  lemma StaysPut(children: seq<Thumb>, next: seq<Thumb>, k: nat)
    requires Placed(children, next, k) && k < |next| && k < |children| && children[k] == next[k]
    ensures Placed(children, next, k + 1)
  {
    assert children[..k + 1] == children[..k] + [next[k]];
    assert next[..k + 1] == next[..k] + [next[k]];
  }

  /** One step: the wanted thumb moved, or put, in front of whatever stands at its place. */
  lemma {:induction false} PlacedStep(children: seq<Thumb>, next: seq<Thumb>, k: nat)
    requires Placed(children, next, k) && Distinct(next) && k < |next|
    ensures k < |children| && children[k] == next[k] ==> Placed(children, next, k + 1)
    ensures !(k < |children| && children[k] == next[k]) ==>
              var at := if k < |children| then Some(children[k]) else None;
              Placed(InsertedBefore(WithoutChild(children, next[k]), next[k], at), next, k + 1)
  {
    hide *;
    if k < |children| && children[k] == next[k] {
      StaysPut(children, next, k);
    } else {
      TakenOut(children, next, k);
      InsertedThere(WithoutChild(children, next[k]), next[k], k, if k < |children| then Some(children[k]) else None);
      PutBack(WithoutChild(children, next[k]), next, k);
    }
  }

  /** Taking the wanted thumb out leaves the placed ones, and the one at its place, where they are. */
  lemma TakenOut(children: seq<Thumb>, next: seq<Thumb>, k: nat)
    requires Placed(children, next, k) && Distinct(next) && k < |next|
    requires !(k < |children| && children[k] == next[k])
    ensures var rest := WithoutChild(children, next[k]);
            && k <= |rest| && rest[..k] == next[..k] && Distinct(rest) && next[k] !in rest
            && (forall c <- rest :: c in next)
            && (k < |children| ==> k < |rest| && rest[k] == children[k])
            && (k >= |children| ==> k == |rest|)
  {
    var want := next[k];
    if want in children {
      var p :| 0 <= p < |children| && children[p] == want;
      NotYetPlaced(children, next, k, p);
      WithoutAt(children, p);
      RemoveAtDistinct(children, p);
      var rest := RemoveAt(children, p);
      assert rest[..k] == children[..k];
      forall c <- rest
        ensures c in next
      {
        assert c in Elements(rest);
      }
    } else {
      WithoutAbsent(children, want);
    }
  }

  lemma NoExtra(children: seq<Thumb>, next: seq<Thumb>, i: nat)
    requires Placed(children, next, |next|) && i < |children|
    ensures i < |next|
  {
    assert children[i] in children;
    var p :| 0 <= p < |next| && next[p] == children[i];
    SamePrefix(children, next, |next|);
  }

  /** Once all are placed there is nothing behind them. */
  lemma AllPlaced(children: seq<Thumb>, next: seq<Thumb>)
    requires Placed(children, next, |next|)
    ensures children == next
  {
    if children != [] {
      NoExtra(children, next, |children| - 1);
    }
  }

  // ----- the rail ----------------------------------------------------------------------------

  class ThumbRail {
    var thumbs: seq<Thumb>
    var children: seq<Thumb>
    var enabled: bool

    /** Once enabled, the rail shows exactly its thumbs, one per slide, in their order. */
    ghost predicate Valid()
      reads this
    {
      OnePerSlide(thumbs) && children == thumbs && (!enabled ==> thumbs == [])
    }

    constructor ()
      ensures Valid() && thumbs == [] && !enabled
    {
      thumbs, children, enabled := [], [], false;
    }

    method Enable()
      requires Valid()
      modifies this`enabled
      ensures Valid() && enabled
    {
      enabled := true;
    }

    /** The thumbs by the slide they show. */
    method BySlide() returns (bySlide: map<SlideId, Thumb>)
      requires OnePerSlide(thumbs)
      ensures forall k :: 0 <= k < |thumbs| ==> thumbs[k].slide in bySlide && bySlide[thumbs[k].slide] == thumbs[k]
      ensures forall s <- bySlide :: bySlide[s] in thumbs && bySlide[s].slide == s
    {
      bySlide := map[];
      for k := 0 to |thumbs|
        invariant forall j :: 0 <= j < k ==> thumbs[j].slide in bySlide && bySlide[thumbs[j].slide] == thumbs[j]
        invariant forall s <- bySlide :: bySlide[s] in thumbs && bySlide[s].slide == s
      {
        bySlide := bySlide[thumbs[k].slide := thumbs[k]];
      }
    }

    /** A thumb per slide: the one it has, or a new one; and the thumbs left over. */
    method Reuse(slides: seq<SlideId>) returns (next: seq<Thumb>, orphans: map<SlideId, Thumb>)
      requires OnePerSlide(thumbs) && Distinct(slides)
      ensures SlidesShown(next) == slides
      ensures forall t <- next :: t in thumbs || fresh(t)
      ensures forall t <- thumbs :: if t.slide in slides then t in next else t.slide in orphans && orphans[t.slide] == t
      ensures forall s <- orphans :: orphans[s] in thumbs && orphans[s].slide == s && s !in slides
    {
      orphans := BySlide();
      ghost var all := orphans;
      next := [];
      for k := 0 to |slides|
        invariant SlidesShown(next) == slides[..k]
        invariant forall t <- next :: t in thumbs || fresh(t)
        invariant forall t <- thumbs ::
                    if t.slide in slides[..k] then t in next else t.slide in orphans && orphans[t.slide] == t
        invariant forall s <- orphans :: orphans[s] in thumbs && orphans[s].slide == s && s !in slides[..k]
      {
        var slide := slides[k];
        var t: Thumb;
        assert slides[..k + 1] == slides[..k] + [slide];
        if slide in orphans {
          t := orphans[slide];
          orphans := orphans - {slide};
        } else {
          t := new Thumb(slide);
        }
        next := next + [t];
      }
      assert slides[..|slides|] == slides;
    }

    /** Orphans leave the rail. */
    method DropOrphans(orphans: map<SlideId, Thumb>)
      requires Distinct(children) && forall s <- orphans :: orphans[s].slide == s
      modifies this`children
      ensures Distinct(children)
      ensures forall c :: c in children <==> c in old(children) && !(c.slide in orphans && orphans[c.slide] == c)
    {
      var left := orphans.Keys;
      while left != {}
        invariant left <= orphans.Keys && Distinct(children)
        invariant forall c :: c in children <==>
                  c in old(children) && !(c.slide in orphans.Keys - left && orphans[c.slide] == c)
      {
        var s :| s in left;
        var orphan := orphans[s];
        WithoutMembers(children, orphan);
        children := WithoutChild(children, orphan);
        left := left - {s};
      }
    }

    /** Put the thumbs into slide order, moving only what stands at the wrong place, and tell each its position. */
    method Reorder(next: seq<Thumb>, skip: set<SlideId>)
      requires Distinct(next) && Distinct(children) && forall c <- children :: c in next
      modifies this`children, next
      ensures children == next
      ensures forall k :: 0 <= k < |next| ==>
                next[k].i == k && next[k].number == k + 1 && (next[k].marked <==> next[k].slide in skip)
    {
      hide InsertedBefore, WithoutChild;
      for k := 0 to |next|
        invariant Placed(children, next, k)
        invariant forall j :: 0 <= j < k ==>
                    next[j].i == j && next[j].number == j + 1 && (next[j].marked <==> next[j].slide in skip)
      {
        var want := next[k];
        PlacedStep(children, next, k);
        if k >= |children| || children[k] != want {
          var at := if k < |children| then Some(children[k]) else None;
          children := InsertedBefore(WithoutChild(children, want), want, at);
        }
        want.i := k;
        want.number := k + 1;
        want.marked := want.slide in skip;
      }
      AllPlaced(children, next);
    }

    /** The rail after any change of the slides: its children are the thumbs in slide order, a slide that stays keeps
        its thumb, the other thumbs are gone or new, and every thumb knows its position and its skip mark. */
    method RenderRail(slides: seq<SlideId>, skip: set<SlideId>)
      requires Valid() && Distinct(slides)
      modifies this`thumbs, this`children, thumbs
      ensures Valid() && enabled == old(enabled)
      ensures enabled ==>
                && SlidesShown(thumbs) == slides && children == thumbs
                && (forall t <- old(thumbs) :: t.slide in slides <==> t in thumbs)
                && (forall t <- thumbs :: t in old(thumbs) || fresh(t))
                && forall k :: 0 <= k < |thumbs| ==>
                     thumbs[k].i == k && thumbs[k].number == k + 1 && (thumbs[k].marked <==> slides[k] in skip)
    {
      if !enabled {
        thumbs := [];
        return;
      }
      OnePerSlideDistinct(thumbs);
      var next, orphans := Reuse(slides);
      DropOrphans(orphans);
      ShownOnce(next, slides);
      OnePerSlideDistinct(next);
      Reorder(next, skip);
      thumbs := next;
    }
  }

  lemma ShownOnce(thumbs: seq<Thumb>, slides: seq<SlideId>)
    requires SlidesShown(thumbs) == slides && Distinct(slides)
    ensures OnePerSlide(thumbs) && forall t <- thumbs :: t.slide in slides
    ensures forall k :: 0 <= k < |thumbs| ==> thumbs[k].slide == slides[k]
  {
    forall j, k | 0 <= j < k < |thumbs|
      ensures thumbs[j].slide != thumbs[k].slide
    {
      assert slides[j] == thumbs[j].slide && slides[k] == thumbs[k].slide;
    }
    forall t | t in thumbs
      ensures t.slide in slides
    {
      var k :| 0 <= k < |thumbs| && thumbs[k] == t;
      assert slides[k] == t.slide;
    }
  }

  lemma WithoutMembers(children: seq<Thumb>, c: Thumb)
    requires Distinct(children)
    ensures Distinct(WithoutChild(children, c))
    ensures forall x :: x in WithoutChild(children, c) <==> x in children && x != c
  {
    if c in children {
      var p :| 0 <= p < |children| && children[p] == c;
      WithoutAt(children, p);
      RemoveAtDistinct(children, p);
      forall x
        ensures x in RemoveAt(children, p) <==> x in children && x != c
      {
        assert x in Elements(RemoveAt(children, p)) <==> x in Elements(children) - {c};
      }
    } else {
      WithoutAbsent(children, c);
    }
  }
}

/**
  Named states over time (`StateTrack` in assets/promo-kit/film/mascot.js): calls
  of `set` and `override`, in any order, are compiled into a list of windows that
  covers the whole time line.
*/
module Timeline {

  /** A point of the time line, including its two ends. */
  datatype Edge = Past | At(t: real) | Future {
    predicate Le(e: Edge) {
      Past? || e.Future? || (At? && e.At? && t <= e.t)
    }

    predicate Lt(e: Edge) {
      !e.Le(this)
    }
  }

  /** `x` put in behind everything that is not later than it. */
  function Inserted<T>(s: seq<T>, x: T, key: T -> Edge): (r: seq<T>)
    ensures |r| == |s| + 1
    ensures multiset(r) == multiset(s) + multiset{x}
    ensures (forall y <- r :: y in s || y == x) && (forall y <- s :: y in r) && x in r
    decreases |s|
  {
    if s == [] then [x]
    else
      var k := |s| - 1;
      assert s == s[..k] + [s[k]];
      if key(s[k]).Le(key(x)) then s + [x] else Inserted(s[..k], x, key) + [s[k]]
  }

  /** The stable sort of the language. */
  function Sorted<T>(s: seq<T>, key: T -> Edge): (r: seq<T>)
    ensures multiset(r) == multiset(s) && |r| == |s|
    ensures (forall y <- r :: y in s) && (forall y <- s :: y in r)
    decreases |s|
  {
    if s == [] then []
    else
      var k := |s| - 1;
      assert s == s[..k] + [s[k]];
      Inserted(Sorted(s[..k], key), s[k], key)
  }

  lemma SortedLast<T>(s: seq<T>, x: T, key: T -> Edge)
    ensures Sorted(s + [x], key) == Inserted(Sorted(s, key), x, key)
  {
    assert (s + [x])[..|s|] == s;
  }

  ghost predicate Ordered<T>(s: seq<T>, key: T -> Edge) {
    forall i, j :: 0 <= i < j < |s| ==> key(s[i]).Le(key(s[j]))
  }

  lemma InsertedStep<T>(s: seq<T>, x: T, key: T -> Edge)
    ensures Inserted(s, x, key) ==
            if s == [] then [x]
            else if key(s[|s| - 1]).Le(key(x)) then s + [x]
            else Inserted(s[..|s| - 1], x, key) + [s[|s| - 1]]
  {
  }

  lemma {:induction false} InsertedOrdered<T>(s: seq<T>, x: T, key: T -> Edge)
    requires Ordered(s, key)
    ensures Ordered(Inserted(s, x, key), key)
    decreases |s|
  {
    if s != [] && !key(s[|s| - 1]).Le(key(x)) {
      var k := |s| - 1;
      InsertedOrdered(s[..k], x, key);
      var front := Inserted(s[..k], x, key);
      forall i | 0 <= i < |front|
        ensures key(front[i]).Le(key(s[k]))
      {
        assert front[i] in s[..k] || front[i] == x;
      }
    }
  }

  lemma {:induction false} SortedOrdered<T>(s: seq<T>, key: T -> Edge)
    ensures Ordered(Sorted(s, key), key)
    decreases |s|
  {
    if s != [] {
      SortedOrdered(s[..|s| - 1], key);
      InsertedOrdered(Sorted(s[..|s| - 1], key), s[|s| - 1], key);
    }
  }

  /** What is in order stays as it is. */
  lemma {:induction false} SortedSame<T>(s: seq<T>, key: T -> Edge)
    requires Ordered(s, key)
    ensures Sorted(s, key) == s
    decreases |s|
  {
    if s != [] {
      var k := |s| - 1;
      assert s == s[..k] + [s[k]];
      SortedSame(s[..k], key);
    }
  }

  lemma JoinLast<T>(l: seq<T>, r: seq<T>)
    requires r != []
    ensures var all, front, last := l + r, r[..|r| - 1], r[|r| - 1];
            all[..|all| - 1] == l + front && all[|all| - 1] == last && r == front + [last] && last in r
  {
  }

  lemma JoinFirst<T>(l: seq<T>)
    ensures l + [] == l && (l != [] ==> l[|l| - 1] in l)
  {
  }

  lemma LaterIsNot(a: Edge, b: Edge)
    ensures b.Lt(a) ==> !a.Le(b)
  {
  }

  /** `w` goes between what is not later and what is later. */
  lemma {:induction false} InsertedBetween<T>(l: seq<T>, r: seq<T>, w: T, key: T -> Edge)
    requires (forall s <- l :: key(s).Le(key(w))) && (forall s <- r :: key(w).Lt(key(s)))
    ensures Inserted(l + r, w, key) == l + [w] + r
    decreases |r|
  {
    hide *;
    InsertedStep(l + r, w, key);
    if r == [] {
      JoinFirst(l);
      JoinFirst(l + [w]);
    } else {
      var front, last := r[..|r| - 1], r[|r| - 1];
      JoinLast(l, r);
      LaterIsNot(key(last), key(w));
      InsertedBetween(l, front, w, key);
      JoinLast(l + [w], r);
      assert (l + [w] + front) + [last] == l + [w] + r;
    }
  }

  /** Sorting one behind those that are in order. */
  lemma SortedBetween<T>(l: seq<T>, r: seq<T>, x: T, key: T -> Edge)
    requires Ordered(l + r, key) && (forall s <- l :: key(s).Le(key(x))) && (forall s <- r :: key(x).Lt(key(s)))
    ensures Sorted(l + r + [x], key) == l + [x] + r
  {
    hide Sorted, Inserted;
    SortedLast(l + r, x, key);
    SortedSame(l + r, key);
    InsertedBetween(l, r, x, key);
  }

  ghost predicate DistinctKeys<T>(s: seq<T>, key: T -> Edge) {
    forall i, j :: 0 <= i < j < |s| ==> key(s[i]) != key(s[j])
  }

  lemma LastLargest<T>(s: seq<T>, key: T -> Edge)
    requires Ordered(s, key) && s != []
    ensures forall y <- s :: key(y).Le(key(s[|s| - 1]))
  {
  }

  lemma SameMembers<T>(a: seq<T>, b: seq<T>)
    requires multiset(a) == multiset(b)
    ensures |a| == |b| && (forall x <- a :: x in b) && (forall x <- b :: x in a)
  {
    assert |a| == |multiset(a)| && |b| == |multiset(b)|;
    assert forall x <- a :: x in multiset(a);
    assert forall x <- b :: x in multiset(b);
  }
}

module StateTrackSpec {
  import opened Wrappers
  import opened Timeline

  datatype Setting<V> = Setting(t: real, v: V)

  datatype Override<V> = Override(a: real, b: real, v: V)

  datatype Seg<V> = Seg(a: Edge, b: Edge, v: V)

  predicate Covers<V>(s: Seg<V>, t: real) {
    s.a.Le(At(t)) && At(t).Lt(s.b)
  }

  function Window<V>(o: Override<V>): Seg<V> {
    Seg(At(o.a), At(o.b), o.v)
  }

  // ----- what a track means ------------------------------------------------------------------

  /** The last setting at or before `t`; of several at one time, the one called last. */
  function Latest<V>(ev: seq<Setting<V>>, t: real): (r: Option<Setting<V>>)
    decreases |ev|
  {
    if ev == [] then None
    else
      var e, r := ev[|ev| - 1], Latest(ev[..|ev| - 1], t);
      if e.t <= t && (r.None? || r.value.t <= e.t) then Some(e) else r
  }

  /** Of the overrides covering `t`, the one that starts last; of several starting together, the one called last. */
  function Covering<V>(ov: seq<Override<V>>, t: real): (r: Option<Override<V>>)
    decreases |ov|
  {
    if ov == [] then None
    else
      var o, r := ov[|ov| - 1], Covering(ov[..|ov| - 1], t);
      if o.a <= t < o.b && (r.None? || r.value.a <= o.a) then Some(o) else r
  }

  /** The state at time `t`. */
  function ValueAt<V>(v0: V, ev: seq<Setting<V>>, ov: seq<Override<V>>, t: real): V {
    var o, e := Covering(ov, t), Latest(ev, t);
    if o.Some? then o.value.v else if e.Some? then e.value.v else v0
  }

  lemma LatestStep<V>(ev: seq<Setting<V>>, e: Setting<V>, t: real)
    ensures Latest(ev + [e], t) ==
            var r := Latest(ev, t); if e.t <= t && (r.None? || r.value.t <= e.t) then Some(e) else r
  {
    assert (ev + [e])[..|ev|] == ev;
  }

  /** The definition in words, for `set`. */
  lemma {:induction false} LatestMeaning<V>(ev: seq<Setting<V>>, t: real) returns (k: nat)
    ensures Latest(ev, t).None? <==> forall e <- ev :: e.t > t
    ensures Latest(ev, t).Some? ==>
              && k < |ev| && Latest(ev, t) == Some(ev[k]) && ev[k].t <= t
              && (forall j :: 0 <= j < k && ev[j].t <= t ==> ev[j].t <= ev[k].t)
              && (forall j :: k < j < |ev| && ev[j].t <= t ==> ev[j].t < ev[k].t)
    decreases |ev|
  {
    k := 0;
    if ev == [] {
      NothingCovers<V>(t);
    } else {
      hide Latest;
      var n := |ev| - 1;
      var front := ev[..n];
      assert ev == front + [ev[n]];
      k := LatestMeaning(front, t);
      LatestStep(front, ev[n], t);
      assert forall j :: 0 <= j < n ==> front[j] == ev[j];
      if ev[n].t <= t && (Latest(front, t).None? || Latest(front, t).value.t <= ev[n].t) {
        k := n;
      }
    }
  }

  lemma CoveringStep<V>(ov: seq<Override<V>>, o: Override<V>, t: real)
    ensures Covering(ov + [o], t) ==
            var r := Covering(ov, t); if o.a <= t < o.b && (r.None? || r.value.a <= o.a) then Some(o) else r
  {
    assert (ov + [o])[..|ov|] == ov;
  }

  /** The definition in words, for `override`. */
  lemma {:induction false} CoveringMeaning<V>(ov: seq<Override<V>>, t: real) returns (k: nat)
    ensures Covering(ov, t).None? <==> forall o <- ov :: !(o.a <= t < o.b)
    ensures Covering(ov, t).Some? ==>
              && k < |ov| && Covering(ov, t) == Some(ov[k]) && ov[k].a <= t < ov[k].b
              && (forall j :: 0 <= j < k && ov[j].a <= t < ov[j].b ==> ov[j].a <= ov[k].a)
              && (forall j :: k < j < |ov| && ov[j].a <= t < ov[j].b ==> ov[j].a < ov[k].a)
    decreases |ov|
  {
    k := 0;
    if ov == [] {
      NothingCovers<V>(t);
    } else {
      hide Covering;
      var n := |ov| - 1;
      var front := ov[..n];
      assert ov == front + [ov[n]];
      k := CoveringMeaning(front, t);
      CoveringStep(front, ov[n], t);
      assert forall j :: 0 <= j < n ==> front[j] == ov[j];
      if ov[n].a <= t < ov[n].b && (Covering(front, t).None? || Covering(front, t).value.a <= ov[n].a) {
        k := n;
      }
    }
  }

  lemma NothingCovers<V>(t: real)
    ensures Covering<V>([], t) == None && Latest<V>([], t) == None
  {
  }

  // ----- compiling ---------------------------------------------------------------------------

  function SetKey<V>(e: Setting<V>): Edge {
    At(e.t)
  }

  function OverrideKey<V>(o: Override<V>): Edge {
    At(o.a)
  }

  function SegKey<V>(s: Seg<V>): Edge {
    s.a
  }

  function StartOf<V>(es: seq<Setting<V>>, i: nat): Edge
    requires i <= |es| + 1
  {
    if i == 0 then Past else if i <= |es| then At(es[i - 1].t) else Future
  }

  function BaseSeg<V>(v0: V, es: seq<Setting<V>>, i: nat): Seg<V>
    requires i <= |es|
  {
    Seg(StartOf(es, i), StartOf(es, i + 1), if i == 0 then v0 else es[i - 1].v)
  }

  function Base<V>(v0: V, es: seq<Setting<V>>): (r: seq<Seg<V>>)
    ensures |r| == |es| + 1
  {
    seq(|es| + 1, i requires 0 <= i <= |es| => BaseSeg(v0, es, i))
  }

  /** What an override leaves of one window. */
  function Remains<V>(s: Seg<V>, o: Override<V>): seq<Seg<V>> {
    if s.b.Le(At(o.a)) || At(o.b).Le(s.a) then [s]
    else
      (if s.a.Lt(At(o.a)) then [Seg(s.a, At(o.a), s.v)] else [])
      + (if At(o.b).Lt(s.b) then [Seg(At(o.b), s.b, s.v)] else [])
  }

  function Holed<V>(segs: seq<Seg<V>>, o: Override<V>): seq<Seg<V>>
  {
    if segs == [] then [] else Remains(segs[0], o) + Holed(segs[1..], o)
  }

  function Punched<V>(segs: seq<Seg<V>>, o: Override<V>): seq<Seg<V>> {
    Sorted(Holed(segs, o) + [Window(o)], SegKey)
  }

  function PunchAll<V>(segs: seq<Seg<V>>, os: seq<Override<V>>): seq<Seg<V>>
    decreases |os|
  {
    if os == [] then segs else Punched(PunchAll(segs, os[..|os| - 1]), os[|os| - 1])
  }

  function Appended<V(==)>(m: seq<Seg<V>>, s: Seg<V>): seq<Seg<V>> {
    if m != [] && m[|m| - 1].v == s.v && m[|m| - 1].b == s.a then m[|m| - 1 := m[|m| - 1].(b := s.b)] else m + [s]
  }

  function Merged<V(==)>(segs: seq<Seg<V>>): seq<Seg<V>>
    decreases |segs|
  {
    if segs == [] then [] else Appended(Merged(segs[..|segs| - 1]), segs[|segs| - 1])
  }

  function Compiled<V(==)>(v0: V, ev: seq<Setting<V>>, ov: seq<Override<V>>): seq<Seg<V>> {
    Merged(PunchAll(Base(v0, Sorted(ev, SetKey)), Sorted(ov, OverrideKey)))
  }

  /** The window covering `t` that a scan from the front finds. */
  function Find<V>(segs: seq<Seg<V>>, t: real): Option<V> {
    if segs == [] then None else if Covers(segs[0], t) then Some(segs[0].v) else Find(segs[1..], t)
  }

  // ----- tiling ------------------------------------------------------------------------------

  /** The windows follow one another without gap or overlap from `x` to `y`, switching at real moments. */
  ghost predicate Chain<V>(segs: seq<Seg<V>>, x: Edge, y: Edge) {
    && (forall i :: 0 < i < |segs| ==> segs[i].a.At?)
    && (segs == [] ==> x == y)
    && (segs != [] ==> segs[0].a == x && segs[|segs| - 1].b == y)
    && (forall i :: 0 <= i < |segs| ==> segs[i].a.Le(segs[i].b))
    && (forall i, j :: 0 <= i && j == i + 1 < |segs| ==> segs[i].b == segs[j].a)
  }

  lemma ChainTail<V>(segs: seq<Seg<V>>, x: Edge, y: Edge)
    requires Chain(segs, x, y) && segs != []
    ensures Chain(segs[1..], segs[0].b, y) && x.Le(segs[0].b) && (|segs| > 1 ==> segs[0].b.At?)
  {
    var rest := segs[1..];
    assert forall i, j :: 0 <= i && j == i + 1 < |rest| ==> rest[i].b == rest[j].a;
    if rest != [] {
      assert segs[0].b == segs[1].a;
    }
  }

  lemma ChainCons<V>(s: Seg<V>, segs: seq<Seg<V>>, y: Edge)
    requires s.a.Le(s.b) && Chain(segs, s.b, y) && (segs != [] ==> s.b.At?)
    ensures Chain([s] + segs, s.a, y)
  {
    var all := [s] + segs;
    forall i, j | 0 <= i && j == i + 1 < |all|
      ensures all[i].b == all[j].a
    {
      if i > 0 {
        assert segs[i - 1].b == segs[j - 1].a;
      }
    }
  }

  lemma {:induction false} ChainLe<V>(segs: seq<Seg<V>>, x: Edge, y: Edge)
    requires Chain(segs, x, y)
    ensures x.Le(y) && forall s <- segs :: x.Le(s.a) && s.a.Le(s.b) && s.b.Le(y)
    decreases |segs|
  {
    if segs != [] {
      ChainTail(segs, x, y);
      ChainLe(segs[1..], segs[0].b, y);
      assert segs == [segs[0]] + segs[1..];
    }
  }

  lemma {:induction false} ChainOrdered<V>(segs: seq<Seg<V>>, x: Edge, y: Edge)
    requires Chain(segs, x, y)
    ensures Ordered(segs, SegKey)
    decreases |segs|
  {
    if segs != [] {
      ChainTail(segs, x, y);
      ChainOrdered(segs[1..], segs[0].b, y);
      ChainLe(segs[1..], segs[0].b, y);
      forall i, j | 0 <= i < j < |segs|
        ensures SegKey(segs[i]).Le(SegKey(segs[j]))
      {
        assert segs[j] == segs[1..][j - 1];
        if i > 0 {
          assert segs[i] == segs[1..][i - 1];
        }
      }
    }
  }

  /** Nothing outside the chain is covered by it. */
  lemma {:induction false} FindOutside<V>(segs: seq<Seg<V>>, x: Edge, y: Edge, t: real)
    requires Chain(segs, x, y) && (At(t).Lt(x) || y.Le(At(t)))
    ensures Find(segs, t) == None
    decreases |segs|
  {
    if segs != [] {
      ChainTail(segs, x, y);
      ChainLe(segs[1..], segs[0].b, y);
      FindOutside(segs[1..], segs[0].b, y, t);
    }
  }

  /** Each moment of a chain lies in exactly one of its windows, the one a scan finds. */
  lemma {:induction false} FindUnique<V>(segs: seq<Seg<V>>, x: Edge, y: Edge, t: real)
    requires Chain(segs, x, y)
    ensures x.Le(At(t)) && At(t).Lt(y) ==> exists i :: 0 <= i < |segs| && Covers(segs[i], t)
    ensures forall i :: 0 <= i < |segs| && Covers(segs[i], t) ==> Find(segs, t) == Some(segs[i].v)
    ensures forall i, j :: 0 <= i < |segs| && 0 <= j < |segs| && Covers(segs[i], t) && Covers(segs[j], t) ==> i == j
    decreases |segs|
  {
    if segs != [] {
      ChainTail(segs, x, y);
      var rest := segs[1..];
      FindUnique(rest, segs[0].b, y, t);
      ChainLe(rest, segs[0].b, y);
      forall i | 0 < i < |segs|
        ensures segs[i] == rest[i - 1] && segs[0].b.Le(segs[i].a)
      {
        assert rest[i - 1] in rest;
      }
      if !Covers(segs[0], t) && x.Le(At(t)) && At(t).Lt(y) {
        var i :| 0 <= i < |rest| && Covers(rest[i], t);
        assert Covers(segs[i + 1], t);
      }
    }
  }

  // ----- the base list -----------------------------------------------------------------------

  lemma BaseChain<V>(v0: V, es: seq<Setting<V>>)
    requires Ordered(es, SetKey)
    ensures Chain(Base(v0, es), Past, Future)
  {
    var segs := Base(v0, es);
    forall i | 0 <= i < |segs|
      ensures segs[i].a.Le(segs[i].b)
    {
      if 0 < i < |es| {
        assert SetKey(es[i - 1]).Le(SetKey(es[i]));
      }
    }
  }

  function LastSet<V>(es: seq<Setting<V>>, t: real): Option<Setting<V>>
    decreases |es|
  {
    if es == [] then None
    else if es[|es| - 1].t <= t then Some(es[|es| - 1]) else LastSet(es[..|es| - 1], t)
  }

  lemma {:induction false} LastSetPlace<V>(es: seq<Setting<V>>, t: real) returns (k: nat)
    requires Ordered(es, SetKey)
    ensures k <= |es| && (k == 0 <==> LastSet(es, t).None?)
            && (k > 0 ==> LastSet(es, t) == Some(es[k - 1]) && es[k - 1].t <= t)
    ensures k < |es| ==> t < es[k].t
    decreases |es|
  {
    var n := |es|;
    if es == [] || es[n - 1].t <= t {
      k := n;
    } else {
      k := LastSetPlace(es[..n - 1], t);
    }
  }

  lemma BaseFind<V>(v0: V, es: seq<Setting<V>>, t: real)
    requires Ordered(es, SetKey)
    ensures Find(Base(v0, es), t) == Some(var r := LastSet(es, t); if r.Some? then r.value.v else v0)
  {
    var k := LastSetPlace(es, t);
    BaseChain(v0, es);
    FindUnique(Base(v0, es), Past, Future, t);
    assert Covers(Base(v0, es)[k], t);
  }

  lemma {:induction false} LastSetInserted<V>(es: seq<Setting<V>>, e: Setting<V>, t: real)
    requires Ordered(es, SetKey)
    ensures var r := LastSet(es, t);
            LastSet(Inserted(es, e, SetKey), t) == if e.t <= t && (r.None? || r.value.t <= e.t) then Some(e) else r
    decreases |es|
  {
    if es != [] {
      var n := |es| - 1;
      var all := Inserted(es, e, SetKey);
      assert all[..|all| - 1] == if es[n].t <= e.t then es else Inserted(es[..n], e, SetKey);
      LastSetInserted(es[..n], e, t);
      LastSetFrom(es, t);
    } else {
      assert LastSet([e], t) == if e.t <= t then Some(e) else None;
    }
  }

  lemma LastSetFrom<V>(es: seq<Setting<V>>, t: real)
    requires Ordered(es, SetKey)
    ensures LastSet(es, t).Some? ==> LastSet(es, t).value.t <= t && LastSet(es, t).value in es
    ensures forall e <- es :: LastSet(es, t).Some? && e.t <= t ==> e.t <= LastSet(es, t).value.t
  {
    var k := LastSetPlace(es, t);
    forall e | e in es && e.t <= t
      ensures k > 0 && e.t <= es[k - 1].t
    {
      var i :| 0 <= i < |es| && es[i] == e;
      assert i > k ==> SetKey(es[k]).Le(SetKey(es[i]));
      assert i < k - 1 ==> SetKey(es[i]).Le(SetKey(es[k - 1]));
    }
  }

  /** Sorting the calls finds the setting that the definition asks for. */
  lemma {:induction false} LatestSorted<V>(ev: seq<Setting<V>>, t: real)
    ensures LastSet(Sorted(ev, SetKey), t) == Latest(ev, t)
    decreases |ev|
  {
    if ev != [] {
      LatestSorted(ev[..|ev| - 1], t);
      SortedOrdered(ev[..|ev| - 1], SetKey);
      LastSetInserted(Sorted(ev[..|ev| - 1], SetKey), ev[|ev| - 1], t);
    }
  }

  // ----- overrides -----------------------------------------------------------------------------

  function LastCover<V>(os: seq<Override<V>>, t: real): Option<Override<V>>
    decreases |os|
  {
    if os == [] then None
    else if os[|os| - 1].a <= t < os[|os| - 1].b then Some(os[|os| - 1]) else LastCover(os[..|os| - 1], t)
  }

  lemma {:induction false} LastCoverFrom<V>(os: seq<Override<V>>, t: real)
    requires Ordered(os, OverrideKey)
    ensures forall o <- os :: o.a <= t < o.b ==> LastCover(os, t).Some? && o.a <= LastCover(os, t).value.a
    ensures LastCover(os, t).Some? ==> LastCover(os, t).value in os
    decreases |os|
  {
    if os != [] {
      var n := |os| - 1;
      assert os == os[..n] + [os[n]];
      LastCoverFrom(os[..n], t);
      forall o | o in os[..n]
        ensures o.a <= os[n].a
      {
        var i :| 0 <= i < n && os[i] == o;
        assert OverrideKey(os[i]).Le(OverrideKey(os[n]));
      }
    }
  }

  lemma LastCoverSnoc<V>(os: seq<Override<V>>, o: Override<V>, t: real)
    ensures LastCover(os + [o], t) == if o.a <= t < o.b then Some(o) else LastCover(os, t)
  {
    assert (os + [o])[..|os|] == os;
  }

  lemma LastCoverOlder<V>(os: seq<Override<V>>, a: real, t: real)
    requires Ordered(os, OverrideKey) && os != [] && os[|os| - 1].a <= a
    ensures LastCover(os, t).Some? ==> LastCover(os, t).value.a <= a
  {
    LastCoverFrom(os, t);
    if LastCover(os, t).Some? {
      var i :| 0 <= i < |os| && os[i] == LastCover(os, t).value;
      assert i < |os| - 1 ==> OverrideKey(os[i]).Le(OverrideKey(os[|os| - 1]));
    }
  }

  lemma {:induction false} LastCoverInserted<V>(os: seq<Override<V>>, o: Override<V>, t: real)
    requires Ordered(os, OverrideKey)
    ensures var r := LastCover(os, t);
            LastCover(Inserted(os, o, OverrideKey), t) ==
            if o.a <= t < o.b && (r.None? || r.value.a <= o.a) then Some(o) else r
    decreases |os|
  {
    hide LastCover, Inserted;
    InsertedStep(os, o, OverrideKey);
    if os == [] {
      NoCover<V>(t);
      assert [o] == [] + [o];
      LastCoverSnoc([], o, t);
    } else {
      var n := |os| - 1;
      assert os == os[..n] + [os[n]];
      LastCoverSnoc(os[..n], os[n], t);
      if os[n].a <= o.a {
        LastCoverOlder(os, o.a, t);
        LastCoverSnoc(os, o, t);
      } else {
        LastCoverInserted(os[..n], o, t);
        LastCoverSnoc(Inserted(os[..n], o, OverrideKey), os[n], t);
      }
    }
  }

  lemma NoCover<V>(t: real)
    ensures LastCover<V>([], t) == None
  {
  }

  lemma {:induction false} CoveringSorted<V>(ov: seq<Override<V>>, t: real)
    ensures LastCover(Sorted(ov, OverrideKey), t) == Covering(ov, t)
    decreases |ov|
  {
    if ov != [] {
      var front := ov[..|ov| - 1];
      CoveringSorted(front, t);
      SortedOrdered(front, OverrideKey);
      LastCoverInserted(Sorted(front, OverrideKey), ov[|ov| - 1], t);
    }
  }

  // ----- punching a window in ---------------------------------------------------------------------

  lemma NothingHoled<V>(segs: seq<Seg<V>>, o: Override<V>)
    ensures segs == [] ==> Holed(segs, o) == []
  {
  }

  /** Windows behind the override stay. */
  lemma {:induction false} HoledBehind<V>(segs: seq<Seg<V>>, x: Edge, y: Edge, o: Override<V>)
    requires Chain(segs, x, y) && At(o.b).Le(x)
    ensures Holed(segs, o) == segs
    decreases |segs|
  {
    if segs != [] {
      ChainTail(segs, x, y);
      HoledBehind(segs[1..], segs[0].b, y, o);
    }
  }

  lemma FindStep<V>(segs: seq<Seg<V>>, t: real)
    requires segs != []
    ensures Find(segs, t) == if Covers(segs[0], t) then Some(segs[0].v) else Find(segs[1..], t)
    ensures Find<V>([], t) == None
  {
  }

  lemma HoledStep<V>(segs: seq<Seg<V>>, o: Override<V>)
    requires segs != []
    ensures Holed(segs, o) == Remains(segs[0], o) + Holed(segs[1..], o)
  {
  }

  lemma ChainStart<V>(segs: seq<Seg<V>>, x: Edge, y: Edge)
    requires Chain(segs, x, y) && segs != []
    ensures segs[0].a == x && segs[0].a.Le(segs[0].b)
  {
  }

  lemma RemainsOf<V>(s: Seg<V>, o: Override<V>)
    requires s.a.Le(s.b) && o.a < o.b && At(o.a).Lt(s.b) && s.a.Lt(At(o.b))
    ensures Remains(s, o) == Left(s, o) + if s.b.Le(At(o.b)) then [] else [Seg(At(o.b), s.b, s.v)]
  {
  }

  lemma PrependedFind<V>(s: Seg<V>, rest: seq<Seg<V>>, t: real)
    ensures Find([s] + rest, t) == if Covers(s, t) then Some(s.v) else Find(rest, t)
  {
    assert ([s] + rest)[1..] == rest;
  }

  /** From inside the override on, what is left starts where the override ends. */
  lemma {:induction false} HoledInside<V>(segs: seq<Seg<V>>, x: Edge, y: Edge, o: Override<V>)
    requires Chain(segs, x, y) && At(o.a).Lt(x) && o.a < o.b && x.Le(At(o.b)) && At(o.b).Le(y)
    ensures Chain(Holed(segs, o), At(o.b), y)
    ensures forall t: real :: o.b <= t ==> Find(Holed(segs, o), t) == Find(segs, t)
    decreases |segs|
  {
    hide Chain, Holed, Find, Remains;
    if At(o.b).Le(x) {
      HoledBehind(segs, x, y, o);
    } else {
      InsideNonempty(segs, x, y, o);
      ChainTail(segs, x, y);
      ChainStart(segs, x, y);
      var s, rest := segs[0], segs[1..];
      HoledStep(segs, o);
      RemainsOf(s, o);
      assert segs == [s] + rest;
      if s.b.Le(At(o.b)) {
        HoledInside(rest, s.b, y, o);
        assert Holed(segs, o) == Holed(rest, o);
        forall t: real | o.b <= t
          ensures Find(Holed(segs, o), t) == Find(segs, t)
        {
          PrependedFind(s, rest, t);
        }
      } else {
        var right := Seg(At(o.b), s.b, s.v);
        HoledBehind(rest, s.b, y, o);
        ChainCons(right, rest, y);
        assert Holed(segs, o) == [right] + rest;
        forall t: real | o.b <= t
          ensures Find(Holed(segs, o), t) == Find(segs, t)
        {
          PrependedFind(s, rest, t);
          PrependedFind(right, rest, t);
        }
      }
    }
  }

  lemma InsideNonempty<V>(segs: seq<Seg<V>>, x: Edge, y: Edge, o: Override<V>)
    requires Chain(segs, x, y) && x.Lt(At(o.b)) && At(o.b).Le(y)
    ensures segs != []
  {
  }

  /** The part of the window before the override, if any. */
  function Left<V>(s: Seg<V>, o: Override<V>): seq<Seg<V>> {
    if s.a.Lt(At(o.a)) then [Seg(s.a, At(o.a), s.v)] else []
  }

  lemma BeforeFind<V>(segs: seq<Seg<V>>, x: Edge, y: Edge, o: Override<V>, t: real)
    requires Chain(segs, x, y) && segs != [] && x.Le(At(o.a)) && At(o.a).Lt(segs[0].b) && t < o.a
    ensures Find(Left(segs[0], o), t) == Find(segs, t)
  {
    ChainTail(segs, x, y);
    ChainStart(segs, x, y);
    hide Find, Chain;
    FindStep(segs, t);
    FindOutside(segs[1..], segs[0].b, y, t);
    SingleFind(Seg(segs[0].a, At(o.a), segs[0].v), t);
  }

  /** What remains behind the override. */
  function Right<V>(segs: seq<Seg<V>>, o: Override<V>): seq<Seg<V>>
    requires segs != []
  {
    if segs[0].b.Le(At(o.b)) then Holed(segs[1..], o) else [Seg(At(o.b), segs[0].b, segs[0].v)] + segs[1..]
  }

  lemma RightChain<V>(segs: seq<Seg<V>>, x: Edge, y: Edge, o: Override<V>)
    requires Chain(segs, x, y) && x.Le(At(o.a)) && o.a < o.b && At(o.b).Le(y)
    requires segs != [] && At(o.a).Lt(segs[0].b)
    ensures Holed(segs, o) == Left(segs[0], o) + Right(segs, o) && Chain(Right(segs, o), At(o.b), y)
  {
    hide Find, Holed, Chain, Remains, Left;
    ChainTail(segs, x, y);
    ChainStart(segs, x, y);
    var s, rest := segs[0], segs[1..];
    HoledStep(segs, o);
    RemainsOf(s, o);
    if s.b.Le(At(o.b)) {
      HoledInside(rest, s.b, y, o);
    } else {
      HoledBehind(rest, s.b, y, o);
      ChainCons(Seg(At(o.b), s.b, s.v), rest, y);
    }
  }

  lemma BehindFind<V>(segs: seq<Seg<V>>, x: Edge, y: Edge, o: Override<V>, t: real)
    requires Chain(segs, x, y) && x.Le(At(o.a)) && o.a < o.b && At(o.b).Le(y)
    requires segs != [] && At(o.a).Lt(segs[0].b) && o.b <= t
    ensures Find(Right(segs, o), t) == Find(segs, t)
  {
    ChainTail(segs, x, y);
    ChainStart(segs, x, y);
    hide Find, Holed, Chain;
    FindStep(segs, t);
    if segs[0].b.Le(At(o.b)) {
      HoledInside(segs[1..], segs[0].b, y, o);
    } else {
      assert Right(segs, o)[1..] == segs[1..];
      FindStep(Right(segs, o), t);
    }
  }

  /** The window in which the override starts. */
  lemma HoledAcross<V>(segs: seq<Seg<V>>, x: Edge, y: Edge, o: Override<V>)
    returns (l: seq<Seg<V>>, r: seq<Seg<V>>)
    requires Chain(segs, x, y) && x.Le(At(o.a)) && o.a < o.b && At(o.b).Le(y)
    requires segs != [] && At(o.a).Lt(segs[0].b)
    ensures Holed(segs, o) == l + r && Chain(l, x, At(o.a)) && Chain(r, At(o.b), y)
    ensures forall t: real :: t < o.a ==> Find(l, t) == Find(segs, t)
    ensures forall t: real :: o.b <= t ==> Find(r, t) == Find(segs, t)
  {
    hide Find, Holed, Chain, Left, Right;
    ChainStart(segs, x, y);
    LeftChain(segs[0], o);
    RightChain(segs, x, y, o);
    l, r := Left(segs[0], o), Right(segs, o);
    forall t: real
      ensures t < o.a ==> Find(l, t) == Find(segs, t)
      ensures o.b <= t ==> Find(r, t) == Find(segs, t)
    {
      if t < o.a {
        BeforeFind(segs, x, y, o, t);
      } else if o.b <= t {
        BehindFind(segs, x, y, o, t);
      }
    }
  }

  lemma LeftChain<V>(s: Seg<V>, o: Override<V>)
    requires s.a.Le(At(o.a))
    ensures Chain(Left(s, o), s.a, At(o.a))
  {
  }

  /** An override inside the chain leaves a chain up to its start and a chain from its end. */
  lemma {:induction false} HoledSplits<V>(segs: seq<Seg<V>>, x: Edge, y: Edge, o: Override<V>)
    returns (l: seq<Seg<V>>, r: seq<Seg<V>>)
    requires Chain(segs, x, y) && x.Le(At(o.a)) && o.a < o.b && At(o.b).Le(y)
    ensures Holed(segs, o) == l + r && Chain(l, x, At(o.a)) && Chain(r, At(o.b), y)
    ensures forall t: real :: t < o.a ==> Find(l, t) == Find(segs, t)
    ensures forall t: real :: o.b <= t ==> Find(r, t) == Find(segs, t)
    decreases |segs|
  {
    ChainTail(segs, x, y);
    var s, rest := segs[0], segs[1..];
    if s.b.Le(At(o.a)) {
      hide Holed, Find, Chain;
      var front;
      front, r := HoledSplits(rest, s.b, y, o);
      l := [s] + front;
      ChainStart(segs, x, y);
      ChainCons(s, front, At(o.a));
      HoledStep(segs, o);
      assert l[1..] == front && segs == [s] + rest;
      forall t: real
        ensures t < o.a ==> Find(l, t) == Find(segs, t)
        ensures o.b <= t ==> Find(r, t) == Find(segs, t)
      {
        EarlierFind(s, rest, front, r, o, t);
      }
    } else {
      l, r := HoledAcross(segs, x, y, o);
    }
  }

  /** A window before the override goes with the left part. */
  lemma EarlierFind<V>(s: Seg<V>, rest: seq<Seg<V>>, front: seq<Seg<V>>, r: seq<Seg<V>>, o: Override<V>, t: real)
    requires s.b.Le(At(o.a)) && o.a < o.b
    requires t < o.a ==> Find(front, t) == Find(rest, t)
    requires o.b <= t ==> Find(r, t) == Find(rest, t)
    ensures t < o.a ==> Find([s] + front, t) == Find([s] + rest, t)
    ensures o.b <= t ==> Find(r, t) == Find([s] + rest, t)
  {
    FindStep([s] + front, t);
    FindStep([s] + rest, t);
    assert ([s] + front)[1..] == front && ([s] + rest)[1..] == rest;
    hide Find;
  }

  lemma SingleChain<V>(w: Seg<V>)
    requires w.a.Le(w.b)
    ensures Chain([w], w.a, w.b)
  {
  }

  lemma SingleFind<V>(w: Seg<V>, t: real)
    ensures Find([w], t) == if Covers(w, t) then Some(w.v) else None
  {
  }

  lemma ChainJoin<V>(l: seq<Seg<V>>, r: seq<Seg<V>>, x: Edge, y: Edge, z: Edge)
    requires Chain(l, x, y) && Chain(r, y, z) && y.At?
    ensures Chain(l + r, x, z)
  {
    var all := l + r;
    forall i, j | 0 <= i && j == i + 1 < |all|
      ensures all[i].b == all[j].a
    {
      if i >= |l| {
        assert r[i - |l|].b == r[j - |l|].a;
      }
    }
  }

  lemma {:induction false} FindJoin<V>(l: seq<Seg<V>>, r: seq<Seg<V>>, t: real)
    ensures Find(l + r, t) == if Find(l, t).Some? then Find(l, t) else Find(r, t)
    decreases |l|
  {
    if l == [] {
      assert l + r == r;
    } else {
      assert (l + r)[1..] == l[1..] + r;
      FindJoin(l[1..], r, t);
    }
  }

  /** Punching an override in keeps the tiling, shows the override inside its window, and changes nothing outside. */
  lemma PunchedFind<V>(segs: seq<Seg<V>>, o: Override<V>, t: real)
    requires Chain(segs, Past, Future) && o.a < o.b
    ensures Chain(Punched(segs, o), Past, Future)
    ensures Find(Punched(segs, o), t) == if o.a <= t < o.b then Some(o.v) else Find(segs, t)
  {
    hide Punched, Sorted, Inserted, Holed, Find, Chain, Ordered;
    var l, r := HoledSplits(segs, Past, Future, o);
    var w := Window(o);
    ChainLe(l, Past, At(o.a));
    ChainLe(r, At(o.b), Future);
    PunchedIs(segs, o, l, r);
    SingleChain(w);
    ChainJoin(l, [w], Past, At(o.a), At(o.b));
    ChainJoin(l + [w], r, Past, At(o.b), Future);
    FindJoin(l + [w], r, t);
    FindJoin(l, [w], t);
    SingleFind(w, t);
    if o.a <= t {
      FindOutside(l, Past, At(o.a), t);
    }
    if t < o.b {
      FindOutside(r, At(o.b), Future, t);
    }
  }

  lemma PunchedIs<V>(segs: seq<Seg<V>>, o: Override<V>, l: seq<Seg<V>>, r: seq<Seg<V>>)
    requires Holed(segs, o) == l + r && o.a < o.b
    requires Chain(l, Past, At(o.a)) && Chain(r, At(o.b), Future)
    ensures Punched(segs, o) == l + [Window(o)] + r
  {
    hide Holed, Inserted, Chain;
    var w := Window(o);
    ChainLe(l, Past, At(o.a));
    ChainLe(r, At(o.b), Future);
    ChainOrdered(l, Past, At(o.a));
    ChainOrdered(r, At(o.b), Future);
    forall i, j | 0 <= i < j < |l + r|
      ensures SegKey((l + r)[i]).Le(SegKey((l + r)[j]))
    {
      if j < |l| {
        assert SegKey(l[i]).Le(SegKey(l[j]));
      } else if i < |l| {
        assert l[i] in l && r[j - |l|] in r;
      } else {
        assert SegKey(r[i - |l|]).Le(SegKey(r[j - |l|]));
      }
    }
    SortedSame(l + r, SegKey);
    assert (l + r + [w])[..|l + r|] == l + r;
    InsertedBetween(l, r, w, SegKey);
  }

  lemma PunchAllStep<V>(segs: seq<Seg<V>>, os: seq<Override<V>>, o: Override<V>)
    ensures PunchAll(segs, os + [o]) == Punched(PunchAll(segs, os), o)
  {
    assert (os + [o])[..|os|] == os;
  }

  lemma {:induction false} PunchAllFind<V>(segs: seq<Seg<V>>, os: seq<Override<V>>, t: real)
    requires Chain(segs, Past, Future) && forall o <- os :: o.a < o.b
    ensures Chain(PunchAll(segs, os), Past, Future)
    ensures Find(PunchAll(segs, os), t) ==
            (var r := LastCover(os, t); if r.Some? then Some(r.value.v) else Find(segs, t))
    decreases |os|
  {
    if os != [] {
      hide Punched, Chain, Find;
      PunchAllFind(segs, os[..|os| - 1], t);
      PunchedFind(PunchAll(segs, os[..|os| - 1]), os[|os| - 1], t);
    }
  }

  // ----- merging --------------------------------------------------------------------------------

  /** Neighbours differ. */
  ghost predicate Alternating<V>(m: seq<Seg<V>>) {
    forall i, j :: 0 <= i && j == i + 1 < |m| ==> m[i].v != m[j].v
  }

  lemma ExtendedChain<V>(m: seq<Seg<V>>, s: Seg<V>, x: Edge)
    requires Chain(m, x, s.a) && s.a.Le(s.b) && Alternating(m) && m != [] && m[|m| - 1].v == s.v
    ensures m[|m| - 1].b == s.a && m[|m| - 1].a.Le(s.a)
    ensures var longer := m[|m| - 1 := m[|m| - 1].(b := s.b)]; Chain(longer, x, s.b) && Alternating(longer)
  {
    ChainLe(m, x, s.a);
  }

  lemma ExtendedFind<V>(m: seq<Seg<V>>, s: Seg<V>, t: real)
    requires m != [] && m[|m| - 1].v == s.v && m[|m| - 1].b == s.a && m[|m| - 1].a.Le(s.a) && s.a.Le(s.b)
    ensures Find(m[|m| - 1 := m[|m| - 1].(b := s.b)], t) == Find(m + [s], t)
  {
    hide Find;
    var front, last := m[..|m| - 1], m[|m| - 1];
    var longer := last.(b := s.b);
    assert m == front + [last] && m[|m| - 1 := longer] == front + [longer];
    FindJoin(front, [longer], t);
    FindJoin(m, [s], t);
    FindJoin(front, [last], t);
    SingleFind(longer, t);
    SingleFind(last, t);
    SingleFind(s, t);
  }

  lemma AppendedKeeps<V>(m: seq<Seg<V>>, s: Seg<V>, x: Edge, t: real)
    requires Chain(m, x, s.a) && s.a.Le(s.b) && Alternating(m) && (m != [] ==> s.a.At?)
    ensures Chain(Appended(m, s), x, s.b) && Alternating(Appended(m, s))
    ensures Find(Appended(m, s), t) == Find(m + [s], t)
  {
    hide Find;
    if m == [] {
      assert m + [s] == [s];
    } else if m[|m| - 1].v == s.v {
      ExtendedChain(m, s, x);
      ExtendedFind(m, s, t);
    } else {
      ChainJoin(m, [s], x, s.a, s.b);
    }
  }

  lemma ChainFront<V>(segs: seq<Seg<V>>, x: Edge, y: Edge)
    requires Chain(segs, x, y) && segs != []
    ensures Chain(segs[..|segs| - 1], x, segs[|segs| - 1].a) && segs[|segs| - 1].a.Le(y) && segs[|segs| - 1].b == y
    ensures |segs| > 1 ==> segs[|segs| - 1].a.At?
  {
    var front := segs[..|segs| - 1];
    assert forall i, j :: 0 <= i && j == i + 1 < |front| ==> front[i].b == segs[j].a;
  }

  lemma MergedStep<V>(segs: seq<Seg<V>>, s: Seg<V>)
    ensures Merged(segs + [s]) == Appended(Merged(segs), s)
  {
    assert (segs + [s])[..|segs|] == segs;
  }

  /** Merging equal neighbours keeps the tiling and every lookup. */
  lemma {:induction false} MergedFind<V>(segs: seq<Seg<V>>, x: Edge, y: Edge, t: real)
    requires Chain(segs, x, y)
    ensures Chain(Merged(segs), x, y) && Alternating(Merged(segs))
    ensures Find(Merged(segs), t) == Find(segs, t) && (segs == [] ==> Merged(segs) == [])
    decreases |segs|
  {
    if segs != [] {
      hide Chain, Find, Alternating, Merged, Appended;
      var n := |segs| - 1;
      var front, s := segs[..n], segs[n];
      assert segs == front + [s];
      MergedStep(front, s);
      ChainFront(segs, x, y);
      MergedFind(front, x, s.a, t);
      AppendedKeeps(Merged(front), s, x, t);
      FindJoin(Merged(front), [s], t);
      FindJoin(front, [s], t);
    }
  }

  // ----- the whole track -----------------------------------------------------------------------

  ghost predicate Proper<V>(ov: seq<Override<V>>) {
    forall o <- ov :: o.a < o.b
  }

  /** After any calls, in any order, the compiled windows cover the time line once, neighbours differ, and the
      window at `t` shows the state the calls mean. */
  lemma CompiledMeaning<V>(v0: V, ev: seq<Setting<V>>, ov: seq<Override<V>>, t: real)
    requires Proper(ov)
    ensures Chain(Compiled(v0, ev, ov), Past, Future) && Alternating(Compiled(v0, ev, ov))
    ensures Find(Compiled(v0, ev, ov), t) == Some(ValueAt(v0, ev, ov, t))
  {
    hide Chain, Find, Base, PunchAll, Merged, Sorted, Alternating;
    var es, os := Sorted(ev, SetKey), Sorted(ov, OverrideKey);
    SortedOrdered(ev, SetKey);
    BaseChain(v0, es);
    BaseFind(v0, es, t);
    LatestSorted(ev, t);
    CoveringSorted(ov, t);
    PunchAllFind(Base(v0, es), os, t);
    MergedFind(PunchAll(Base(v0, es), os), Past, Future, t);
  }

  // ----- looking up ------------------------------------------------------------------------------

  lemma SomeWindow<V>(v0: V, ev: seq<Setting<V>>, ov: seq<Override<V>>)
    ensures Compiled(v0, ev, ov) != []
  {
    hide Holed, Sorted;
  }

  datatype Span = Finite(d: real) | Endless

  /** What a reader is told about one moment. */
  datatype Sample<V> = Sample(v: V, since: Span, until: Span, prev: V, next: V)

  function Since(a: Edge, t: real): Span {
    if a.At? then Finite(t - a.t) else Endless
  }

  function Until(b: Edge, t: real): Span {
    if b.At? then Finite(b.t - t) else Endless
  }

  function SampleOf<V>(list: seq<Seg<V>>, i: nat, t: real): Sample<V>
    requires i < |list|
  {
    Sample(list[i].v, Since(list[i].a, t), Until(list[i].b, t),
           if i > 0 then list[i - 1].v else list[i].v, if i + 1 < |list| then list[i + 1].v else list[i].v)
  }

  /** A scan from window `i` on, with the program's answer for a moment no window covers. */
  function Scan<V>(list: seq<Seg<V>>, i: nat, t: real): Sample<V>
    requires i <= |list| && list != []
    decreases |list| - i
  {
    var l := list[|list| - 1];
    if i == |list| then Sample(l.v, Since(l.a, t), Endless, if |list| > 1 then list[|list| - 2].v else l.v, l.v)
    else if Covers(list[i], t) then SampleOf(list, i, t)
    else Scan(list, i + 1, t)
  }

  lemma {:induction false} ScanFinds<V>(list: seq<Seg<V>>, i: nat, k: nat, t: real)
    requires i <= k < |list| && Covers(list[k], t) && forall j :: i <= j < k ==> !Covers(list[j], t)
    ensures Scan(list, i, t) == SampleOf(list, k, t)
    decreases k - i
  {
    if i < k {
      ScanFinds(list, i + 1, k, t);
    }
  }

  /** Every moment `u` from `since` before `t` up to `until` after it shows the same state. */
  ghost predicate SameWindow(sample: Span, until: Span, t: real, u: real) {
    && (sample.Finite? ==> t - sample.d <= u)
    && (until.Finite? ==> u < t + until.d)
  }

  /** The answer of `at(t)`: the state meant at `t`, which also holds at every moment the answer reaches back and
      forward to; and the states in the two neighbouring windows are other ones. */
  lemma {:induction false} SampleMeaning<V>(v0: V, ev: seq<Setting<V>>, ov: seq<Override<V>>, t: real, u: real)
    requires Proper(ov)
    ensures Compiled(v0, ev, ov) != []
    ensures var r := Scan(Compiled(v0, ev, ov), 0, t);
            && r.v == ValueAt(v0, ev, ov, t)
            && (SameWindow(r.since, r.until, t, u) ==> ValueAt(v0, ev, ov, u) == r.v)
            && (r.since.Finite? <==> r.prev != r.v) && (r.until.Finite? <==> r.next != r.v)
  {
    var list := Compiled(v0, ev, ov);
    CompiledMeaning(v0, ev, ov, t);
    CompiledMeaning(v0, ev, ov, u);
    FindUnique(list, Past, Future, t);
    FindUnique(list, Past, Future, u);
    hide Find, Compiled, ValueAt;
    var k :| 0 <= k < |list| && Covers(list[k], t);
    ScanFinds(list, 0, k, t);
    EndsOnly(list, k);
    if SameWindow(Since(list[k].a, t), Until(list[k].b, t), t, u) {
      assert Covers(list[k], u);
    }
  }

  lemma EndsOnly<V>(list: seq<Seg<V>>, k: nat)
    requires Chain(list, Past, Future) && Alternating(list) && k < |list|
    ensures list[k].a.At? <==> k > 0
    ensures list[k].b.At? <==> k + 1 < |list|
    ensures k > 0 ==> list[k - 1].v != list[k].v
    ensures k + 1 < |list| ==> list[k].v != list[k + 1].v
  {
    assert k + 1 < |list| ==> list[k].b == list[k + 1].a;
  }

  // ----- no-op switches ----------------------------------------------------------------------------

  /** The last setting before `x`. */
  function LatestBefore<V>(ev: seq<Setting<V>>, x: real): (r: Option<Setting<V>>)
    decreases |ev|
  {
    if ev == [] then None
    else
      var e, r := ev[|ev| - 1], LatestBefore(ev[..|ev| - 1], x);
      if e.t < x && (r.None? || r.value.t <= e.t) then Some(e) else r
  }

  /** The latest-starting override that lasts up to `x`. */
  function CoveringBefore<V>(ov: seq<Override<V>>, x: real): (r: Option<Override<V>>)
    decreases |ov|
  {
    if ov == [] then None
    else
      var o, r := ov[|ov| - 1], CoveringBefore(ov[..|ov| - 1], x);
      if o.a < x <= o.b && (r.None? || r.value.a <= o.a) then Some(o) else r
  }

  /** The state right before `x`. */
  function ValueBefore<V>(v0: V, ev: seq<Setting<V>>, ov: seq<Override<V>>, x: real): V {
    var o, e := CoveringBefore(ov, x), LatestBefore(ev, x);
    if o.Some? then o.value.v else if e.Some? then e.value.v else v0
  }

  function Later(x: real, y: real): real {
    if x < y then y else x
  }

  lemma {:induction false} LatestLimit<V>(ev: seq<Setting<V>>, x: real) returns (w: real)
    ensures w < x && forall u :: w <= u < x ==> Latest(ev, u) == LatestBefore(ev, x)
    decreases |ev|
  {
    w := x - 1.0;
    if ev != [] {
      var e := ev[|ev| - 1];
      w := LatestLimit(ev[..|ev| - 1], x);
      w := if e.t < x then Later(w, e.t) else w;
    }
  }

  lemma {:induction false} CoveringLimit<V>(ov: seq<Override<V>>, x: real) returns (w: real)
    ensures w < x && forall u :: w <= u < x ==> Covering(ov, u) == CoveringBefore(ov, x)
    decreases |ov|
  {
    w := x - 1.0;
    if ov != [] {
      var o := ov[|ov| - 1];
      w := CoveringLimit(ov[..|ov| - 1], x);
      w := Later(Later(w, if o.a < x then o.a else w), if o.b < x then o.b else w);
    }
  }

  /** The state right before `x` is the one shown for some time up to `x`. */
  lemma BeforeIsLimit<V>(v0: V, ev: seq<Setting<V>>, ov: seq<Override<V>>, x: real) returns (w: real)
    ensures w < x && forall u :: w <= u < x ==> ValueAt(v0, ev, ov, u) == ValueBefore(v0, ev, ov, x)
  {
    hide Latest, LatestBefore, Covering, CoveringBefore;
    var a := LatestLimit(ev, x);
    var b := CoveringLimit(ov, x);
    w := Later(a, b);
  }

  /** A setting at `x` with value `v` that a later call at `x` replaces. */
  ghost predicate Superseded<V(!new)>(ev: seq<Setting<V>>, x: real, v: V) {
    exists i, j :: 0 <= i < j < |ev| && ev[i] == Setting(x, v) && ev[j].t == x
  }

  /** The calls at `x`, in order. */
  function CallsAt<V>(ev: seq<Setting<V>>, x: real): seq<V>
    decreases |ev|
  {
    if ev == [] then []
    else CallsAt(ev[..|ev| - 1], x) + if ev[|ev| - 1].t == x then [ev[|ev| - 1].v] else []
  }

  lemma CallsSnoc<V>(ev: seq<Setting<V>>, e: Setting<V>, x: real)
    ensures CallsAt(ev + [e], x) == CallsAt(ev, x) + if e.t == x then [e.v] else []
  {
    assert (ev + [e])[..|ev|] == ev;
  }

  function AllButLast<V>(s: seq<V>): seq<V> {
    if s == [] then [] else s[..|s| - 1]
  }

  lemma SupersededSnoc<V(!new)>(ev: seq<Setting<V>>, e: Setting<V>, x: real, v: V)
    ensures Superseded(ev + [e], x, v) <==> Superseded(ev, x, v) || (e.t == x && Setting(x, v) in ev)
    ensures Superseded(ev, x, v) ==> Setting(x, v) in ev
  {
    var all := ev + [e];
    assert forall i :: 0 <= i < |ev| ==> all[i] == ev[i];
    if Superseded(all, x, v) {
      var i, j :| 0 <= i < j < |all| && all[i] == Setting(x, v) && all[j].t == x;
      assert ev[i] == Setting(x, v) && (j < |ev| ==> ev[j].t == x);
    }
    if Superseded(ev, x, v) {
      var i, j :| 0 <= i < j < |ev| && ev[i] == Setting(x, v) && ev[j].t == x;
      assert all[i] == Setting(x, v) && all[j].t == x;
    }
    if e.t == x && Setting(x, v) in ev {
      var i :| 0 <= i < |ev| && ev[i] == Setting(x, v);
      assert all[i] == Setting(x, v) && all[|ev|].t == x;
    }
  }

  /** The superseded settings at `x` are all calls at `x` but the last. */
  lemma {:induction false} CallsMembers<V(!new)>(ev: seq<Setting<V>>, x: real, v: V)
    ensures v in CallsAt(ev, x) <==> Setting(x, v) in ev
    ensures Superseded(ev, x, v) <==> v in AllButLast(CallsAt(ev, x))
    decreases |ev|
  {
    if ev != [] {
      hide Superseded, CallsAt;
      var front, e := ev[..|ev| - 1], ev[|ev| - 1];
      assert ev == front + [e];
      CallsMembers(front, x, v);
      CallsSnoc(front, e, x);
      SupersededSnoc(front, e, x, v);
      if e.t == x {
        assert AllButLast(CallsAt(ev, x)) == CallsAt(front, x);
      } else {
        assert CallsAt(ev, x) == CallsAt(front, x);
      }
    }
  }

  /** Sorting keeps the order of the calls at one moment. */
  lemma {:induction false} CallsInserted<V>(es: seq<Setting<V>>, e: Setting<V>, x: real)
    requires Ordered(es, SetKey)
    ensures CallsAt(Inserted(es, e, SetKey), x) == CallsAt(es + [e], x)
    decreases |es|
  {
    hide Inserted, CallsAt;
    InsertedStep(es, e, SetKey);
    CallsSnoc(es, e, x);
    if es == [] {
      assert [] + [e] == [e];
    } else if es[|es| - 1].t > e.t {
      var front, last := es[..|es| - 1], es[|es| - 1];
      assert es == front + [last];
      CallsInserted(front, e, x);
      CallsSnoc(front, e, x);
      CallsSnoc(front, last, x);
      CallsSnoc(Inserted(front, e, SetKey), last, x);
    }
  }

  lemma {:induction false} CallsSorted<V>(ev: seq<Setting<V>>, x: real)
    ensures CallsAt(Sorted(ev, SetKey), x) == CallsAt(ev, x)
    decreases |ev|
  {
    if ev != [] {
      var n := |ev| - 1;
      assert ev == ev[..n] + [ev[n]];
      CallsSorted(ev[..n], x);
      SortedOrdered(ev[..n], SetKey);
      CallsInserted(Sorted(ev[..n], SetKey), ev[n], x);
      CallsSnoc(Sorted(ev[..n], SetKey), ev[n], x);
    }
  }

  function EmptyAt<V>(x: real, v: V): Seg<V> {
    Seg(At(x), At(x), v)
  }

  /** The base list has an empty window for each superseded setting. */
  lemma BaseEmpty<V(!new)>(v0: V, es: seq<Setting<V>>, x: real, v: V)
    requires Ordered(es, SetKey)
    ensures EmptyAt(x, v) in Base(v0, es) <==> Superseded(es, x, v)
  {
    if EmptyAt(x, v) in Base(v0, es) {
      var i :| 0 <= i <= |es| && Base(v0, es)[i] == EmptyAt(x, v);
      assert BaseSeg(v0, es, i) == EmptyAt(x, v);
      assert es[i - 1] == Setting(x, v) && es[i].t == x;
    }
    if Superseded(es, x, v) {
      var i, j :| 0 <= i < j < |es| && es[i] == Setting(x, v) && es[j].t == x;
      assert SetKey(es[i]).Le(SetKey(es[i + 1])) && (i + 1 < j ==> SetKey(es[i + 1]).Le(SetKey(es[j])));
      assert Base(v0, es)[i + 1] == EmptyAt(x, v);
    }
  }

  /** An override removes the empty windows strictly inside it and makes none. */
  lemma {:induction false} HoledEmpty<V>(segs: seq<Seg<V>>, o: Override<V>, x: real, v: V)
    ensures EmptyAt(x, v) in Holed(segs, o) <==> EmptyAt(x, v) in segs && !(o.a < x < o.b)
  {
    if segs != [] {
      HoledEmpty(segs[1..], o, x, v);
      assert segs == [segs[0]] + segs[1..];
      assert EmptyAt(x, v) in Remains(segs[0], o) <==> segs[0] == EmptyAt(x, v) && !(o.a < x < o.b);
    }
  }

  lemma {:induction false} PunchAllEmpty<V>(segs: seq<Seg<V>>, os: seq<Override<V>>, x: real, v: V)
    requires Proper(os)
    ensures EmptyAt(x, v) in PunchAll(segs, os) <==> EmptyAt(x, v) in segs && forall o <- os :: !(o.a < x < o.b)
    decreases |os|
  {
    if os != [] {
      hide Holed;
      var n := |os| - 1;
      assert os == os[..n] + [os[n]];
      PunchAllEmpty(segs, os[..n], x, v);
      HoledEmpty(PunchAll(segs, os[..n]), os[n], x, v);
    }
  }

  /** The last step of merging, with where its windows are. */
  lemma MergedLast<V>(segs: seq<Seg<V>>, x: Edge, y: Edge)
    requires Chain(segs, x, y) && segs != []
    ensures var front, s := segs[..|segs| - 1], segs[|segs| - 1];
            && Chain(front, x, s.a) && s.a.Le(s.b) && segs == front + [s] && Merged(segs) == Appended(Merged(front), s)
            && forall m <- Merged(front) :: m.a.Le(m.b) && m.b.Le(s.a)
  {
    var n := |segs| - 1;
    hide Merged, Appended, Find, Alternating;
    assert segs == segs[..n] + [segs[n]];
    ChainFront(segs, x, y);
    MergedFind(segs[..n], x, segs[n].a, 0.0);
    ChainLe(Merged(segs[..n]), x, segs[n].a);
    MergedStep(segs[..n], segs[n]);
  }

  lemma AppendedMembers<V>(m: seq<Seg<V>>, s: Seg<V>)
    ensures forall w <- Appended(m, s) ::
              w in m || w == s || (m != [] && m[|m| - 1].b == s.a && w == m[|m| - 1].(b := s.b) && w.v == s.v)
  {
  }

  /** Merging makes no empty window. */
  lemma {:induction false} MergedEmpty<V>(segs: seq<Seg<V>>, x: Edge, y: Edge, at: real, v: V)
    requires Chain(segs, x, y) && EmptyAt(at, v) in Merged(segs)
    ensures EmptyAt(at, v) in segs
    decreases |segs|
  {
    if segs != [] {
      hide Chain, Merged, Appended;
      var front, s := segs[..|segs| - 1], segs[|segs| - 1];
      MergedLast(segs, x, y);
      AppendedMembers(Merged(front), s);
      if EmptyAt(at, v) in Merged(front) {
        MergedEmpty(front, x, s.a, at, v);
      } else {
        assert s == EmptyAt(at, v);
      }
    }
  }

  ghost predicate Within<V>(s: Seg<V>, m: Seg<V>) {
    m.a.Le(s.a) && s.b.Le(m.b) && m.v == s.v
  }

  lemma AppendedWithin<V>(m: seq<Seg<V>>, s: Seg<V>)
    requires s.a.Le(s.b) && forall w <- m :: w.a.Le(w.b) && w.b.Le(s.a)
    ensures |Appended(m, s)| >= |m| && Appended(m, s) != [] && Within(s, Appended(m, s)[|Appended(m, s)| - 1])
    ensures forall j, w :: 0 <= j < |m| && Within(w, m[j]) ==> Within(w, Appended(m, s)[j])
  {
    assert m != [] ==> m[|m| - 1] in m;
  }

  /** Merging puts every window inside one that shows the same state. */
  lemma {:induction false} MergedHolds<V>(segs: seq<Seg<V>>, x: Edge, y: Edge, s: Seg<V>) returns (j: nat)
    requires Chain(segs, x, y) && s in segs
    ensures j < |Merged(segs)| && Within(s, Merged(segs)[j])
    decreases |segs|
  {
    hide Chain, Merged, Appended, Within;
    var front, last := segs[..|segs| - 1], segs[|segs| - 1];
    MergedLast(segs, x, y);
    AppendedWithin(Merged(front), last);
    j := |Merged(segs)| - 1;
    if s in front {
      j := MergedHolds(front, x, last.a, s);
    }
  }

  /** The empty windows left to merge: the superseded settings not strictly inside an override. */
  lemma CompiledEmpty<V(!new)>(v0: V, ev: seq<Setting<V>>, ov: seq<Override<V>>, x: real, v: V)
    requires Proper(ov)
    ensures var segs := PunchAll(Base(v0, Sorted(ev, SetKey)), Sorted(ov, OverrideKey));
            && Chain(segs, Past, Future)
            && (EmptyAt(x, v) in segs <==> Superseded(ev, x, v) && forall o <- ov :: !(o.a < x < o.b))
  {
    hide Chain, Base, PunchAll, Sorted, Superseded, CallsAt;
    var es, os := Sorted(ev, SetKey), Sorted(ov, OverrideKey);
    SortedOrdered(ev, SetKey);
    BaseChain(v0, es);
    PunchAllFind(Base(v0, es), os, x);
    BaseEmpty(v0, es, x, v);
    PunchAllEmpty(Base(v0, es), os, x, v);
    CallsSorted(ev, x);
    CallsMembers(ev, x, v);
    CallsMembers(es, x, v);
  }

  /** A no-op switch at `x` that restarts `since`: a setting with another value is called and replaced at `x`, no
      override lasts across `x`, and the state at `x` is the one right before it. */
  ghost predicate Restarts<V(!new)>(v0: V, ev: seq<Setting<V>>, ov: seq<Override<V>>, x: real) {
    && (exists v :: Superseded(ev, x, v) && v != ValueAt(v0, ev, ov, x))
    && (forall o <- ov :: !(o.a < x < o.b))
    && ValueBefore(v0, ev, ov, x) == ValueAt(v0, ev, ov, x)
  }

  /** Right before a window, the one before it shows, unless it is empty. */
  lemma NonemptyBefore<V>(v0: V, ev: seq<Setting<V>>, ov: seq<Override<V>>, k: nat)
    requires Proper(ov) && 0 < k < |Compiled(v0, ev, ov)| && Compiled(v0, ev, ov)[k].a.At?
    requires Compiled(v0, ev, ov)[k - 1].a.Lt(Compiled(v0, ev, ov)[k].a)
    ensures ValueBefore(v0, ev, ov, Compiled(v0, ev, ov)[k].a.t) == Compiled(v0, ev, ov)[k - 1].v
  {
    var list := Compiled(v0, ev, ov);
    var x, before := list[k].a.t, list[k - 1];
    var w := BeforeIsLimit(v0, ev, ov, x);
    var u := if before.a.At? then Later(w, before.a.t) else w;
    CompiledMeaning(v0, ev, ov, u);
    FindUnique(list, Past, Future, u);
    assert before.b == list[k].a;
    hide Compiled, Find, ValueAt, ValueBefore, Chain;
    assert Covers(before, u);
  }

  /** At a restart, the neighbour before is empty. */
  lemma EmptyBefore<V>(v0: V, ev: seq<Setting<V>>, ov: seq<Override<V>>, k: nat)
    requires Proper(ov)
    requires var list := Compiled(v0, ev, ov);
             && 0 < k < |list| && list[k].a.At? && ValueBefore(v0, ev, ov, list[k].a.t) == list[k].v
    ensures Compiled(v0, ev, ov)[k - 1] == EmptyAt(Compiled(v0, ev, ov)[k].a.t, Compiled(v0, ev, ov)[k - 1].v)
  {
    var list := Compiled(v0, ev, ov);
    CompiledMeaning(v0, ev, ov, list[k].a.t);
    ChainLe(list, Past, Future);
    EndsOnly(list, k);
    assert list[k - 1] in list && list[k - 1].b == list[k].a;
    hide Compiled, Find, ValueAt, ValueBefore, Chain;
    if list[k - 1].a.Lt(list[k].a) {
      NonemptyBefore(v0, ev, ov, k);
    }
  }

  /** The window a look-up finds. */
  lemma WindowAt<V>(v0: V, ev: seq<Setting<V>>, ov: seq<Override<V>>, t: real) returns (k: nat)
    requires Proper(ov)
    ensures var list := Compiled(v0, ev, ov);
            && k < |list| && Covers(list[k], t) && list[k].v == ValueAt(v0, ev, ov, t)
            && Scan(list, 0, t) == SampleOf(list, k, t)
            && Chain(list, Past, Future) && (list[k].a.At? <==> k > 0)
  {
    var list := Compiled(v0, ev, ov);
    CompiledMeaning(v0, ev, ov, t);
    FindUnique(list, Past, Future, t);
    hide Find, ValueAt, Compiled, Chain;
    k :| 0 <= k < |list| && Covers(list[k], t);
    ScanFinds(list, 0, k, t);
    EndsOnly(list, k);
  }

  lemma WindowStart<V>(v0: V, ev: seq<Setting<V>>, ov: seq<Override<V>>, t: real, k: nat)
    requires Proper(ov) && k < |Compiled(v0, ev, ov)| && Covers(Compiled(v0, ev, ov)[k], t)
    requires Compiled(v0, ev, ov)[k].a.At?
    ensures ValueAt(v0, ev, ov, Compiled(v0, ev, ov)[k].a.t) == Compiled(v0, ev, ov)[k].v
  {
    var list := Compiled(v0, ev, ov);
    CompiledMeaning(v0, ev, ov, list[k].a.t);
    FindUnique(list, Past, Future, list[k].a.t);
    hide Find, ValueAt, Compiled, Chain;
    assert Covers(list[k], list[k].a.t);
  }

  /** Exactly when `since` reaches back to a moment where nothing changed. */
  lemma SinceAt<V(!new)>(v0: V, ev: seq<Setting<V>>, ov: seq<Override<V>>, t: real)
    requires Proper(ov)
    ensures Compiled(v0, ev, ov) != []
    ensures var since := Scan(Compiled(v0, ev, ov), 0, t).since;
            since.Finite? ==>
              && ValueAt(v0, ev, ov, t - since.d) == ValueAt(v0, ev, ov, t)
              && (ValueBefore(v0, ev, ov, t - since.d) == ValueAt(v0, ev, ov, t) <==> Restarts(v0, ev, ov, t - since.d))
  {
    hide Find, ValueAt, ValueBefore, Compiled, Superseded, Chain, Scan;
    var k := WindowAt(v0, ev, ov, t);
    var list := Compiled(v0, ev, ov);
    if k > 0 {
      WindowStart(v0, ev, ov, t, k);
      var x := list[k].a.t;
      if ValueBefore(v0, ev, ov, x) == list[k].v {
        EmptyBefore(v0, ev, ov, k);
        EmptyComes(v0, ev, ov, x, list[k - 1].v);
        Differ(v0, ev, ov, k);
      }
    }
  }

  lemma Differ<V>(v0: V, ev: seq<Setting<V>>, ov: seq<Override<V>>, k: nat)
    requires Proper(ov) && 0 < k < |Compiled(v0, ev, ov)|
    ensures Compiled(v0, ev, ov)[k - 1].v != Compiled(v0, ev, ov)[k].v
  {
    CompiledMeaning(v0, ev, ov, 0.0);
    hide Find, Compiled;
    EndsOnly(Compiled(v0, ev, ov), k);
  }

  lemma EmptyComes<V(!new)>(v0: V, ev: seq<Setting<V>>, ov: seq<Override<V>>, x: real, v: V)
    requires Proper(ov) && EmptyAt(x, v) in Compiled(v0, ev, ov)
    ensures Superseded(ev, x, v) && forall o <- ov :: !(o.a < x < o.b)
  {
    CompiledEmpty(v0, ev, ov, x, v);
    MergedEmpty(PunchAll(Base(v0, Sorted(ev, SetKey)), Sorted(ov, OverrideKey)), Past, Future, x, v);
  }

  lemma EmptyKept<V(!new)>(v0: V, ev: seq<Setting<V>>, ov: seq<Override<V>>, x: real, v: V) returns (j: nat)
    requires Proper(ov) && Superseded(ev, x, v) && forall o <- ov :: !(o.a < x < o.b)
    ensures j < |Compiled(v0, ev, ov)| && Within(EmptyAt(x, v), Compiled(v0, ev, ov)[j])
  {
    hide Superseded, Chain, Sorted, PunchAll, Merged, Base, Within;
    CompiledEmpty(v0, ev, ov, x, v);
    j := MergedHolds(PunchAll(Base(v0, Sorted(ev, SetKey)), Sorted(ov, OverrideKey)), Past, Future, EmptyAt(x, v));
  }

  /** At a restart the window starts anew. */
  lemma RestartSince<V(!new)>(v0: V, ev: seq<Setting<V>>, ov: seq<Override<V>>, x: real)
    requires Proper(ov) && Restarts(v0, ev, ov, x)
    ensures Compiled(v0, ev, ov) != [] && Scan(Compiled(v0, ev, ov), 0, x).since == Finite(0.0)
  {
    hide Find, ValueAt, ValueBefore, Compiled, Superseded, Chain, Scan;
    var list := Compiled(v0, ev, ov);
    var k := WindowAt(v0, ev, ov, x);
    var v :| Superseded(ev, x, v) && v != ValueAt(v0, ev, ov, x);
    var j := EmptyKept(v0, ev, ov, x, v);
    ChainApart(list, Past, Future, j, k);
    ChainApart(list, Past, Future, k, j);
  }

  lemma ChainApart<V>(segs: seq<Seg<V>>, x: Edge, y: Edge, i: nat, j: nat)
    requires Chain(segs, x, y) && i < |segs| && j < |segs|
    ensures i < j ==> segs[i].b.Le(segs[j].a)
    decreases |segs|
  {
    if i < j {
      ChainTail(segs, x, y);
      ChainLe(segs[1..], segs[0].b, y);
      assert segs[j] == segs[1..][j - 1] && segs[1..][j - 1] in segs[1..];
      if i > 0 {
        ChainApart(segs[1..], segs[0].b, y, i - 1, j - 1);
      }
    }
  }

  /** `since` always reaches back to the last real switch, where another state was shown right before, if and only
      if no no-op switch restarts it. */
  lemma SinceIsLast<V(!new)>(v0: V, ev: seq<Setting<V>>, ov: seq<Override<V>>)
    requires Proper(ov)
    ensures Compiled(v0, ev, ov) != []
    ensures (forall t: real :: var since := Scan(Compiled(v0, ev, ov), 0, t).since;
               since.Finite? ==> ValueBefore(v0, ev, ov, t - since.d) != ValueAt(v0, ev, ov, t))
            <==> (forall x: real :: !Restarts(v0, ev, ov, x))
  {
    hide ValueAt, ValueBefore, Compiled, Restarts, Scan;
    SinceAt(v0, ev, ov, 0.0);
    if x: real :| Restarts(v0, ev, ov, x) {
      RestartSince(v0, ev, ov, x);
      SinceAt(v0, ev, ov, x);
    } else {
      forall t: real
        ensures var since := Scan(Compiled(v0, ev, ov), 0, t).since;
                since.Finite? ==> ValueBefore(v0, ev, ov, t - since.d) != ValueAt(v0, ev, ov, t)
      {
        SinceAt(v0, ev, ov, t);
      }
    }
  }

  /** The window behind the one found. */
  lemma WindowNext<V>(v0: V, ev: seq<Setting<V>>, ov: seq<Override<V>>, t: real, k: nat)
    requires Proper(ov) && k < |Compiled(v0, ev, ov)| && Covers(Compiled(v0, ev, ov)[k], t)
    ensures var list := Compiled(v0, ev, ov);
            && (list[k].b.At? <==> k + 1 < |list|)
            && (k + 1 < |list| ==>
                  && list[k].b == list[k + 1].a && list[k + 1].a.Le(list[k + 1].b) && list[k + 1].v != list[k].v
                  && ValueBefore(v0, ev, ov, list[k].b.t) == list[k].v && t < list[k].b.t)
  {
    var list := Compiled(v0, ev, ov);
    CompiledMeaning(v0, ev, ov, t);
    EndsOnly(list, k);
    hide Compiled, Find, ValueAt, ValueBefore;
    if k + 1 < |list| {
      NonemptyBefore(v0, ev, ov, k + 1);
    }
  }

  /** Exactly when `until` reaches forward to a moment where nothing changes. */
  lemma UntilAt<V(!new)>(v0: V, ev: seq<Setting<V>>, ov: seq<Override<V>>, t: real)
    requires Proper(ov)
    ensures Compiled(v0, ev, ov) != []
    ensures var until := Scan(Compiled(v0, ev, ov), 0, t).until;
            until.Finite? ==>
              && until.d > 0.0 && ValueBefore(v0, ev, ov, t + until.d) == ValueAt(v0, ev, ov, t)
              && (ValueAt(v0, ev, ov, t + until.d) == ValueAt(v0, ev, ov, t) <==> Restarts(v0, ev, ov, t + until.d))
  {
    hide Find, ValueAt, ValueBefore, Compiled, Superseded, Chain, Scan;
    var k := WindowAt(v0, ev, ov, t);
    var list := Compiled(v0, ev, ov);
    WindowNext(v0, ev, ov, t, k);
    if k + 1 < |list| {
      var y := list[k].b.t;
      NextShows(v0, ev, ov, k + 1);
      if ValueAt(v0, ev, ov, y) == list[k].v {
        EmptyComes(v0, ev, ov, y, list[k + 1].v);
      }
    }
  }

  /** A window shows its state where it starts, unless it is empty. */
  lemma NextShows<V>(v0: V, ev: seq<Setting<V>>, ov: seq<Override<V>>, k: nat)
    requires Proper(ov) && k < |Compiled(v0, ev, ov)| && Compiled(v0, ev, ov)[k].a.At?
    requires Compiled(v0, ev, ov)[k].a.Le(Compiled(v0, ev, ov)[k].b)
    ensures var s := Compiled(v0, ev, ov)[k];
            ValueAt(v0, ev, ov, s.a.t) == s.v || (s == EmptyAt(s.a.t, s.v) && s in Compiled(v0, ev, ov))
  {
    var s := Compiled(v0, ev, ov)[k];
    hide Compiled, ValueAt;
    if s.a.Lt(s.b) {
      WindowStart(v0, ev, ov, s.a.t, k);
    }
  }

  /** At a restart some earlier answer ends too soon. */
  lemma RestartUntil<V(!new)>(v0: V, ev: seq<Setting<V>>, ov: seq<Override<V>>, x: real) returns (t: real)
    requires Proper(ov) && Restarts(v0, ev, ov, x)
    ensures Compiled(v0, ev, ov) != []
    ensures var until := Scan(Compiled(v0, ev, ov), 0, t).until;
            until.Finite? && ValueAt(v0, ev, ov, t + until.d) == ValueAt(v0, ev, ov, t)
  {
    hide Find, ValueAt, ValueBefore, Compiled, Superseded, Chain, Scan;
    t := BeforeIsLimit(v0, ev, ov, x);
    var list := Compiled(v0, ev, ov);
    var j := WindowAt(v0, ev, ov, t);
    var k := WindowAt(v0, ev, ov, x);
    RestartSince(v0, ev, ov, x);
    assert list[k].a == At(x);
    ChainApart(list, Past, Future, j, k);
    ChainApart(list, Past, Future, k, j);
    assert list[j].b.Le(At(x));
    UntilAt(v0, ev, ov, t);
  }

  /** `until` always reaches forward to the next real switch, where another state is shown, if and only if no no-op
      switch cuts it short. */
  lemma UntilIsNext<V(!new)>(v0: V, ev: seq<Setting<V>>, ov: seq<Override<V>>)
    requires Proper(ov)
    ensures Compiled(v0, ev, ov) != []
    ensures (forall t: real :: var until := Scan(Compiled(v0, ev, ov), 0, t).until;
               until.Finite? ==> ValueAt(v0, ev, ov, t + until.d) != ValueAt(v0, ev, ov, t))
            <==> (forall x: real :: !Restarts(v0, ev, ov, x))
  {
    hide ValueAt, ValueBefore, Compiled, Restarts, Scan;
    UntilAt(v0, ev, ov, 0.0);
    if x: real :| Restarts(v0, ev, ov, x) {
      var t := RestartUntil(v0, ev, ov, x);
    } else {
      forall t: real
        ensures var until := Scan(Compiled(v0, ev, ov), 0, t).until;
                until.Finite? ==> ValueAt(v0, ev, ov, t + until.d) != ValueAt(v0, ev, ov, t)
      {
        UntilAt(v0, ev, ov, t);
      }
    }
  }

  /** The states told of the neighbours: `prev` is the one shown right before the moment reached back to, `next` the one
      shown from the moment reached forward to; or else that of a setting replaced at that very moment. */
  lemma NeighboursAre<V(!new)>(v0: V, ev: seq<Setting<V>>, ov: seq<Override<V>>, t: real)
    requires Proper(ov)
    ensures Compiled(v0, ev, ov) != []
    ensures var r := Scan(Compiled(v0, ev, ov), 0, t);
            && (r.since.Finite? ==>
                  var x := t - r.since.d; r.prev == ValueBefore(v0, ev, ov, x) || Superseded(ev, x, r.prev))
            && (r.until.Finite? ==>
                  var y := t + r.until.d; r.next == ValueAt(v0, ev, ov, y) || Superseded(ev, y, r.next))
            && (r.since.Endless? ==> r.prev == r.v) && (r.until.Endless? ==> r.next == r.v)
  {
    hide Find, ValueAt, ValueBefore, Compiled, Superseded, Chain, Scan;
    var k := WindowAt(v0, ev, ov, t);
    var list := Compiled(v0, ev, ov);
    WindowNext(v0, ev, ov, t, k);
    if k + 1 < |list| {
      NextShows(v0, ev, ov, k + 1);
      if list[k + 1].v != ValueAt(v0, ev, ov, list[k].b.t) {
        EmptyComes(v0, ev, ov, list[k].b.t, list[k + 1].v);
      }
    }
    if k > 0 {
      BeforeShows(v0, ev, ov, k);
      if list[k - 1].v != ValueBefore(v0, ev, ov, list[k].a.t) {
        EmptyComes(v0, ev, ov, list[k].a.t, list[k - 1].v);
      }
    }
  }

  lemma BeforeShows<V>(v0: V, ev: seq<Setting<V>>, ov: seq<Override<V>>, k: nat)
    requires Proper(ov) && 0 < k < |Compiled(v0, ev, ov)| && Compiled(v0, ev, ov)[k].a.At?
    ensures var list, x := Compiled(v0, ev, ov), Compiled(v0, ev, ov)[k].a.t;
            ValueBefore(v0, ev, ov, x) == list[k - 1].v || list[k - 1] == EmptyAt(x, list[k - 1].v)
  {
    var list := Compiled(v0, ev, ov);
    CompiledMeaning(v0, ev, ov, 0.0);
    assert list[k - 1].b == list[k].a && list[k - 1].a.Le(list[k - 1].b);
    hide Compiled, Find, ValueBefore, Chain;
    if list[k - 1].a.Lt(list[k].a) {
      NonemptyBefore(v0, ev, ov, k);
    }
  }

  const UP := Setting(1.0, 1)
  const DOWN := Setting(1.0, 0)

  lemma UpDownValue(u: real)
    ensures ValueAt(0, [UP, DOWN], [], u) == 0
  {
    LatestStep([], UP, u);
    LatestStep([UP], DOWN, u);
    assert [] + [UP] == [UP] && [UP] + [DOWN] == [UP, DOWN];
  }

  lemma UpDownSorted()
    ensures Sorted([UP, DOWN], SetKey<int>) == [UP, DOWN] && Sorted([], OverrideKey<int>) == []
  {
    assert Ordered([UP, DOWN], SetKey<int>);
    SortedSame([UP, DOWN], SetKey<int>);
  }

  lemma UpDownCompiled()
    ensures Compiled(0, [UP, DOWN], []) == [Seg(Past, At(1.0), 0), Seg(At(1.0), At(1.0), 1), Seg(At(1.0), Future, 0)]
  {
    var a, b, c := Seg(Past, At(1.0), 0), Seg(At(1.0), At(1.0), 1), Seg(At(1.0), Future, 0);
    UpDownSorted();
    hide Sorted;
    assert Base(0, [UP, DOWN]) == [a, b, c];
    assert [] + [a] == [a] && [a] + [b] == [a, b] && [a, b] + [c] == [a, b, c];
    MergedStep([], a);
    MergedStep([a], b);
    MergedStep([a, b], c);
  }

  /** With two settings at one moment it can: set to 1 and back to 0 at time 1, the state is 0 throughout, and yet
      at time 2 it counts as switched on at time 1. */
  lemma SameMomentRestarts()
    ensures (forall u :: ValueAt(0, [UP, DOWN], [], u) == 0)
    ensures var list := Compiled(0, [UP, DOWN], []); list != [] && Scan(list, 0, 2.0).since == Finite(1.0)
  {
    forall u: real
      ensures ValueAt(0, [UP, DOWN], [], u) == 0
    {
      UpDownValue(u);
    }
    hide Compiled, ValueAt;
    UpDownCompiled();
    ScanFinds(Compiled(0, [UP, DOWN], []), 0, 2, 2.0);
  }

  // ----- overrides of any length ---------------------------------------------------------------------

  /** Some window covers `t`, and every one that does shows `v`. */
  ghost predicate Shown<V>(segs: seq<Seg<V>>, t: real, v: V) {
    (exists s <- segs :: Covers(s, t)) && (forall s <- segs :: Covers(s, t) ==> s.v == v)
  }

  /** What is left of a window covers what it covered outside the override, whichever way round its ends are. */
  lemma RemainsCovers<V>(s: Seg<V>, o: Override<V>, t: real)
    ensures forall p <- Remains(s, o) :: p.v == s.v && (Covers(p, t) ==> Covers(s, t) && !(o.a <= t < o.b))
    ensures Covers(s, t) && !(o.a <= t < o.b) ==> exists p <- Remains(s, o) :: Covers(p, t)
  {
    var l, r := Seg(s.a, At(o.a), s.v), Seg(At(o.b), s.b, s.v);
    if s.b.Le(At(o.a)) || At(o.b).Le(s.a) {
      assert s in Remains(s, o);
    } else if Covers(s, t) {
      assert t < o.a ==> l in Remains(s, o);
      assert t >= o.a && t >= o.b ==> r in Remains(s, o);
    }
  }

  lemma {:induction false} HoledMembers<V>(segs: seq<Seg<V>>, o: Override<V>, p: Seg<V>)
    ensures p in Holed(segs, o) <==> exists s <- segs :: p in Remains(s, o)
  {
    if segs != [] {
      hide Remains;
      HoledMembers(segs[1..], o, p);
      assert segs == [segs[0]] + segs[1..];
    }
  }

  lemma PunchedMembers<V>(segs: seq<Seg<V>>, o: Override<V>, p: Seg<V>)
    ensures p in Punched(segs, o) <==> p == Window(o) || exists s <- segs :: p in Remains(s, o)
  {
    hide Holed, Sorted, Remains;
    HoledMembers(segs, o, p);
  }

  lemma PunchedShown<V>(segs: seq<Seg<V>>, o: Override<V>, t: real, v: V)
    requires Shown(segs, t, v)
    ensures Shown(Punched(segs, o), t, if o.a <= t < o.b then o.v else v)
  {
    hide Punched, Remains;
    forall p <- Punched(segs, o) | Covers(p, t)
      ensures p.v == if o.a <= t < o.b then o.v else v
    {
      PunchedMembers(segs, o, p);
      if p != Window(o) {
        var s :| s in segs && p in Remains(s, o);
        RemainsCovers(s, o, t);
      }
    }
    if o.a <= t < o.b {
      PunchedMembers(segs, o, Window(o));
      assert Covers(Window(o), t);
    } else {
      var s :| s in segs && Covers(s, t);
      RemainsCovers(s, o, t);
      var p :| p in Remains(s, o) && Covers(p, t);
      PunchedMembers(segs, o, p);
    }
  }

  lemma {:induction false} PunchAllShown<V>(segs: seq<Seg<V>>, os: seq<Override<V>>, t: real, v: V)
    requires Shown(segs, t, v)
    ensures Shown(PunchAll(segs, os), t, var r := LastCover(os, t); if r.Some? then r.value.v else v)
    decreases |os|
  {
    if os != [] {
      hide Punched, Shown;
      var front, o := os[..|os| - 1], os[|os| - 1];
      var r := LastCover(front, t);
      PunchAllShown(segs, front, t, v);
      PunchedShown(PunchAll(segs, front), o, t, if r.Some? then r.value.v else v);
    }
  }

  /** The base windows covering a moment show the setting in force. */
  lemma BaseShown<V>(v0: V, es: seq<Setting<V>>, t: real)
    requires Ordered(es, SetKey)
    ensures Shown(Base(v0, es), t, var r := LastSet(es, t); if r.Some? then r.value.v else v0)
  {
    hide Base, Find, Chain, LastSet, Covers;
    BaseChain(v0, es);
    BaseFind(v0, es, t);
    FindUnique(Base(v0, es), Past, Future, t);
  }

  /** Before merging, whatever the overrides, the windows covering a moment show the state meant. */
  lemma UnmergedShown<V>(v0: V, ev: seq<Setting<V>>, ov: seq<Override<V>>, t: real)
    ensures Shown(PunchAll(Base(v0, Sorted(ev, SetKey)), Sorted(ov, OverrideKey)), t, ValueAt(v0, ev, ov, t))
  {
    hide *;
    SortedOrdered(ev, SetKey);
    BaseShown(v0, Sorted(ev, SetKey), t);
    LatestSorted(ev, t);
    CoveringSorted(ov, t);
    ValueAtIs(v0, ev, ov, t);
    var e := Latest(ev, t);
    PunchAllShown(Base(v0, Sorted(ev, SetKey)), Sorted(ov, OverrideKey), t, if e.Some? then e.value.v else v0);
  }

  lemma ValueAtIs<V>(v0: V, ev: seq<Setting<V>>, ov: seq<Override<V>>, t: real)
    ensures ValueAt(v0, ev, ov, t) ==
            var o, e := Covering(ov, t), Latest(ev, t);
            if o.Some? then o.value.v else if e.Some? then e.value.v else v0
  {
  }

  predicate Reversed<V>(s: Seg<V>) {
    s.b.Lt(s.a)
  }

  lemma RemainsUpright<V>(s: Seg<V>, o: Override<V>)
    ensures forall p <- Remains(s, o) :: Reversed(p) ==> p == s
  {
  }

  lemma ReversedOverride<V>(o: Override<V>)
    ensures Reversed(Window(o)) <==> o.b < o.a
  {
  }

  /** A window that ends before it starts is that of such an override. */
  lemma {:induction false} ReversedWindow<V>(segs: seq<Seg<V>>, os: seq<Override<V>>, p: Seg<V>)
    returns (o: Override<V>)
    requires (forall s <- segs :: !Reversed(s)) && p in PunchAll(segs, os) && Reversed(p)
    ensures o in os && o.b < o.a && p == Window(o)
    decreases |os|
  {
    NonePunched(segs);
    hide *;
    if os == [] {
      o := Override(0.0, 0.0, p.v);
    } else {
      var front, last := os[..|os| - 1], os[|os| - 1];
      assert os == front + [last];
      PunchAllStep(segs, front, last);
      PunchedMembers(PunchAll(segs, front), last, p);
      o := last;
      if p == Window(last) {
        ReversedOverride(last);
      } else {
        var s :| s in PunchAll(segs, front) && p in Remains(s, last);
        RemainsUpright(s, last);
        o := ReversedWindow(segs, front, p);
      }
    }
  }

  lemma NonePunched<V>(segs: seq<Seg<V>>)
    ensures PunchAll(segs, []) == segs
  {
  }

  lemma PunchAllOrdered<V>(segs: seq<Seg<V>>, os: seq<Override<V>>)
    requires Ordered(segs, SegKey)
    ensures Ordered(PunchAll(segs, os), SegKey)
  {
    if os != [] {
      SortedOrdered(Holed(PunchAll(segs, os[..|os| - 1]), os[|os| - 1]) + [Window(os[|os| - 1])], SegKey);
    }
  }

  // ----- merging them ----------------------------------------------------------------------------------

  /** Right before `s` starts, for some time, no window shows what `s` shows. */
  ghost predicate Fresh<V(!new)>(all: seq<Seg<V>>, s: Seg<V>) {
    s.a.At? && exists w: real :: w < s.a.t && NoneShows(all, s.v, w, s.a.t)
  }

  ghost predicate NoneShows<V(!new)>(all: seq<Seg<V>>, v: V, w: real, x: real) {
    forall u: real, p :: w <= u < x && p in all && Covers(p, u) ==> p.v != v
  }

  /** What merging has kept of the windows `front`: their starts, and every moment they cover, with what they show. */
  ghost predicate Kept<V(!new)>(front: seq<Seg<V>>, m: seq<Seg<V>>) {
    && (forall p <- m :: exists s <- front :: s.a == p.a)
    && (forall t: real, p :: p in m && Covers(p, t) ==> CoveredBy(front, t, p.v))
    && (forall t: real, s :: s in front && Covers(s, t) ==> CoveredBy(m, t, s.v))
  }

  ghost predicate CoveredBy<V>(segs: seq<Seg<V>>, t: real, v: V) {
    exists s <- segs :: Covers(s, t) && s.v == v
  }

  lemma CoveredMore<V(!new)>(front: seq<Seg<V>>, s: Seg<V>, t: real, v: V)
    ensures CoveredBy(front + [s], t, v) <==> CoveredBy(front, t, v) || (Covers(s, t) && s.v == v)
  {
    assert forall x :: x in front + [s] <==> x in front || x == s;
  }

  /** A window that starts a new one. */
  lemma KeptNew<V(!new)>(front: seq<Seg<V>>, m: seq<Seg<V>>, s: Seg<V>)
    requires Kept(front, m)
    ensures Kept(front + [s], m + [s])
  {
    hide Covers;
    forall p <- m + [s]
      ensures exists x <- front + [s] :: x.a == p.a
    {
      if p in m {
        var x :| x in front && x.a == p.a;
        assert x in front + [s];
      } else {
        assert s in front + [s];
      }
    }
    forall t: real, p | p in m + [s] && Covers(p, t)
      ensures CoveredBy(front + [s], t, p.v)
    {
      CoveredMore(front, s, t, p.v);
    }
    forall t: real, p | p in front + [s] && Covers(p, t)
      ensures CoveredBy(m + [s], t, p.v)
    {
      CoveredMore(m, s, t, p.v);
    }
  }

  /** Joining two windows covers what both covered, unless the second is reversed and the first not empty. */
  lemma JoinedCovers<V>(l: Seg<V>, s: Seg<V>, t: real)
    requires l.v == s.v && l.b == s.a && l.a.Le(s.a) && (Reversed(s) ==> l.a == s.a)
    ensures Covers(l.(b := s.b), t) <==> Covers(l, t) || Covers(s, t)
  {
  }

  lemma KeptJoined<V(!new)>(front: seq<Seg<V>>, m: seq<Seg<V>>, l: Seg<V>, s: Seg<V>)
    requires Kept(front, m + [l]) && l.v == s.v && l.b == s.a && l.a.Le(s.a) && (Reversed(s) ==> l.a == s.a)
    ensures Kept(front + [s], m + [l.(b := s.b)])
  {
    hide Covers, Reversed;
    var j := l.(b := s.b);
    forall p <- m + [j]
      ensures exists x <- front + [s] :: x.a == p.a
    {
      var q := if p in m then p else l;
      assert q in m + [l];
      var x :| x in front && x.a == q.a;
      assert x in front + [s];
    }
    forall t: real, p | p in m + [j] && Covers(p, t)
      ensures CoveredBy(front + [s], t, p.v)
    {
      CoveredMore(front, s, t, p.v);
      JoinedCovers(l, s, t);
      assert p in m ==> p in m + [l];
      assert l in m + [l];
    }
    forall t: real, p | p in front + [s] && Covers(p, t)
      ensures CoveredBy(m + [j], t, p.v)
    {
      CoveredMore(m, l, t, p.v);
      CoveredMore(m, j, t, p.v);
      JoinedCovers(l, s, t);
    }
  }

  /** A window that ends at `x` without being empty shows its state right before `x`. */
  lemma ShowsBefore<V(!new)>(all: seq<Seg<V>>, front: seq<Seg<V>>, m: seq<Seg<V>>, l: Seg<V>, x: real, w: real)
    requires Kept(front, m) && l in m && (forall p <- front :: p in all)
    requires w < x && l.b == At(x) && l.a.Lt(At(x))
    ensures !NoneShows(all, l.v, w, x)
  {
    var u := if l.a.At? then Later(w, l.a.t) else w;
    assert Covers(l, u);
    assert CoveredBy(front, u, l.v);
    var p :| p in front && Covers(p, u) && p.v == l.v;
    assert p in all;
  }

  /** A window merged with a fresh one starts where that starts. */
  lemma FreshJoins<V(!new)>(all: seq<Seg<V>>, front: seq<Seg<V>>, m: seq<Seg<V>>, l: Seg<V>, s: Seg<V>)
    requires Kept(front, m + [l]) && (forall x <- front :: x in all) && Fresh(all, s)
    requires l.v == s.v && l.b == s.a && l.a.Le(s.a)
    ensures l.a == s.a
  {
    hide Kept, NoneShows;
    forall w: real | l.a != s.a && w < s.a.t
      ensures !NoneShows(all, s.v, w, s.a.t)
    {
      assert l in m + [l];
      ShowsBefore(all, front, m + [l], l, s.a.t, w);
    }
  }

  /** Merging loses nothing when every reversed window is fresh. */
  lemma {:induction false} MergedKeeps<V(!new)>(all: seq<Seg<V>>, segs: seq<Seg<V>>)
    requires Ordered(segs, SegKey) && (forall s <- segs :: s in all)
    requires forall s <- segs :: Reversed(s) ==> Fresh(all, s)
    ensures Kept(segs, Merged(segs))
    decreases |segs|
  {
    if segs == [] {
      assert Merged(segs) == [];
    } else {
      hide *;
      var front, s := segs[..|segs| - 1], segs[|segs| - 1];
      assert segs == front + [s];
      OrderedFront(front, s);
      MergedKeeps(all, front);
      MergedStep(front, s);
      KeptAppended(all, front, Merged(front), s);
    }
  }

  lemma OrderedFront<V>(front: seq<Seg<V>>, s: Seg<V>)
    requires Ordered(front + [s], SegKey)
    ensures Ordered(front, SegKey)
  {
    assert (front + [s])[..|front|] == front;
  }

  lemma KeptAppended<V(!new)>(all: seq<Seg<V>>, front: seq<Seg<V>>, m: seq<Seg<V>>, s: Seg<V>)
    requires Kept(front, m) && Ordered(front + [s], SegKey) && forall x <- front :: x in all
    requires Reversed(s) ==> Fresh(all, s)
    ensures Kept(front + [s], Appended(m, s))
  {
    hide Kept, Fresh, Reversed, Ordered;
    if m != [] && m[|m| - 1].v == s.v && m[|m| - 1].b == s.a {
      var rest, l := m[..|m| - 1], m[|m| - 1];
      assert m == rest + [l] && m[|m| - 1 := l.(b := s.b)] == rest + [l.(b := s.b)];
      KeptStart(front, m, l, s);
      if Reversed(s) {
        FreshJoins(all, front, rest, l, s);
      }
      KeptJoined(front, rest, l, s);
    } else {
      KeptNew(front, m, s);
    }
  }

  lemma KeptStart<V(!new)>(front: seq<Seg<V>>, m: seq<Seg<V>>, l: Seg<V>, s: Seg<V>)
    requires Kept(front, m) && l in m && Ordered(front + [s], SegKey)
    ensures l.a.Le(s.a)
  {
    var x :| x in front && x.a == l.a;
    var i :| 0 <= i < |front| && front[i] == x;
    assert SegKey((front + [s])[i]).Le(SegKey((front + [s])[|front|]));
  }

  lemma {:induction false} ScanShown<V>(list: seq<Seg<V>>, i: nat, t: real, v: V)
    requires i <= |list| && list != []
    requires exists k :: i <= k < |list| && Covers(list[k], t)
    requires forall k :: i <= k < |list| && Covers(list[k], t) ==> list[k].v == v
    ensures Scan(list, i, t).v == v
    decreases |list| - i
  {
    if !Covers(list[i], t) {
      ScanShown(list, i + 1, t, v);
    }
  }

  /** Every override that ends before it starts shows another state than the one right before its start. */
  ghost predicate Unlike<V>(v0: V, ev: seq<Setting<V>>, ov: seq<Override<V>>) {
    forall o <- ov :: o.b < o.a ==> o.v != ValueBefore(v0, ev, ov, o.a)
  }

  /** No override ends before it starts. */
  ghost predicate Upright<V>(ov: seq<Override<V>>) {
    forall o <- ov :: o.a <= o.b
  }

  lemma FreshWindow<V(!new)>(v0: V, ev: seq<Setting<V>>, ov: seq<Override<V>>, o: Override<V>)
    requires o.v != ValueBefore(v0, ev, ov, o.a)
    ensures Fresh(PunchAll(Base(v0, Sorted(ev, SetKey)), Sorted(ov, OverrideKey)), Window(o))
  {
    hide Base, Sorted, PunchAll, ValueBefore, ValueAt;
    var all := PunchAll(Base(v0, Sorted(ev, SetKey)), Sorted(ov, OverrideKey));
    var w := BeforeIsLimit(v0, ev, ov, o.a);
    forall u: real, p | w <= u < o.a && p in all && Covers(p, u)
      ensures p.v != o.v
    {
      UnmergedShown(v0, ev, ov, u);
    }
    assert NoneShows(all, o.v, w, o.a);
  }

  /** The windows that are merged. */
  lemma UnmergedKept<V(!new)>(v0: V, ev: seq<Setting<V>>, ov: seq<Override<V>>)
    requires Unlike(v0, ev, ov)
    ensures var all := PunchAll(Base(v0, Sorted(ev, SetKey)), Sorted(ov, OverrideKey));
            Compiled(v0, ev, ov) == Merged(all) && Kept(all, Merged(all))
  {
    var es, os := Sorted(ev, SetKey), Sorted(ov, OverrideKey);
    SortedOrdered(ev, SetKey);
    BaseChain(v0, es);
    ChainOrdered(Base(v0, es), Past, Future);
    PunchAllOrdered(Base(v0, es), os);
    var all := PunchAll(Base(v0, es), os);
    BaseUpright(v0, es);
    hide Base, Sorted, PunchAll, ValueBefore, Kept, Fresh, Merged, Ordered, Chain;
    forall s <- all | Reversed(s)
      ensures Fresh(all, s)
    {
      var o := ReversedWindow(Base(v0, es), os, s);
      FreshWindow(v0, ev, ov, o);
    }
    MergedKeeps(all, all);
  }

  lemma BaseUpright<V>(v0: V, es: seq<Setting<V>>)
    requires Chain(Base(v0, es), Past, Future)
    ensures forall s <- Base(v0, es) :: !Reversed(s)
  {
    hide Base;
  }

  /** Whatever the lengths of the overrides, the answer is the state meant, as long as every override that ends before
      it starts shows another state than the one right before its start. */
  lemma StateMeaning<V(!new)>(v0: V, ev: seq<Setting<V>>, ov: seq<Override<V>>, t: real)
    requires Unlike(v0, ev, ov)
    ensures Compiled(v0, ev, ov) != [] && Scan(Compiled(v0, ev, ov), 0, t).v == ValueAt(v0, ev, ov, t)
  {
    UnmergedKept(v0, ev, ov);
    UnmergedShown(v0, ev, ov, t);
    hide Base, Sorted, PunchAll, Merged, Compiled, ValueAt, Unlike, Covers;
    var all, list := PunchAll(Base(v0, Sorted(ev, SetKey)), Sorted(ov, OverrideKey)), Compiled(v0, ev, ov);
    var s :| s in all && Covers(s, t);
    assert CoveredBy(list, t, s.v);
    var p :| p in list && Covers(p, t) && p.v == s.v;
    var k :| 0 <= k < |list| && list[k] == p;
    forall j | 0 <= j < |list| && Covers(list[j], t)
      ensures list[j].v == ValueAt(v0, ev, ov, t)
    {
      assert list[j] in list && CoveredBy(all, t, list[j].v);
    }
    ScanShown(list, 0, t, ValueAt(v0, ev, ov, t));
  }

  // ----- overrides that end before they start ----------------------------------------------------------

  /** Every look-up answers with the state meant. */
  ghost predicate Answers<V(!new)>(v0: V, ev: seq<Setting<V>>, ov: seq<Override<V>>) {
    Compiled(v0, ev, ov) != [] && forall t: real :: Scan(Compiled(v0, ev, ov), 0, t).v == ValueAt(v0, ev, ov, t)
  }

  lemma HoledOne<V>(s: Seg<V>, o: Override<V>)
    ensures Holed([s], o) == Remains(s, o)
  {
    assert [s][1..] == [] && Remains(s, o) + [] == Remains(s, o);
  }

  lemma {:induction false} HoledJoin<V>(a: seq<Seg<V>>, b: seq<Seg<V>>, o: Override<V>)
    ensures Holed(a + b, o) == Holed(a, o) + Holed(b, o)
  {
    hide Remains;
    if a == [] {
      assert a + b == b;
    } else {
      HoledJoin(a[1..], b, o);
      assert (a + b)[1..] == a[1..] + b;
    }
  }

  lemma HoledFour<V>(a: Seg<V>, b: Seg<V>, c: Seg<V>, d: Seg<V>, o: Override<V>)
    ensures Holed([a] + [b] + [c] + [d], o) == Remains(a, o) + Remains(b, o) + Remains(c, o) + Remains(d, o)
    ensures Holed([a] + [b] + [c], o) == Remains(a, o) + Remains(b, o) + Remains(c, o)
  {
    hide Holed, Remains;
    HoledJoin([a] + [b] + [c], [d], o);
    HoledJoin([a] + [b], [c], o);
    HoledJoin([a], [b], o);
    HoledOne(a, o);
    HoledOne(b, o);
    HoledOne(c, o);
    HoledOne(d, o);
  }

  /** One merging step that starts a new window, and one that does not. */
  lemma MergedNew<V>(segs: seq<Seg<V>>, m: seq<Seg<V>>, s: Seg<V>)
    requires Merged(segs) == m && (m != [] ==> m[|m| - 1].v != s.v || m[|m| - 1].b != s.a)
    ensures Merged(segs + [s]) == m + [s]
  {
    hide Merged;
    MergedStep(segs, s);
  }

  lemma MergedInto<V>(segs: seq<Seg<V>>, m: seq<Seg<V>>, l: Seg<V>, s: Seg<V>)
    requires Merged(segs) == m + [l] && l.v == s.v && l.b == s.a
    ensures Merged(segs + [s]) == m + [l.(b := s.b)]
  {
    hide Merged;
    MergedStep(segs, s);
  }

  /** The calls around a reversed override `o` that make it lose a window: its value is set where it ends, `w` where it
      starts, and an override to `w` from its start follows. */
  function SettingsAround<V>(o: Override<V>, w: V): seq<Setting<V>> {
    [Setting(o.b, o.v), Setting(o.a, w)]
  }

  function Follower<V>(o: Override<V>, w: V): Override<V> {
    Override(o.a, o.a + 1.0, w)
  }

  lemma AroundSorted<V>(o: Override<V>, w: V)
    requires o.b < o.a
    ensures Sorted(SettingsAround(o, w), SetKey) == SettingsAround(o, w)
    ensures Sorted([o] + [Follower(o, w)], OverrideKey) == [o] + [Follower(o, w)]
  {
    OrderedPair(Setting(o.b, o.v), Setting(o.a, w), SetKey);
    OrderedPair(o, Follower(o, w), OverrideKey);
    assert SettingsAround(o, w) == [Setting(o.b, o.v)] + [Setting(o.a, w)];
    hide Sorted, Ordered;
    SortedSame(SettingsAround(o, w), SetKey);
    SortedSame([o] + [Follower(o, w)], OverrideKey);
  }

  lemma OrderedPair<T>(x: T, y: T, key: T -> Edge)
    requires key(x).Le(key(y))
    ensures Ordered([x] + [y], key)
  {
  }

  lemma AroundBase<V>(o: Override<V>, w: V)
    ensures Base(w, SettingsAround(o, w)) ==
            [Seg(Past, At(o.b), w)] + [Seg(At(o.b), At(o.a), o.v)] + [Seg(At(o.a), Future, w)]
  {
    var es := SettingsAround(o, w);
    assert BaseSeg(w, es, 0) == Seg(Past, At(o.b), w) && BaseSeg(w, es, 1) == Seg(At(o.b), At(o.a), o.v);
    assert BaseSeg(w, es, 2) == Seg(At(o.a), Future, w);
    hide BaseSeg, SettingsAround;
  }

  /** The reversed override splits nothing, and its window comes last. */
  lemma AroundFirst<V>(o: Override<V>, w: V, x: Seg<V>, y: Seg<V>, z: Seg<V>)
    requires o.b < o.a && x == Seg(Past, At(o.b), w) && y == Seg(At(o.b), At(o.a), o.v) && z == Seg(At(o.a), Future, w)
    ensures Punched([x] + [y] + [z], o) == [x] + [y] + [z] + [Window(o)]
  {
    HoledFour(x, y, z, z, o);
    assert Remains(x, o) == [x] && Remains(y, o) == [y] && Remains(z, o) == [z];
    assert Ordered([x] + [y] + [z] + [Window(o)], SegKey);
    hide Holed, Sorted, Remains, Ordered, Window;
    SortedSame([x] + [y] + [z] + [Window(o)], SegKey);
  }

  /** The override behind it takes the place of the window before it. */
  lemma AroundSecond<V>(o: Override<V>, w: V, x: Seg<V>, y: Seg<V>, z: Seg<V>, r: Seg<V>)
    requires o.b < o.a && x == Seg(Past, At(o.b), w) && y == Seg(At(o.b), At(o.a), o.v) && z == Seg(At(o.a), Future, w)
    requires r == Seg(At(o.a + 1.0), Future, w)
    ensures Punched([x] + [y] + [z] + [Window(o)], Follower(o, w)) ==
            [x] + [y] + [Window(o)] + [Window(Follower(o, w))] + [r]
  {
    var f := Follower(o, w);
    var c, d := Window(o), Window(f);
    HoledFour(x, y, z, c, f);
    assert Remains(x, f) == [x] && Remains(y, f) == [y] && Remains(z, f) == [r] && Remains(c, f) == [c];
    assert Ordered([x] + [y] + [r], SegKey);
    assert forall s <- [x] + [y] :: SegKey(s).Le(SegKey(c));
    assert forall s <- [x] + [y] + [c] :: SegKey(s).Le(SegKey(d));
    assert forall s <- [r] :: SegKey(c).Lt(SegKey(s)) && SegKey(d).Lt(SegKey(s));
    AroundSorts([x] + [y], c, d, r);
    hide Holed, Sorted, Remains, Ordered, Window;
  }

  lemma AroundSorts<V>(l: seq<Seg<V>>, c: Seg<V>, d: Seg<V>, r: Seg<V>)
    requires Ordered(l + [r], SegKey) && (forall s <- l :: SegKey(s).Le(SegKey(c)))
    requires (forall s <- l + [c] :: SegKey(s).Le(SegKey(d)))
    requires SegKey(c).Lt(SegKey(r)) && SegKey(d).Lt(SegKey(r))
    ensures Sorted(l + [r] + [c] + [d], SegKey) == l + [c] + [d] + [r]
  {
    hide *;
    assert forall s <- [r] :: s == r;
    SortedBetween(l, [r], c, SegKey);
    SortedLast(l + [r] + [c], d, SegKey);
    InsertedBetween(l + [c], [r], d, SegKey);
  }

  /** Merging joins the reversed window to the one before it, which is lost. */
  lemma AroundMerged<V>(o: Override<V>, w: V, x: Seg<V>, y: Seg<V>, r: Seg<V>)
    requires o.b < o.a && w != o.v && x == Seg(Past, At(o.b), w) && y == Seg(At(o.b), At(o.a), o.v)
    requires r == Seg(At(o.a + 1.0), Future, w)
    ensures Merged([x] + [y] + [Window(o)] + [Window(Follower(o, w))] + [r]) ==
            [x] + [Seg(At(o.b), At(o.b), o.v)] + [Seg(At(o.a), Future, w)]
  {
    var c, d := Window(o), Window(Follower(o, w));
    var lost, e := y.(b := At(o.b)), d.(b := Future);
    assert Merged<V>([]) == [] && [] + [x] == [x];
    hide Merged;
    MergedNew([], [], x);
    MergedNew([x], [x], y);
    MergedInto([x] + [y], [x], y, c);
    MergedNew([x] + [y] + [c], [x] + [lost], d);
    MergedInto([x] + [y] + [c] + [d], [x] + [lost], d, r);
  }

  lemma CompiledIs<V>(v0: V, ev: seq<Setting<V>>, ov: seq<Override<V>>)
    ensures Compiled(v0, ev, ov) == Merged(PunchAll(Base(v0, Sorted(ev, SetKey)), Sorted(ov, OverrideKey)))
  {
    hide Merged, PunchAll, Base, Sorted;
  }

  lemma PunchTwo<V>(segs: seq<Seg<V>>, o: Override<V>, f: Override<V>)
    ensures PunchAll(segs, [o] + [f]) == Punched(Punched(segs, o), f)
  {
    hide Punched;
    NonePunched(segs);
    assert [] + [o] == [o];
    PunchAllStep(segs, [], o);
    PunchAllStep(segs, [o], f);
  }

  lemma AroundCompiled<V>(o: Override<V>, w: V)
    requires o.b < o.a && w != o.v
    ensures Compiled(w, SettingsAround(o, w), [o] + [Follower(o, w)]) ==
            [Seg(Past, At(o.b), w)] + [Seg(At(o.b), At(o.b), o.v)] + [Seg(At(o.a), Future, w)]
  {
    hide *;
    var x, y, z := Seg(Past, At(o.b), w), Seg(At(o.b), At(o.a), o.v), Seg(At(o.a), Future, w);
    var r := Seg(At(o.a + 1.0), Future, w);
    CompiledIs(w, SettingsAround(o, w), [o] + [Follower(o, w)]);
    AroundSorted(o, w);
    AroundBase(o, w);
    PunchTwo([x] + [y] + [z], o, Follower(o, w));
    AroundFirst(o, w, x, y, z);
    AroundSecond(o, w, x, y, z, r);
    AroundMerged(o, w, x, y, r);
  }

  lemma AroundValue<V>(o: Override<V>, w: V)
    requires o.b < o.a
    ensures ValueAt(w, SettingsAround(o, w), [o] + [Follower(o, w)], o.b) == o.v
  {
    var a, b := Setting(o.b, o.v), Setting(o.a, w);
    LatestStep([], a, o.b);
    LatestStep([a], b, o.b);
    CoveringStep([], o, o.b);
    CoveringStep([o], Follower(o, w), o.b);
    NothingCovers<V>(o.b);
    assert [] + [a] == [a] && [a] + [b] == SettingsAround(o, w) && [] + [o] == [o];
  }

  lemma {:induction false} ScansToLast<V>(list: seq<Seg<V>>, i: nat, t: real)
    requires list != [] && i <= |list| && forall k :: i <= k < |list| ==> !Covers(list[k], t)
    ensures Scan(list, i, t).v == list[|list| - 1].v
    decreases |list| - i
  {
    if i < |list| {
      ScansToLast(list, i + 1, t);
    }
  }

  lemma AroundAnswer<V>(o: Override<V>, w: V, list: seq<Seg<V>>)
    requires o.b < o.a
    requires list == [Seg(Past, At(o.b), w)] + [Seg(At(o.b), At(o.b), o.v)] + [Seg(At(o.a), Future, w)]
    ensures Scan(list, 0, o.b).v == w
  {
    hide Scan;
    ScansToLast(list, 0, o.b);
  }

  lemma AnswersAt<V(!new)>(v0: V, ev: seq<Setting<V>>, ov: seq<Override<V>>, t: real)
    requires Answers(v0, ev, ov)
    ensures Compiled(v0, ev, ov) != [] && Scan(Compiled(v0, ev, ov), 0, t).v == ValueAt(v0, ev, ov, t)
  {
    hide Compiled, Scan, ValueAt;
  }

  /** In such calls the state at the moment where the reversed override ends is not the one answered. */
  lemma ReversedFails<V(!new)>(o: Override<V>, w: V)
    requires o.b < o.a && w != o.v
    ensures !Answers(w, SettingsAround(o, w), [o] + [Follower(o, w)])
  {
    hide *;
    AroundCompiled(o, w);
    AroundValue(o, w);
    AroundAnswer(o, w, Compiled(w, SettingsAround(o, w), [o] + [Follower(o, w)]));
    if Answers(w, SettingsAround(o, w), [o] + [Follower(o, w)]) {
      AnswersAt(w, SettingsAround(o, w), [o] + [Follower(o, w)], o.b);
    }
  }

  /** Exactly which overrides are safe to call.  With any calls around it that are upright themselves, an override never
      spoils an answer, if and only if it does not end before it starts. */
  lemma SafeOverride<V(!new)>(o: Override<V>, w: V)
    requires w != o.v
    ensures (forall v0, ev, l, r :: Upright(l) && Upright(r) ==> Answers(v0, ev, l + [o] + r)) <==> o.a <= o.b
  {
    hide Answers;
    if o.a <= o.b {
      forall v0, ev, l, r | Upright(l) && Upright(r)
        ensures Answers(v0, ev, l + [o] + r)
      {
        UprightAnswers(v0, ev, l + [o] + r);
      }
    } else {
      ReversedFails(o, w);
      assert [] + [o] + [Follower(o, w)] == [o] + [Follower(o, w)];
      assert Upright<V>([]) && Upright([Follower(o, w)]);
    }
  }

  lemma UprightAnswers<V(!new)>(v0: V, ev: seq<Setting<V>>, ov: seq<Override<V>>)
    requires Upright(ov)
    ensures Answers(v0, ev, ov)
  {
    hide Compiled, Scan, ValueAt, ValueBefore;
    StateMeaning(v0, ev, ov, 0.0);
    forall t: real
      ensures Scan(Compiled(v0, ev, ov), 0, t).v == ValueAt(v0, ev, ov, t)
    {
      StateMeaning(v0, ev, ov, t);
    }
  }
}

/** The program's object. */
module StateTrack {
  import opened Wrappers
  import opened Timeline
  import opened StateTrackSpec

  class StateTrack<V(==, !new)> {
    const v0: V
    var ev: seq<Setting<V>>
    var ov: seq<Override<V>>
    var list: Option<seq<Seg<V>>>

    /** A compiled list is never stale. */
    ghost predicate Valid()
      reads this
    {
      list.Some? ==> list.value == Compiled(v0, ev, ov)
    }

    constructor (v0: V)
      ensures this.v0 == v0 && ev == [] && ov == [] && Valid()
    {
      this.v0 := v0;
      ev, ov, list := [], [], None;
    }

    method Set(t: real, v: V)
      requires Valid()
      modifies this`ev, this`list
      ensures Valid() && ev == old(ev) + [Setting(t, v)] && list == None
    {
      ev := ev + [Setting(t, v)];
      list := None;
    }

    method AddOverride(a: real, b: real, v: V)
      requires Valid()
      modifies this`ov, this`list
      ensures Valid() && ov == old(ov) + [Override(a, b, v)] && list == None
    {
      ov := ov + [Override(a, b, v)];
      list := None;
    }

    method Compile()
      requires Valid()
      modifies this`list
      ensures Valid() && list == Some(Compiled(v0, ev, ov))
    {
      hide Base, Punched, Merged, Sorted;
      var es, os := Sorted(ev, SetKey), Sorted(ov, OverrideKey);
      var segs := BuildBase(es);
      for k := 0 to |os|
        modifies {}
        invariant segs == PunchAll(Base(v0, es), os[..k])
      {
        assert os[..k + 1] == os[..k] + [os[k]];
        PunchAllStep(Base(v0, es), os[..k], os[k]);
        segs := Punch(segs, os[k]);
      }
      assert os[..|os|] == os;
      segs := Merge(segs);
      list := Some(segs);
    }

    method BuildBase(es: seq<Setting<V>>) returns (segs: seq<Seg<V>>)
      ensures segs == Base(v0, es)
    {
      segs := [Seg(Past, Future, v0)];
      for i := 0 to |es|
        invariant |segs| == i + 1
        invariant forall j :: 0 <= j <= i ==> segs[j] == Seg(StartOf(es, j), Future, if j == 0 then v0 else es[j - 1].v)
      {
        segs := segs + [Seg(At(es[i].t), Future, es[i].v)];
      }
      for i := 0 to |segs|
        invariant |segs| == |es| + 1
        invariant forall j :: 0 <= j < i ==> segs[j] == BaseSeg(v0, es, j)
        invariant forall j :: i <= j < |segs| ==>
                  segs[j] == Seg(StartOf(es, j), Future, if j == 0 then v0 else es[j - 1].v)
      {
        segs := segs[i := segs[i].(b := if i + 1 < |segs| then segs[i + 1].a else Future)];
      }
    }

    method Punch(segs: seq<Seg<V>>, o: Override<V>) returns (punched: seq<Seg<V>>)
      ensures punched == Punched(segs, o)
    {
      hide Holed, Sorted;
      var kept: seq<Seg<V>> := [];
      assert segs[0..] == segs;
      for i := 0 to |segs|
        modifies {}
        invariant kept + Holed(segs[i..], o) == Holed(segs, o)
      {
        var s := segs[i];
        ghost var before := kept;
        if s.b.Le(At(o.a)) || At(o.b).Le(s.a) {
          kept := kept + [s];
        } else {
          if s.a.Lt(At(o.a)) {
            kept := kept + [Seg(s.a, At(o.a), s.v)];
          }
          if At(o.b).Lt(s.b) {
            kept := kept + [Seg(At(o.b), s.b, s.v)];
          }
        }
        assert kept == before + Remains(s, o);
        assert segs[i..][0] == s && segs[i..][1..] == segs[i + 1..];
        HoledStep(segs[i..], o);
      }
      assert segs[|segs|..] == [];
      NothingHoled(segs[|segs|..], o);
      assert kept == Holed(segs, o);
      punched := Sorted(kept + [Window(o)], SegKey);
    }

    method Merge(segs: seq<Seg<V>>) returns (m: seq<Seg<V>>)
      ensures m == Merged(segs)
    {
      m := [];
      for i := 0 to |segs|
        invariant m == Merged(segs[..i])
      {
        assert segs[..i + 1][..i] == segs[..i];
        var s := segs[i];
        if m != [] && m[|m| - 1].v == s.v && m[|m| - 1].b == s.a {
          m := m[|m| - 1 := m[|m| - 1].(b := s.b)];
        } else {
          m := m + [s];
        }
      }
      assert segs[..|segs|] == segs;
    }

    /** Looking up compiles first when a call came in since.  The answer is the scan of the compiled list.  It
        is the state meant at `t`, except perhaps when an override that ends before it starts shows the state that is
        there right before its start. */
    method StateAt(t: real) returns (r: Sample<V>)
      requires Valid()
      modifies this`list
      ensures Valid() && list == Some(Compiled(v0, ev, ov))
      ensures list.value != [] && r == Scan(list.value, 0, t)
      ensures Unlike(v0, ev, ov) ==> r.v == ValueAt(v0, ev, ov, t)
    {
      hide Compiled, ValueAt;
      if list.None? {
        Compile();
      }
      if Unlike(v0, ev, ov) {
        StateMeaning(v0, ev, ov, t);
      }
      var l := list.value;
      SomeWindow(v0, ev, ov);
      for i := 0 to |l|
        invariant Scan(l, 0, t) == Scan(l, i, t)
      {
        if Covers(l[i], t) {
          return SampleOf(l, i, t);
        }
      }
      var last := l[|l| - 1];
      r := Sample(last.v, Since(last.a, t), Endless, if |l| > 1 then l[|l| - 2].v else last.v, last.v);
    }
  }
}

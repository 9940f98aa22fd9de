/**
  A number moved over time (`Track` in assets/promo-kit/film/mascot.js): calls of
  `add`, in any order, are sorted, and each starts from the value that the
  earlier ones give at its time.
*/
module TrackSpec {
  import opened Reals
  import opened Timeline

  /** One call of `add`; the duration is never negative. */
  datatype Move = Move(t: real, to: real, dur: real, ease: real -> real)

  /** A move with the value it starts from. */
  datatype Event = Event(move: Move, from: real)

  function Lerp(a: real, b: real, u: real): real {
    a + (b - a) * u
  }

  function MoveKey(m: Move): Edge {
    At(m.t)
  }

  function EventKey(e: Event): Edge {
    At(e.move.t)
  }

  /** A move that has started, at time `t`. */
  function Shape(m: Move, from: real, t: real): real {
    if m.dur <= 0.0 || t >= m.t + m.dur then m.to else Lerp(from, m.to, m.ease((t - m.t) / m.dur))
  }

  /** The value at `t` after the moves `ms`: the last move that has started decides, from the value before it. */
  function ValueAt(v0: real, ms: seq<Move>, t: real): real
    decreases |ms|
  {
    if ms == [] then v0
    else
      var front, m := ms[..|ms| - 1], ms[|ms| - 1];
      if m.t > t then ValueAt(v0, front, t) else Shape(m, ValueAt(v0, front, m.t), t)
  }

  /** Every move given the value it starts from. */
  function Filled(v0: real, ms: seq<Move>): (r: seq<Event>)
    ensures |r| == |ms|
    decreases |ms|
  {
    if ms == [] then []
    else
      var front, m := ms[..|ms| - 1], ms[|ms| - 1];
      Filled(v0, front) + [Event(m, ValueAt(v0, front, m.t))]
  }

  function MovesOf(es: seq<Event>): (r: seq<Move>)
    ensures |r| == |es|
  {
    seq(|es|, i requires 0 <= i < |es| => es[i].move)
  }

  lemma ValueAtSnoc(v0: real, ms: seq<Move>, m: Move, t: real)
    ensures ValueAt(v0, ms + [m], t) == if m.t > t then ValueAt(v0, ms, t) else Shape(m, ValueAt(v0, ms, m.t), t)
    ensures Filled(v0, ms + [m]) == Filled(v0, ms) + [Event(m, ValueAt(v0, ms, m.t))]
  {
    assert (ms + [m])[..|ms|] == ms;
  }

  lemma FilledMoves(v0: real, ms: seq<Move>)
    ensures MovesOf(Filled(v0, ms)) == ms
    decreases |ms|
  {
    if ms != [] {
      FilledMoves(v0, ms[..|ms| - 1]);
      assert MovesOf(Filled(v0, ms[..|ms| - 1])) == ms[..|ms| - 1];
    }
  }

  lemma {:induction false} FilledPrefix(v0: real, ms: seq<Move>, n: nat)
    requires n <= |ms|
    ensures Filled(v0, ms)[..n] == Filled(v0, ms[..n])
    ensures n < |ms| ==> Filled(v0, ms)[n] == Event(ms[n], ValueAt(v0, ms[..n], ms[n].t))
    decreases |ms|
  {
    if n < |ms| {
      var k := |ms| - 1;
      assert ms == ms[..k] + [ms[k]];
      ValueAtSnoc(v0, ms[..k], ms[k], 0.0);
      FilledPrefix(v0, ms[..k], n);
      assert ms[..k][..n] == ms[..n];
    } else {
      assert ms[..n] == ms;
    }
  }

  /** Moves that start later do not matter yet. */
  lemma {:induction false} LaterIgnored(v0: real, ms: seq<Move>, i: nat, t: real)
    requires i <= |ms| && forall j :: i <= j < |ms| ==> ms[j].t > t
    ensures ValueAt(v0, ms, t) == ValueAt(v0, ms[..i], t)
    decreases |ms|
  {
    if i < |ms| {
      var k := |ms| - 1;
      LaterIgnored(v0, ms[..k], i, t);
      assert ms[..k][..i] == ms[..i];
    } else {
      assert ms[..i] == ms;
    }
  }

  // ----- the order of the calls ------------------------------------------------------------

  predicate Jump(m: Move) {
    m.dur <= 0.0
  }

  /** The moves that start at `x`, in order. */
  function AtMoment(ms: seq<Move>, x: real): seq<Move>
    decreases |ms|
  {
    if ms == [] then []
    else AtMoment(ms[..|ms| - 1], x) + if ms[|ms| - 1].t == x then [ms[|ms| - 1]] else []
  }

  /** Wherever several moves share a moment, one of them is a jump. */
  ghost predicate SharedHaveJump(ms: seq<Move>) {
    forall m <- ms :: |AtMoment(ms, m.t)| > 1 ==> exists n <- ms :: n.t == m.t && Jump(n)
  }

  /** No move starts before one that shares its moment is over. */
  ghost predicate Uncut(ms: seq<Move>) {
    forall m <- ms, n <- ms :: |AtMoment(ms, m.t)| > 1 && n.t > m.t ==> n.t > m.t + m.dur
  }

  /** Moves that share a moment go to one target. */
  ghost predicate Agreeing(ms: seq<Move>) {
    forall m <- ms, n <- ms :: m.t == n.t ==> m.to == n.to
  }

  lemma {:induction false} AtMomentJoin(a: seq<Move>, b: seq<Move>, x: real)
    ensures AtMoment(a + b, x) == AtMoment(a, x) + AtMoment(b, x)
    decreases |b|
  {
    if b == [] {
      assert a + b == a;
    } else {
      assert (a + b)[..|a + b| - 1] == a + b[..|b| - 1];
      AtMomentJoin(a, b[..|b| - 1], x);
    }
  }

  lemma {:induction false} AtMomentCount(ms: seq<Move>, x: real, m: Move)
    ensures multiset(AtMoment(ms, x))[m] == if m.t == x then multiset(ms)[m] else 0
    decreases |ms|
  {
    if ms != [] {
      var front, last := ms[..|ms| - 1], ms[|ms| - 1];
      assert ms == front + [last];
      AtMomentCount(front, x, m);
    }
  }

  lemma AtMomentPermuted(a: seq<Move>, b: seq<Move>, x: real)
    requires multiset(a) == multiset(b)
    ensures |AtMoment(a, x)| == |AtMoment(b, x)|
  {
    hide AtMoment;
    var c, d := AtMoment(a, x), AtMoment(b, x);
    forall m
      ensures multiset(c)[m] == multiset(d)[m]
    {
      AtMomentCount(a, x, m);
      AtMomentCount(b, x, m);
    }
    assert multiset(c) == multiset(d);
    SameMembers(c, d);
  }

  lemma AtMomentNone(ms: seq<Move>, x: real)
    requires forall m <- ms :: m.t != x
    ensures AtMoment(ms, x) == []
  {
  }

  lemma AtMomentSome(ms: seq<Move>, m: Move)
    requires m in ms
    ensures |AtMoment(ms, m.t)| > 0
  {
    hide AtMoment;
    AtMomentCount(ms, m.t, m);
    assert multiset(ms)[m] > 0;
    assert m in multiset(AtMoment(ms, m.t));
  }

  lemma SharedMoment(ms: seq<Move>, i: nat, j: nat)
    requires i < j < |ms| && ms[i].t == ms[j].t
    ensures |AtMoment(ms, ms[i].t)| > 1
  {
    hide AtMoment;
    var a, b := ms[..j], ms[j..];
    assert ms == a + b && ms[i] in a && ms[j] in b;
    AtMomentJoin(a, b, ms[i].t);
    AtMomentSome(a, ms[i]);
    AtMomentSome(b, ms[j]);
  }

  // ----- groups that start together ----------------------------------------------------------

  ghost predicate SameValues(v0: real, a: seq<Move>, b: seq<Move>) {
    forall u :: ValueAt(v0, a, u) == ValueAt(v0, b, u)
  }

  lemma SnocSame(v0: real, a: seq<Move>, b: seq<Move>, m: Move)
    requires SameValues(v0, a, b)
    ensures SameValues(v0, a + [m], b + [m])
  {
    hide ValueAt;
    forall u
      ensures ValueAt(v0, a + [m], u) == ValueAt(v0, b + [m], u)
    {
      ValueAtSnoc(v0, a, m, u);
      ValueAtSnoc(v0, b, m, u);
    }
  }

  /** A ramp to where it starts stays there. */
  lemma FlatShape(m: Move, from: real, t: real)
    requires from == m.to
    ensures Shape(m, from, t) == m.to
  {
    if m.dur > 0.0 && t < m.t + m.dur {
      var u := m.ease((t - m.t) / m.dur);
      assert Lerp(m.to, m.to, u) == m.to + 0.0 * u;
    }
  }

  /** Moves that start together, a jump among them, with one target, do what a jump there does. */
  lemma {:induction false} GroupValue(v0: real, l: seq<Move>, g: seq<Move>, x: real, c: real, t: real)
    requires (forall m <- g :: m.t == x && m.to == c) && exists m <- g :: Jump(m)
    ensures ValueAt(v0, l + g, t) == if t < x then ValueAt(v0, l, t) else c
    decreases |g|
  {
    hide ValueAt, Shape;
    var front, m := g[..|g| - 1], g[|g| - 1];
    assert g == front + [m] && l + g == (l + front) + [m];
    ValueAtSnoc(v0, l + front, m, t);
    if t < x {
      LaterIgnored(v0, l + front, |l|, t);
      assert (l + front)[..|l|] == l;
    } else if Jump(m) {
      JumpShape(m, ValueAt(v0, l + front, x), t);
    } else {
      GroupValue(v0, l, front, x, c, x);
      FlatShape(m, c, t);
    }
  }

  lemma JumpShape(m: Move, from: real, t: real)
    ensures Jump(m) || t >= m.t + m.dur ==> Shape(m, from, t) == m.to
  {
  }

  /** The moves that start last of all. */
  lemma {:induction false} LastGroup(s: seq<Move>) returns (l: seq<Move>, g: seq<Move>)
    requires Ordered(s, MoveKey) && s != []
    ensures s == l + g && g != [] && Ordered(l, MoveKey)
    ensures (forall m <- g :: m.t == s[|s| - 1].t) && (forall m <- l :: m.t < s[|s| - 1].t)
    decreases |s|
  {
    var front, last := s[..|s| - 1], s[|s| - 1];
    l, g := front, [last];
    LastLargest(s, MoveKey);
    if front != [] {
      LastLargest(front, MoveKey);
      if front[|front| - 1].t == last.t {
        l, g := LastGroup(front);
        g := g + [last];
      }
    }
  }

  lemma PartsPermuted(l: seq<Move>, g: seq<Move>, l': seq<Move>, g': seq<Move>, x: real)
    requires multiset(l + g) == multiset(l' + g')
    requires (forall m <- g :: m.t == x) && (forall m <- g' :: m.t == x)
    requires (forall m <- l :: m.t < x) && (forall m <- l' :: m.t < x)
    ensures multiset(l) == multiset(l') && multiset(g) == multiset(g')
  {
    forall m
      ensures multiset(l)[m] == multiset(l')[m] && multiset(g)[m] == multiset(g')[m]
    {
      assert multiset(l + g)[m] == multiset(l)[m] + multiset(g)[m];
      assert multiset(l' + g')[m] == multiset(l')[m] + multiset(g')[m];
      if m.t < x {
        assert m !in g && m !in g';
      } else {
        assert m !in l && m !in l';
      }
    }
  }

  /** Without the last group the conditions still hold. */
  lemma FrontAgrees(l: seq<Move>, g: seq<Move>, x: real)
    requires SharedHaveJump(l + g) && Agreeing(l + g) && (forall m <- g :: m.t == x) && (forall m <- l :: m.t < x)
    ensures SharedHaveJump(l) && Agreeing(l)
  {
    hide AtMoment;
    forall m <- l | |AtMoment(l, m.t)| > 1
      ensures exists n <- l :: n.t == m.t && Jump(n)
    {
      assert m in l + g;
      AtMomentJoin(l, g, m.t);
      AtMomentNone(g, m.t);
      var n :| n in l + g && n.t == m.t && Jump(n);
    }
    assert forall m <- l :: m in l + g;
  }

  /** In a group of several moves there is a jump. */
  lemma GroupHasJump(l: seq<Move>, g: seq<Move>, x: real)
    requires SharedHaveJump(l + g) && (forall m <- g :: m.t == x) && (forall m <- l :: m.t < x) && |g| > 1
    ensures exists n <- g :: Jump(n)
  {
    hide AtMoment;
    var all := l + g;
    assert g[0] in all && all[|l|].t == all[|l| + 1].t by {
      assert all[|l|] == g[0] && all[|l| + 1] == g[1] && g[1] in g;
    }
    SharedMoment(all, |l|, |l| + 1);
    var n :| n in all && n.t == x && Jump(n);
  }

  /** Two orders of the same calls, group by group. */
  lemma {:induction false} GroupsSame(v0: real, a: seq<Move>, b: seq<Move>)
    requires Ordered(a, MoveKey) && Ordered(b, MoveKey) && multiset(a) == multiset(b)
    requires SharedHaveJump(a) && Agreeing(a)
    ensures SameValues(v0, a, b)
    decreases |a|
  {
    SameMembers(a, b);
    if a != [] {
      hide *;
      var x := a[|a| - 1].t;
      SameLast(a, b);
      var l, g := LastGroup(a);
      var l', g' := LastGroup(b);
      PartsPermuted(l, g, l', g', x);
      SameMembers(g, g');
      FrontAgrees(l, g, x);
      GroupsSame(v0, l, l');
      if |g| == 1 {
        assert g == [g[0]] && g' == [g'[0]] && g[0] in g';
        SnocSame(v0, l, l', g[0]);
      } else {
        GroupHasJump(l, g, x);
        GroupTarget(l, g, x);
        BothGroups(v0, l, g, l', g', x, g[0].to);
      }
    } else {
      assert a == b;
      NothingDiffers(v0, a);
    }
  }

  lemma NothingDiffers(v0: real, a: seq<Move>)
    ensures SameValues(v0, a, a)
  {
  }

  lemma GroupTarget(l: seq<Move>, g: seq<Move>, x: real)
    requires Agreeing(l + g) && (forall m <- g :: m.t == x) && g != []
    ensures forall m <- g :: m.to == g[0].to
  {
    assert forall m <- g :: m in l + g;
  }

  lemma BothGroups(v0: real, l: seq<Move>, g: seq<Move>, l': seq<Move>, g': seq<Move>, x: real, c: real)
    requires SameValues(v0, l, l') && (forall m <- g :: m in g') && (exists m <- g :: Jump(m))
    requires (forall m <- g :: m.t == x && m.to == c) && (forall m <- g' :: m.t == x && m.to == c)
    ensures SameValues(v0, l + g, l' + g')
  {
    hide ValueAt;
    forall u
      ensures ValueAt(v0, l + g, u) == ValueAt(v0, l' + g', u)
    {
      GroupValue(v0, l, g, x, c, u);
      GroupValue(v0, l', g', x, c, u);
    }
  }

  lemma SameLast(a: seq<Move>, b: seq<Move>)
    requires Ordered(a, MoveKey) && Ordered(b, MoveKey) && multiset(a) == multiset(b) && a != [] && b != []
    ensures a[|a| - 1].t == b[|b| - 1].t
  {
    SameMembers(a, b);
    LastLargest(a, MoveKey);
    LastLargest(b, MoveKey);
    assert a[|a| - 1] in b && b[|b| - 1] in a;
  }

  // ----- when the order matters ----------------------------------------------------------------

  /** The calls `b` give the track of the calls `a`. */
  ghost predicate SameTrack(v0: real, a: seq<Move>, b: seq<Move>) {
    forall t :: ValueAt(v0, Sorted(a, MoveKey), t) == ValueAt(v0, Sorted(b, MoveKey), t)
  }

  /** Every order of the calls gives the same value at every time. */
  ghost predicate OrderFree(v0: real, a: seq<Move>) {
    forall b :: multiset(b) == multiset(a) ==> SameTrack(v0, a, b)
  }

  lemma SortedConditions(a: seq<Move>)
    requires SharedHaveJump(a) && Agreeing(a)
    ensures SharedHaveJump(Sorted(a, MoveKey)) && Agreeing(Sorted(a, MoveKey))
  {
    hide AtMoment;
    var s := Sorted(a, MoveKey);
    forall m <- s | |AtMoment(s, m.t)| > 1
      ensures exists n <- s :: n.t == m.t && Jump(n)
    {
      AtMomentPermuted(a, s, m.t);
      var n :| n in a && n.t == m.t && Jump(n);
    }
  }

  lemma AgreeingFree(v0: real, a: seq<Move>)
    requires SharedHaveJump(a) && Agreeing(a)
    ensures OrderFree(v0, a)
  {
    hide SharedHaveJump, Agreeing, ValueAt, Sorted, Ordered;
    forall b | multiset(b) == multiset(a)
      ensures SameTrack(v0, a, b)
    {
      SortedConditions(a);
      SortedOrdered(a, MoveKey);
      SortedOrdered(b, MoveKey);
      GroupsSame(v0, Sorted(a, MoveKey), Sorted(b, MoveKey));
    }
  }

  lemma {:induction false} InsertedLast(v0: real, s: seq<Move>, m: Move, t: real)
    requires Ordered(s, MoveKey) && m.t <= t && m.t + m.dur <= t && forall n <- s :: n.t <= m.t || n.t > t
    ensures ValueAt(v0, Inserted(s, m, MoveKey), t) == m.to
    decreases |s|
  {
    hide Inserted, ValueAt, Shape;
    InsertedStep(s, m, MoveKey);
    if s == [] || s[|s| - 1].t <= m.t {
      assert s == [] ==> [] + [m] == [m];
      ValueAtSnoc(v0, s, m, t);
      JumpShape(m, ValueAt(v0, s, m.t), t);
    } else {
      var front, last := s[..|s| - 1], s[|s| - 1];
      assert last in s;
      InsertedLast(v0, front, m, t);
      ValueAtSnoc(v0, Inserted(front, m, MoveKey), last, t);
    }
  }

  /** Of the calls at one moment, the last one decides what is shown once it is over, if nothing starts before. */
  lemma LastCallWins(v0: real, ms: seq<Move>, m: Move, t: real)
    requires m.t <= t && m.t + m.dur <= t && forall n <- ms :: n.t <= m.t || n.t > t
    ensures ValueAt(v0, Sorted(ms + [m], MoveKey), t) == m.to
  {
    hide Inserted, ValueAt;
    SortedLast(ms, m, MoveKey);
    SortedOrdered(ms, MoveKey);
    InsertedLast(v0, Sorted(ms, MoveKey), m, t);
  }

  /** Two jumps at one moment do depend on the order: the later call wins. */
  lemma SameStartOrder(v0: real, m: Move, n: Move)
    requires m.t == n.t && Jump(m) && Jump(n) && m.to != n.to
    ensures ValueAt(v0, Sorted([m, n], MoveKey), m.t) != ValueAt(v0, Sorted([n, m], MoveKey), m.t)
  {
    hide ValueAt, Sorted;
    assert [m] + [n] == [m, n] && [n] + [m] == [n, m];
    LastCallWins(v0, [m], n, m.t);
    LastCallWins(v0, [n], m, m.t);
  }

  lemma MovedLast(ms: seq<Move>, i: nat)
    requires i < |ms|
    ensures var rest := ms[..i] + ms[i + 1..];
            multiset(ms) == multiset(rest + [ms[i]]) && forall m <- rest :: m in ms
  {
    assert ms == ms[..i] + [ms[i]] + ms[i + 1..];
  }

  function Longest(m: Move, n: Move): real {
    var d := if m.dur < n.dur then n.dur else m.dur;
    if d < 0.0 then 0.0 else d
  }

  lemma OrderTells(v0: real, a: seq<Move>, b: seq<Move>)
    requires OrderFree(v0, a) && multiset(b) == multiset(a)
    ensures SameTrack(v0, a, b)
  {
    hide SameTrack;
  }

  /** With call `i` made last, its target is what shows once it is over. */
  lemma WithLast(v0: real, a: seq<Move>, i: nat, t: real)
    requires i < |a| && a[i].t <= t && a[i].t + a[i].dur <= t && OrderFree(v0, a)
    requires forall n <- a :: n.t <= a[i].t || n.t > t
    ensures ValueAt(v0, Sorted(a, MoveKey), t) == a[i].to
  {
    hide *;
    var rest := a[..i] + a[i + 1..];
    MovedLast(a, i);
    OrderTells(v0, a, rest + [a[i]]);
    LastCallWins(v0, rest, a[i], t);
    TrackTells(v0, a, rest + [a[i]], t);
  }

  lemma LongestIs(m: Move, n: Move)
    ensures Longest(m, n) >= 0.0 && Longest(m, n) >= m.dur && Longest(m, n) >= n.dur
  {
  }

  /** Moves at one moment with two targets: some order tells, once both would be over. */
  lemma DisagreeingTells(v0: real, a: seq<Move>, i: nat, j: nat)
    requires i < |a| && j < |a| && a[i].t == a[j].t && a[i].to != a[j].to && Uncut(a)
    ensures !OrderFree(v0, a)
  {
    hide *;
    SharedMoment(a, if i < j then i else j, if i < j then j else i);
    AfterUncut(a, i, j);
    LongestIs(a[i], a[j]);
    var t := a[i].t + Longest(a[i], a[j]);
    if OrderFree(v0, a) {
      WithLast(v0, a, i, t);
      WithLast(v0, a, j, t);
    }
  }

  lemma AfterUncut(a: seq<Move>, i: nat, j: nat)
    requires i < |a| && j < |a| && a[i].t == a[j].t && Uncut(a) && |AtMoment(a, a[i].t)| > 1
    ensures forall n <- a :: n.t <= a[i].t || n.t > a[i].t + Longest(a[i], a[j])
  {
    hide AtMoment;
    assert a[i] in a && a[j] in a;
  }

  lemma TrackTells(v0: real, a: seq<Move>, b: seq<Move>, t: real)
    ensures SameTrack(v0, a, b) ==> ValueAt(v0, Sorted(a, MoveKey), t) == ValueAt(v0, Sorted(b, MoveKey), t)
  {
    hide ValueAt, Sorted;
  }

  /** When the order of the calls does not matter, for calls with a jump wherever several share a moment: if those at
      one moment have one target, it never does; and if nothing starts before such a call is over, only then. */
  lemma CallOrderFree(v0: real, a: seq<Move>)
    requires SharedHaveJump(a)
    ensures Agreeing(a) ==> OrderFree(v0, a)
    ensures Uncut(a) ==> (OrderFree(v0, a) <==> Agreeing(a))
  {
    hide OrderFree, SharedHaveJump, Uncut;
    if Agreeing(a) {
      AgreeingFree(v0, a);
    } else if Uncut(a) {
      var m, n :| m in a && n in a && m.t == n.t && m.to != n.to;
      var i :| 0 <= i < |a| && a[i] == m;
      var j :| 0 <= j < |a| && a[j] == n;
      DisagreeingTells(v0, a, i, j);
    }
  }

  /** So for calls of which only jumps share a moment it is exact as it stands. */
  lemma JumpsOrderFree(v0: real, a: seq<Move>)
    requires forall m <- a :: |AtMoment(a, m.t)| > 1 ==> Jump(m)
    ensures OrderFree(v0, a) <==> Agreeing(a)
  {
    hide AtMoment, OrderFree, Agreeing;
    CallOrderFree(v0, a);
  }

  lemma {:induction false} AloneAtMoment(ms: seq<Move>, x: real)
    requires DistinctKeys(ms, MoveKey)
    ensures |AtMoment(ms, x)| <= 1
    decreases |ms|
  {
    if ms != [] {
      var front, last := ms[..|ms| - 1], ms[|ms| - 1];
      AloneAtMoment(front, x);
      if last.t == x {
        assert forall i :: 0 <= i < |front| ==> MoveKey(ms[i]) != MoveKey(last);
        AtMomentNone(front, x);
      }
    }
  }

  /** Without shared moments the order never matters. */
  lemma DistinctFree(v0: real, a: seq<Move>)
    requires DistinctKeys(a, MoveKey)
    ensures OrderFree(v0, a)
  {
    hide AtMoment, OrderFree;
    forall m <- a
      ensures |AtMoment(a, m.t)| <= 1
    {
      AloneAtMoment(a, m.t);
    }
    forall m <- a, n <- a | m.t == n.t
      ensures m.to == n.to
    {
      var i :| 0 <= i < |a| && a[i] == m;
      var j :| 0 <= j < |a| && a[j] == n;
      assert MoveKey(a[i]) == MoveKey(a[j]);
    }
    CallOrderFree(v0, a);
  }

  // ----- what one move does ------------------------------------------------------------------

  /** At `t` the value is that of the last move that has started, `ms[k]`, whatever came before: on the straight line
      from the value it found to its target, as far along as its easing says, which may be beyond either end; and at its
      target from its end on. */
  lemma MoveMeaning(v0: real, ms: seq<Move>, k: nat, t: real)
    requires k < |ms| && ms[k].t <= t && forall j :: k < j < |ms| ==> ms[j].t > t
    ensures var m, found := ms[k], ValueAt(v0, ms[..k], ms[k].t);
            if m.dur > 0.0 && t < m.t + m.dur
            then ValueAt(v0, ms, t) - found == (m.to - found) * m.ease((t - m.t) / m.dur)
            else ValueAt(v0, ms, t) == m.to
  {
    hide *;
    LaterIgnored(v0, ms, k + 1, t);
    assert ms[..k + 1] == ms[..k] + [ms[k]];
    ValueAtSnoc(v0, ms[..k], ms[k], t);
    ShapeMeaning(ms[k], ValueAt(v0, ms[..k], ms[k].t), t);
  }

  lemma ShapeMeaning(m: Move, found: real, t: real)
    ensures if m.dur > 0.0 && t < m.t + m.dur
            then Shape(m, found, t) - found == (m.to - found) * m.ease((t - m.t) / m.dur)
            else Shape(m, found, t) == m.to
  {
    if m.dur > 0.0 && t < m.t + m.dur {
      LineMeaning(found, m.to, m.ease((t - m.t) / m.dur));
    }
    hide Lerp;
  }

  lemma LineMeaning(a: real, b: real, u: real)
    ensures Lerp(a, b, u) - a == (b - a) * u
  {
  }

  /** Before the first move the value is the initial one. */
  lemma NothingStarted(v0: real, ms: seq<Move>, t: real)
    requires forall m <- ms :: m.t > t
    ensures ValueAt(v0, ms, t) == v0
  {
    forall j | 0 <= j < |ms|
      ensures ms[j].t > t
    {
      assert ms[j] in ms;
    }
    LaterIgnored(v0, ms, 0, t);
  }

  /** A move along the easing that overshoots does pass its target before it settles there. */
  lemma Overshoots(v0: real, m: Move, s: real) returns (t: real)
    requires m.dur > 0.0 && s > 0.0 && m.ease == BackOut(s) && m.to > v0
    ensures m.t < t < m.t + m.dur && ValueAt(v0, [m], t) > m.to
  {
    var d := s / (2.0 * (s + 1.0));
    BackPeak(s, d);
    t := m.t + (1.0 - d) * m.dur;
    Halfway(m.t, m.dur, d, t);
    NothingStarted(v0, [], m.t);
    assert [m][..0] == [];
    MoveMeaning(v0, [m], 0, t);
    hide *;
    assert m.ease((t - m.t) / m.dur) == BackOut(s)(1.0 - d);
    var found := ValueAt(v0, [m][..0], m.t);
    Beyond(m.to - found, m.ease((t - m.t) / m.dur), ValueAt(v0, [m], t) - found);
  }

  lemma Beyond(gap: real, e: real, way: real)
    requires gap > 0.0 && e > 1.0 && way == gap * e
    ensures way > gap
  {
    Product(gap, e - 1.0);
    assert gap * e == gap * (e - 1.0) + gap;
  }

  lemma Product(x: real, y: real)
    requires x > 0.0 && y > 0.0
    ensures x * y > 0.0
  {
  }

  lemma Halfway(start: real, dur: real, d: real, t: real)
    requires dur > 0.0 && 0.0 < d < 1.0 && t == start + (1.0 - d) * dur
    ensures start < t < start + dur && (t - start) / dur == 1.0 - d
  {
    Product(1.0 - d, dur);
    Product(d, dur);
    assert (1.0 - d) * dur == dur - d * dur;
    var q := (t - start) / dur;
    assert q * dur == t - start;
    if q > 1.0 - d {
      Product(q - (1.0 - d), dur);
    } else if q < 1.0 - d {
      Product((1.0 - d) - q, dur);
    }
  }

  lemma BackPeak(s: real, d: real)
    requires s > 0.0 && d == s / (2.0 * (s + 1.0))
    ensures 0.0 < d < 1.0 && BackOut(s)(1.0 - d) > 1.0
  {
    hide *;
    PeakPlace(s, d);
    var e := (s + 1.0) * d - s;
    BackNear(s, d, e);
    Outwards(d, e, BackOut(s)(1.0 - d));
  }

  lemma PeakPlace(s: real, d: real)
    requires s > 0.0 && d == s / (2.0 * (s + 1.0))
    ensures 0.0 < d < 1.0 && (s + 1.0) * d - s < 0.0
  {
    var k := 2.0 * (s + 1.0);
    assert d * k == s && (s + 1.0) * d == s / 2.0;
    if d <= 0.0 {
      NonNegative(-d, k);
    }
    assert (d - 1.0) * k == s - k;
    if d >= 1.0 {
      NonNegative(d - 1.0, k);
    }
  }

  /** The overshooting easing, seen from its end. */
  lemma BackNear(s: real, d: real, e: real)
    requires 0.0 <= d <= 1.0 && e == (s + 1.0) * d - s
    ensures BackOut(s)(1.0 - d) == 1.0 - d * d * e
  {
    assert Clamped(1.0 - d) - 1.0 == -d;
    hide Clamped;
    assert (-d) * (-d) == d * d;
    BackMirror(s, d);
  }

  lemma Outwards(d: real, e: real, peak: real)
    requires d > 0.0 && e < 0.0 && peak == 1.0 - d * d * e
    ensures peak > 1.0
  {
    Product(d, -e);
    assert d * (-e) == -(d * e);
    Product(d, -(d * e));
    assert d * (-(d * e)) == -(d * (d * e)) && d * d * e == d * (d * e);
  }

  // ----- continuity ---------------------------------------------------------------------------

  /** `d` is small enough around `x` for the tolerance `eps`. */
  ghost predicate Near(f: real -> real, x: real, eps: real, d: real) {
    d > 0.0 && forall y :: Abs(y - x) < d ==> Abs(f(y) - f(x)) < eps
  }

  ghost predicate Approached(f: real -> real, x: real, eps: real) {
    exists d :: Near(f, x, eps, d)
  }

  ghost predicate ContinuousAt(f: real -> real, x: real) {
    forall eps :: eps > 0.0 ==> Approached(f, x, eps)
  }

  ghost predicate Continuous(f: real -> real) {
    forall x :: ContinuousAt(f, x)
  }

  function Clamped(u: real): real {
    if u < 0.0 then 0.0 else if u > 1.0 then 1.0 else u
  }

  /** An easing: from 0 to 1 over the unit interval, without a jump inside it. */
  ghost predicate Easing(f: real -> real) {
    f(0.0) == 0.0 && f(1.0) == 1.0 && Continuous(u => f(Clamped(u)))
  }

  /** A started move as a function of all times: still before it, at its target behind it. */
  function Ramp(m: Move, from: real): real -> real
    requires m.dur > 0.0
  {
    t => Lerp(from, m.to, m.ease(Clamped((t - m.t) / m.dur)))
  }

  lemma QuotientSides(q: real, w: real)
    requires w > 0.0
    ensures q * w <= 0.0 ==> q <= 0.0
    ensures q * w >= 0.0 ==> q >= 0.0
    ensures q * w <= w ==> q <= 1.0
    ensures q * w >= w ==> q >= 1.0
  {
    if q > 0.0 {
      assert q * w > 0.0;
    }
    if q > 1.0 {
      assert (q - 1.0) * w > 0.0;
    }
    if q < 1.0 {
      assert (1.0 - q) * w > 0.0;
    }
  }

  lemma Quotient(a: real, w: real)
    requires w > 0.0
    ensures a <= 0.0 ==> Clamped(a / w) == 0.0
    ensures 0.0 <= a <= w ==> Clamped(a / w) == a / w
    ensures a >= w ==> Clamped(a / w) == 1.0
  {
    var q := a / w;
    assert q * w == a;
    QuotientSides(q, w);
  }

  /** The ramp is the move from its start on, and starts at the value before it. */
  lemma RampIs(m: Move, from: real, t: real)
    requires m.dur > 0.0 && Easing(m.ease)
    ensures t >= m.t ==> Ramp(m, from)(t) == Shape(m, from, t)
    ensures t <= m.t ==> Ramp(m, from)(t) == from
  {
    var a := t - m.t;
    Quotient(a, m.dur);
    assert Ramp(m, from)(t) == Lerp(from, m.to, m.ease(Clamped(a / m.dur)));
    assert Lerp(from, m.to, 0.0) == from && Lerp(from, m.to, 1.0) == m.to;
  }

  lemma ScaledDistance(y: real, x: real, c: real, w: real, d: real)
    requires w > 0.0 && Abs(y - x) < d * w
    ensures Abs((y - c) / w - (x - c) / w) < d
  {
    var q := (y - c) / w - (x - c) / w;
    assert q * w == y - x;
    assert q >= d ==> q * w >= d * w;
    assert -q >= d ==> -q * w >= d * w;
  }

  lemma ScaledValue(from: real, to: real, p: real, q: real, eps: real)
    requires eps > 0.0 && Abs(p - q) < eps / (Abs(to - from) + 1.0)
    ensures Abs(Lerp(from, to, p) - Lerp(from, to, q)) < eps
  {
    var b := Abs(to - from) + 1.0;
    var e := eps / b;
    assert e * b == eps;
    assert Lerp(from, to, p) - Lerp(from, to, q) == (to - from) * (p - q);
    ProductBound(to - from, p - q, b, e);
  }

  lemma ProductBound(x: real, y: real, b: real, e: real)
    requires Abs(x) < b && Abs(y) < e
    ensures Abs(x * y) < b * e
  {
    var ax, ay := Abs(x), Abs(y);
    assert Abs(x * y) == ax * ay;
    assert ax * ay <= b * ay < b * e || ay == 0.0;
    if ay == 0.0 {
      assert b * e > 0.0;
    }
  }

  lemma RampContinuousAt(m: Move, from: real, x: real)
    requires m.dur > 0.0 && Easing(m.ease)
    ensures ContinuousAt(Ramp(m, from), x)
  {
    var f := Ramp(m, from);
    var g := (u: real) => m.ease(Clamped(u));
    var u := (x - m.t) / m.dur;
    forall eps: real | eps > 0.0
      ensures Approached(f, x, eps)
    {
      var e := eps / (Abs(m.to - from) + 1.0);
      assert ContinuousAt(g, u) && Approached(g, u, e);
      var d :| Near(g, u, e, d);
      forall y | Abs(y - x) < d * m.dur
        ensures Abs(f(y) - f(x)) < eps
      {
        ScaledDistance(y, x, m.t, m.dur, d);
        assert Abs(g((y - m.t) / m.dur) - g(u)) < e;
        ScaledValue(from, m.to, g((y - m.t) / m.dur), g(u), eps);
      }
      assert Near(f, x, eps, d * m.dur);
    }
  }

  /** Two continuous functions that meet at `c`, one before it and one from it on. */
  lemma Glued(f: real -> real, g: real -> real, h: real -> real, c: real)
    requires Continuous(f) && Continuous(g) && f(c) == g(c)
    requires forall t :: h(t) == if t < c then f(t) else g(t)
    ensures Continuous(h)
  {
    forall x, eps: real | eps > 0.0
      ensures Approached(h, x, eps)
    {
      assert ContinuousAt(f, x) && ContinuousAt(g, x) && Approached(f, x, eps) && Approached(g, x, eps);
      var d :| Near(f, x, eps, d);
      var e :| Near(g, x, eps, e);
      var r := if d < e then d else e;
      if x == c {
        assert Near(h, x, eps, r);
      } else {
        var gap := Abs(x - c);
        assert Near(h, x, eps, if r < gap then r else gap);
      }
    }
  }

  /** Moves of positive length with proper easings leave the value continuous, however they overlap. */
  lemma {:induction false} ValueContinuous(v0: real, ms: seq<Move>)
    requires Ordered(ms, MoveKey) && forall m <- ms :: m.dur > 0.0 && Easing(m.ease)
    ensures Continuous(t => ValueAt(v0, ms, t))
    decreases |ms|
  {
    var h := t => ValueAt(v0, ms, t);
    if ms == [] {
      forall x, eps: real | eps > 0.0
        ensures Approached(h, x, eps)
      {
        assert Near(h, x, eps, 1.0);
      }
    } else {
      var front, m := ms[..|ms| - 1], ms[|ms| - 1];
      assert m in ms;
      ValueContinuous(v0, front);
      var f, from := t => ValueAt(v0, front, t), ValueAt(v0, front, m.t);
      var g := Ramp(m, from);
      forall x
        ensures ContinuousAt(g, x)
      {
        RampContinuousAt(m, from, x);
      }
      forall t
        ensures h(t) == if t < m.t then f(t) else g(t)
      {
        RampIs(m, from, t);
      }
      RampIs(m, from, m.t);
      Glued(f, g, h, m.t);
    }
  }

  /** So does a track, whatever the order of the calls. */
  lemma TrackContinuous(v0: real, calls: seq<Move>)
    requires forall m <- calls :: m.dur > 0.0 && Easing(m.ease)
    ensures Continuous(t => ValueAt(v0, Sorted(calls, MoveKey), t))
  {
    SortedOrdered(calls, MoveKey);
    ValueContinuous(v0, Sorted(calls, MoveKey));
  }

  // ----- the easings --------------------------------------------------------------------------

  function Cubic(a: real, b: real, c: real, u: real): real {
    a * u * u * u + b * u * u + c * u
  }

  function Slope(a: real, b: real, c: real): real {
    3.0 * Abs(a) + 2.0 * Abs(b) + Abs(c) + 1.0
  }

  lemma AbsTimes(x: real, y: real, m: real)
    requires 0.0 <= y <= m
    ensures Abs(x * y) <= m * Abs(x)
  {
    assert Abs(x * y) == Abs(x) * y;
    assert Abs(x) * (m - y) >= 0.0;
  }


  lemma UnitProduct(x: real, y: real)
    requires 0.0 <= x <= 1.0 && 0.0 <= y <= 1.0
    ensures 0.0 <= x * y <= 1.0
  {
    NonNegative(x, y);
    NonNegative(x, 1.0 - y);
  }

  /** The difference quotient of a cubic between `x` and `y`. */
  function Rise(a: real, b: real, c: real, x: real, y: real): real {
    a * (x * x + x * y + y * y) + b * (x + y) + c
  }

  lemma Triangle(p: real, q: real, r: real)
    ensures Abs(p + q + r) <= Abs(p) + Abs(q) + Abs(r)
  {
  }

  lemma RiseBound(a: real, b: real, c: real, x: real, y: real)
    requires 0.0 <= x <= 1.0 && 0.0 <= y <= 1.0
    ensures Abs(Rise(a, b, c, x, y)) < Slope(a, b, c)
  {
    var squares, sum := x * x + x * y + y * y, x + y;
    UnitProduct(x, x);
    UnitProduct(x, y);
    UnitProduct(y, y);
    AbsTimes(a, squares, 3.0);
    AbsTimes(b, sum, 2.0);
    Triangle(a * squares, b * sum, c);
    hide Abs;
    assert Rise(a, b, c, x, y) == a * squares + b * sum + c;
  }

  lemma RiseIs(a: real, b: real, c: real, x: real, y: real)
    ensures Cubic(a, b, c, x) - Cubic(a, b, c, y) == (x - y) * Rise(a, b, c, x, y)
  {
    assert x * x * x - y * y * y == (x - y) * (x * x + x * y + y * y);
    assert x * x - y * y == (x - y) * (x + y);
    assert a * x * x * x - a * y * y * y == a * (x * x * x - y * y * y);
    assert b * x * x - b * y * y == b * (x * x - y * y);
  }

  lemma CubicClose(a: real, b: real, c: real, x: real, y: real, eps: real)
    requires 0.0 <= x <= 1.0 && 0.0 <= y <= 1.0 && eps > 0.0 && Slope(a, b, c) > 0.0
    requires Abs(x - y) < eps / Slope(a, b, c)
    ensures Abs(Cubic(a, b, c, x) - Cubic(a, b, c, y)) < eps
  {
    hide Cubic, Slope, Rise;
    var s, gap, rise := Slope(a, b, c), x - y, Rise(a, b, c, x, y);
    RiseBound(a, b, c, x, y);
    RiseIs(a, b, c, x, y);
    Share(eps, s);
    ProductBound(gap, rise, eps / s, s);
  }

  lemma Share(eps: real, s: real)
    requires s > 0.0
    ensures eps / s * s == eps && (eps > 0.0 ==> eps / s > 0.0)
  {
    QuotientSides(eps / s, s);
  }

  lemma CubicContinuous(f: real -> real, a: real, b: real, c: real, d: real)
    requires forall u :: f(u) == Cubic(a, b, c, Clamped(u)) + d
    ensures Continuous(f)
  {
    hide Cubic;
    forall x, eps: real | eps > 0.0
      ensures Approached(f, x, eps)
    {
      assert Slope(a, b, c) > 0.0;
      var r := eps / Slope(a, b, c);
      Share(eps, Slope(a, b, c));
      forall y | Abs(y - x) < r
        ensures Abs(f(y) - f(x)) < eps
      {
        CubicClose(a, b, c, Clamped(y), Clamped(x), eps);
      }
      assert Near(f, x, eps, r);
    }
  }

  lemma SameContinuous(f: real -> real, g: real -> real)
    requires Continuous(f) && forall x :: f(x) == g(x)
    ensures Continuous(g)
  {
    forall x, eps: real | eps > 0.0
      ensures Approached(g, x, eps)
    {
      assert ContinuousAt(f, x) && Approached(f, x, eps);
      var d :| Near(f, x, eps, d);
      assert Near(g, x, eps, d);
    }
  }

  lemma EasingIs(f: real -> real)
    requires f(0.0) == 0.0 && f(1.0) == 1.0 && Continuous(f) && forall u :: f(Clamped(u)) == f(u)
    ensures Easing(f)
  {
    hide Clamped, Continuous;
    SameContinuous(f, u => f(Clamped(u)));
  }

  /** A clamped cubic from 0 to 1 is an easing. */
  lemma CubicEasing(f: real -> real, a: real, b: real, c: real)
    requires a + b + c == 1.0 && forall u :: f(u) == Cubic(a, b, c, Clamped(u))
    ensures Easing(f)
  {
    CubicContinuous(f, a, b, c, 0.0);
    EasingIs(f);
  }

  function Linear(u: real): real {
    Clamped(u)
  }

  function Smooth(u: real): real {
    var c := Clamped(u);
    c * c * (3.0 - 2.0 * c)
  }

  function PowerTwoOut(u: real): real {
    var c := Clamped(u);
    1.0 - (1.0 - c) * (1.0 - c)
  }

  function PowerTwoIn(u: real): real {
    var c := Clamped(u);
    c * c
  }

  function PowerThreeOut(u: real): real {
    var c := Clamped(u);
    1.0 - (1.0 - c) * (1.0 - c) * (1.0 - c)
  }

  function PowerThreeInOut(u: real): real {
    var c := Clamped(u);
    if c < 0.5 then 4.0 * c * c * c else 1.0 - (2.0 - 2.0 * c) * (2.0 - 2.0 * c) * (2.0 - 2.0 * c) / 2.0
  }

  /** Both overshooting easings take how far they overshoot. */
  function BackOut(s: real): real -> real {
    u => var c := Clamped(u) - 1.0; c * c * ((s + 1.0) * c + s) + 1.0
  }

  function BackIn(s: real): real -> real {
    u => var c := Clamped(u); c * c * ((s + 1.0) * c - s)
  }

  /** The sine easing, for a cosine and half its period. */
  function Wave(cos: real -> real, pi: real, c: real): real {
    0.5 - 0.5 * cos(pi * c)
  }

  function Sine(cos: real -> real, pi: real): real -> real {
    u => Wave(cos, pi, Clamped(u))
  }

  lemma CubicForms(u: real)
    ensures Linear(u) == Cubic(0.0, 0.0, 1.0, Clamped(u))
    ensures Smooth(u) == Cubic(-2.0, 3.0, 0.0, Clamped(u))
    ensures PowerTwoOut(u) == Cubic(0.0, -1.0, 2.0, Clamped(u))
    ensures PowerTwoIn(u) == Cubic(0.0, 1.0, 0.0, Clamped(u))
    ensures PowerThreeOut(u) == Cubic(1.0, -3.0, 3.0, Clamped(u))
  {
    hide Clamped;
  }

  lemma BackForms(s: real, u: real)
    ensures BackOut(s)(u) == Cubic(s + 1.0, -2.0 * s - 3.0, s + 3.0, Clamped(u))
    ensures BackIn(s)(u) == Cubic(s + 1.0, -s, 0.0, Clamped(u))
  {
    hide Clamped;
  }

  /** Overshooting easings, by any amount. */
  lemma BackEasings(s: real)
    ensures Easing(BackOut(s)) && Easing(BackIn(s))
  {
    hide *;
    forall u: real
      ensures BackOut(s)(u) == Cubic(s + 1.0, -2.0 * s - 3.0, s + 3.0, Clamped(u))
      ensures BackIn(s)(u) == Cubic(s + 1.0, -s, 0.0, Clamped(u))
    {
      BackForms(s, u);
    }
    CubicEasing(BackOut(s), s + 1.0, -2.0 * s - 3.0, s + 3.0);
    CubicEasing(BackIn(s), s + 1.0, -s, 0.0);
  }

  function FirstHalf(u: real): real {
    Cubic(4.0, 0.0, 0.0, Clamped(u)) + 0.0
  }

  function SecondHalf(u: real): real {
    Cubic(4.0, -12.0, 12.0, Clamped(u)) + -3.0
  }

  lemma InOutForms(u: real)
    ensures PowerThreeInOut(u) == if u < 0.5 then FirstHalf(u) else SecondHalf(u)
    ensures PowerThreeInOut(Clamped(u)) == PowerThreeInOut(u)
  {
    var c := Clamped(u);
    assert (2.0 - 2.0 * c) * (2.0 - 2.0 * c) * (2.0 - 2.0 * c) / 2.0 == 4.0 - 12.0 * c + 12.0 * c * c - 4.0 * c * c * c;
  }

  lemma InOutEnds()
    ensures FirstHalf(0.5) == SecondHalf(0.5) && PowerThreeInOut(0.0) == 0.0 && PowerThreeInOut(1.0) == 1.0
  {
    assert Clamped(0.5) == 0.5 && Clamped(0.0) == 0.0 && Clamped(1.0) == 1.0;
    hide Clamped;
    assert Cubic(4.0, 0.0, 0.0, 0.5) == 4.0 * 0.5 * 0.5 * 0.5 + 0.0 * 0.5 * 0.5 + 0.0 * 0.5;
    assert Cubic(4.0, -12.0, 12.0, 0.5) == 4.0 * 0.5 * 0.5 * 0.5 + -12.0 * 0.5 * 0.5 + 12.0 * 0.5;
  }

  lemma HalvesContinuous()
    ensures Continuous(FirstHalf) && Continuous(SecondHalf)
  {
    hide Cubic, Clamped, Continuous;
    CubicContinuous(FirstHalf, 4.0, 0.0, 0.0, 0.0);
    CubicContinuous(SecondHalf, 4.0, -12.0, 12.0, -3.0);
  }

  /** The easing of two cubics meets at its middle. */
  lemma InOutEasing()
    ensures Easing(PowerThreeInOut)
  {
    hide *;
    HalvesContinuous();
    InOutEnds();
    forall u: real
      ensures PowerThreeInOut(u) == if u < 0.5 then FirstHalf(u) else SecondHalf(u)
    {
      InOutForms(u);
    }
    Glued(FirstHalf, SecondHalf, PowerThreeInOut, 0.5);
    forall u: real
      ensures PowerThreeInOut(Clamped(u)) == PowerThreeInOut(u)
    {
      InOutForms(u);
    }
    EasingIs(PowerThreeInOut);
  }

  lemma ClampedClose(x: real, y: real)
    ensures Abs(Clamped(y) - Clamped(x)) <= Abs(y - x)
    ensures Clamped(Clamped(x)) == Clamped(x)
  {
  }

  lemma SineClose(cos: real -> real, pi: real, x: real, eps: real)
    requires pi > 0.0 && eps > 0.0 && Continuous(cos)
    ensures Approached(Sine(cos, pi), x, eps)
  {
    hide Clamped, Wave;
    var at := pi * Clamped(x);
    assert ContinuousAt(cos, at) && Approached(cos, at, eps);
    var d :| Near(cos, at, eps, d);
    Share(d, pi);
    forall y | Abs(y - x) < d / pi
      ensures Abs(Sine(cos, pi)(y) - Sine(cos, pi)(x)) < eps
    {
      ClampedClose(x, y);
      WaveNear(cos, pi, Clamped(x), Clamped(y), eps, d);
    }
    assert Near(Sine(cos, pi), x, eps, d / pi);
  }

  lemma WaveNear(cos: real -> real, pi: real, a: real, b: real, eps: real, d: real)
    requires pi > 0.0 && eps > 0.0 && Near(cos, pi * a, eps, d) && Abs(b - a) < d / pi
    ensures Abs(Wave(cos, pi, b) - Wave(cos, pi, a)) < eps
  {
    Share(d, pi);
    Stretched(pi, b, a, d / pi);
    var y, x := pi * b, pi * a;
    assert Abs(y - x) < d;
    assert Abs(cos(y) - cos(x)) < eps;
  }

  lemma WaveEnds(cos: real -> real, pi: real)
    requires cos(0.0) == 1.0 && cos(pi) == -1.0
    ensures Wave(cos, pi, 0.0) == 0.0 && Wave(cos, pi, 1.0) == 1.0
  {
    assert pi * 0.0 == 0.0 && pi * 1.0 == pi;
  }

  /** The default easing, for any cosine that is 1 at 0, -1 at half its period, and continuous. */
  lemma SineEasing(cos: real -> real, pi: real)
    requires pi > 0.0 && cos(0.0) == 1.0 && cos(pi) == -1.0 && Continuous(cos)
    ensures Easing(Sine(cos, pi))
  {
    forall x, eps: real | eps > 0.0
      ensures Approached(Sine(cos, pi), x, eps)
    {
      SineClose(cos, pi, x, eps);
    }
    WaveEnds(cos, pi);
    forall u: real
      ensures Sine(cos, pi)(Clamped(u)) == Sine(cos, pi)(u)
    {
      ClampedClose(u, u);
    }
    assert Clamped(0.0) == 0.0 && Clamped(1.0) == 1.0;
    hide Clamped, Wave, Approached;
    EasingIs(Sine(cos, pi));
  }

  lemma Stretched(k: real, y: real, x: real, d: real)
    requires k > 0.0 && Abs(y - x) < d
    ensures Abs(k * y - k * x) < d * k
  {
    assert k * y - k * x == k * (y - x);
    assert y >= x ==> k * (y - x) < k * d;
    assert y < x ==> k * (x - y) < k * d;
  }

  /** The polynomial easings of the film kit meet the condition for continuity. */
  lemma KitEasings()
    ensures Easing(Linear) && Easing(Smooth) && Easing(PowerTwoOut) && Easing(PowerTwoIn) && Easing(PowerThreeOut)
    ensures Easing(PowerThreeInOut) && forall s :: Easing(BackOut(s)) && Easing(BackIn(s))
  {
    hide *;
    forall u: real
      ensures Linear(u) == Cubic(0.0, 0.0, 1.0, Clamped(u)) && Smooth(u) == Cubic(-2.0, 3.0, 0.0, Clamped(u))
      ensures PowerTwoOut(u) == Cubic(0.0, -1.0, 2.0, Clamped(u)) && PowerTwoIn(u) == Cubic(0.0, 1.0, 0.0, Clamped(u))
      ensures PowerThreeOut(u) == Cubic(1.0, -3.0, 3.0, Clamped(u))
    {
      CubicForms(u);
    }
    CubicEasing(Linear, 0.0, 0.0, 1.0);
    CubicEasing(Smooth, -2.0, 3.0, 0.0);
    CubicEasing(PowerTwoOut, 0.0, -1.0, 2.0);
    CubicEasing(PowerTwoIn, 0.0, 1.0, 0.0);
    CubicEasing(PowerThreeOut, 1.0, -3.0, 3.0);
    InOutEasing();
    forall s {
      BackEasings(s);
    }
  }

  /** Which easing is which: the powers are what their names say, an `out` is its `in` run backwards, and the symmetric
      ones are their own. */
  lemma EasingShapes(u: real, s: real)
    requires 0.0 <= u <= 1.0
    ensures Linear(u) == u && PowerTwoIn(u) == u * u && PowerTwoOut(u) == 1.0 - PowerTwoIn(1.0 - u)
    ensures 1.0 - PowerThreeOut(1.0 - u) == u * u * u
    ensures u < 0.5 ==> PowerThreeInOut(u) == 4.0 * (1.0 - PowerThreeOut(1.0 - u))
    ensures PowerThreeInOut(u) == 1.0 - PowerThreeInOut(1.0 - u) && Smooth(u) == 1.0 - Smooth(1.0 - u)
    ensures BackOut(s)(u) == 1.0 - BackIn(s)(1.0 - u)
    ensures BackIn(s)(u) == PowerTwoIn(u) * ((s + 1.0) * u - s)
  {
    assert Clamped(u) == u && Clamped(1.0 - u) == 1.0 - u;
    hide Clamped;
    var v := 1.0 - u;
    assert 1.0 - v == u && u - 1.0 == -v;
    assert (-v) * (-v) == v * v;
    BackMirror(s, v);
    SmoothMirror(u);
  }

  lemma BackMirror(s: real, v: real)
    ensures v * v * ((s + 1.0) * (-v) + s) + 1.0 == 1.0 - v * v * ((s + 1.0) * v - s)
  {
    assert (s + 1.0) * (-v) + s == -((s + 1.0) * v - s);
  }

  lemma SmoothMirror(u: real)
    ensures u * u * (3.0 - 2.0 * u) == 1.0 - (1.0 - u) * (1.0 - u) * (3.0 - 2.0 * (1.0 - u))
  {
  }

  /** And the default one is symmetric too, for a cosine that is. */
  lemma SineMirror(cos: real -> real, pi: real, u: real)
    requires 0.0 <= u <= 1.0 && forall x :: cos(pi - x) == -cos(x)
    ensures Sine(cos, pi)(u) == 1.0 - Sine(cos, pi)(1.0 - u)
  {
    assert Clamped(u) == u && Clamped(1.0 - u) == 1.0 - u;
    assert pi * (1.0 - u) == pi - pi * u;
  }
}

/** The program's object. */
module Track {
  import opened Timeline
  import opened TrackSpec

  class Track {
    const v0: real
    var ev: seq<Event>
    var ok: bool
    ghost var calls: seq<Move>

    /** The events are the calls, sorted or not; once compiled, sorted and filled in. */
    ghost predicate Valid()
      reads this
    {
      && Sorted(MovesOf(ev), MoveKey) == Sorted(calls, MoveKey)
      && (ok ==> ev == Filled(v0, Sorted(calls, MoveKey)))
    }

    constructor (v0: real)
      ensures this.v0 == v0 && calls == [] && Valid()
    {
      this.v0 := v0;
      ev, ok, calls := [], true, [];
    }

    method Add(t: real, to: real, dur: real, ease: real -> real)
      requires Valid()
      modifies this
      ensures Valid()
      ensures calls == old(calls) + [Move(t, to, if dur < 0.0 then 0.0 else dur, ease)]
    {
      hide Sorted, Inserted, Filled;
      var m := Move(t, to, if dur < 0.0 then 0.0 else dur, ease);
      SortedLast(MovesOf(ev), m, MoveKey);
      SortedLast(calls, m, MoveKey);
      assert MovesOf(ev + [Event(m, 0.0)]) == MovesOf(ev) + [m];
      ev := ev + [Event(m, 0.0)];
      calls := calls + [m];
      ok := false;
    }

    /** The value after the first `n` events, which are sorted and filled in. */
    method ScanTo(t: real, n: nat) returns (v: real)
      requires n <= |ev| && Ordered(MovesOf(ev), MoveKey) && ev[..n] == Filled(v0, MovesOf(ev)[..n])
      ensures v == ValueAt(v0, MovesOf(ev)[..n], t)
    {
      hide ValueAt, Filled;
      ghost var ms := MovesOf(ev);
      v := v0;
      NoMoves(v0, t);
      for i := 0 to n
        invariant v == ValueAt(v0, ms[..i], t)
      {
        var e := ev[i];
        if e.move.t > t {
          StartsLater(ms, i, n, t);
          assert ms[..n][..i] == ms[..i];
          LaterIgnored(v0, ms[..n], i, t);
          break;
        }
        assert ms[..i + 1] == ms[..i] + [ms[i]];
        ValueAtSnoc(v0, ms[..i], ms[i], t);
        FilledPrefix(v0, ms[..n], i);
        assert ev[..n][i] == e && ms[..n][..i] == ms[..i];
        v := if e.move.dur <= 0.0 || t >= e.move.t + e.move.dur then e.move.to
             else Lerp(e.from, e.move.to, e.move.ease((t - e.move.t) / e.move.dur));
      }
    }

    method Compile()
      requires Valid()
      modifies this
      ensures Valid() && ok && calls == old(calls)
    {
      hide ValueAt, Filled, Sorted;
      ghost var ms := Sorted(calls, MoveKey);
      SortedMoves(ev);
      SortedOrdered(calls, MoveKey);
      SortedSame(ms, MoveKey);
      ev := Sorted(ev, EventKey);
      NoMoves(v0, 0.0);
      for i := 0 to |ev|
        modifies this`ev
        invariant |ev| == |ms| && MovesOf(ev) == ms && ev[..i] == Filled(v0, ms[..i])
      {
        var v := ScanTo(ev[i].move.t, i);
        ValueAtSnoc(v0, ms[..i], ms[i], 0.0);
        assert ms[..i + 1] == ms[..i] + [ms[i]];
        ghost var before := ev;
        ev := ev[i := ev[i].(from := v)];
        assert ev[..i + 1] == before[..i] + [Event(ms[i], v)];
      }
      assert ms[..|ms|] == ms && ev[..|ev|] == ev;
      ok := true;
    }

    method ValueNow(t: real) returns (v: real)
      requires Valid()
      modifies this
      ensures Valid() && calls == old(calls) && v == ValueAt(v0, Sorted(calls, MoveKey), t)
    {
      if !ok {
        Compile();
      }
      WholeList(ev, calls, v0);
      v := ScanTo(t, |ev|);
    }

    /** Where the value ends up. */
    method LastTarget() returns (v: real)
      requires Valid()
      modifies this
      ensures Valid() && calls == old(calls)
      ensures var ms := Sorted(calls, MoveKey); v == if ms == [] then v0 else ms[|ms| - 1].to
    {
      if !ok {
        Compile();
      }
      WholeList(ev, calls, v0);
      v := if |ev| > 0 then ev[|ev| - 1].move.to else v0;
    }
  }

  lemma NoMoves(v0: real, t: real)
    ensures ValueAt(v0, [], t) == v0 && Filled(v0, []) == []
  {
  }

  lemma StartsLater(ms: seq<Move>, i: nat, n: nat, t: real)
    requires i < n <= |ms| && Ordered(ms, MoveKey) && ms[i].t > t
    ensures forall j :: i <= j < n ==> ms[..n][j].t > t
  {
    forall j | i < j < n
      ensures ms[j].t > t
    {
      assert MoveKey(ms[i]).Le(MoveKey(ms[j]));
    }
  }

  lemma WholeList(ev: seq<Event>, calls: seq<Move>, v0: real)
    requires ev == Filled(v0, Sorted(calls, MoveKey))
    ensures MovesOf(ev) == Sorted(calls, MoveKey) && Ordered(MovesOf(ev), MoveKey)
    ensures MovesOf(ev)[..|ev|] == MovesOf(ev) && ev[..|ev|] == ev
  {
    FilledMoves(v0, Sorted(calls, MoveKey));
    SortedOrdered(calls, MoveKey);
  }

  lemma MovesSnoc(es: seq<Event>, e: Event)
    ensures MovesOf(es + [e]) == MovesOf(es) + [e.move]
    ensures MovesOf([e]) == [e.move] && MovesOf([]) == []
  {
  }

  lemma SameKeys(e: Event)
    ensures EventKey(e) == MoveKey(e.move)
  {
  }

  lemma {:induction false} InsertedMoves(es: seq<Event>, e: Event)
    ensures MovesOf(Inserted(es, e, EventKey)) == Inserted(MovesOf(es), e.move, MoveKey)
    decreases |es|
  {
    hide *;
    InsertedStep(es, e, EventKey);
    InsertedStep(MovesOf(es), e.move, MoveKey);
    MovesSnoc(es, e);
    if es != [] {
      var front, last := es[..|es| - 1], es[|es| - 1];
      assert es == front + [last];
      SameKeys(last);
      SameKeys(e);
      MovesSnoc(front, last);
      assert MovesOf(es)[..|es| - 1] == MovesOf(front);
      InsertedMoves(front, e);
      MovesSnoc(Inserted(front, e, EventKey), last);
    }
  }

  lemma {:induction false} SortedMoves(es: seq<Event>)
    ensures MovesOf(Sorted(es, EventKey)) == Sorted(MovesOf(es), MoveKey)
    decreases |es|
  {
    if es != [] {
      hide Inserted;
      var k := |es| - 1;
      assert MovesOf(es)[..k] == MovesOf(es[..k]);
      SortedMoves(es[..k]);
      InsertedMoves(Sorted(es[..k], EventKey), es[k]);
    }
  }
}

/**
  The ground behind a piece of text (`effectiveBackground` in
  assets/deck-kit/deck-audit.js): the translucent paints between the text and the
  slide, composited bottom-up into a list of candidate colours.
*/
module GroundSpec {
  import opened Wrappers
  import opened Reals
  import opened Places

  datatype Color = Color(r: real, g: real, b: real, a: real)

  /** The stops of one painted layer; a plain colour is a layer of one stop. */
  type Layer = seq<Color>

  /** A computed background-color. */
  datatype Fill = NoFill | Unreadable | Fill(c: Color)

  /** An element's paints: the layers of its background-image, topmost first, or None when one cannot be read. */
  datatype Node = Node(image: Option<seq<Layer>>, fill: Fill)

  function Mix(x: real, y: real, a: real): real {
    x * a + y * (1.0 - a)
  }

  function Over(fg: Color, bg: Color): Color {
    Color(Mix(fg.r, bg.r, fg.a), Mix(fg.g, bg.g, fg.a), Mix(fg.b, bg.b, fg.a), 1.0)
  }

  function Painted(c: Color, ground: Color): Color {
    if c.a >= 1.0 then c else Over(c, ground)
  }

  predicate Opaque(layer: Layer) {
    forall c <- layer :: c.a >= 1.0
  }

  // ----- the walk up from the text ---------------------------------------------------------

  function UpToOpaque(layers: seq<Layer>): seq<Layer> {
    if layers == [] then []
    else if Opaque(layers[0]) then [layers[0]]
    else [layers[0]] + UpToOpaque(layers[1..])
  }

  function FillLayers(fill: Fill): seq<Layer> {
    if fill.Fill? && fill.c.a > 0.0 then [[fill.c]] else []
  }

  /** Every paint of an element, or None when one cannot be read. */
  function PaintsOf(node: Node): Option<seq<Layer>> {
    if node.image.None? || node.fill.Unreadable? then None else Some(node.image.value + FillLayers(node.fill))
  }

  /** The whole stack of paints, innermost first, with nothing left out. */
  function Stack(path: seq<Node>): Option<seq<Layer>> {
    if path == [] then Some([])
    else
      var here, above := PaintsOf(path[0]), Stack(path[1..]);
      if here.None? || above.None? then None else Some(here.value + above.value)
  }

  /** The paints the walk collects: it ends at the first opaque layer, and gives up at an unreadable one. */
  function Walk(path: seq<Node>): Option<seq<Layer>> {
    if path == [] then Some([])
    else
      var node := path[0];
      if node.image.None? then None
      else
        var image := UpToOpaque(node.image.value);
        if image != [] && Opaque(image[|image| - 1]) then Some(image)
        else if node.fill.Unreadable? then None
        else
          var own := image + FillLayers(node.fill);
          if node.fill.Fill? && node.fill.c.a >= 1.0 then Some(own) else Followed(own, Walk(path[1..]))
  }

  function Followed(layers: seq<Layer>, above: Option<seq<Layer>>): Option<seq<Layer>> {
    if above.None? then None else Some(layers + above.value)
  }

  lemma FollowedTwice(a: seq<Layer>, b: seq<Layer>, above: Option<seq<Layer>>)
    ensures Followed(a, Followed(b, above)) == Followed(a + b, above)
    ensures Followed([], above) == above
    ensures Followed(a, Some([])) == Some(a)
  {
    if above.Some? {
      assert a + (b + above.value) == a + b + above.value;
      assert [] + above.value == above.value;
    }
    assert a + [] == a;
  }

  // ----- compositing -------------------------------------------------------------------------

  function Round(x: real): int {
    (x + 0.5).Floor
  }

  /** What the de-duplication compares. */
  function Key(c: Color): (int, int, int) {
    (Round(c.r), Round(c.g), Round(c.b))
  }

  ghost predicate Has(list: seq<Color>, k: (int, int, int)) {
    exists i :: 0 <= i < |list| && Key(list[i]) == k
  }

  function Tinted(layer: Layer, ground: Color): (r: seq<Color>)
    ensures |r| == |layer|
  {
    seq(|layer|, i requires 0 <= i < |layer| => Painted(layer[i], ground))
  }

  /** Every stop over every ground. */
  function Composites(grounds: seq<Color>, layer: Layer): seq<Color>
    decreases |grounds|
  {
    if grounds == [] then []
    else Composites(grounds[..|grounds| - 1], layer) + Tinted(layer, grounds[|grounds| - 1])
  }

  ghost function Distinct(list: seq<Color>): seq<Color>
    decreases |list|
  {
    if list == [] then []
    else
      var d, v := Distinct(list[..|list| - 1]), list[|list| - 1];
      if Has(d, Key(v)) then d else d + [v]
  }

  /** The candidate grounds, duplicates dropped after each layer. */
  ghost function Grounds(paints: seq<Layer>, fallback: Color): seq<Color> {
    if paints == [] then [fallback] else Distinct(Composites(Grounds(paints[1..], fallback), paints[0]))
  }

  /** Every composite of one stop per layer, nothing dropped. */
  function AllComposites(paints: seq<Layer>, fallback: Color): seq<Color> {
    if paints == [] then [fallback] else Composites(AllComposites(paints[1..], fallback), paints[0])
  }

  // ----- what de-duplication keeps -------------------------------------------------------------

  lemma DistinctStep(list: seq<Color>, v: Color)
    ensures Distinct(list + [v]) == if Has(Distinct(list), Key(v)) then Distinct(list) else Distinct(list) + [v]
  {
    assert (list + [v])[..|list|] == list;
  }

  lemma HasSnoc(list: seq<Color>, v: Color, k: (int, int, int))
    ensures Has(list + [v], k) <==> Has(list, k) || Key(v) == k
  {
    if Has(list, k) {
      var i :| 0 <= i < |list| && Key(list[i]) == k;
      assert (list + [v])[i] == list[i];
    }
    if Key(v) == k {
      assert (list + [v])[|list|] == v;
    }
  }

  /** De-duplication drops no key, and keeps only what was there. */
  lemma {:induction false} DistinctKeys(list: seq<Color>, k: (int, int, int))
    ensures Has(Distinct(list), k) <==> Has(list, k)
    ensures forall v <- Distinct(list) :: v in list
    decreases |list|
  {
    if list != [] {
      var front, v := list[..|list| - 1], list[|list| - 1];
      assert list == front + [v];
      DistinctKeys(front, k);
      DistinctKeys(front, Key(v));
      DistinctStep(front, v);
      HasSnoc(front, v, k);
      HasSnoc(Distinct(front), v, k);
      hide Has, Key, Distinct;
    }
  }

  /** Once every key was seen, nothing more is kept. */
  lemma {:induction false} NothingNew(list: seq<Color>, more: seq<Color>)
    requires forall v <- more :: Has(list, Key(v))
    ensures Distinct(list + more) == Distinct(list)
    decreases |more|
  {
    if more == [] {
      assert list + more == list;
    } else {
      var front, v := more[..|more| - 1], more[|more| - 1];
      assert list + more == (list + front) + [v];
      assert v in more;
      NothingNew(list, front);
      DistinctKeys(list, Key(v));
      DistinctStep(list + front, v);
    }
  }

  lemma OpaqueTint(layer: Layer, ground: Color)
    requires Opaque(layer)
    ensures Tinted(layer, ground) == layer
  {
  }

  /** Over an opaque layer, or any number of grounds, the result is the layer itself. */
  lemma {:induction false} OpaqueHides(grounds: seq<Color>, layer: Layer)
    requires Opaque(layer) && grounds != []
    ensures Distinct(Composites(grounds, layer)) == Distinct(layer)
    decreases |grounds|
  {
    var n := |grounds| - 1;
    OpaqueTint(layer, grounds[n]);
    if n == 0 {
      assert grounds[..0] == [];
      assert Composites(grounds, layer) == layer;
    } else {
      OpaqueHides(grounds[..n], layer);
      OpaqueComposites(grounds[..n], layer);
      NothingNew(Composites(grounds[..n], layer), layer);
    }
  }

  lemma {:induction false} OpaqueComposites(grounds: seq<Color>, layer: Layer)
    requires Opaque(layer) && grounds != []
    ensures forall v <- layer :: Has(Composites(grounds, layer), Key(v))
    decreases |grounds|
  {
    var n := |grounds| - 1;
    OpaqueTint(layer, grounds[n]);
    var before, all := Composites(grounds[..n], layer), Composites(grounds, layer);
    forall v | v in layer
      ensures Has(all, Key(v))
    {
      var i :| 0 <= i < |layer| && layer[i] == v;
      assert all[|before| + i] == v;
    }
  }

  lemma CompositesNonempty(grounds: seq<Color>, layer: Layer)
    requires grounds != [] && layer != []
    ensures Composites(grounds, layer) != [] && Distinct(Composites(grounds, layer)) != []
  {
    var all := Composites(grounds, layer);
    assert Has(all, Key(all[0]));
    DistinctKeys(all, Key(all[0]));
  }

  /** A layer always has a stop. */
  ghost predicate NoneEmpty(layers: seq<Layer>) {
    forall i :: 0 <= i < |layers| ==> layers[i] != []
  }

  lemma {:induction false} GroundsNonempty(paints: seq<Layer>, fallback: Color)
    requires NoneEmpty(paints)
    ensures Grounds(paints, fallback) != []
  {
    if paints != [] {
      GroundsNonempty(paints[1..], fallback);
      CompositesNonempty(Grounds(paints[1..], fallback), paints[0]);
    }
  }

  /** Compositing only down to the first opaque layer gives the same grounds in the same order. */
  lemma {:induction false} EarlyExit(layers: seq<Layer>, fallback: Color)
    requires NoneEmpty(layers)
    ensures Grounds(UpToOpaque(layers), fallback) == Grounds(layers, fallback)
  {
    if layers != [] {
      var rest := layers[1..];
      if Opaque(layers[0]) {
        GroundsNonempty(rest, fallback);
        OpaqueHides(Grounds(rest, fallback), layers[0]);
        OpaqueHides([fallback], layers[0]);
        assert [layers[0]][1..] == [];
        assert Grounds([], fallback) == [fallback];
      } else {
        EarlyExit(rest, fallback);
        assert ([layers[0]] + UpToOpaque(rest))[1..] == UpToOpaque(rest);
      }
    }
  }

  ghost predicate Sealed(layers: seq<Layer>) {
    exists l <- layers :: Opaque(l)
  }

  lemma SealedCons(l: Layer, rest: seq<Layer>)
    ensures Sealed([l] + rest) <==> Opaque(l) || Sealed(rest)
    ensures !Sealed([])
    ensures UpToOpaque([l] + rest) == if Opaque(l) then [l] else [l] + UpToOpaque(rest)
  {
    assert ([l] + rest)[1..] == rest;
    assert l in [l] + rest;
  }

  ghost predicate EndsOpaque(layers: seq<Layer>) {
    layers != [] && Opaque(layers[|layers| - 1])
  }

  lemma EndsCons(l: Layer, rest: seq<Layer>)
    ensures EndsOpaque([l] + rest) <==> if rest == [] then Opaque(l) else EndsOpaque(rest)
    ensures !EndsOpaque([])
  {
  }

  lemma NoLayers()
    ensures UpToOpaque([]) == [] && !Sealed([])
  {
  }

  lemma {:induction false} UpToJoin(a: seq<Layer>, b: seq<Layer>)
    ensures UpToOpaque(a + b) == if Sealed(a) then UpToOpaque(a) else a + UpToOpaque(b)
    ensures !Sealed(a) ==> UpToOpaque(a) == a
    ensures EndsOpaque(UpToOpaque(a)) <==> Sealed(a)
  {
    hide *;
    NoLayers();
    if a == [] {
      assert a + b == b && a + UpToOpaque(b) == UpToOpaque(b);
      EndsCons([], []);
    } else {
      var l, rest := a[0], a[1..];
      assert a == [l] + rest && a + b == [l] + (rest + b);
      UpToJoin(rest, b);
      SealedCons(l, rest);
      SealedCons(l, rest + b);
      EndsCons(l, UpToOpaque(rest));
      assert [l] + (rest + UpToOpaque(b)) == a + UpToOpaque(b);
      assert [l] + [] == [l];
      EndsCons(l, []);
    }
  }

  lemma StackStep(path: seq<Node>)
    requires path != [] && Stack(path).Some?
    ensures path[0].image.Some? && !path[0].fill.Unreadable? && Stack(path[1..]).Some?
    ensures Stack(path).value == path[0].image.value + (FillLayers(path[0].fill) + Stack(path[1..]).value)
  {
    hide FillLayers;
    var image, fill, above := path[0].image.value, FillLayers(path[0].fill), Stack(path[1..]).value;
    assert image + fill + above == image + (fill + above);
  }

  lemma WalkStep(path: seq<Node>)
    requires path != [] && path[0].image.Some? && !path[0].fill.Unreadable?
    ensures var u, fill := UpToOpaque(path[0].image.value), path[0].fill;
            Walk(path) == if EndsOpaque(u) then Some(u)
                          else if fill.Fill? && fill.c.a >= 1.0 then Some(u + FillLayers(fill))
                          else Followed(u + FillLayers(fill), Walk(path[1..]))
  {
    hide UpToOpaque, Opaque, FillLayers, Followed;
  }

  lemma UpToThree(image: seq<Layer>, fill: seq<Layer>, above: seq<Layer>)
    ensures UpToOpaque(image + (fill + above)) ==
            if Sealed(image) then UpToOpaque(image)
            else if Sealed(fill) then image + UpToOpaque(fill)
            else image + fill + UpToOpaque(above)
    ensures EndsOpaque(UpToOpaque(image)) <==> Sealed(image)
    ensures !Sealed(image) ==> UpToOpaque(image) == image
  {
    hide *;
    UpToJoin(image, fill + above);
    UpToJoin(fill, above);
    assert image + (fill + UpToOpaque(above)) == image + fill + UpToOpaque(above);
  }

  /** With every paint readable, the walk collects exactly the stack down to its first opaque layer. */
  lemma {:induction false} WalkIsPrefix(path: seq<Node>)
    requires Stack(path).Some?
    ensures Walk(path) == Some(UpToOpaque(Stack(path).value))
  {
    if path != [] {
      hide *;
      StackStep(path);
      WalkStep(path);
      WalkIsPrefix(path[1..]);
      OneFill(path[0].fill);
      FollowedIs(path[0].image.value + FillLayers(path[0].fill), UpToOpaque(Stack(path[1..]).value));
      UpToThree(path[0].image.value, FillLayers(path[0].fill), Stack(path[1..]).value);
    }
  }

  lemma FollowedIs(layers: seq<Layer>, above: seq<Layer>)
    ensures Followed(layers, Some(above)) == Some(layers + above)
  {
  }

  lemma OneFill(fill: Fill)
    ensures Sealed(FillLayers(fill)) <==> fill.Fill? && fill.c.a >= 1.0
    ensures Sealed(FillLayers(fill)) ==> UpToOpaque(FillLayers(fill)) == FillLayers(fill)
  {
    if fill.Fill? && fill.c.a > 0.0 {
      assert FillLayers(fill)[0] in FillLayers(fill);
    }
  }

  /** The early exit changes nothing: with every paint up to the slide readable, the grounds are those of the whole
      stack, in the same order. */
  lemma EarlyExitPreservesGround(path: seq<Node>, fallback: Color)
    requires Stack(path).Some? && NoneEmpty(Stack(path).value)
    ensures Walk(path).Some? && Grounds(Walk(path).value, fallback) == Grounds(Stack(path).value, fallback)
  {
    WalkIsPrefix(path);
    EarlyExit(Stack(path).value, fallback);
  }

  // ----- the error of de-duplication -------------------------------------------------------------

  /** Closer than `d` in every channel, or equal. */
  ghost predicate Close(v: Color, w: Color, d: real) {
    Abs(v.r - w.r) <= d && Abs(v.g - w.g) <= d && Abs(v.b - w.b) <= d
  }

  lemma SameKeyClose(v: Color, w: Color)
    requires Key(v) == Key(w)
    ensures Close(v, w, 1.0)
  {
  }

  lemma CloseAdds(u: Color, v: Color, w: Color, d: real, e: real)
    requires Close(u, v, d) && Close(v, w, e)
    ensures Close(u, w, d + e)
  {
  }

  lemma Shrink(x: real, y: real, a: real, d: real)
    requires 0.0 <= a <= 1.0 && Abs(x - y) <= d
    ensures Abs(x * (1.0 - a) - y * (1.0 - a)) <= d
  {
    var k, z := 1.0 - a, x - y;
    assert x * k - y * k == z * k;
    if z >= 0.0 {
      assert z * a >= 0.0 by { NonNegative(z, a); }
      NonNegative(z, k);
    } else {
      NonNegative(-z, a);
      NonNegative(-z, k);
    }
    assert z * k == z - z * a;
  }

  lemma MixClose(x: real, y: real, z: real, a: real, d: real)
    requires 0.0 <= a <= 1.0 && Abs(y - z) <= d
    ensures Abs(Mix(x, y, a) - Mix(x, z, a)) <= d
  {
    Shrink(y, z, a, d);
    var p, q := y * (1.0 - a), z * (1.0 - a);
    assert (x * a + p) - (x * a + q) == p - q;
  }

  /** Compositing a stop over two grounds never moves them apart. */
  lemma PaintedClose(c: Color, v: Color, w: Color, d: real)
    requires c.a >= 0.0 && Close(v, w, d) && d >= 0.0
    ensures Close(Painted(c, v), Painted(c, w), d)
  {
    if c.a < 1.0 {
      hide Mix;
      MixClose(c.r, v.r, w.r, c.a, d);
      MixClose(c.g, v.g, w.g, c.a, d);
      MixClose(c.b, v.b, w.b, c.a, d);
    }
  }

  lemma {:induction false} CompositesMembers(grounds: seq<Color>, layer: Layer, v: Color)
    ensures v in Composites(grounds, layer) <==> exists g, c :: g in grounds && c in layer && v == Painted(c, g)
    decreases |grounds|
  {
    if grounds != [] {
      var front, last := grounds[..|grounds| - 1], grounds[|grounds| - 1];
      assert grounds == front + [last];
      CompositesMembers(front, layer, v);
      if v in Tinted(layer, last) {
        var i :| 0 <= i < |layer| && v == Painted(layer[i], last);
        assert last in grounds && layer[i] in layer;
      }
      forall g, c | g in grounds && c in layer && v == Painted(c, g)
        ensures v in Composites(grounds, layer)
      {
        if g !in front {
          var i :| 0 <= i < |layer| && layer[i] == c;
          assert Tinted(layer, last)[i] == v;
        }
      }
    }
  }

  /** Every ground that is kept is an exact composite of one stop per layer. */
  lemma {:induction false} KeptAreComposites(paints: seq<Layer>, fallback: Color)
    ensures forall v <- Grounds(paints, fallback) :: v in AllComposites(paints, fallback)
  {
    if paints != [] {
      KeptAreComposites(paints[1..], fallback);
      var kept, all := Grounds(paints[1..], fallback), AllComposites(paints[1..], fallback);
      forall v <- Grounds(paints, fallback)
        ensures v in AllComposites(paints, fallback)
      {
        DistinctKeys(Composites(kept, paints[0]), Key(v));
        CompositesMembers(kept, paints[0], v);
        CompositesMembers(all, paints[0], v);
      }
    }
  }

  ghost predicate NoneNegative(paints: seq<Layer>) {
    forall i, j :: 0 <= i < |paints| && 0 <= j < |paints[i]| ==> paints[i][j].a >= 0.0
  }

  lemma CompositeOf(grounds: seq<Color>, layer: Layer, v: Color) returns (g: Color, c: Color)
    requires v in Composites(grounds, layer)
    ensures g in grounds && c in layer && v == Painted(c, g)
  {
    CompositesMembers(grounds, layer, v);
    g, c :| g in grounds && c in layer && v == Painted(c, g);
  }

  lemma IsComposite(grounds: seq<Color>, layer: Layer, g: Color, c: Color)
    requires g in grounds && c in layer
    ensures Painted(c, g) in Composites(grounds, layer)
  {
    CompositesMembers(grounds, layer, Painted(c, g));
  }

  lemma GroundsStep(paints: seq<Layer>, fallback: Color)
    ensures paints != [] ==>
              Grounds(paints, fallback) == Distinct(Composites(Grounds(paints[1..], fallback), paints[0]))
    ensures paints != [] ==>
              AllComposites(paints, fallback) == Composites(AllComposites(paints[1..], fallback), paints[0])
    ensures paints == [] ==> Grounds(paints, fallback) == AllComposites(paints, fallback) == [fallback]
    ensures NoneNegative(paints) && paints != [] ==> NoneNegative(paints[1..]) && forall c <- paints[0] :: c.a >= 0.0
    ensures paints != [] ==> |paints[1..]| as real + 1.0 == |paints| as real
  {
  }

  lemma SameClose(v: Color)
    ensures Close(v, v, 0.0)
  {
  }

  /** And every composite that was dropped has a kept ground within one per layer in each channel. */
  lemma {:induction false} KeptWithin(paints: seq<Layer>, fallback: Color, v: Color) returns (kept: Color)
    requires NoneNegative(paints) && v in AllComposites(paints, fallback)
    ensures kept in Grounds(paints, fallback) && Close(v, kept, |paints| as real)
  {
    hide *;
    GroundsStep(paints, fallback);
    if paints == [] {
      kept := fallback;
      SameClose(v);
    } else {
      var rest := paints[1..];
      var g, c := CompositeOf(AllComposites(rest, fallback), paints[0], v);
      var h := KeptWithin(rest, fallback, g);
      PaintedClose(c, g, h, |rest| as real);
      IsComposite(Grounds(rest, fallback), paints[0], h, c);
      kept := SameKey(Composites(Grounds(rest, fallback), paints[0]), Painted(c, h));
      SameKeyClose(Painted(c, h), kept);
      CloseAdds(v, Painted(c, h), kept, |rest| as real, 1.0);
    }
  }

  lemma SameKey(list: seq<Color>, v: Color) returns (w: Color)
    requires v in list
    ensures w in Distinct(list) && Key(w) == Key(v)
  {
    var i :| 0 <= i < |list| && list[i] == v;
    assert Has(list, Key(v));
    DistinctKeys(list, Key(v));
    var j :| 0 <= j < |Distinct(list)| && Key(Distinct(list)[j]) == Key(v);
    w := Distinct(list)[j];
  }

  // ----- what a composite is, channel by channel ---------------------------------------------------

  datatype Channel = Red | Green | Blue

  function Level(c: Color, ch: Channel): real {
    match ch
    case Red => c.r
    case Green => c.g
    case Blue => c.b
  }

  /** How much of itself a stop shows: its alpha, and an opaque one all of it. */
  function Cover(c: Color): real {
    if c.a > 1.0 then 1.0 else c.a
  }

  /** How much of what lies below the first `n` stops shows through them. */
  function Through(stops: seq<Color>, n: nat): real
    requires n <= |stops|
  {
    if n == 0 then 1.0 else Through(stops, n - 1) * (1.0 - Cover(stops[n - 1]))
  }

  /** What a stop has to add to a channel. */
  function Own(c: Color, ch: Channel): real {
    Level(c, ch) * Cover(c)
  }

  /** What the first `n` stops add to a channel, the topmost first: each its level, as far as it covers and the stops
      above it let it show. */
  function Added(stops: seq<Color>, ch: Channel, n: nat): real
    requires n <= |stops|
  {
    if n == 0 then 0.0
    else Added(stops, ch, n - 1) + Own(stops[n - 1], ch) * Through(stops, n - 1)
  }

  /** `v` is what is seen of `stops` over `ground`: in each channel the sum of what the stops add, and of the ground
      what shows through all of them. */
  ghost predicate SeenOver(v: Color, stops: seq<Color>, ground: Color) {
    forall ch :: Level(v, ch) == Added(stops, ch, |stops|) + Level(ground, ch) * Through(stops, |stops|)
  }

  lemma ProductTurns(x: real, y: real, z: real)
    ensures x * (y * z) == (x * y) * z
  {
  }

  /** One more stop on top. */
  lemma {:induction false} ThroughBelow(c: Color, stops: seq<Color>, n: nat)
    requires n <= |stops|
    ensures Through([c] + stops, n + 1) == (1.0 - Cover(c)) * Through(stops, n)
    decreases n
  {
    if n == 0 {
      assert Through([c] + stops, 0) == 1.0;
    } else {
      ThroughBelow(c, stops, n - 1);
      assert ([c] + stops)[n] == stops[n - 1];
      ProductTurns(1.0 - Cover(c), Through(stops, n - 1), 1.0 - Cover(stops[n - 1]));
    }
  }

  lemma AddedStep(stops: seq<Color>, ch: Channel, n: nat)
    requires n <= |stops|
    ensures Added(stops, ch, 0) == 0.0 && Through(stops, 0) == 1.0
    ensures n > 0 ==> Added(stops, ch, n) == Added(stops, ch, n - 1) + Own(stops[n - 1], ch) * Through(stops, n - 1)
  {
  }

  lemma {:induction false} AddedBelow(c: Color, stops: seq<Color>, ch: Channel, n: nat)
    requires n <= |stops|
    ensures Added([c] + stops, ch, n + 1) == Own(c, ch) + (1.0 - Cover(c)) * Added(stops, ch, n)
    decreases n
  {
    hide *;
    AddedStep(stops, ch, n);
    AddedStep([c] + stops, ch, n + 1);
    if n == 0 {
      AddedStep([c] + stops, ch, 0);
    } else {
      AddedBelow(c, stops, ch, n - 1);
      ThroughBelow(c, stops, n - 1);
      assert ([c] + stops)[n] == stops[n - 1];
      Distribute(Own(c, ch), 1.0 - Cover(c), Added(stops, ch, n - 1), Own(stops[n - 1], ch), Through(stops, n - 1));
    }
  }

  lemma Distribute(base: real, k: real, added: real, own: real, through: real)
    ensures base + k * added + own * (k * through) == base + k * (added + own * through)
  {
  }

  lemma PaintedLevel(c: Color, g: Color, ch: Channel)
    ensures Level(Painted(c, g), ch) == Own(c, ch) + Level(g, ch) * (1.0 - Cover(c))
  {
  }

  lemma SeenNone(ground: Color)
    ensures SeenOver(ground, [], ground)
  {
  }

  /** Painting a stop over what is seen is what is seen with that stop on top. */
  lemma SeenPainted(c: Color, v: Color, stops: seq<Color>, ground: Color)
    requires SeenOver(v, stops, ground)
    ensures SeenOver(Painted(c, v), [c] + stops, ground)
  {
    hide Level, Added, Through, Own, Cover, Painted;
    forall ch
      ensures Level(Painted(c, v), ch) ==
              Added([c] + stops, ch, |[c] + stops|) + Level(ground, ch) * Through([c] + stops, |[c] + stops|)
    {
      assert |[c] + stops| == |stops| + 1;
      SeenAt(c, v, stops, ground, ch);
    }
  }

  lemma SeenAt(c: Color, v: Color, stops: seq<Color>, ground: Color, ch: Channel)
    requires Level(v, ch) == Added(stops, ch, |stops|) + Level(ground, ch) * Through(stops, |stops|)
    ensures Level(Painted(c, v), ch) ==
            Added([c] + stops, ch, |stops| + 1) + Level(ground, ch) * Through([c] + stops, |stops| + 1)
  {
    hide *;
    var n := |stops|;
    AddedBelow(c, stops, ch, n);
    ThroughBelow(c, stops, n);
    PaintedLevel(c, v, ch);
    Levels(Own(c, ch), Level(v, ch), Added(stops, ch, n), Level(ground, ch), Through(stops, n), 1.0 - Cover(c));
  }

  lemma Levels(own: real, v: real, added: real, g: real, through: real, k: real)
    requires v == added + g * through
    ensures own + v * k == own + k * added + g * (k * through)
  {
    assert g * (k * through) == k * (g * through);
  }

  /** One stop chosen from every layer. */
  ghost predicate ChosenFrom(stops: seq<Color>, paints: seq<Layer>) {
    |stops| == |paints| && forall i :: 0 <= i < |paints| ==> stops[i] in paints[i]
  }

  /** The composites are exactly what is seen of one stop from every layer over the fallback, for every choice. */
  lemma {:induction false} CompositesSeen(paints: seq<Layer>, fallback: Color, v: Color) returns (stops: seq<Color>)
    requires v in AllComposites(paints, fallback)
    ensures ChosenFrom(stops, paints) && SeenOver(v, stops, fallback)
  {
    if paints == [] {
      stops := [];
      SeenNone(fallback);
    } else {
      hide *;
      GroundsStep(paints, fallback);
      var g, c := CompositeOf(AllComposites(paints[1..], fallback), paints[0], v);
      var rest := CompositesSeen(paints[1..], fallback, g);
      stops := [c] + rest;
      SeenPainted(c, g, rest, fallback);
      ChosenMore(c, rest, paints);
    }
  }

  lemma ChosenMore(c: Color, rest: seq<Color>, paints: seq<Layer>)
    requires paints != []
    ensures c in paints[0] && ChosenFrom(rest, paints[1..]) <==> ChosenFrom([c] + rest, paints)
  {
    if ChosenFrom([c] + rest, paints) {
      assert ([c] + rest)[0] == c;
      forall i | 0 <= i < |paints| - 1
        ensures rest[i] in paints[1..][i]
      {
        assert ([c] + rest)[i + 1] == rest[i];
      }
    }
  }

  lemma {:induction false} SeenIsComposite(paints: seq<Layer>, fallback: Color, stops: seq<Color>)
    returns (v: Color)
    requires ChosenFrom(stops, paints)
    ensures v in AllComposites(paints, fallback) && SeenOver(v, stops, fallback)
    decreases |paints|
  {
    if paints == [] {
      v := fallback;
      SeenNone(fallback);
    } else {
      var rest := stops[1..];
      assert stops == [stops[0]] + rest;
      assert stops[0] in paints[0];
      ChosenMore(stops[0], rest, paints);
      hide *;
      GroundsStep(paints, fallback);
      var g := SeenIsComposite(paints[1..], fallback, rest);
      IsComposite(AllComposites(paints[1..], fallback), paints[0], g, stops[0]);
      SeenPainted(stops[0], g, rest, fallback);
      v := Painted(stops[0], g);
    }
  }

  /** Two translucent stops look like one: with the alpha they have together, and their colours in proportion. */
  lemma StopsCombine(c: Color, d: Color, both: Color, g: Color)
    requires 0.0 <= c.a < 1.0 && 0.0 <= d.a < 1.0 && both.a == c.a + d.a * (1.0 - c.a)
    requires forall ch :: Level(both, ch) * both.a == Level(c, ch) * c.a + Level(d, ch) * d.a * (1.0 - c.a)
    ensures Painted(c, Painted(d, g)) == Painted(both, g)
  {
    TogetherCover(c.a, d.a);
    forall ch
      ensures Level(Painted(c, Painted(d, g)), ch) == Level(Painted(both, g), ch)
    {
      CombinedLevel(c, d, both, g, ch);
    }
    hide Level;
    SameLevels(Painted(c, Painted(d, g)), Painted(both, g));
  }

  lemma CombinedLevel(c: Color, d: Color, both: Color, g: Color, ch: Channel)
    requires Own(both, ch) == Own(c, ch) + Own(d, ch) * (1.0 - Cover(c))
    requires 1.0 - Cover(both) == (1.0 - Cover(c)) * (1.0 - Cover(d))
    ensures Level(Painted(c, Painted(d, g)), ch) == Level(Painted(both, g), ch)
  {
    hide *;
    PaintedLevel(c, Painted(d, g), ch);
    PaintedLevel(d, g, ch);
    PaintedLevel(both, g, ch);
    Combined(Own(d, ch), Level(g, ch), 1.0 - Cover(c), 1.0 - Cover(d));
  }

  lemma TogetherCover(x: real, y: real)
    requires 0.0 <= x < 1.0 && 0.0 <= y < 1.0
    ensures 1.0 - (x + y * (1.0 - x)) == (1.0 - x) * (1.0 - y) && x + y * (1.0 - x) < 1.0
  {
    Positive(1.0 - x, 1.0 - y);
  }

  lemma Positive(x: real, y: real)
    requires x > 0.0 && y > 0.0
    ensures x * y > 0.0
  {
  }

  lemma Combined(x: real, g: real, k: real, j: real)
    ensures (x + g * j) * k == x * k + g * (k * j)
  {
    assert g * j * k == g * (k * j);
  }

  lemma SameLevels(v: Color, w: Color)
    requires (forall ch :: Level(v, ch) == Level(w, ch)) && v.a == w.a
    ensures v == w
  {
    assert Level(v, Red) == Level(w, Red) && Level(v, Green) == Level(w, Green) && Level(v, Blue) == Level(w, Blue);
  }

  /** A stop without alpha leaves the ground as it is. */
  lemma ClearStop(c: Color, g: Color)
    requires c.a == 0.0 && g.a == 1.0
    ensures Painted(c, g) == g
  {
  }

  // ----- plain backgrounds ----------------------------------------------------------------------------

  /** Every paint can be read and is one colour. */
  ghost predicate Plain(path: seq<Node>) {
    forall n <- path ::
      && n.image.Some? && !n.fill.Unreadable? && (n.fill.Fill? ==> n.fill.c.a >= 0.0)
      && forall l <- n.image.value :: |l| == 1
  }

  ghost predicate AllSingle(layers: seq<Layer>) {
    forall l <- layers :: |l| == 1
  }

  ghost function Firsts(layers: seq<Layer>): seq<Color>
    requires AllSingle(layers)
  {
    if layers == [] then [] else [layers[0][0]] + Firsts(layers[1..])
  }

  /** The colours from the text outwards: of each element first its images, then its background colour. */
  ghost function ColoursOf(path: seq<Node>): seq<Color>
    requires Plain(path)
  {
    if path == [] then []
    else
      assert path[0] in path;
      Firsts(path[0].image.value) + (if path[0].fill.Fill? then [path[0].fill.c] else []) + ColoursOf(path[1..])
  }

  /** Adding and covering the same. */
  ghost predicate SameSums(u: seq<Color>, w: seq<Color>) {
    Through(u, |u|) == Through(w, |w|) && forall ch :: Added(u, ch, |u|) == Added(w, ch, |w|)
  }

  lemma SameSeen(v: Color, u: seq<Color>, w: seq<Color>, ground: Color)
    requires SameSums(u, w)
    ensures SeenOver(v, u, ground) <==> SeenOver(v, w, ground)
  {
    hide Added, Through, Level;
  }

  lemma SumsOnTop(d: Color, u: seq<Color>, w: seq<Color>)
    requires SameSums(u, w)
    ensures SameSums([d] + u, [d] + w)
  {
    hide Added, Through, Own, Cover;
    var p, q := [d] + u, [d] + w;
    assert |p| == |u| + 1 && |q| == |w| + 1;
    forall ch
      ensures Added(p, ch, |p|) == Added(q, ch, |q|)
    {
      AddedBelow(d, u, ch, |u|);
      AddedBelow(d, w, ch, |w|);
    }
    ThroughBelow(d, u, |u|);
    ThroughBelow(d, w, |w|);
  }

  lemma ClearOnTop(c: Color, stops: seq<Color>)
    requires c.a == 0.0
    ensures SameSums(stops, [c] + stops)
  {
    hide Added, Through, Own, Cover;
    ThroughBelow(c, stops, |stops|);
    ClearOwn(c, Red);
    forall ch
      ensures Added(stops, ch, |stops|) == Added([c] + stops, ch, |stops| + 1)
    {
      ClearOwn(c, ch);
      AddedBelow(c, stops, ch, |stops|);
    }
    assert |[c] + stops| == |stops| + 1;
  }

  /** A stop that shows nothing does not matter, wherever it lies. */
  lemma {:induction false} SumsWithoutClear(above: seq<Color>, c: Color, below: seq<Color>)
    requires c.a == 0.0
    ensures SameSums(above + below, above + ([c] + below))
    decreases |above|
  {
    hide *;
    if above == [] {
      assert above + below == below && above + ([c] + below) == [c] + below;
      ClearOnTop(c, below);
    } else {
      var d, rest := above[0], above[1..];
      assert above + below == [d] + (rest + below);
      assert above + ([c] + below) == [d] + (rest + ([c] + below));
      SumsWithoutClear(rest, c, below);
      SumsOnTop(d, rest + below, rest + ([c] + below));
    }
  }

  lemma ClearOwn(c: Color, ch: Channel)
    requires c.a == 0.0
    ensures Cover(c) == 0.0 && Own(c, ch) == 0.0
  {
  }

  lemma FirstsStep(l: Layer, rest: seq<Layer>)
    ensures AllSingle([l] + rest) <==> |l| == 1 && AllSingle(rest)
    ensures AllSingle([l] + rest) ==> Firsts([l] + rest) == [l[0]] + Firsts(rest)
  {
    var all := [l] + rest;
    assert all[0] == l && all[1..] == rest;
    assert forall x :: x in all <==> x == l || x in rest;
  }

  lemma {:induction false} FirstsJoin(a: seq<Layer>, b: seq<Layer>)
    requires AllSingle(a) && AllSingle(b)
    ensures AllSingle(a + b) && Firsts(a + b) == Firsts(a) + Firsts(b)
    decreases |a|
  {
    hide *;
    if a == [] {
      NoFirsts();
      assert a + b == b && [] + Firsts(b) == Firsts(b);
    } else {
      var l, rest := a[0], a[1..];
      assert a == [l] + rest && a + b == [l] + (rest + b);
      FirstsStep(l, rest);
      FirstsJoin(rest, b);
      FirstsStep(l, rest + b);
      assert [l[0]] + (Firsts(rest) + Firsts(b)) == [l[0]] + Firsts(rest) + Firsts(b);
    }
  }

  lemma PlainParts(path: seq<Node>)
    requires Plain(path) && path != []
    ensures path[0].image.Some? && !path[0].fill.Unreadable? && AllSingle(path[0].image.value) && Plain(path[1..])
    ensures path[0].fill.Fill? ==> path[0].fill.c.a >= 0.0
  {
    assert path[0] in path;
  }

  lemma PlainNode(path: seq<Node>)
    requires Plain(path) && path != [] && path[0].image.Some? && AllSingle(path[0].image.value) && Plain(path[1..])
    ensures ColoursOf(path) == Firsts(path[0].image.value) +
            ((if path[0].fill.Fill? then [path[0].fill.c] else []) + ColoursOf(path[1..]))
  {
    hide Plain, AllSingle, Firsts;
    var fill := if path[0].fill.Fill? then [path[0].fill.c] else [];
    var image, rest := Firsts(path[0].image.value), ColoursOf(path[1..]);
    assert image + fill + rest == image + (fill + rest);
  }

  lemma FillSingle(fill: Fill)
    requires fill.Fill? ==> fill.c.a >= 0.0
    ensures AllSingle(FillLayers(fill))
    ensures if fill.Fill? && fill.c.a > 0.0 then Firsts(FillLayers(fill)) == [fill.c] else FillLayers(fill) == []
  {
  }

  lemma StackSplits(path: seq<Node>)
    requires path != [] && path[0].image.Some? && !path[0].fill.Unreadable? && Stack(path[1..]).Some?
    ensures Stack(path).Some?
    ensures Stack(path).value == path[0].image.value + (FillLayers(path[0].fill) + Stack(path[1..]).value)
  {
    StackStep(path);
  }

  lemma NoFirsts()
    ensures AllSingle([]) && Firsts([]) == [] && Stack([]) == Some([])
  {
  }

  lemma Regroup(above: seq<Color>, image: seq<Color>, fill: seq<Color>, rest: seq<Color>)
    ensures above + (image + (fill + rest)) == (above + image + fill) + rest == (above + image) + (fill + rest)
  {
  }

  /** The stack of a plain path looks like its colours, under anything above it. */
  lemma {:induction false} PlainStack(path: seq<Node>, above: seq<Color>, v: Color, ground: Color)
    requires Plain(path)
    ensures Stack(path).Some? && AllSingle(Stack(path).value)
    ensures SeenOver(v, above + Firsts(Stack(path).value), ground) <==> SeenOver(v, above + ColoursOf(path), ground)
    decreases |path|
  {
    hide *;
    NoFirsts();
    if path == [] {
      NoColours();
    } else {
      PlainParts(path);
      PlainNode(path);
      var image, fill, colours := path[0].image.value, path[0].fill, ColoursOf(path[1..]);
      var shown := if fill.Fill? then [fill.c] else [];
      FillSingle(fill);
      var over := above + Firsts(image) + Firsts(FillLayers(fill));
      PlainStack(path[1..], over, v, ground);
      StackSplits(path);
      var stack := Stack(path[1..]).value;
      FirstsJoin(FillLayers(fill), stack);
      FirstsJoin(image, FillLayers(fill) + stack);
      Regroup(above, Firsts(image), Firsts(FillLayers(fill)), Firsts(stack));
      Regroup(above, Firsts(image), shown, colours);
      if fill.Fill? && fill.c.a == 0.0 {
        assert over == above + Firsts(image);
        SumsWithoutClear(over, fill.c, colours);
        SameSeen(v, over + colours, over + ([fill.c] + colours), ground);
      }
    }
  }

  lemma NoColours()
    ensures Plain([]) && ColoursOf([]) == []
  {
  }

  /** One stop per layer leaves one ground, and it is what is seen of the stops. */
  lemma {:induction false} SingleGround(paints: seq<Layer>, fallback: Color)
    requires AllSingle(paints)
    ensures |Grounds(paints, fallback)| == 1 && SeenOver(Grounds(paints, fallback)[0], Firsts(paints), fallback)
  {
    if paints == [] {
      SeenNone(fallback);
    } else {
      assert paints[0] in paints && Firsts(paints) == [paints[0][0]] + Firsts(paints[1..]);
      SingleGround(paints[1..], fallback);
      var g := Grounds(paints[1..], fallback)[0];
      OneComposite(g, paints[0]);
      SeenPainted(paints[0][0], g, Firsts(paints[1..]), fallback);
      hide SeenOver, Distinct, Composites, Painted;
      assert Grounds(paints[1..], fallback) == [g];
    }
  }

  lemma OneComposite(g: Color, layer: Layer)
    requires |layer| == 1
    ensures Distinct(Composites([g], layer)) == [Painted(layer[0], g)]
  {
    assert [g][..0] == [] && Composites([g], layer) == [Painted(layer[0], g)];
    assert [Painted(layer[0], g)][..0] == [];
  }

  lemma SingleNoneEmpty(paints: seq<Layer>)
    requires AllSingle(paints)
    ensures NoneEmpty(paints)
  {
  }

  /** Behind a text whose paints are all plain colours there is one ground: what is seen, from the text outwards, of
      every element's images and background colour over the fallback.  So neither the early exit nor the colours without
      alpha that are passed over make a difference. */
  lemma PlainGround(path: seq<Node>, fallback: Color)
    requires Plain(path)
    ensures Walk(path).Some? && |Grounds(Walk(path).value, fallback)| == 1
    ensures SeenOver(Grounds(Walk(path).value, fallback)[0], ColoursOf(path), fallback)
  {
    hide *;
    PlainStack(path, [], fallback, fallback);
    SingleNoneEmpty(Stack(path).value);
    EarlyExitPreservesGround(path, fallback);
    SingleGround(Stack(path).value, fallback);
    var v := Grounds(Stack(path).value, fallback)[0];
    PlainStack(path, [], v, fallback);
    assert [] + Firsts(Stack(path).value) == Firsts(Stack(path).value) && [] + ColoursOf(path) == ColoursOf(path);
  }

  // ----- which duplicates are dropped -----------------------------------------------------------------------

  /** `n` is the whole number nearest to `x`, the upper one half way. */
  predicate Nearest(x: real, n: int) {
    n as real - 0.5 <= x < n as real + 0.5
  }

  /** The same colour in whole numbers. */
  ghost predicate SameShade(v: Color, w: Color) {
    exists r, g, b ::
      Nearest(v.r, r) && Nearest(w.r, r) && Nearest(v.g, g) && Nearest(w.g, g) && Nearest(v.b, b) && Nearest(w.b, b)
  }

  lemma RoundIsNearest(x: real, n: int)
    ensures Nearest(x, n) <==> n == Round(x)
  {
  }

  lemma KeyIsShade(v: Color, w: Color)
    ensures Key(v) == Key(w) <==> SameShade(v, w)
  {
    RoundIsNearest(v.r, Round(v.r));
    RoundIsNearest(v.g, Round(v.g));
    RoundIsNearest(v.b, Round(v.b));
    RoundIsNearest(w.r, Round(w.r));
    RoundIsNearest(w.g, Round(w.g));
    RoundIsNearest(w.b, Round(w.b));
    if r, g, b :| Nearest(v.r, r) && Nearest(w.r, r) && Nearest(v.g, g) && Nearest(w.g, g) && Nearest(v.b, b)
                  && Nearest(w.b, b) {
      RoundIsNearest(v.r, r);
      RoundIsNearest(v.g, g);
      RoundIsNearest(v.b, b);
      RoundIsNearest(w.r, r);
      RoundIsNearest(w.g, g);
      RoundIsNearest(w.b, b);
    }
    hide Nearest, Round;
  }

  /** The shade of `list[k]` is new there. */
  ghost predicate NewShade(list: seq<Color>, k: nat)
    requires k < |list|
  {
    forall j :: 0 <= j < k ==> !SameShade(list[j], list[k])
  }

  /** De-duplication keeps, in their order, exactly the colours whose shade did not come before. */
  lemma {:induction false} DistinctPlaces(list: seq<Color>) returns (at: seq<nat>)
    ensures Rising(at, |list|) && |at| == |Distinct(list)|
    ensures forall i :: 0 <= i < |at| ==> Distinct(list)[i] == list[at[i]]
    ensures forall k :: 0 <= k < |list| ==> (k in at <==> NewShade(list, k))
    decreases |list|
  {
    at := [];
    if list == [] {
      assert Distinct(list) == [];
    } else {
      hide *;
      var n := |list| - 1;
      var front, v := list[..n], list[n];
      assert list == front + [v];
      var before := DistinctPlaces(front);
      DistinctStep(front, v);
      DistinctKeys(front, Key(v));
      ShadeBefore(list, n);
      ShadesBefore(list, n);
      RisingMore(before, n);
      at := if Has(front, Key(v)) then before else before + [n];
    }
  }

  lemma ShadesBefore(list: seq<Color>, n: nat)
    requires n <= |list|
    ensures forall k :: 0 <= k < n ==> (NewShade(list, k) <==> NewShade(list[..n], k))
  {
    hide SameShade;
    forall k | 0 <= k < n
      ensures NewShade(list, k) <==> NewShade(list[..n], k)
    {
      assert forall j :: 0 <= j <= k ==> list[j] == list[..n][j];
    }
  }

  lemma ShadeBefore(list: seq<Color>, n: nat)
    requires n < |list|
    ensures NewShade(list, n) <==> !Has(list[..n], Key(list[n]))
  {
    var front, v := list[..n], list[n];
    forall j | 0 <= j < n
      ensures SameShade(list[j], v) <==> Key(front[j]) == Key(v)
    {
      KeyIsShade(list[j], v);
    }
    hide SameShade, Key;
  }

  /** The order of the composites: ground by ground, and for each the stops in their order. */
  lemma {:induction false} CompositeAt(grounds: seq<Color>, layer: Layer, i: nat, j: nat)
    requires i < |grounds| && j < |layer|
    ensures |Composites(grounds, layer)| == |grounds| * |layer| && i * |layer| + j < |grounds| * |layer|
    ensures Composites(grounds, layer)[i * |layer| + j] == Painted(layer[j], grounds[i])
    decreases |grounds|
  {
    var n := |grounds| - 1;
    var front := grounds[..n];
    if n == 0 {
      assert Composites(front, layer) == [];
    } else {
      CompositeAt(front, layer, if i < n then i else 0, j);
    }
    assert |Composites(front, layer)| == n * |layer|;
    Rows(i, n, |layer|, j);
    hide Painted;
  }

  lemma Rows(i: nat, n: nat, m: nat, j: nat)
    requires i <= n && j < m
    ensures (n + 1) * m == n * m + m && i * m + j < (n + 1) * m && (i < n ==> i * m + j < n * m)
  {
    if i < n {
      assert (i + 1) * m <= n * m;
    }
  }
}

/** The program's loops. */
module DeckAudit {
  import opened Wrappers
  import opened Places
  import opened GroundSpec

  /** The elements the walk may visit: up to the slide, when it is among them. */
  function Visited(path: seq<Node>, root: Option<nat>): seq<Node> {
    if root.Some? && root.value < |path| then path[..root.value + 1] else path
  }

  /** The slide is the last element whose paints count: its own still do, and what is around it does not matter. */
  lemma SlideIsLast(path: seq<Node>, around: seq<Node>)
    requires path != []
    ensures Visited(path + around, Some(|path| - 1)) == path == Visited(path, None)
  {
    assert (path + around)[..|path|] == path;
  }

  /** The layers of one image up to the first opaque one, and whether there is one. */
  method ImageLayers(image: seq<Layer>) returns (layers: seq<Layer>, closed: bool)
    ensures layers == UpToOpaque(image) && (closed <==> EndsOpaque(layers))
  {
    hide UpToOpaque;
    layers, closed := [], false;
    assert image[0..] == image;
    for i := 0 to |image|
      invariant UpToOpaque(image) == layers + UpToOpaque(image[i..])
      invariant layers != [] ==> !Opaque(layers[|layers| - 1])
    {
      assert image[i..] == [image[i]] + image[i + 1..];
      SealedCons(image[i], image[i + 1..]);
      if forall c <- image[i] :: c.a >= 1.0 {
        return layers + [image[i]], true;
      }
      assert layers + ([image[i]] + UpToOpaque(image[i + 1..])) == layers + [image[i]] + UpToOpaque(image[i + 1..]);
      layers := layers + [image[i]];
    }
    assert image[|image|..] == [];
    NoLayers();
  }

  /** The walk from the text up to the slide. */
  method CollectPaints(path: seq<Node>) returns (paints: Option<seq<Layer>>)
    ensures paints == Walk(path)
  {
    hide *;
    var found: seq<Layer> := [];
    assert path[0..] == path;
    FollowedTwice([], [], Walk(path));
    for i := 0 to |path|
      invariant Walk(path) == Followed(found, Walk(path[i..]))
    {
      var node := path[i];
      assert path[i..][0] == node && path[i..][1..] == path[i + 1..];
      WalkUnfolded(path[i..]);
      if node.image.None? {
        FollowedNone(found);
        return None;
      }
      var layers, closed := ImageLayers(node.image.value);
      if closed {
        FollowedIs(found, layers);
        return Some(found + layers);
      }
      if node.fill.Unreadable? {
        FollowedNone(found);
        return None;
      }
      var own := layers;
      if node.fill.Fill? && node.fill.c.a > 0.0 {
        own := own + [[node.fill.c]];
      }
      FillIs(node.fill);
      assert layers + [] == layers;
      assert own == layers + FillLayers(node.fill);
      FollowedTwice(found, own, Walk(path[i + 1..]));
      FollowedIs(found, own);
      found := found + own;
      if node.fill.Fill? && node.fill.c.a >= 1.0 {
        return Some(found);
      }
    }
    assert path[|path|..] == [];
    WalkEmpty();
    FollowedTwice(found, [], Some([]));
    paints := Some(found);
  }

  lemma WalkEmpty()
    ensures Walk([]) == Some([])
  {
  }

  lemma FollowedNone(layers: seq<Layer>)
    ensures Followed(layers, None) == None
  {
  }

  lemma WalkUnfolded(path: seq<Node>)
    requires path != []
    ensures path[0].image.None? ==> Walk(path) == None
    ensures path[0].image.Some? ==>
              var u, fill := UpToOpaque(path[0].image.value), path[0].fill;
              Walk(path) == if EndsOpaque(u) then Some(u)
                            else if fill.Unreadable? then None
                            else if fill.Fill? && fill.c.a >= 1.0 then Some(u + FillLayers(fill))
                            else Followed(u + FillLayers(fill), Walk(path[1..]))
  {
    hide UpToOpaque, Opaque, FillLayers, Followed;
  }

  lemma FillIs(fill: Fill)
    ensures FillLayers(fill) == if fill.Fill? && fill.c.a > 0.0 then [[fill.c]] else []
  {
  }

  /** One layer composited over every ground, each rounded colour kept once. */
  method CompositeLayer(grounds: seq<Color>, layer: Layer) returns (next: seq<Color>)
    ensures next == Distinct(Composites(grounds, layer))
  {
    hide Distinct, Key, Has;
    var seen: set<(int, int, int)> := {};
    next := [];
    NoneYet();
    for i := 0 to |grounds|
      invariant next == Distinct(Composites(grounds[..i], layer))
      invariant forall k :: k in seen <==> Has(next, k)
    {
      ghost var before, tints := Composites(grounds[..i], layer), Tinted(layer, grounds[i]);
      assert before + tints[..0] == before;
      for j := 0 to |layer|
        invariant next == Distinct(before + tints[..j])
        invariant forall k :: k in seen <==> Has(next, k)
      {
        var c := layer[j];
        var v := if c.a >= 1.0 then c else Over(c, grounds[i]);
        assert before + tints[..j + 1] == (before + tints[..j]) + [v];
        DistinctStep(before + tints[..j], v);
        if Key(v) in seen {
          continue;
        }
        forall k
          ensures Has(next + [v], k) <==> k in seen + {Key(v)}
        {
          HasSnoc(next, v, k);
        }
        seen := seen + {Key(v)};
        next := next + [v];
      }
      assert tints[..|layer|] == tints;
      assert grounds[..i + 1][..i] == grounds[..i];
    }
    assert grounds[..|grounds|] == grounds;
  }

  lemma NoneYet()
    ensures Distinct([]) == [] && forall k :: !Has([], k)
  {
  }

  /** The candidate grounds behind an element, or None when a paint cannot be read. */
  method EffectiveBackground(path: seq<Node>, root: Option<nat>, fallback: Color) returns (r: Option<seq<Color>>)
    ensures var paints := Walk(Visited(path, root));
            r == if paints.None? then None else Some(Grounds(paints.value, fallback))
    ensures Plain(Visited(path, root)) ==>
              r.Some? && |r.value| == 1 && SeenOver(r.value[0], ColoursOf(Visited(path, root)), fallback)
  {
    if Plain(Visited(path, root)) {
      PlainGround(Visited(path, root), fallback);
    }
    hide Distinct, Composites, Walk, Plain, ColoursOf, SeenOver;
    var found := CollectPaints(Visited(path, root));
    if found.None? {
      return None;
    }
    var paints := found.value;
    var grounds := [fallback];
    assert paints[|paints|..] == [];
    for i := |paints| downto 0
      invariant grounds == Grounds(paints[i..], fallback)
    {
      assert paints[i..][0] == paints[i] && paints[i..][1..] == paints[i + 1..];
      grounds := CompositeLayer(grounds, paints[i]);
    }
    assert paints[0..] == paints;
    r := Some(grounds);
  }

  // ----- splitting a declaration into layers -------------------------------------------------------

  /** How many parentheses are open after `s`. */
  function Depth(s: string): int
    decreases |s|
  {
    if s == "" then 0
    else
      var c := s[|s| - 1];
      Depth(s[..|s| - 1]) + if c == '(' then 1 else if c == ')' then -1 else 0
  }

  function TopCommas(s: string): nat
    decreases |s|
  {
    if s == "" then 0
    else
      var front, c := s[..|s| - 1], s[|s| - 1];
      TopCommas(front) + if c == ',' && Depth(front) == 0 then 1 else 0
  }

  function Joined(pieces: seq<string>): string
    decreases |pieces|
  {
    if pieces == [] then ""
    else if |pieces| == 1 then pieces[0]
    else Joined(pieces[..|pieces| - 1]) + "," + pieces[|pieces| - 1]
  }

  lemma DepthSnoc(s: string, c: char)
    ensures Depth(s + [c]) == Depth(s) + if c == '(' then 1 else if c == ')' then -1 else 0
    ensures TopCommas(s + [c]) == TopCommas(s) + if c == ',' && Depth(s) == 0 then 1 else 0
  {
    assert (s + [c])[..|s|] == s;
  }

  lemma JoinedSnoc(pieces: seq<string>, last: string)
    requires pieces != []
    ensures Joined(pieces + [last]) == Joined(pieces) + "," + last
  {
    assert (pieces + [last])[..|pieces|] == pieces;
  }

  lemma JoinedGrows(pieces: seq<string>, last: string, c: char)
    ensures Joined(pieces + [last + [c]]) == Joined(pieces + [last]) + [c]
  {
    if pieces == [] {
      assert pieces + [last] == [last] && pieces + [last + [c]] == [last + [c]];
    } else {
      JoinedSnoc(pieces, last);
      JoinedSnoc(pieces, last + [c]);
      assert Joined(pieces) + "," + (last + [c]) == Joined(pieces) + "," + last + [c];
    }
  }

  /** How a declaration splits at its top-level commas: joining the pieces with commas gives it back; no piece holds a
      comma outside parentheses; every piece but the last is balanced. */
  ghost predicate SplitOf(s: string, pieces: seq<string>) {
    && pieces != [] && Joined(pieces) == s && |pieces| == TopCommas(s) + 1
    && (forall p <- pieces :: TopCommas(p) == 0)
    && (forall i :: 0 <= i < |pieces| - 1 ==> Depth(pieces[i]) == 0)
  }

  lemma EmptyPiece()
    ensures Depth("") == 0 && TopCommas("") == 0 && Joined([""]) == ""
    ensures forall s: string :: [] + [s] == [s]
  {
  }

  lemma {:induction false} DepthJoin(a: string, b: string)
    ensures Depth(a + b) == Depth(a) + Depth(b)
    decreases |b|
  {
    hide Depth;
    EmptyPiece();
    if b == "" {
      assert a + b == a;
    } else {
      var front, c := b[..|b| - 1], b[|b| - 1];
      assert b == front + [c] && a + b == (a + front) + [c];
      DepthJoin(a, front);
      DepthSnoc(a + front, c);
      DepthSnoc(front, c);
    }
  }

  predicate TopComma(s: string, k: nat) {
    k < |s| && s[k] == ',' && Depth(s[..k]) == 0
  }

  /** A comma outside parentheses counts. */
  lemma {:induction false} CommaCounts(s: string, k: nat)
    requires TopComma(s, k)
    ensures TopCommas(s) > 0
    decreases |s|
  {
    hide Depth, TopCommas;
    var front, c := s[..|s| - 1], s[|s| - 1];
    assert s == front + [c];
    DepthSnoc(front, c);
    if k < |s| - 1 {
      assert front[..k] == s[..k];
      CommaCounts(front, k);
    }
  }

  /** A split of several pieces: a shorter split, a comma, and a last piece. */
  lemma {:induction false} LastPiece(s: string, pieces: seq<string>)
    requires |pieces| > 1 && Joined(pieces) == s && forall i :: 0 <= i < |pieces| - 1 ==> Depth(pieces[i]) == 0
    ensures var front := pieces[..|pieces| - 1];
            && s == Joined(front) + "," + pieces[|pieces| - 1] && Depth(Joined(front)) == 0
    decreases |pieces|
  {
    var front := pieces[..|pieces| - 1];
    if |front| > 1 {
      LastPiece(Joined(front), front);
      var head, last := Joined(front[..|front| - 1]), front[|front| - 1];
      hide Joined;
      DepthSnoc(head, ',');
      DepthJoin(head + ",", last);
    }
  }

  lemma LaterComma(s: string, k: nat, j: nat)
    requires k < j && TopComma(s, k) && TopComma(s, j)
    ensures TopCommas(s[k + 1..]) > 0
  {
    hide Depth, TopCommas;
    var last := s[k + 1..];
    assert s[..j] == s[..k + 1] + last[..j - k - 1] && s[..k + 1] == s[..k] + [','];
    DepthSnoc(s[..k], ',');
    DepthJoin(s[..k + 1], last[..j - k - 1]);
    CommaCounts(last, j - k - 1);
  }

  /** Where the last piece of a split starts. */
  lemma LastComma(s: string, pieces: seq<string>) returns (k: nat)
    requires |pieces| > 1 && Joined(pieces) == s && forall i :: 0 <= i < |pieces| - 1 ==> Depth(pieces[i]) == 0
    ensures TopComma(s, k) && s[..k] == Joined(pieces[..|pieces| - 1]) && s[k + 1..] == pieces[|pieces| - 1]
  {
    LastPiece(s, pieces);
    hide Joined, Depth;
    k := |Joined(pieces[..|pieces| - 1])|;
    assert s[..k] == Joined(pieces[..|pieces| - 1]);
  }

  /** There is only one such split. */
  lemma {:induction false} SplitUnique(s: string, p: seq<string>, q: seq<string>)
    requires p != [] && Joined(p) == s && (forall x <- p :: TopCommas(x) == 0)
    requires q != [] && Joined(q) == s && (forall x <- q :: TopCommas(x) == 0)
    requires forall i :: 0 <= i < |p| - 1 ==> Depth(p[i]) == 0
    requires forall i :: 0 <= i < |q| - 1 ==> Depth(q[i]) == 0
    ensures p == q
    decreases |p|
  {
    SinglePiece(s, p);
    SinglePiece(s, q);
    hide *;
    var m, n := |p| - 1, |q| - 1;
    if m == 0 && n == 0 {
      assert p[0] == q[0];
    } else if m == 0 {
      var k := LastComma(s, q);
      CommaCounts(s, k);
    } else if n == 0 {
      var j := LastComma(s, p);
      CommaCounts(s, j);
    } else {
      var j := LastComma(s, p);
      var k := LastComma(s, q);
      if j < k {
        LaterComma(s, j, k);
      } else if k < j {
        LaterComma(s, k, j);
      } else {
        SplitUnique(s[..j], p[..m], q[..n]);
        assert p == p[..m] + [p[m]] && q == q[..n] + [q[n]];
      }
    }
  }

  /** What is counted as depth: the parentheses opened and not closed. */
  lemma {:induction false} DepthCounts(s: string)
    ensures Depth(s) + multiset(s)[')'] == multiset(s)['(']
    decreases |s|
  {
    if s != "" {
      DepthCounts(s[..|s| - 1]);
      assert s == s[..|s| - 1] + [s[|s| - 1]];
    }
  }

  lemma {:induction false} NoneCounted(s: string, k: nat)
    requires TopCommas(s) == 0
    ensures !TopComma(s, k)
    decreases |s|
  {
    if TopComma(s, k) {
      CommaCounts(s, k);
    }
  }

  /** A split cuts at exactly the commas outside parentheses: the pieces joined by commas are the declaration, in all
      but the last as many parentheses are closed as were opened, and a comma left in a piece has some open before
      it. */
  lemma SplitCuts(s: string, pieces: seq<string>, i: nat, k: nat)
    requires SplitOf(s, pieces) && i < |pieces|
    ensures Joined(pieces) == s
    ensures i < |pieces| - 1 ==> multiset(pieces[i])['('] == multiset(pieces[i])[')']
    ensures k < |pieces[i]| && pieces[i][k] == ',' ==>
              multiset(pieces[i][..k])['('] != multiset(pieces[i][..k])[')']
  {
    DepthCounts(pieces[i]);
    NoneCounted(pieces[i], k);
    if k < |pieces[i]| {
      DepthCounts(pieces[i][..k]);
    }
    hide Depth, TopCommas, Joined;
  }

  lemma SinglePiece(s: string, pieces: seq<string>)
    requires Joined(pieces) == s
    ensures |pieces| == 1 ==> pieces[0] == s
  {
  }

  method RawPieces(s: string) returns (pieces: seq<string>)
    ensures SplitOf(s, pieces)
  {
    hide Depth, TopCommas, Joined;
    pieces := [];
    var depth, start := 0, 0;
    EmptyPiece();
    for i := 0 to |s|
      invariant 0 <= start <= i
      invariant depth == Depth(s[..i]) == Depth(s[start..i])
      invariant Joined(pieces + [s[start..i]]) == s[..i]
      invariant TopCommas(s[start..i]) == 0 && forall p <- pieces :: TopCommas(p) == 0
      invariant forall p <- pieces :: Depth(p) == 0
      invariant |pieces| == TopCommas(s[..i])
    {
      var c := s[i];
      assert s[..i + 1] == s[..i] + [c] && s[start..i + 1] == s[start..i] + [c];
      DepthSnoc(s[..i], c);
      DepthSnoc(s[start..i], c);
      JoinedGrows(pieces, s[start..i], c);
      if c == '(' {
        depth := depth + 1;
      } else if c == ')' {
        depth := depth - 1;
      } else if c == ',' && depth == 0 {
        pieces := pieces + [s[start..i]];
        start := i + 1;
        assert s[start..i + 1] == "";
        JoinedSnoc(pieces, "");
        assert Joined(pieces) + "," + "" == Joined(pieces) + [c];
      }
    }
    assert s[..|s|] == s && s[start..] == s[start..|s|];
    pieces := pieces + [s[start..]];
  }

  /** What the language trims. */
  predicate Space(c: char) {
    || c in "\t\n\r " || c == '\U{000B}' || c == '\U{000C}' || c == '\U{00A0}' || c == '\U{1680}'
    || '\U{2000}' <= c <= '\U{200A}' || c == '\U{2028}' || c == '\U{2029}' || c == '\U{202F}' || c == '\U{205F}'
    || c == '\U{3000}' || c == '\U{FEFF}'
  }

  function TrimmedEnd(s: string): string
    decreases |s|
  {
    if s != "" && Space(s[|s| - 1]) then TrimmedEnd(s[..|s| - 1]) else s
  }

  function TrimmedStart(s: string): string {
    if s != "" && Space(s[0]) then TrimmedStart(s[1..]) else s
  }

  function Trimmed(s: string): string {
    TrimmedEnd(TrimmedStart(s))
  }

  lemma {:induction false} EndTrimmed(s: string) returns (blank: string)
    ensures s == TrimmedEnd(s) + blank && (forall c <- blank :: Space(c))
    ensures TrimmedEnd(s) != "" ==> !Space(TrimmedEnd(s)[|TrimmedEnd(s)| - 1])
    decreases |s|
  {
    hide Space;
    blank := "";
    if s != "" && Space(s[|s| - 1]) {
      blank := EndTrimmed(s[..|s| - 1]);
      assert s == s[..|s| - 1] + [s[|s| - 1]];
      blank := blank + [s[|s| - 1]];
    }
  }

  lemma {:induction false} StartTrimmed(s: string) returns (blank: string)
    ensures s == blank + TrimmedStart(s) && (forall c <- blank :: Space(c))
    ensures TrimmedStart(s) != "" ==> !Space(TrimmedStart(s)[0])
    decreases |s|
  {
    hide Space;
    blank := "";
    if s != "" && Space(s[0]) {
      blank := StartTrimmed(s[1..]);
      assert s == [s[0]] + s[1..];
      blank := [s[0]] + blank;
    }
  }

  /** Trimming takes off blanks at both ends, and all of them. */
  lemma TrimMeaning(s: string) returns (before: string, after: string)
    ensures s == before + Trimmed(s) + after && (forall c <- before + after :: Space(c))
    ensures Trimmed(s) != "" ==> !Space(Trimmed(s)[0]) && !Space(Trimmed(s)[|Trimmed(s)| - 1])
  {
    hide Space, TrimmedStart, TrimmedEnd;
    before := StartTrimmed(s);
    after := EndTrimmed(TrimmedStart(s));
    assert Trimmed(s) != "" ==> Trimmed(s)[0] == TrimmedStart(s)[0];
  }

  /** The pieces trimmed, without the empty ones. */
  function Layers(pieces: seq<string>): seq<string>
    decreases |pieces|
  {
    if pieces == [] then []
    else
      var t := Trimmed(pieces[|pieces| - 1]);
      Layers(pieces[..|pieces| - 1]) + if t == "" then [] else [t]
  }

  /** `at` tells where the layers come from: they are the trimmed pieces that are not blank, all of them and in their
      order. */
  ghost predicate ComeFrom(layers: seq<string>, pieces: seq<string>, at: seq<nat>) {
    && Rising(at, |pieces|) && |at| == |layers|
    && (forall i :: 0 <= i < |at| ==> layers[i] == Trimmed(pieces[at[i]]))
    && (forall k :: 0 <= k < |pieces| ==> (k in at <==> Trimmed(pieces[k]) != ""))
  }

  lemma {:induction false} LayersMeaning(pieces: seq<string>) returns (at: seq<nat>)
    ensures ComeFrom(Layers(pieces), pieces, at)
    decreases |pieces|
  {
    hide *;
    LayersStep(pieces);
    if pieces == [] {
      at := [];
      NoLayersComeFrom();
    } else {
      var n := |pieces| - 1;
      at := LayersMeaning(pieces[..n]);
      assert pieces == pieces[..n] + [pieces[n]];
      ComeFromMore(Layers(pieces[..n]), pieces[..n], at, pieces[n]);
      at := if Trimmed(pieces[n]) == "" then at else at + [n];
    }
  }

  lemma NoLayersComeFrom()
    ensures ComeFrom([], [], [])
  {
  }

  lemma ComeFromMore(layers: seq<string>, pieces: seq<string>, at: seq<nat>, p: string)
    requires ComeFrom(layers, pieces, at)
    ensures if Trimmed(p) == "" then ComeFrom(layers, pieces + [p], at)
            else ComeFrom(layers + [Trimmed(p)], pieces + [p], at + [|pieces|])
  {
    hide Trimmed;
    RisingMore(at, |pieces|);
  }

  lemma LayersStep(pieces: seq<string>)
    ensures pieces == [] ==> Layers(pieces) == []
    ensures pieces != [] ==>
              var front, t := Layers(pieces[..|pieces| - 1]), Trimmed(pieces[|pieces| - 1]);
              Layers(pieces) == if t == "" then front else front + [t]
  {
    hide Trimmed;
  }

  method SplitTopLevel(s: string) returns (layers: seq<string>, ghost pieces: seq<string>)
    ensures SplitOf(s, pieces) && layers == Layers(pieces)
  {
    hide SplitOf, Trimmed;
    var raw := RawPieces(s);
    pieces := raw;
    layers := [];
    for i := 0 to |raw|
      invariant layers == Layers(raw[..i])
    {
      assert raw[..i + 1][..i] == raw[..i];
      var t := Trimmed(raw[i]);
      if t != "" {
        layers := layers + [t];
      }
    }
    assert raw[..|raw|] == raw;
  }

  // ----- the forced style ----------------------------------------------------------------------------

  datatype Saved = Unset | NoStyle | Text(text: string)

  /** A slide's inline style, and what the audit remembers of it. */
  class Section {
    var style: Option<string>
    var saved: Saved

    constructor (style: Option<string>)
      ensures this.style == style && saved == Unset
    {
      this.style, saved := style, Unset;
    }
  }

  /** Without a final semicolon and the blanks after it. */
  function WithoutEnd(s: string): string {
    var t := TrimmedEnd(s);
    if t != "" && t[|t| - 1] == ';' then t[..|t| - 1] else s
  }

  function Forced(prior: Option<string>, hidden: bool): string {
    (if prior.Some? && prior.value != "" then WithoutEnd(prior.value) + ";" else "")
    + "visibility:visible !important;opacity:1 !important" + (if hidden then ";display:block !important" else "")
  }

  /** The forced style is what the author declared, without a last semicolon and the blanks behind it, and then what the
      audit needs, which comes last and so wins. */
  lemma ForcedMeaning(prior: Option<string>, hidden: bool) returns (kept: string, cut: string)
    ensures var needed := "visibility:visible !important;opacity:1 !important"
            + if hidden then ";display:block !important" else "";
            if prior.None? || prior.value == "" then Forced(prior, hidden) == needed
            else prior.value == kept + cut && Forced(prior, hidden) == kept + ";" + needed
    ensures cut != "" ==> cut[0] == ';' && forall c <- cut[1..] :: Space(c)
    ensures cut == "" && prior.Some? ==>
              forall m :: 0 <= m < |prior.value| && prior.value[m] == ';' ==>
                exists j :: m < j < |prior.value| && !Space(prior.value[j])
  {
    kept, cut := "", "";
    if prior.Some? && prior.value != "" {
      kept, cut := EndCut(prior.value);
      hide WithoutEnd, Space;
      assert kept + ";" + "visibility:visible !important;opacity:1 !important"
          == (kept + ";") + "visibility:visible !important;opacity:1 !important";
    }
  }

  lemma EndCut(s: string) returns (kept: string, cut: string)
    ensures s == kept + cut && WithoutEnd(s) == kept
    ensures cut != "" ==> cut[0] == ';' && forall c <- cut[1..] :: Space(c)
    ensures cut == "" ==>
              forall m :: 0 <= m < |s| && s[m] == ';' ==> exists j :: m < j < |s| && !Space(s[j])
  {
    var t := TrimmedEnd(s);
    var blank := EndTrimmed(s);
    if t != "" && t[|t| - 1] == ';' {
      kept, cut := t[..|t| - 1], [';'] + blank;
      assert t == kept + [';'];
    } else {
      kept, cut := s, "";
      NoSemicolon();
      forall k | |t| <= k < |s|
        ensures Space(s[k])
      {
        assert s[k] == blank[k - |t|] && blank[k - |t|] in blank;
      }
      assert t != "" ==> s[|t| - 1] == t[|t| - 1];
      hide Space, TrimmedEnd;
    }
  }

  lemma NoSemicolon()
    ensures !Space(';')
  {
  }

  function Remembered(style: Option<string>): Saved {
    if style.None? then NoStyle else Text(style.value)
  }

  function Original(style: Option<string>, saved: Saved): Option<string> {
    match saved
    case Unset => style
    case NoStyle => None
    case Text(t) => Some(t)
  }

  /** Forcing remembers the author's style once; releasing puts exactly that back. */
  method ForceVisible(section: Section, on: bool, hidden: bool)
    modifies section
    ensures var author := Original(old(section.style), old(section.saved));
            if on then
              section.style == Some(Forced(author, hidden)) && section.saved == Remembered(author)
            else
              section.style == author && section.saved == Unset
  {
    if !on {
      match section.saved {
        case Unset => return;
        case NoStyle => section.style := None;
        case Text(t) => section.style := Some(t);
      }
      section.saved := Unset;
      return;
    }
    if section.saved == Unset {
      section.saved := Remembered(section.style);
    }
    var prior := if section.saved.Text? then Some(section.saved.text) else None;
    section.style := Some(Forced(prior, hidden));
  }

  ghost predicate Apart(sections: seq<Section>) {
    forall i, j :: 0 <= i < j < |sections| ==> sections[i] != sections[j]
  }

  function Styles(sections: seq<Section>): (r: seq<Option<string>>)
    reads sections
    ensures |r| == |sections|
  {
    seq(|sections|, i requires 0 <= i < |sections| reads sections => sections[i].style)
  }

  /** What is on the page while slide `i` is measured. */
  function OnlyForced(styles: seq<Option<string>>, hidden: seq<bool>, i: nat): (r: seq<Option<string>>)
    requires |hidden| == |styles|
    ensures |r| == |styles|
  {
    seq(|styles|, j requires 0 <= j < |styles| => if j == i then Some(Forced(styles[j], hidden[j])) else styles[j])
  }

  /** Force slide `i` and release every other one. */
  method ShowOnly(sections: seq<Section>, hidden: seq<bool>, i: nat, ghost authored: seq<Option<string>>)
    requires Apart(sections) && |hidden| == |sections| == |authored| && i < |sections|
    requires forall j :: 0 <= j < |sections| ==> Original(sections[j].style, sections[j].saved) == authored[j]
    modifies sections
    ensures Styles(sections) == OnlyForced(authored, hidden, i)
    ensures forall j :: 0 <= j < |sections| ==> Original(sections[j].style, sections[j].saved) == authored[j]
  {
    for j := 0 to |sections|
      invariant forall k :: 0 <= k < |sections| ==> Original(sections[k].style, sections[k].saved) == authored[k]
      invariant forall k :: 0 <= k < j ==> sections[k].style == OnlyForced(authored, hidden, i)[k]
    {
      ForceVisible(sections[j], j == i, hidden[j]);
    }
  }

  /** Release every slide. */
  method ReleaseAll(sections: seq<Section>, ghost authored: seq<Option<string>>)
    requires Apart(sections) && |sections| == |authored|
    requires forall j :: 0 <= j < |sections| ==> Original(sections[j].style, sections[j].saved) == authored[j]
    modifies sections
    ensures forall j :: 0 <= j < |sections| ==> sections[j].style == authored[j] && sections[j].saved == Unset
  {
    for j := 0 to |sections|
      invariant forall k :: 0 <= k < |sections| ==> Original(sections[k].style, sections[k].saved) == authored[k]
      invariant forall k :: 0 <= k < j ==> sections[k].style == authored[k] && sections[k].saved == Unset
    {
      ForceVisible(sections[j], false, false);
    }
  }

  lemma AllOriginal(sections: seq<Section>, styles: seq<Option<string>>)
    requires styles == Styles(sections) && forall s <- sections :: s.saved == Unset
    ensures forall j :: 0 <= j < |sections| ==> Original(sections[j].style, sections[j].saved) == styles[j]
  {
    forall j | 0 <= j < |sections|
      ensures Original(sections[j].style, sections[j].saved) == styles[j]
    {
      assert sections[j] in sections;
    }
  }

  /** The audit: each slide is measured while it alone is forced, and in the end every inline style, absent or text,
      is what the author wrote and nothing is remembered. */
  method Run(sections: seq<Section>, hidden: seq<bool>) returns (measured: seq<seq<Option<string>>>)
    requires Apart(sections) && |hidden| == |sections|
    requires forall s <- sections :: s.saved == Unset
    modifies sections
    ensures |measured| == |sections|
    ensures forall i :: 0 <= i < |sections| ==> measured[i] == OnlyForced(old(Styles(sections)), hidden, i)
    ensures forall i, j :: 0 <= i < |sections| && 0 <= j < |sections| ==>
              && |measured[i]| == |sections|
              && measured[i][j] == if j == i then Some(Forced(old(Styles(sections))[j], hidden[j]))
                                   else old(Styles(sections))[j]
    ensures Styles(sections) == old(Styles(sections)) && forall s <- sections :: s.saved == Unset
  {
    hide OnlyForced, Original, Forced;
    measured := [];
    ghost var authored := Styles(sections);
    AllOriginal(sections, authored);
    for i := 0 to |sections|
      invariant |measured| == i
      invariant forall j :: 0 <= j < i ==> measured[j] == OnlyForced(authored, hidden, j)
      invariant forall j :: 0 <= j < |sections| ==> Original(sections[j].style, sections[j].saved) == authored[j]
    {
      ShowOnly(sections, hidden, i, authored);
      measured := measured + [Styles(sections)];
    }
    ReleaseAll(sections, authored);
    forall i, j | 0 <= i < |sections| && 0 <= j < |sections|
      ensures |measured[i]| == |sections|
      ensures measured[i][j] == if j == i then Some(Forced(authored[j], hidden[j])) else authored[j]
    {
      OnlyForcedAt(authored, hidden, i, j);
    }
  }

  lemma OnlyForcedAt(styles: seq<Option<string>>, hidden: seq<bool>, i: nat, j: nat)
    requires |hidden| == |styles| && i < |styles| && j < |styles|
    ensures OnlyForced(styles, hidden, i)[j] == if j == i then Some(Forced(styles[j], hidden[j])) else styles[j]
  {
  }
}

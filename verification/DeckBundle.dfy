/**
  The bundler (scripts/deck-bundle.py): one left-to-right pass that claims
  comments, style blocks and script blocks whole, inlines every local file, and a
  second pass over the result that looks for references still live.
*/
module BundleSpec {
  import opened Wrappers
  import opened Places

  /** The value of a src, an href or a url(). */
  datatype Ref = Empty | Data(uri: string) | Fragment(name: string) | Remote(url: string) | Local(path: string)

  /** Where the word `stylesheet` stands in a link: in its rel, in another attribute, or nowhere. */
  datatype SheetWord = InRel | Elsewhere | Nowhere

  /** The pieces of a document the two passes tell apart. */
  datatype Lexeme =
    | CommentOpen
    | CommentClose
    | StyleOpen
    | StyleClose
    | ScriptOpen(src: Option<Ref>, code: bool, attrs: seq<string>)
    | ScriptClose(lower: bool)   // `lower`: spelled so that the escape finds it
    | Link(href: Option<Ref>, word: SheetWord)
    | Media(source: Option<Ref>)
    | Url(ref: Ref)
    | Text(text: string)

  type Doc = seq<Lexeme>

  type Dir = string

  /** A file the program reads: as text, as a data: URI, and the folder it is in. */
  datatype Outcome = Escapes | Absent | File(text: Doc, uri: string, dir: Dir)

  /** What a reference names, seen from a folder and confined to the deck. */
  datatype World = World(base: Dir, resolve: (Dir, Ref) -> Outcome)

  // ----- claiming regions --------------------------------------------------------------------

  /** One claimed region, or one lexeme between them. */
  datatype Region = Gap(lexeme: Lexeme) | Claim(lexemes: Doc)

  function Lexemes(r: Region): Doc {
    if r.Gap? then [r.lexeme] else r.lexemes
  }

  /** What opens a region: a script only counts in the second pass when it has no src. */
  predicate Opens(l: Lexeme, second: bool) {
    l.CommentOpen? || l.StyleOpen? || (l.ScriptOpen? && (second ==> l.src.None?))
  }

  predicate Closes(open: Lexeme, l: Lexeme) {
    match open
    case CommentOpen => l.CommentClose?
    case StyleOpen => l.StyleClose?
    case ScriptOpen(_, _, _) => l.ScriptClose?
    case _ => false
  }

  /** The first place at or after `from` that closes `open`, or the length. */
  function CloserOf(doc: Doc, open: Lexeme, from: nat): (k: nat)
    requires from <= |doc|
    ensures from <= k <= |doc| && (k < |doc| ==> Closes(open, doc[k]))
    ensures forall j :: from <= j < k ==> !Closes(open, doc[j])
    decreases |doc| - from
  {
    if from == |doc| || Closes(open, doc[from]) then from else CloserOf(doc, open, from + 1)
  }

  /** Left to right: an opener with a closer behind it claims everything up to its first closer. */
  function Scan(doc: Doc, second: bool): seq<Region>
    decreases |doc|
  {
    if doc == [] then []
    else
      var k := CloserOf(doc, doc[0], 1);
      if Opens(doc[0], second) && k < |doc| then [Claim(doc[..k + 1])] + Scan(doc[k + 1..], second)
      else [Gap(doc[0])] + Scan(doc[1..], second)
  }

  function Flat(regions: seq<Region>): Doc {
    if regions == [] then [] else Lexemes(regions[0]) + Flat(regions[1..])
  }

  lemma FlatCons(r: Region, rest: seq<Region>)
    ensures Flat([r] + rest) == Lexemes(r) + Flat(rest)
  {
    assert ([r] + rest)[1..] == rest;
  }

  /** The regions are the document, cut up. */
  lemma {:induction false} ScanLossless(doc: Doc, second: bool)
    ensures Flat(Scan(doc, second)) == doc
    decreases |doc|
  {
    if doc != [] {
      hide Flat, CloserOf, Opens;
      var k := CloserOf(doc, doc[0], 1);
      if Opens(doc[0], second) && k < |doc| {
        ScanLossless(doc[k + 1..], second);
        FlatCons(Claim(doc[..k + 1]), Scan(doc[k + 1..], second));
        assert doc[..k + 1] + doc[k + 1..] == doc;
      } else {
        ScanLossless(doc[1..], second);
        FlatCons(Gap(doc[0]), Scan(doc[1..], second));
        assert [doc[0]] + doc[1..] == doc;
      }
    }
  }

  // ----- references ----------------------------------------------------------------------------

  datatype Kind = ScriptRef | SheetRef | MediaRef | UrlRef

  /** A reference a handler looks at. */
  datatype Use = Use(kind: Kind, dir: Dir, ref: Ref)

  datatype Fate = Left | Inlined | Missing | Remote | Escaped

  /** What happens to a reference. */
  function FateOf(w: World, u: Use): Fate {
    if u.ref.Data? then Left
    else if u.kind == UrlRef && (u.ref.Empty? || u.ref.Fragment?) then Left
    else if u.kind == MediaRef && u.ref.Empty? then Left
    else if u.ref.Remote? then Fate.Remote
    else
      match w.resolve(u.dir, u.ref)
      case Escapes => Escaped
      case Absent => Missing
      case File(_, _, _) => Inlined
  }

  function Uri(w: World, u: Use): Ref {
    var f := w.resolve(u.dir, u.ref);
    if f.File? then Data(f.uri) else u.ref
  }

  function SwapUrl(w: World, dir: Dir, l: Lexeme): Lexeme {
    if l.Url? && FateOf(w, Use(UrlRef, dir, l.ref)) == Inlined then Url(Uri(w, Use(UrlRef, dir, l.ref))) else l
  }

  /** A stylesheet with every local url() inlined. */
  function InlineCss(w: World, dir: Dir, css: Doc): (r: Doc)
    ensures |r| == |css|
  {
    seq(|css|, i requires 0 <= i < |css| => SwapUrl(w, dir, css[i]))
  }

  function UrlUses(dir: Dir, css: Doc): seq<Use> {
    if css == [] then []
    else UrlUses(dir, css[..|css| - 1])
         + if css[|css| - 1].Url? then [Use(UrlRef, dir, css[|css| - 1].ref)] else []
  }

  predicate Blank(l: Lexeme) {
    l.Text? && forall c <- l.text :: c in " \t\r\n"
  }

  /** A script block the bundler would inline: it has a src, is code, and holds nothing but blanks. */
  predicate Inlinable(r: Region) {
    && r.Claim? && r.lexemes != [] && r.lexemes[0].ScriptOpen? && r.lexemes[0].src.Some? && r.lexemes[0].code
    && forall l <- Body(r) :: Blank(l)
  }

  function Body(r: Region): Doc {
    if r.Claim? && |r.lexemes| >= 2 then r.lexemes[1..|r.lexemes| - 1] else []
  }

  predicate StyleBlock(r: Region) {
    r.Claim? && |r.lexemes| >= 2 && r.lexemes[0].StyleOpen?
  }

  predicate SheetLink(r: Region) {
    r.Gap? && r.lexeme.Link? && r.lexeme.href.Some? && !r.lexeme.word.Nowhere?
  }

  predicate MediaTag(r: Region) {
    r.Gap? && r.lexeme.Media? && r.lexeme.source.Some?
  }

  /** The references of one region, in the order the handlers meet them. */
  function UsesOf(w: World, r: Region): seq<Use> {
    if Inlinable(r) then [Use(ScriptRef, w.base, r.lexemes[0].src.value)]
    else if StyleBlock(r) then UrlUses(w.base, Body(r))
    else if SheetLink(r) then
      var u := Use(SheetRef, w.base, r.lexeme.href.value);
      var f := w.resolve(u.dir, u.ref);
      [u] + if FateOf(w, u) == Inlined && f.File? then UrlUses(f.dir, f.text) else []
    else if MediaTag(r) then [Use(MediaRef, w.base, r.lexeme.source.value)]
    else []
  }

  // ----- rewriting -------------------------------------------------------------------------------

  function EscapeOne(l: Lexeme): Lexeme {
    if l == ScriptClose(true) then Text("<\\/script>") else l
  }

  function Escape(js: Doc): (r: Doc)
    ensures |r| == |js|
  {
    seq(|js|, i requires 0 <= i < |js| => EscapeOne(js[i]))
  }

  function Kept(attrs: seq<string>): seq<string> {
    if attrs == [] then []
    else (if attrs[0] == "defer" || attrs[0] == "async" then [] else [attrs[0]]) + Kept(attrs[1..])
  }

  function Name(r: Ref): Lexeme {
    match r
    case Local(path) => Text("/* " + path + " */\n")
    case Fragment(name) => Text("/* " + name + " */\n")
    case _ => Text("/* */\n")
  }

  function InlinedScript(open: Lexeme, ref: Ref, js: Doc): Doc
    requires open.ScriptOpen?
  {
    [ScriptOpen(None, open.code, Kept(open.attrs)), Name(ref)] + Escape(js) + [Text("\n"), ScriptClose(true)]
  }

  function InlinedSheet(w: World, ref: Ref, css: Doc, dir: Dir): Doc {
    [StyleOpen, Name(ref)] + InlineCss(w, dir, css) + [Text("\n"), StyleClose]
  }

  /** What the bundler writes for one region. */
  function Rewrite(w: World, r: Region): Doc {
    if Inlinable(r) then
      var u := Use(ScriptRef, w.base, r.lexemes[0].src.value);
      var f := w.resolve(u.dir, u.ref);
      if FateOf(w, u) == Inlined && f.File? then InlinedScript(r.lexemes[0], u.ref, f.text) else r.lexemes
    else if StyleBlock(r) then
      [r.lexemes[0]] + InlineCss(w, w.base, Body(r)) + [r.lexemes[|r.lexemes| - 1]]
    else if SheetLink(r) then
      var u := Use(SheetRef, w.base, r.lexeme.href.value);
      var f := w.resolve(u.dir, u.ref);
      if FateOf(w, u) == Inlined && f.File? then InlinedSheet(w, u.ref, f.text, f.dir) else [r.lexeme]
    else if MediaTag(r) then
      var u := Use(MediaRef, w.base, r.lexeme.source.value);
      if FateOf(w, u) == Inlined then [Media(Some(Uri(w, u)))] else [r.lexeme]
    else Lexemes(r)
  }

  function RewriteAll(w: World, regions: seq<Region>): Doc {
    if regions == [] then [] else Rewrite(w, regions[0]) + RewriteAll(w, regions[1..])
  }

  function UsesAll(w: World, regions: seq<Region>): seq<Use> {
    if regions == [] then [] else UsesOf(w, regions[0]) + UsesAll(w, regions[1..])
  }

  function Bundled(w: World, doc: Doc): Doc {
    RewriteAll(w, Scan(doc, false))
  }

  /** The references with a given fate, in order. */
  function WithFate(w: World, uses: seq<Use>, fate: Fate): seq<Ref> {
    if uses == [] then []
    else WithFate(w, uses[..|uses| - 1], fate)
         + if FateOf(w, uses[|uses| - 1]) == fate then [uses[|uses| - 1].ref] else []
  }

  // ----- every reference is accounted for ------------------------------------------------------------

  /** Each reference met is inlined, left alone, or recorded in exactly one list. */
  lemma {:induction false} Accounted(w: World, uses: seq<Use>)
    ensures |WithFate(w, uses, Left)| + |WithFate(w, uses, Inlined)| + |WithFate(w, uses, Missing)|
            + |WithFate(w, uses, Fate.Remote)| + |WithFate(w, uses, Escaped)| == |uses|
    ensures forall u <- uses :: u.ref in WithFate(w, uses, FateOf(w, u))
    ensures forall u <- uses :: FateOf(w, u) == Left ==> u.ref.Data? || u.ref.Fragment? || u.ref.Empty?
    decreases |uses|
  {
    if uses != [] {
      Accounted(w, uses[..|uses| - 1]);
      assert uses == uses[..|uses| - 1] + [uses[|uses| - 1]];
    }
  }

  lemma {:induction false} WithFateJoin(w: World, a: seq<Use>, b: seq<Use>, fate: Fate)
    ensures WithFate(w, a + b, fate) == WithFate(w, a, fate) + WithFate(w, b, fate)
    decreases |b|
  {
    if b == [] {
      assert a + b == a;
    } else {
      assert (a + b)[..|a + b| - 1] == a + b[..|b| - 1];
      WithFateJoin(w, a, b[..|b| - 1], fate);
    }
  }

  lemma {:induction false} UrlUsesOf(dir: Dir, css: Doc, l: Lexeme)
    ensures l in css && l.Url? ==> Use(UrlRef, dir, l.ref) in UrlUses(dir, css)
    decreases |css|
  {
    if css != [] {
      assert css == css[..|css| - 1] + [css[|css| - 1]];
      UrlUsesOf(dir, css[..|css| - 1], l);
    }
  }

  lemma CssUnchanged(w: World, dir: Dir, css: Doc)
    requires forall u <- UrlUses(dir, css) :: FateOf(w, u) != Inlined
    ensures InlineCss(w, dir, css) == css
  {
    forall i | 0 <= i < |css|
      ensures SwapUrl(w, dir, css[i]) == css[i]
    {
      UrlUsesOf(dir, css, css[i]);
    }
  }

  /** A region of which nothing is inlined is written as it was. */
  lemma UntouchedRegion(w: World, r: Region)
    requires forall u <- UsesOf(w, r) :: FateOf(w, u) != Inlined
    requires r.Claim? ==> |r.lexemes| >= 2
    ensures Rewrite(w, r) == Lexemes(r)
  {
    if Inlinable(r) {
      assert Use(ScriptRef, w.base, r.lexemes[0].src.value) in UsesOf(w, r);
    } else if StyleBlock(r) {
      CssUnchanged(w, w.base, Body(r));
    } else if SheetLink(r) {
      assert UsesOf(w, r)[0] == Use(SheetRef, w.base, r.lexeme.href.value);
    } else if MediaTag(r) {
      assert Use(MediaRef, w.base, r.lexeme.source.value) in UsesOf(w, r);
    }
  }

  /** A style block keeps its shape, and changes only where a url() was inlined. */
  lemma StyleChangesOnlyUrls(w: World, r: Region, i: nat)
    requires StyleBlock(r) && i < |r.lexemes|
    ensures |Rewrite(w, r)| == |r.lexemes|
    ensures Rewrite(w, r)[i] != r.lexemes[i] ==>
              && r.lexemes[i].Url?
              && var u := Use(UrlRef, w.base, r.lexemes[i].ref);
                 FateOf(w, u) == Inlined && Rewrite(w, r)[i] == Url(Uri(w, u)) && Uri(w, u).Data?
  {
    if 0 < i < |r.lexemes| - 1 {
      assert Body(r)[i - 1] == r.lexemes[i];
    }
  }

  /** A list holds the references with its fate in the order in which they were met. */
  lemma {:induction false} FateOrder(w: World, uses: seq<Use>, fate: Fate) returns (at: seq<nat>)
    ensures Rising(at, |uses|) && |at| == |WithFate(w, uses, fate)|
    ensures forall i :: 0 <= i < |at| ==> WithFate(w, uses, fate)[i] == uses[at[i]].ref
    ensures forall k :: 0 <= k < |uses| ==> (k in at <==> FateOf(w, uses[k]) == fate)
    decreases |uses|
  {
    at := [];
    if uses != [] {
      hide FateOf;
      var n := |uses| - 1;
      at := FateOrder(w, uses[..n], fate);
      RisingMore(at, n);
      if FateOf(w, uses[n]) == fate {
        at := at + [n];
      }
    }
  }

  ghost predicate UrlsAt(dir: Dir, css: Doc, uses: seq<Use>, at: seq<nat>) {
    && Rising(at, |css|) && |at| == |uses| && (forall k :: 0 <= k < |css| ==> (k in at <==> css[k].Url?))
    && (forall i :: 0 <= i < |at| ==> css[at[i]].Url? && uses[i] == Use(UrlRef, dir, css[at[i]].ref))
  }

  /** And the url()s of a style text are met in their order. */
  lemma {:induction false} UrlOrder(dir: Dir, css: Doc) returns (at: seq<nat>)
    ensures UrlsAt(dir, css, UrlUses(dir, css), at)
    decreases |css|
  {
    at := [];
    if css != [] {
      hide UrlsAt;
      var n := |css| - 1;
      at := UrlOrder(dir, css[..n]);
      assert css == css[..n] + [css[n]];
      UrlsMore(dir, css[..n], UrlUses(dir, css[..n]), at, css[n]);
      at := if css[n].Url? then at + [n] else at;
    }
  }

  lemma UrlsMore(dir: Dir, css: Doc, uses: seq<Use>, at: seq<nat>, l: Lexeme)
    requires UrlsAt(dir, css, uses, at)
    ensures if l.Url? then UrlsAt(dir, css + [l], uses + [Use(UrlRef, dir, l.ref)], at + [|css|])
            else UrlsAt(dir, css + [l], uses + [], at)
  {
    RisingMore(at, |css|);
  }

  // ----- what the result holds -----------------------------------------------------------------------

  /** What became of one reference: left only when there is nothing to fetch, inlined when its file is there, and
      recorded with the reason why not. */
  lemma FateMeaning(w: World, u: Use)
    ensures var f, got := FateOf(w, u), w.resolve(u.dir, u.ref);
            && (f == Left ==> u.ref.Data? || (u.kind == UrlRef && (u.ref.Empty? || u.ref.Fragment?))
                              || (u.kind == MediaRef && u.ref.Empty?))
            && (f == Fate.Remote <==> u.ref.Remote?)
            && (f == Inlined ==> !u.ref.Data? && !u.ref.Remote? && got.File?)
            && (f == Missing ==> got.Absent?) && (f == Escaped ==> got.Escapes?)
  {
  }

  /** The file that stands for a reference found in `dir`. */
  predicate FileBehind(w: World, dir: Dir, ref: Ref) {
    !ref.Data? && !ref.Remote? && w.resolve(dir, ref).File?
  }

  predicate UrlFile(w: World, dir: Dir, l: Lexeme) {
    l.Url? && !l.ref.Empty? && !l.ref.Fragment? && FileBehind(w, dir, l.ref)
  }

  /** Style text with every url() that has a file replaced by the file's data: URI, and otherwise as it was. */
  ghost predicate CssOf(w: World, dir: Dir, css: Doc, now: Doc) {
    && |now| == |css|
    && forall i :: 0 <= i < |css| ==>
         now[i] == if UrlFile(w, dir, css[i]) then Url(Data(w.resolve(dir, css[i].ref).uri)) else css[i]
  }

  /** The code of a script as it was, except that a close tag is written so that it no longer closes. */
  ghost predicate CodeOf(js: Doc, now: Doc) {
    && |now| == |js|
    && forall i :: 0 <= i < |js| ==>
         now[i] == if js[i] == ScriptClose(true) then Text("<\\/script>") else js[i]
  }

  /** The attributes other than defer and async, all of them and in their order. */
  ghost predicate AttributesOf(attrs: seq<string>, now: seq<string>) {
    exists at :: AttributesAt(attrs, now, at)
  }

  ghost predicate AttributesAt(attrs: seq<string>, now: seq<string>, at: seq<nat>) {
    && Rising(at, |attrs|) && |at| == |now| && (forall i :: 0 <= i < |at| ==> now[i] == attrs[at[i]])
    && (forall k :: 0 <= k < |attrs| ==> (k in at <==> attrs[k] != "defer" && attrs[k] != "async"))
  }

  /** A remark naming the file a text came from. */
  ghost predicate Remark(l: Lexeme, ref: Ref) {
    ref.Local? ==> l == Text("/* " + ref.path + " */\n")
  }

  /** A script block with the code `js` in it. */
  ghost predicate ScriptWith(open: Lexeme, js: Doc, out: Doc) {
    && open.ScriptOpen? && open.src.Some? && |out| == |js| + 4
    && out[0].ScriptOpen? && out[0].src == None && out[0].code == open.code && AttributesOf(open.attrs, out[0].attrs)
    && Remark(out[1], open.src.value) && CodeOf(js, out[2..|js| + 2])
    && out[|js| + 2] == Text("\n") && out[|js| + 3] == ScriptClose(true)
  }

  /** A style block with the sheet `css`, found in `dir`, in it. */
  ghost predicate SheetWith(w: World, ref: Ref, css: Doc, dir: Dir, out: Doc) {
    && |out| == |css| + 4 && out[0] == StyleOpen && Remark(out[1], ref)
    && CssOf(w, dir, css, out[2..|css| + 2]) && out[|css| + 2] == Text("\n") && out[|css| + 3] == StyleClose
  }

  /** A script region with a src: the open tag of a script that is code, nothing but blanks, and its close tag. */
  ghost predicate ScriptTag(r: Region, ref: Ref) {
    && r.Claim? && |r.lexemes| >= 2
    && (exists attrs :: r.lexemes[0] == ScriptOpen(Some(ref), true, attrs))
    && forall i :: 0 < i < |r.lexemes| - 1 ==> BlankText(r.lexemes[i])
  }

  ghost predicate BlankText(l: Lexeme) {
    exists text :: l == Text(text) && forall c <- text :: c == ' ' || c == '\t' || c == '\r' || c == '\n'
  }

  /** What is taken for a script, a style block, a stylesheet and a picture, read off the region. */
  lemma RegionKinds(r: Region)
    requires r.Claim? ==> |r.lexemes| >= 2
    ensures Inlinable(r) <==> exists ref :: ScriptTag(r, ref)
    ensures Inlinable(r) ==> ScriptTag(r, r.lexemes[0].src.value)
    ensures StyleBlock(r) <==> r.Claim? && r.lexemes[0] == StyleOpen
    ensures SheetLink(r) <==> exists ref, word :: r == Gap(Link(Some(ref), word)) && word != Nowhere
    ensures MediaTag(r) <==> exists ref :: r == Gap(Media(Some(ref)))
  {
    if Inlinable(r) {
      var open := r.lexemes[0];
      assert open == ScriptOpen(Some(open.src.value), true, open.attrs);
      forall i | 0 < i < |r.lexemes| - 1
        ensures BlankText(r.lexemes[i])
      {
        assert Body(r)[i - 1] in Body(r);
        BlankIsText(Body(r)[i - 1]);
      }
      assert ScriptTag(r, open.src.value);
    }
    if ref :| ScriptTag(r, ref) {
      forall l | l in Body(r)
        ensures Blank(l)
      {
        var i :| 0 <= i < |Body(r)| && Body(r)[i] == l;
        assert r.lexemes[i + 1] == l;
        BlankIsText(l);
      }
    }
    if SheetLink(r) {
      assert r == Gap(Link(Some(r.lexeme.href.value), r.lexeme.word));
    }
    if MediaTag(r) {
      assert r == Gap(Media(Some(r.lexeme.source.value)));
    }
  }

  lemma BlankIsText(l: Lexeme)
    ensures Blank(l) <==> BlankText(l)
  {
    if Blank(l) {
      assert l == Text(l.text);
    }
  }

  /** How a region of the deck is written: what there is a file for is put in, and all the rest is as it was. */
  ghost predicate WrittenAs(w: World, r: Region, out: Doc) {
    if Inlinable(r) && FileBehind(w, w.base, r.lexemes[0].src.value) then
      ScriptWith(r.lexemes[0], w.resolve(w.base, r.lexemes[0].src.value).text, out)
    else if StyleBlock(r) then
      && |out| == |r.lexemes| && out[0] == r.lexemes[0] && out[|out| - 1] == r.lexemes[|out| - 1]
      && CssOf(w, w.base, r.lexemes[1..|out| - 1], out[1..|out| - 1])
    else if SheetLink(r) && FileBehind(w, w.base, r.lexeme.href.value) then
      var f := w.resolve(w.base, r.lexeme.href.value);
      SheetWith(w, r.lexeme.href.value, f.text, f.dir, out)
    else if MediaTag(r) && !r.lexeme.source.value.Empty? && FileBehind(w, w.base, r.lexeme.source.value) then
      out == [Media(Some(Data(w.resolve(w.base, r.lexeme.source.value).uri)))]
    else out == Lexemes(r)
  }

  lemma CssMeaning(w: World, dir: Dir, css: Doc)
    ensures CssOf(w, dir, css, InlineCss(w, dir, css))
  {
  }

  lemma CodeMeaning(js: Doc)
    ensures CodeOf(js, Escape(js))
  {
  }

  lemma {:induction false} KeptMeaning(attrs: seq<string>) returns (at: seq<nat>)
    ensures AttributesAt(attrs, Kept(attrs), at)
    decreases |attrs|
  {
    at := [];
    if attrs != [] {
      var front, a := attrs[..|attrs| - 1], attrs[|attrs| - 1];
      at := KeptMeaning(front);
      RisingMore(at, |front|);
      KeptSnoc(front, a);
      assert attrs == front + [a];
      hide Kept;
      if a != "defer" && a != "async" {
        at := at + [|front|];
      }
    }
  }

  lemma {:induction false} KeptSnoc(attrs: seq<string>, a: string)
    ensures Kept(attrs + [a]) == Kept(attrs) + if a == "defer" || a == "async" then [] else [a]
    decreases |attrs|
  {
    hide Kept;
    KeptStep(attrs + [a]);
    KeptStep(attrs);
    if attrs == [] {
      assert [] + [a] == [a] && [a][1..] == [];
      KeptStep([]);
    } else {
      assert (attrs + [a])[1..] == attrs[1..] + [a];
      KeptSnoc(attrs[1..], a);
    }
  }

  lemma KeptStep(attrs: seq<string>)
    ensures attrs == [] ==> Kept(attrs) == []
    ensures attrs != [] ==>
              Kept(attrs) == (if attrs[0] == "defer" || attrs[0] == "async" then [] else [attrs[0]]) + Kept(attrs[1..])
  {
  }

  lemma ScriptMeaning(open: Lexeme, js: Doc)
    requires open.ScriptOpen? && open.src.Some?
    ensures ScriptWith(open, js, InlinedScript(open, open.src.value, js))
  {
    var out := InlinedScript(open, open.src.value, js);
    var at := KeptMeaning(open.attrs);
    CodeMeaning(js);
    hide Kept, Escape, CodeOf, AttributesAt;
    assert out[2..|js| + 2] == Escape(js);
  }

  lemma SheetMeaning(w: World, ref: Ref, css: Doc, dir: Dir)
    ensures SheetWith(w, ref, css, dir, InlinedSheet(w, ref, css, dir))
  {
    var out := InlinedSheet(w, ref, css, dir);
    CssMeaning(w, dir, css);
    hide InlineCss, CssOf;
    assert out[2..|css| + 2] == InlineCss(w, dir, css);
  }

  lemma RegionMeaning(w: World, r: Region)
    requires r.Claim? ==> |r.lexemes| >= 2
    ensures WrittenAs(w, r, Rewrite(w, r))
  {
    hide ScriptWith, SheetWith, InlinedScript, InlinedSheet, InlineCss, CssOf, Blank;
    if Inlinable(r) {
      ScriptMeaning(r.lexemes[0], TextOf(w.resolve(w.base, r.lexemes[0].src.value)));
    } else if StyleBlock(r) {
      CssMeaning(w, w.base, Body(r));
      var out := Rewrite(w, r);
      assert out[1..|out| - 1] == InlineCss(w, w.base, Body(r));
    } else if SheetLink(r) {
      var f := w.resolve(w.base, r.lexeme.href.value);
      SheetMeaning(w, r.lexeme.href.value, TextOf(f), if f.File? then f.dir else "");
    }
  }

  function Concat(outs: seq<Doc>): Doc {
    if outs == [] then [] else outs[0] + Concat(outs[1..])
  }

  lemma {:induction false} RegionsMeaning(w: World, regions: seq<Region>) returns (outs: seq<Doc>)
    requires forall r <- regions :: r.Claim? ==> |r.lexemes| >= 2
    ensures RewriteAll(w, regions) == Concat(outs) && |outs| == |regions|
    ensures forall k :: 0 <= k < |regions| ==> WrittenAs(w, regions[k], outs[k])
  {
    outs := [];
    if regions != [] {
      hide Rewrite, WrittenAs;
      assert regions[0] in regions;
      RegionMeaning(w, regions[0]);
      var rest := RegionsMeaning(w, regions[1..]);
      outs := [Rewrite(w, regions[0])] + rest;
      assert outs[1..] == rest;
    }
  }

  /** The bundle is the deck, region by region: every script, sheet, url() and picture there is a file for holds exactly
      what the file holds, and everything else is as it was written. */
  lemma BundleMeaning(w: World, doc: Doc) returns (outs: seq<Doc>)
    ensures Flat(Scan(doc, false)) == doc && Bundled(w, doc) == Concat(outs) && |outs| == |Scan(doc, false)|
    ensures forall k :: 0 <= k < |outs| ==> WrittenAs(w, Scan(doc, false)[k], outs[k])
  {
    ScanLossless(doc, false);
    ScanCut(doc);
    CutLong(Scan(doc, false));
    hide Scan, RewriteAll, WrittenAs;
    outs := RegionsMeaning(w, Scan(doc, false));
  }

  lemma {:induction false} CutLong(regions: seq<Region>)
    requires AllCut(regions)
    ensures forall r <- regions :: r.Claim? ==> |r.lexemes| >= 2
  {
    if regions != [] {
      CutLong(regions[1..]);
      assert regions == [regions[0]] + regions[1..];
    }
  }

  /** With the escape undone. */
  function Unescaped(now: Doc): (r: Doc)
    ensures |r| == |now|
  {
    seq(|now|, i requires 0 <= i < |now| => if now[i] == Text("<\\/script>") then ScriptClose(true) else now[i])
  }

  /** The code that was put in can be read back, whatever it is, unless it holds the escaped tag already. */
  lemma CodeReadsBack(js: Doc, now: Doc)
    requires CodeOf(js, now)
    ensures Unescaped(now) == js <==> Text("<\\/script>") !in js
  {
    if Text("<\\/script>") in js {
      var i :| 0 <= i < |js| && js[i] == Text("<\\/script>");
      assert Unescaped(now)[i] != js[i];
    } else {
      assert forall i :: 0 <= i < |js| ==> js[i] in js;
    }
  }

  /** Every reference of a region is met, and no other. */
  lemma UseMeaning(w: World, r: Region, u: Use)
    ensures u in UsesOf(w, r) <==>
            match u.kind
            case ScriptRef => Inlinable(r) && u.dir == w.base && u.ref == r.lexemes[0].src.value
            case SheetRef => SheetLink(r) && u.dir == w.base && u.ref == r.lexeme.href.value
            case MediaRef => MediaTag(r) && u.dir == w.base && u.ref == r.lexeme.source.value
            case UrlRef =>
              || (StyleBlock(r) && u.dir == w.base && Url(u.ref) in Body(r))
              || (SheetLink(r) && FileBehind(w, w.base, r.lexeme.href.value)
                  && u.dir == w.resolve(w.base, r.lexeme.href.value).dir
                  && Url(u.ref) in w.resolve(w.base, r.lexeme.href.value).text)
  {
    hide Blank;
    if Inlinable(r) {
    } else if StyleBlock(r) {
      UrlUsesAre(w.base, Body(r), u);
    } else if SheetLink(r) {
      var f := w.resolve(w.base, r.lexeme.href.value);
      if f.File? {
        UrlUsesAre(f.dir, f.text, u);
      }
    }
  }

  lemma {:induction false} UrlUsesAre(dir: Dir, css: Doc, u: Use)
    ensures u in UrlUses(dir, css) <==> u.kind == UrlRef && u.dir == dir && Url(u.ref) in css
    decreases |css|
  {
    if css != [] {
      assert css == css[..|css| - 1] + [css[|css| - 1]];
      UrlUsesAre(dir, css[..|css| - 1], u);
    }
  }

  // ----- the second pass over the result ---------------------------------------------------------------

  ghost predicate HasCloser(doc: Doc, open: Lexeme) {
    exists i :: 0 <= i < |doc| && Closes(open, doc[i])
  }

  /** A region as the first pass cuts it: a claim runs from its opener to its first closer. */
  ghost predicate WellCut(r: Region) {
    r.Claim? ==>
      && |r.lexemes| >= 2 && Opens(r.lexemes[0], false)
      && CloserOf(r.lexemes, r.lexemes[0], 1) == |r.lexemes| - 1
  }

  /** All regions well cut, and an opener left between them has no closer anywhere behind it. */
  ghost predicate AllCut(regions: seq<Region>) {
    regions == [] ||
    (&& WellCut(regions[0])
     && (regions[0].Gap? && Opens(regions[0].lexeme, false) ==> !HasCloser(Flat(regions[1..]), regions[0].lexeme))
     && AllCut(regions[1..]))
  }

  lemma {:induction false} SameCloser(doc: Doc, other: Doc, open: Lexeme, from: nat)
    requires from <= |doc| <= |other|
    requires forall i :: from <= i < |doc| ==> Closes(open, doc[i]) == Closes(open, other[i])
    requires CloserOf(doc, open, from) < |doc| || |doc| == |other|
    ensures CloserOf(other, open, from) == CloserOf(doc, open, from)
    decreases |doc| - from
  {
    if from < |doc| && !Closes(open, doc[from]) {
      SameCloser(doc, other, open, from + 1);
    }
  }

  lemma {:induction false} ScanCut(doc: Doc)
    ensures AllCut(Scan(doc, false))
    decreases |doc|
  {
    if doc != [] {
      var k := CloserOf(doc, doc[0], 1);
      if Opens(doc[0], false) && k < |doc| {
        ScanCut(doc[k + 1..]);
        var claim := doc[..k + 1];
        FirstCloser(claim, doc[0], 1, k);
        assert Scan(doc, false)[1..] == Scan(doc[k + 1..], false);
      } else {
        ScanCut(doc[1..]);
        ScanLossless(doc[1..], false);
        assert Scan(doc, false)[1..] == Scan(doc[1..], false);
      }
    }
  }

  lemma {:induction false} FirstCloser(doc: Doc, open: Lexeme, from: nat, k: nat)
    requires from <= k < |doc| && Closes(open, doc[k]) && forall j :: from <= j < k ==> !Closes(open, doc[j])
    ensures CloserOf(doc, open, from) == k
  {
  }

  /** What is inlined holds only close tags that cannot end it: none the escape misses, and no `</style>` at all. */
  ghost predicate PayloadFits(w: World, r: Region) {
    && (Inlinable(r) && FateOf(w, Use(ScriptRef, w.base, r.lexemes[0].src.value)) == Inlined ==>
          ScriptClose(false) !in TextOf(w.resolve(w.base, r.lexemes[0].src.value)))
    && (SheetLink(r) && FateOf(w, Use(SheetRef, w.base, r.lexeme.href.value)) == Inlined ==>
          StyleClose !in TextOf(w.resolve(w.base, r.lexeme.href.value)))
  }

  ghost predicate AllFit(w: World, regions: seq<Region>) {
    forall r <- regions :: PayloadFits(w, r)
  }

  function TextOf(f: Outcome): Doc {
    if f.File? then f.text else []
  }

  /** A script block with a src that the bundler leaves as it is: not code, or with code of its own. */
  predicate ForeignScript(r: Region) {
    r.Claim? && r.lexemes != [] && r.lexemes[0].ScriptOpen? && r.lexemes[0].src.Some? && !Inlinable(r)
  }

  /** A script with a src is one the bundler would inline. */
  ghost predicate PlainScript(r: Region) {
    !ForeignScript(r)
  }

  ghost predicate Fits(w: World, regions: seq<Region>) {
    forall r <- regions :: PayloadFits(w, r) && PlainScript(r)
  }

  /** What the second pass should find for one region: what was written, as one claim, or lexeme by lexeme. */
  function Expected(w: World, r: Region): seq<Region> {
    var out := Rewrite(w, r);
    if |out| >= 2 && Opens(out[0], true) then [Claim(out)] else Gaps(out)
  }

  function Gaps(doc: Doc): (r: seq<Region>)
    ensures |r| == |doc|
  {
    seq(|doc|, i requires 0 <= i < |doc| => Gap(doc[i]))
  }

  function ExpectedAll(w: World, regions: seq<Region>): seq<Region> {
    if regions == [] then [] else Expected(w, regions[0]) + ExpectedAll(w, regions[1..])
  }

  /** No opener among `ls` finds a closer behind it. */
  ghost predicate StrayFree(ls: Doc, tail: Doc) {
    forall i :: 0 <= i < |ls| && Opens(ls[i], true) ==> !HasCloser(ls[i + 1..] + tail, ls[i])
  }

  /** No opener left between the regions, or in a script block with a src that is left as it is, finds a closer in what
      is written behind it. */
  ghost predicate NoneClosed(w: World, regions: seq<Region>) {
    regions == [] ||
    (&& (regions[0].Gap? || ForeignScript(regions[0]) ==> StrayFree(Lexemes(regions[0]), RewriteAll(w, regions[1..])))
     && NoneClosed(w, regions[1..]))
  }

  // ----- one region of the result ---------------------------------------------------------------------

  lemma EscapedCloser(open: Lexeme, js: Doc, i: nat)
    requires i < |js| && ScriptClose(false) !in js && open.ScriptOpen?
    ensures !Closes(open, Escape(js)[i])
  {
    assert js[i] in js;
  }

  lemma InlinedScriptWhole(open: Lexeme, ref: Ref, js: Doc)
    requires open.ScriptOpen?
    ensures var out := InlinedScript(open, ref, js);
            && |out| >= 2 && Opens(out[0], true) && CloserOf(out, out[0], 1) < |out|
            && (CloserOf(out, out[0], 1) == |out| - 1 <==> ScriptClose(false) !in js)
  {
    var out := InlinedScript(open, ref, js);
    assert Closes(out[0], out[|out| - 1]);
    if ScriptClose(false) in js {
      var i :| 0 <= i < |js| && js[i] == ScriptClose(false);
      assert out[i + 2] == Escape(js)[i] == ScriptClose(false);
    } else {
      forall j | 1 <= j < |out| - 1
        ensures !Closes(out[0], out[j])
      {
        if 2 <= j < |js| + 2 {
          EscapedCloser(out[0], js, j - 2);
          assert out[j] == Escape(js)[j - 2];
        }
      }
      FirstCloser(out, out[0], 1, |out| - 1);
    }
  }

  lemma SwapKeepsClosers(w: World, dir: Dir, open: Lexeme, l: Lexeme)
    ensures Closes(open, SwapUrl(w, dir, l)) == Closes(open, l)
  {
  }

  lemma InlinedSheetWhole(w: World, ref: Ref, css: Doc, dir: Dir)
    ensures var out := InlinedSheet(w, ref, css, dir);
            && |out| >= 2 && out[0] == StyleOpen && CloserOf(out, out[0], 1) < |out|
            && (CloserOf(out, out[0], 1) == |out| - 1 <==> StyleClose !in css)
  {
    var out := InlinedSheet(w, ref, css, dir);
    assert Closes(out[0], out[|out| - 1]);
    if StyleClose in css {
      var i :| 0 <= i < |css| && css[i] == StyleClose;
      assert out[i + 2] == SwapUrl(w, dir, css[i]) == StyleClose;
    } else {
      forall j | 1 <= j < |out| - 1
        ensures !Closes(StyleOpen, out[j])
      {
        if 2 <= j < |css| + 2 {
          assert out[j] == SwapUrl(w, dir, css[j - 2]) && css[j - 2] in css;
          SwapKeepsClosers(w, dir, StyleOpen, css[j - 2]);
        }
      }
      FirstCloser(out, StyleOpen, 1, |out| - 1);
    }
  }

  lemma StyleBlockWhole(w: World, r: Region)
    requires StyleBlock(r) && WellCut(r)
    ensures var out := Rewrite(w, r);
            |out| == |r.lexemes| && out[0] == StyleOpen && CloserOf(out, out[0], 1) == |out| - 1
  {
    var out := Rewrite(w, r);
    forall j | 1 <= j < |out|
      ensures Closes(StyleOpen, out[j]) == Closes(StyleOpen, r.lexemes[j])
    {
      if j < |out| - 1 {
        assert out[j] == SwapUrl(w, w.base, Body(r)[j - 1]) && Body(r)[j - 1] == r.lexemes[j];
        SwapKeepsClosers(w, w.base, StyleOpen, r.lexemes[j]);
      }
    }
    SameCloser(r.lexemes, out, StyleOpen, 1);
  }

  /** What is written for a region opens a region, which ends at its first closer exactly when its payload fits, or is
      left as it is. */
  lemma Written(w: World, r: Region)
    requires WellCut(r)
    ensures var out := Rewrite(w, r);
            if |out| >= 2 && Opens(out[0], true) then
              CloserOf(out, out[0], 1) < |out| && (CloserOf(out, out[0], 1) == |out| - 1 <==> PayloadFits(w, r))
            else
              && PayloadFits(w, r)
              && if r.Gap? then |out| == 1 && (Opens(out[0], true) || Opens(r.lexeme, true) ==> out[0] == r.lexeme)
                 else out == r.lexemes && (!ForeignScript(r) ==> Inlinable(r) && forall l <- out :: !Opens(l, true))
  {
    if Inlinable(r) {
      var f := w.resolve(w.base, r.lexemes[0].src.value);
      if FateOf(w, Use(ScriptRef, w.base, r.lexemes[0].src.value)) == Inlined && f.File? {
        InlinedScriptWhole(r.lexemes[0], r.lexemes[0].src.value, f.text);
      } else {
        SrcScriptInert(r);
      }
    } else if StyleBlock(r) {
      StyleBlockWhole(w, r);
    } else if SheetLink(r) {
      var f := w.resolve(w.base, r.lexeme.href.value);
      if FateOf(w, Use(SheetRef, w.base, r.lexeme.href.value)) == Inlined && f.File? {
        InlinedSheetWhole(w, r.lexeme.href.value, f.text, f.dir);
      }
    }
  }

  lemma SrcScriptInert(r: Region)
    requires WellCut(r) && Inlinable(r)
    ensures forall l <- r.lexemes :: !Opens(l, true)
  {
    forall i | 0 <= i < |r.lexemes|
      ensures !Opens(r.lexemes[i], true)
    {
      if 0 < i < |r.lexemes| - 1 {
        assert Body(r)[i - 1] == r.lexemes[i] && Body(r)[i - 1] in Body(r);
      }
    }
  }

  // ----- scanning what was written ------------------------------------------------------------------------

  lemma ScanWhole(out: Doc, tail: Doc)
    requires |out| >= 2 && Opens(out[0], true) && CloserOf(out, out[0], 1) == |out| - 1
    ensures Scan(out + tail, true) == [Claim(out)] + Scan(tail, true)
  {
    var all := out + tail;
    SameCloser(out, all, out[0], 1);
    assert all[..|out|] == out && all[|out|..] == tail;
  }

  lemma ScanGap(l: Lexeme, tail: Doc)
    ensures (Opens(l, true) ==> !HasCloser(tail, l)) ==> Scan([l] + tail, true) == [Gap(l)] + Scan(tail, true)
    ensures Opens(l, true) && HasCloser(tail, l) ==> Scan([l] + tail, true) != [] && Scan([l] + tail, true)[0].Claim?
  {
    var all := [l] + tail;
    var k := CloserOf(all, l, 1);
    assert all[1..] == tail;
    if k < |all| {
      assert Closes(l, tail[k - 1]);
    }
    if HasCloser(tail, l) {
      var i :| 0 <= i < |tail| && Closes(l, tail[i]);
      assert all[i + 1] == tail[i];
    }
  }

  lemma StrayFreeStep(ls: Doc, tail: Doc)
    requires ls != []
    ensures StrayFree(ls, tail) <==>
            (Opens(ls[0], true) ==> !HasCloser(ls[1..] + tail, ls[0])) && StrayFree(ls[1..], tail)
  {
    hide HasCloser, Opens;
    var rest := ls[1..];
    assert forall i :: 0 <= i < |rest| ==> rest[i] == ls[i + 1] && rest[i + 1..] == ls[i + 2..];
    if StrayFree(ls, tail) {
      forall i | 0 <= i < |rest| && Opens(rest[i], true)
        ensures !HasCloser(rest[i + 1..] + tail, rest[i])
      {
        assert Opens(ls[i + 1], true);
      }
    }
    if StrayFree(rest, tail) {
      forall i | 1 <= i < |ls| && Opens(ls[i], true)
        ensures !HasCloser(ls[i + 1..] + tail, ls[i])
      {
        assert Opens(rest[i - 1], true);
      }
    }
  }

  lemma ConsTail(ls: Doc, tail: Doc)
    requires ls != []
    ensures ls + tail == [ls[0]] + (ls[1..] + tail)
    ensures Gaps(ls) == [Gap(ls[0])] + Gaps(ls[1..])
  {
  }

  /** What is not claimed comes out lexeme by lexeme exactly when no opener in it is closed behind it. */
  lemma {:induction false} ScanGaps(ls: Doc, tail: Doc)
    ensures StrayFree(ls, tail) ==> Scan(ls + tail, true) == Gaps(ls) + Scan(tail, true)
    ensures !StrayFree(ls, tail) ==> forall x :: Scan(ls + tail, true) != Gaps(ls) + x
    decreases |ls|
  {
    if ls == [] {
      assert ls + tail == tail;
    } else {
      hide *;
      var rest := ls[1..] + tail;
      ConsTail(ls, tail);
      StrayFreeStep(ls, tail);
      ScanGap(ls[0], rest);
      ScanGaps(ls[1..], tail);
      if Opens(ls[0], true) && HasCloser(rest, ls[0]) {
        forall x
          ensures Scan(ls + tail, true) != Gaps(ls) + x
        {
          assert (Gaps(ls) + x)[0] == Gap(ls[0]);
        }
      } else {
        forall x
          ensures Gaps(ls) + x == [Gap(ls[0])] + (Gaps(ls[1..]) + x)
          ensures Scan(ls + tail, true) == Gaps(ls) + x ==> Scan(rest, true) == Gaps(ls[1..]) + x
        {
          RestEqual([Gap(ls[0])], Scan(rest, true), Gaps(ls[1..]) + x);
        }
      }
    }
  }

  lemma InertFree(ls: Doc, tail: Doc)
    requires forall l <- ls :: !Opens(l, true)
    ensures StrayFree(ls, tail)
  {
  }

  /** A region cut short by its own payload is not found whole. */
  lemma ScanShort(out: Doc, tail: Doc)
    requires |out| >= 2 && Opens(out[0], true) && CloserOf(out, out[0], 1) < |out| - 1
    ensures forall x :: Scan(out + tail, true) != [Claim(out)] + x
  {
    var all, k := out + tail, CloserOf(out, out[0], 1);
    SameCloser(out, all, out[0], 1);
    assert all[..k + 1] == out[..k + 1];
    assert Scan(all, true)[0] == Claim(out[..k + 1]);
    hide Scan;
    forall x
      ensures Scan(all, true) != [Claim(out)] + x
    {
      assert ([Claim(out)] + x)[0] == Claim(out);
    }
  }

  /** One region written: what it takes for the second pass to find it as it should. */
  ghost predicate FoundAgain(w: World, r: Region, tail: Doc) {
    PayloadFits(w, r) && (r.Gap? || ForeignScript(r) ==> StrayFree(Lexemes(r), tail))
  }

  lemma RescanOpen(w: World, r: Region, tail: Doc)
    requires WellCut(r) && |Rewrite(w, r)| >= 2 && Opens(Rewrite(w, r)[0], true)
    ensures FoundAgain(w, r, tail) ==> Scan(Rewrite(w, r) + tail, true) == Expected(w, r) + Scan(tail, true)
    ensures !FoundAgain(w, r, tail) ==> forall x :: Scan(Rewrite(w, r) + tail, true) != Expected(w, r) + x
  {
    Written(w, r);
    OpenIsNoStray(w, r, tail);
    hide Rewrite, Scan, Opens, CloserOf, PayloadFits, ForeignScript, StrayFree;
    var out := Rewrite(w, r);
    if CloserOf(out, out[0], 1) == |out| - 1 {
      ScanWhole(out, tail);
    } else {
      ScanShort(out, tail);
    }
  }

  lemma OpenIsNoStray(w: World, r: Region, tail: Doc)
    requires WellCut(r) && |Rewrite(w, r)| >= 2 && Opens(Rewrite(w, r)[0], true)
    ensures r.Gap? || ForeignScript(r) ==> StrayFree(Lexemes(r), tail)
  {
    if r.Gap? {
      InertFree([r.lexeme], tail);
    }
  }

  lemma RescanLeft(w: World, r: Region, tail: Doc)
    requires WellCut(r) && !(|Rewrite(w, r)| >= 2 && Opens(Rewrite(w, r)[0], true))
    ensures FoundAgain(w, r, tail) ==> Scan(Rewrite(w, r) + tail, true) == Expected(w, r) + Scan(tail, true)
    ensures !FoundAgain(w, r, tail) ==> forall x :: Scan(Rewrite(w, r) + tail, true) != Expected(w, r) + x
  {
    Written(w, r);
    hide Rewrite, Scan, Opens, PayloadFits, ForeignScript, Inlinable, CloserOf;
    var out := Rewrite(w, r);
    ScanGaps(out, tail);
    if r.Gap? {
      assert out == [out[0]] && Lexemes(r) == [r.lexeme];
      OneStray(out[0], r.lexeme, tail);
    } else if !ForeignScript(r) {
      InertFree(out, tail);
    }
    hide StrayFree;
  }

  lemma OneStray(a: Lexeme, b: Lexeme, tail: Doc)
    requires Opens(a, true) || Opens(b, true) ==> a == b
    ensures StrayFree([a], tail) <==> StrayFree([b], tail)
  {
    if a != b {
      InertFree([a], tail);
      InertFree([b], tail);
    }
  }

  /** The same, seen from the text written. */
  lemma {:induction false} RescanWritten(w: World, regions: seq<Region>)
    requires AllCut(regions)
    ensures Scan(RewriteAll(w, regions), true) == ExpectedAll(w, regions) <==>
            NoneClosed(w, regions) && AllFit(w, regions)
  {
    if regions != [] {
      var r, rest := regions[0], regions[1..];
      RescanWritten(w, rest);
      assert regions == [r] + rest;
      hide Rewrite, Scan, Opens, Expected, PayloadFits, WellCut, StrayFree, HasCloser;
      var tail := RewriteAll(w, rest);
      if |Rewrite(w, r)| >= 2 && Opens(Rewrite(w, r)[0], true) {
        RescanOpen(w, r, tail);
      } else {
        RescanLeft(w, r, tail);
      }
      RestEqual(Expected(w, r), Scan(tail, true), ExpectedAll(w, rest));
    }
  }

  lemma RestEqual<T>(a: seq<T>, b: seq<T>, c: seq<T>)
    ensures a + b == a + c <==> b == c
  {
    if a + b == a + c {
      assert b == (a + b)[|a|..] && c == (a + c)[|a|..];
    }
  }

  /** What inlining one region adds that could close `open`: the file's own text, and the close tag of the style block a
      sheet is wrapped in. */
  ghost predicate PayloadCloses(w: World, r: Region, open: Lexeme) {
    || (&& Inlinable(r) && FateOf(w, Use(ScriptRef, w.base, r.lexemes[0].src.value)) == Inlined
        && HasCloser(TextOf(w.resolve(w.base, r.lexemes[0].src.value)), open))
    || (&& SheetLink(r) && FateOf(w, Use(SheetRef, w.base, r.lexeme.href.value)) == Inlined
        && (open.StyleOpen? || HasCloser(TextOf(w.resolve(w.base, r.lexeme.href.value)), open)))
  }

  lemma SameClosers(a: Doc, b: Doc, open: Lexeme)
    requires |a| == |b| && forall i :: 0 <= i < |a| ==> Closes(open, a[i]) == Closes(open, b[i])
    ensures HasCloser(a, open) <==> HasCloser(b, open)
  {
  }

  lemma InertClosers(doc: Doc, open: Lexeme)
    requires forall l <- doc :: !Closes(open, l)
    ensures !HasCloser(doc, open)
  {
  }

  lemma InlinedScriptClosers(open: Lexeme, ref: Ref, js: Doc, stray: Lexeme)
    requires open.ScriptOpen? && !stray.ScriptOpen?
    ensures HasCloser(InlinedScript(open, ref, js), stray) <==> HasCloser(js, stray)
  {
    var head, foot := [ScriptOpen(None, open.code, Kept(open.attrs)), Name(ref)], [Text("\n"), ScriptClose(true)];
    JoinCloser(head + Escape(js), foot, stray);
    JoinCloser(head, Escape(js), stray);
    InertClosers(head, stray);
    InertClosers(foot, stray);
    SameClosers(js, Escape(js), stray);
  }

  lemma InlinedSheetClosers(w: World, ref: Ref, css: Doc, dir: Dir, stray: Lexeme)
    ensures HasCloser(InlinedSheet(w, ref, css, dir), stray) <==> stray.StyleOpen? || HasCloser(css, stray)
  {
    var head, foot := [StyleOpen, Name(ref)], [Text("\n"), StyleClose];
    JoinCloser(head + InlineCss(w, dir, css), foot, stray);
    JoinCloser(head, InlineCss(w, dir, css), stray);
    InertClosers(head, stray);
    assert Closes(stray, foot[1]) <==> stray.StyleOpen?;
    forall i | 0 <= i < |css|
      ensures Closes(stray, css[i]) == Closes(stray, InlineCss(w, dir, css)[i])
    {
      SwapKeepsClosers(w, dir, stray, css[i]);
    }
    SameClosers(css, InlineCss(w, dir, css), stray);
    if !stray.StyleOpen? {
      InertClosers(foot, stray);
    }
  }

  lemma StyleClosers(w: World, r: Region, stray: Lexeme)
    requires StyleBlock(r)
    ensures HasCloser(Rewrite(w, r), stray) <==> HasCloser(r.lexemes, stray)
  {
    var out := Rewrite(w, r);
    forall j | 0 <= j < |out|
      ensures Closes(stray, r.lexemes[j]) == Closes(stray, out[j])
    {
      if 0 < j < |out| - 1 {
        assert out[j] == SwapUrl(w, w.base, Body(r)[j - 1]) && Body(r)[j - 1] == r.lexemes[j];
        SwapKeepsClosers(w, w.base, stray, r.lexemes[j]);
      }
    }
    SameClosers(r.lexemes, out, stray);
  }

  /** What is written for a region closes what the region closes, and what its payload closes. */
  lemma ClosedByPayload(w: World, r: Region, stray: Lexeme)
    requires WellCut(r) && Opens(stray, true)
    ensures HasCloser(Rewrite(w, r), stray) <==> HasCloser(Lexemes(r), stray) || PayloadCloses(w, r, stray)
  {
    if Inlinable(r) {
      InlinableCloses(r, stray);
      var f := w.resolve(w.base, r.lexemes[0].src.value);
      if f.File? {
        InlinedScriptEnds(r.lexemes[0], r.lexemes[0].src.value, f.text, stray);
        if !stray.ScriptOpen? {
          InlinedScriptClosers(r.lexemes[0], r.lexemes[0].src.value, f.text, stray);
        }
      }
    } else if StyleBlock(r) {
      StyleClosers(w, r, stray);
    } else if SheetLink(r) {
      var f := w.resolve(w.base, r.lexeme.href.value);
      if f.File? {
        InlinedSheetClosers(w, r.lexeme.href.value, f.text, f.dir, stray);
      }
    }
  }

  lemma InlinedScriptEnds(open: Lexeme, ref: Ref, js: Doc, stray: Lexeme)
    requires open.ScriptOpen?
    ensures stray.ScriptOpen? ==> HasCloser(InlinedScript(open, ref, js), stray)
  {
    var out := InlinedScript(open, ref, js);
    assert out[|out| - 1] == ScriptClose(true);
    if stray.ScriptOpen? {
      assert Closes(stray, out[|out| - 1]);
    }
  }

  lemma InlinableCloses(r: Region, stray: Lexeme)
    requires WellCut(r) && Inlinable(r) && Opens(stray, true)
    ensures HasCloser(r.lexemes, stray) <==> stray.ScriptOpen?
  {
    var last := |r.lexemes| - 1;
    assert Closes(r.lexemes[0], r.lexemes[last]);
    forall i | 0 <= i < |r.lexemes|
      ensures Closes(stray, r.lexemes[i]) ==> stray.ScriptOpen?
    {
      if 0 < i < last {
        assert Body(r)[i - 1] == r.lexemes[i] && Body(r)[i - 1] in Body(r);
      }
    }
  }

  /** So whether an opener gets closed can be read off the source and the files before bundling. */
  lemma {:induction false} StrayClosedByPayload(w: World, regions: seq<Region>, stray: Lexeme)
    requires (forall r <- regions :: WellCut(r)) && Opens(stray, true)
    ensures HasCloser(RewriteAll(w, regions), stray) <==>
            HasCloser(Flat(regions), stray) || exists r <- regions :: PayloadCloses(w, r, stray)
  {
    if regions != [] {
      var r, rest := regions[0], regions[1..];
      hide PayloadCloses, WellCut, HasCloser, Rewrite;
      assert regions == [r] + rest;
      JoinCloser(Lexemes(r), Flat(rest), stray);
      StrayClosedByPayload(w, rest, stray);
      ClosedByPayload(w, r, stray);
      JoinCloser(Rewrite(w, r), RewriteAll(w, rest), stray);
    } else {
      InertClosers([], stray);
    }
  }

  /** No opener among `ls` finds a closer behind it: neither in the source, nor in a file inlined there. */
  ghost predicate SourceFree(w: World, ls: Doc, rest: seq<Region>) {
    forall i :: 0 <= i < |ls| && Opens(ls[i], true) ==>
      !HasCloser(ls[i + 1..] + Flat(rest), ls[i]) && forall r <- rest :: !PayloadCloses(w, r, ls[i])
  }

  /** No opener left between the regions, or in a script block with a src that is left as it is, finds a closer behind
      it, in the source or in a file inlined there.  This can be checked before bundling. */
  ghost predicate NoStrayClosed(w: World, regions: seq<Region>) {
    regions == [] ||
    (&& (regions[0].Gap? || ForeignScript(regions[0]) ==> SourceFree(w, Lexemes(regions[0]), regions[1..]))
     && NoStrayClosed(w, regions[1..]))
  }

  lemma FreeFromSource(w: World, ls: Doc, rest: seq<Region>)
    requires forall r <- rest :: WellCut(r)
    ensures StrayFree(ls, RewriteAll(w, rest)) <==> SourceFree(w, ls, rest)
  {
    hide WellCut, HasCloser, PayloadCloses, RewriteAll, Flat, Opens;
    forall i | 0 <= i < |ls| && Opens(ls[i], true)
      ensures HasCloser(ls[i + 1..] + RewriteAll(w, rest), ls[i]) <==>
              HasCloser(ls[i + 1..] + Flat(rest), ls[i]) || exists r <- rest :: PayloadCloses(w, r, ls[i])
    {
      JoinCloser(ls[i + 1..], RewriteAll(w, rest), ls[i]);
      JoinCloser(ls[i + 1..], Flat(rest), ls[i]);
      StrayClosedByPayload(w, rest, ls[i]);
    }
  }

  lemma {:induction false} CutWell(regions: seq<Region>)
    requires AllCut(regions)
    ensures forall r <- regions :: WellCut(r)
  {
    if regions != [] {
      hide WellCut;
      CutWell(regions[1..]);
      assert regions == [regions[0]] + regions[1..];
    }
  }

  /** The source and the files decide whether an opener is closed in what is written. */
  lemma {:induction false} SourceDecides(w: World, regions: seq<Region>)
    requires AllCut(regions)
    ensures NoneClosed(w, regions) <==> NoStrayClosed(w, regions)
  {
    if regions != [] {
      hide StrayFree, SourceFree, RewriteAll, WellCut, ForeignScript;
      CutWell(regions[1..]);
      FreeFromSource(w, Lexemes(regions[0]), regions[1..]);
      SourceDecides(w, regions[1..]);
    }
  }

  /** The second pass finds every region that was written, whole and as it was written, if and only if every payload
      fits and no opener left in the document finds a closer behind it, in the source or in a file inlined there. */
  lemma RescanExact(w: World, regions: seq<Region>)
    requires AllCut(regions)
    ensures Scan(RewriteAll(w, regions), true) == ExpectedAll(w, regions) <==>
            NoStrayClosed(w, regions) && AllFit(w, regions)
  {
    hide *;
    RescanWritten(w, regions);
    SourceDecides(w, regions);
  }

  // ----- references still live ---------------------------------------------------------------------------

  /** What the check leaves of a region: nothing of a comment, an empty carcass of a style or script block. */
  function Strip(r: Region): Doc {
    if r.Gap? then [r.lexeme]
    else if r.lexemes != [] && r.lexemes[0].CommentOpen? then []
    else if r.lexemes != [] && r.lexemes[0].StyleOpen? then [StyleOpen, StyleClose]
    else [ScriptOpen(None, true, []), ScriptClose(true)]
  }

  function StripAll(regions: seq<Region>): Doc {
    if regions == [] then [] else Strip(regions[0]) + StripAll(regions[1..])
  }

  function Bare(doc: Doc): Doc {
    StripAll(Scan(doc, true))
  }

  /** The sources of scripts with a src that are closed somewhere behind, left to right without overlap. */
  function LiveScripts(doc: Doc): seq<Ref>
    decreases |doc|
  {
    if doc == [] then []
    else
      var k := CloserOf(doc, doc[0], 1);
      if doc[0].ScriptOpen? && doc[0].src.Some? && k < |doc| then [doc[0].src.value] + LiveScripts(doc[k + 1..])
      else LiveScripts(doc[1..])
  }

  function LiveSheets(doc: Doc): seq<Ref> {
    if doc == [] then []
    else (if doc[0].Link? && doc[0].word.InRel? && doc[0].href.Some? then [doc[0].href.value] else [])
         + LiveSheets(doc[1..])
  }

  function LiveRefs(doc: Doc): seq<Ref> {
    LiveScripts(Bare(doc)) + LiveSheets(Bare(doc))
  }

  ghost predicate AllData(refs: seq<Ref>) {
    forall r <- refs :: r.Data?
  }

  /** Nothing was recorded as missing, remote or escaped. */
  ghost predicate Clean(w: World, regions: seq<Region>) {
    forall r <- regions, u <- UsesOf(w, r) :: FateOf(w, u) == Left || FateOf(w, u) == Inlined
  }

  /** The script of a region, when there is no file to put in. */
  function ScriptLeft(w: World, r: Region): seq<Ref> {
    if Inlinable(r) && !FileBehind(w, w.base, r.lexemes[0].src.value) then [r.lexemes[0].src.value] else []
  }

  /** The stylesheet of a region that is linked by its rel, when there is no file to put in. */
  function SheetLeft(w: World, r: Region): seq<Ref> {
    if SheetLink(r) && r.lexeme.word.InRel? && !FileBehind(w, w.base, r.lexeme.href.value) then [r.lexeme.href.value]
    else []
  }

  function ScriptsLeft(w: World, regions: seq<Region>): seq<Ref> {
    if regions == [] then [] else ScriptLeft(w, regions[0]) + ScriptsLeft(w, regions[1..])
  }

  function SheetsLeft(w: World, regions: seq<Region>): seq<Ref> {
    if regions == [] then [] else SheetLeft(w, regions[0]) + SheetsLeft(w, regions[1..])
  }

  lemma FileIsInlined(w: World, u: Use)
    requires u.kind == ScriptRef || u.kind == SheetRef
    ensures FateOf(w, u) == Inlined <==> FileBehind(w, u.dir, u.ref)
  {
  }

  lemma StripJoin(a: seq<Region>, b: seq<Region>)
    ensures StripAll(a + b) == StripAll(a) + StripAll(b)
    decreases |a|
  {
    if a == [] {
      assert a + b == b;
    } else {
      assert (a + b)[1..] == a[1..] + b;
      StripJoin(a[1..], b);
    }
  }

  lemma {:induction false} StripGaps(doc: Doc)
    ensures StripAll(Gaps(doc)) == doc
    decreases |doc|
  {
    if doc != [] {
      assert Gaps(doc)[1..] == Gaps(doc[1..]);
      StripGaps(doc[1..]);
    }
  }

  /** What the check leaves of one written region. */
  lemma Carcass(w: World, r: Region)
    ensures var out := Rewrite(w, r);
            StripAll(Expected(w, r)) == if |out| >= 2 && Opens(out[0], true) then Strip(Claim(out)) else out
  {
    var out := Rewrite(w, r);
    StripGaps(out);
    assert StripAll([Claim(out)]) == Strip(Claim(out)) + StripAll([]);
  }

  /** A script's close tag is never made up: without one in the source behind, none is left by the check. */
  lemma {:induction false} NoScriptCloseKept(w: World, regions: seq<Region>, open: Lexeme)
    requires open.ScriptOpen? && AllCut(regions) && Fits(w, regions) && !HasCloser(Flat(regions), open)
    ensures !HasCloser(StripAll(ExpectedAll(w, regions)), open)
  {
    if regions != [] {
      var r, rest := regions[0], regions[1..];
      JoinCloser(Lexemes(r), Flat(rest), open);
      NoScriptCloseKept(w, rest, open);
      StripJoin(Expected(w, r), ExpectedAll(w, rest));
      Carcass(w, r);
      NoCloseInCarcass(w, r, open);
      JoinCloser(StripAll(Expected(w, r)), StripAll(ExpectedAll(w, rest)), open);
    }
  }

  lemma JoinCloser(a: Doc, b: Doc, open: Lexeme)
    ensures HasCloser(a + b, open) <==> HasCloser(a, open) || HasCloser(b, open)
  {
    if HasCloser(a, open) {
      var i :| 0 <= i < |a| && Closes(open, a[i]);
      assert (a + b)[i] == a[i];
    }
    if HasCloser(b, open) {
      var i :| 0 <= i < |b| && Closes(open, b[i]);
      assert (a + b)[|a| + i] == b[i];
    }
    if HasCloser(a + b, open) {
      var i :| 0 <= i < |a + b| && Closes(open, (a + b)[i]);
      assert if i < |a| then (a + b)[i] == a[i] else (a + b)[i] == b[i - |a|];
    }
  }

  lemma NoCloseInCarcass(w: World, r: Region, open: Lexeme)
    requires open.ScriptOpen? && WellCut(r) && PayloadFits(w, r) && PlainScript(r) && !HasCloser(Lexemes(r), open)
    ensures var out := Rewrite(w, r);
            !HasCloser(if |out| >= 2 && Opens(out[0], true) then Strip(Claim(out)) else out, open)
  {
    if r.Claim? {
      var last := |r.lexemes| - 1;
      assert Closes(r.lexemes[0], r.lexemes[last]);
      assert !Closes(open, r.lexemes[last]);
    } else {
      assert !Closes(open, Lexemes(r)[0]);
    }
  }

  lemma LiveGap(l: Lexeme, tail: Doc)
    requires l.ScriptOpen? && l.src.Some? ==> !HasCloser(tail, l)
    ensures LiveScripts([l] + tail) == LiveScripts(tail)
  {
    var all := [l] + tail;
    assert all[1..] == tail;
    var k := CloserOf(all, l, 1);
    if k < |all| {
      assert Closes(l, tail[k - 1]);
    }
  }

  lemma {:induction false} LiveInert(ls: Doc, tail: Doc)
    requires forall l <- ls :: !(l.ScriptOpen? && l.src.Some?)
    ensures LiveScripts(ls + tail) == LiveScripts(tail)
    decreases |ls|
  {
    if ls == [] {
      assert ls + tail == tail;
    } else {
      assert ls + tail == [ls[0]] + (ls[1..] + tail) && ls[0] in ls;
      LiveGap(ls[0], ls[1..] + tail);
      LiveInert(ls[1..], tail);
    }
  }

  lemma LiveDataScript(r: Region, tail: Doc)
    requires WellCut(r) && Inlinable(r)
    ensures LiveScripts(r.lexemes + tail) == [r.lexemes[0].src.value] + LiveScripts(tail)
  {
    var all := r.lexemes + tail;
    SameCloser(r.lexemes, all, all[0], 1);
    assert all[|r.lexemes|..] == tail;
  }

  /** One region's contribution to the live scripts. */
  lemma LiveStep(w: World, r: Region, tail: Doc)
    requires WellCut(r) && PayloadFits(w, r) && PlainScript(r)
    requires r.Gap? && r.lexeme.ScriptOpen? ==> !HasCloser(tail, r.lexeme)
    ensures LiveScripts(StripAll(Expected(w, r)) + tail) == ScriptLeft(w, r) + LiveScripts(tail)
  {
    hide *;
    var out := Rewrite(w, r);
    Carcass(w, r);
    Written(w, r);
    if |out| >= 2 && Opens(out[0], true) {
      OpenHoldsNone(w, r);
      StripInert(Claim(out));
      LiveInert(Strip(Claim(out)), tail);
    } else if r.Gap? {
      assert out == [out[0]];
      GapHoldsNone(w, r, tail);
      LiveGap(out[0], tail);
    } else {
      ClaimIsLong(r);
      NotOpenedIsSrc(w, r);
      SrcLeft(w, r);
      LiveDataScript(r, tail);
    }
  }

  lemma StripInert(r: Region)
    requires r.Claim?
    ensures forall l <- Strip(r) :: !(l.ScriptOpen? && l.src.Some?)
  {
  }

  lemma OpenHoldsNone(w: World, r: Region)
    requires var out := Rewrite(w, r); |out| >= 2 && Opens(out[0], true)
    ensures ScriptLeft(w, r) == []
  {
    hide Blank, InlineCss, Escape, Kept;
  }

  lemma GapHoldsNone(w: World, r: Region, tail: Doc)
    requires r.Gap? && |Rewrite(w, r)| == 1 && (r.lexeme.ScriptOpen? ==> !HasCloser(tail, r.lexeme))
    ensures ScriptLeft(w, r) == []
    ensures var l := Rewrite(w, r)[0]; l.ScriptOpen? && l.src.Some? ==> !HasCloser(tail, l)
  {
    hide Blank, InlineCss, HasCloser;
  }

  lemma SrcLeft(w: World, r: Region)
    requires Inlinable(r) && Rewrite(w, r) == r.lexemes
    ensures ScriptLeft(w, r) == [r.lexemes[0].src.value]
  {
    FileIsInlined(w, Use(ScriptRef, w.base, r.lexemes[0].src.value));
    hide Blank, Escape, Kept, FateOf;
  }

  lemma NotOpenedIsSrc(w: World, r: Region)
    requires r.Claim? && WellCut(r) && PlainScript(r)
    requires var out := Rewrite(w, r); |out| >= 2 && !Opens(out[0], true)
    ensures Inlinable(r) && Rewrite(w, r) == r.lexemes
  {
  }

  /** What the check reports of the scripts: exactly those left, in their order. */
  lemma {:induction false} LiveScriptsAre(w: World, regions: seq<Region>)
    requires AllCut(regions) && Fits(w, regions)
    ensures LiveScripts(StripAll(ExpectedAll(w, regions))) == ScriptsLeft(w, regions)
  {
    if regions != [] {
      var r, rest := regions[0], regions[1..];
      assert r in regions;
      LiveScriptsAre(w, rest);
      StripJoin(Expected(w, r), ExpectedAll(w, rest));
      if r.Gap? && r.lexeme.ScriptOpen? {
        NoScriptCloseKept(w, rest, r.lexeme);
      }
      LiveStep(w, r, StripAll(ExpectedAll(w, rest)));
    }
  }

  lemma {:induction false} SheetsJoin(a: Doc, b: Doc)
    ensures LiveSheets(a + b) == LiveSheets(a) + LiveSheets(b)
    decreases |a|
  {
    if a == [] {
      assert a + b == b;
    } else {
      assert (a + b)[1..] == a[1..] + b;
      SheetsJoin(a[1..], b);
    }
  }

  lemma {:induction false} SheetsNone(doc: Doc)
    requires forall l <- doc :: !l.Link?
    ensures LiveSheets(doc) == []
    decreases |doc|
  {
    if doc != [] {
      assert doc[0] in doc;
      SheetsNone(doc[1..]);
    }
  }

  lemma CarcassHasNoSheet(r: Region)
    requires r.Claim?
    ensures LiveSheets(Strip(r)) == []
  {
    SheetsNone(Strip(r));
  }

  lemma OneSheet(l: Lexeme)
    ensures LiveSheets([l]) == if l.Link? && l.word.InRel? && l.href.Some? then [l.href.value] else []
  {
    assert [l][1..] == [];
  }

  lemma GapSheets(w: World, r: Region)
    requires r.Gap? && |Rewrite(w, r)| == 1
    ensures LiveSheets(Rewrite(w, r)) == SheetLeft(w, r)
  {
    var out := Rewrite(w, r);
    OneSheet(out[0]);
    assert out == [out[0]];
    hide LiveSheets, UsesOf, FateOf;
    if SheetLink(r) {
      FileIsInlined(w, Use(SheetRef, w.base, r.lexeme.href.value));
    }
  }

  lemma ClaimSheets(w: World, r: Region)
    requires r.Claim? && WellCut(r) && Inlinable(r)
    ensures LiveSheets(r.lexemes) == []
  {
    hide LiveSheets;
    forall i | 0 <= i < |r.lexemes|
      ensures !r.lexemes[i].Link?
    {
      if 0 < i < |r.lexemes| - 1 {
        assert Body(r)[i - 1] == r.lexemes[i] && Body(r)[i - 1] in Body(r);
      }
    }
    SheetsNone(r.lexemes);
  }

  lemma SheetsStep(w: World, r: Region)
    requires WellCut(r) && PayloadFits(w, r) && PlainScript(r)
    ensures LiveSheets(StripAll(Expected(w, r))) == SheetLeft(w, r)
  {
    hide *;
    Carcass(w, r);
    Written(w, r);
    var out := Rewrite(w, r);
    if |out| >= 2 && Opens(out[0], true) {
      CarcassHasNoSheet(Claim(out));
      OpenHoldsNoSheet(w, r);
    } else if r.Gap? {
      GapSheets(w, r);
    } else {
      ClaimIsLong(r);
      NotOpenedIsSrc(w, r);
      ClaimSheets(w, r);
      NoLinkInClaim(w, r);
    }
  }

  lemma OpenHoldsNoSheet(w: World, r: Region)
    requires var out := Rewrite(w, r); |out| >= 2 && Opens(out[0], true)
    ensures SheetLeft(w, r) == []
  {
    hide Blank, InlineCss, Escape, Kept;
  }

  lemma NoLinkInClaim(w: World, r: Region)
    requires r.Claim?
    ensures SheetLeft(w, r) == []
  {
  }

  lemma ClaimIsLong(r: Region)
    requires r.Claim? && WellCut(r)
    ensures |r.lexemes| >= 2
  {
  }

  /** And of the stylesheets: exactly those left, in their order. */
  lemma {:induction false} LiveSheetsAre(w: World, regions: seq<Region>)
    requires AllCut(regions) && Fits(w, regions)
    ensures LiveSheets(StripAll(ExpectedAll(w, regions))) == SheetsLeft(w, regions)
  {
    if regions != [] {
      var r, rest := regions[0], regions[1..];
      assert r in regions;
      LiveSheetsAre(w, rest);
      StripJoin(Expected(w, r), ExpectedAll(w, rest));
      SheetsStep(w, r);
      SheetsJoin(StripAll(Expected(w, r)), StripAll(ExpectedAll(w, rest)));
    }
  }

  /** The check reports exactly what was left: the scripts and the stylesheets there is no file for, in document order,
      when scripts with a src are plain, payloads hold no close tag that ends them, and no stray opener is closed. */
  lemma ReportsWhatIsLeft(w: World, doc: Doc)
    requires Fits(w, Scan(doc, false)) && NoStrayClosed(w, Scan(doc, false))
    ensures LiveRefs(Bundled(w, doc)) == ScriptsLeft(w, Scan(doc, false)) + SheetsLeft(w, Scan(doc, false))
  {
    var regions := Scan(doc, false);
    ScanCut(doc);
    RescanExact(w, regions);
    LiveScriptsAre(w, regions);
    LiveSheetsAre(w, regions);
    FitsAll(w, regions);
    hide Scan, StripAll, Fits, AllFit, NoStrayClosed, AllCut, LiveScripts, LiveSheets, ExpectedAll;
  }

  lemma FitsAll(w: World, regions: seq<Region>)
    requires Fits(w, regions)
    ensures AllFit(w, regions)
  {
  }

  lemma {:induction false} CleanLeavesData(w: World, regions: seq<Region>)
    requires Clean(w, regions)
    ensures AllData(ScriptsLeft(w, regions) + SheetsLeft(w, regions))
  {
    if regions != [] {
      var r, rest := regions[0], regions[1..];
      assert regions == [r] + rest && r in regions;
      assert Clean(w, rest);
      CleanLeavesData(w, rest);
      CleanLeft(w, r);
      hide Clean, ScriptLeft, SheetLeft;
    }
  }

  lemma CleanLeft(w: World, r: Region)
    requires forall u <- UsesOf(w, r) :: FateOf(w, u) == Left || FateOf(w, u) == Inlined
    ensures AllData(ScriptLeft(w, r)) && AllData(SheetLeft(w, r))
  {
    hide Blank;
    if ScriptLeft(w, r) != [] {
      var u := Use(ScriptRef, w.base, r.lexemes[0].src.value);
      UseMeaning(w, r, u);
      FateMeaning(w, u);
      FileIsInlined(w, u);
    }
    if SheetLeft(w, r) != [] {
      var u := Use(SheetRef, w.base, r.lexeme.href.value);
      UseMeaning(w, r, u);
      FateMeaning(w, u);
      FileIsInlined(w, u);
    }
  }

  /** So when nothing was recorded, the check finds no live reference but data: URIs. */
  lemma CleanBundleHasNoLiveRefs(w: World, doc: Doc)
    requires var regions := Scan(doc, false);
             Fits(w, regions) && Clean(w, regions) && NoStrayClosed(w, regions)
    ensures AllData(LiveRefs(Bundled(w, doc)))
  {
    hide *;
    ReportsWhatIsLeft(w, doc);
    CleanLeavesData(w, Scan(doc, false));
  }

  // ----- why the stray opener matters -----------------------------------------------------------------------

  const HIDDEN := Local("b.js")

  /** A deck whose only script file holds, behind a `-->`, a script tag of its own. */
  function StrayWorld(): World {
    World("", (d, r) => if r == Local("a.js")
        then File([CommentClose, ScriptOpen(Some(HIDDEN), true, [])], "data:", "") else Absent)
  }

  function StrayDoc(): Doc {
    [CommentOpen, ScriptOpen(Some(Local("a.js")), true, []), ScriptClose(true)]
  }

  lemma StrayRegions()
    ensures Scan(StrayDoc(), false) == [Gap(CommentOpen), Claim(StrayDoc()[1..])]
  {
    var doc := StrayDoc();
    assert doc[1..] == [doc[1], doc[2]];
    var tail := doc[1..];
    FirstCloser(tail, tail[0], 1, 1);
    assert tail[..2] == tail && tail[2..] == [];
    assert Scan(tail, false) == [Claim(tail)] + Scan([], false);
    assert CloserOf(doc, CommentOpen, 1) == 3 by {
      assert CloserOf(doc, CommentOpen, 3) == 3;
      assert CloserOf(doc, CommentOpen, 2) == 3;
    }
  }

  function StrayOut(): Doc {
    [CommentOpen, ScriptOpen(None, true, []), Name(Local("a.js")), CommentClose, ScriptOpen(Some(HIDDEN), true, []),
     Text("\n"), ScriptClose(true)]
  }

  lemma StrayBundle()
    ensures Bundled(StrayWorld(), StrayDoc()) == StrayOut()
  {
    StrayRegions();
    var w, claim := StrayWorld(), Claim(StrayDoc()[1..]);
    assert Body(claim) == [];
    assert Inlinable(claim);
    assert Kept([]) == [];
    var js := w.resolve("", Local("a.js")).text;
    assert Escape(js) == js;
    assert RewriteAll(w, [claim]) == Rewrite(w, claim) + RewriteAll(w, []) by {
      assert [claim][1..] == [];
    }
    assert [Gap(CommentOpen), claim][1..] == [claim];
    assert Rewrite(w, Gap(CommentOpen)) == [CommentOpen];
  }

  lemma StrayMeetsTheRest()
    ensures var w, regions := StrayWorld(), Scan(StrayDoc(), false); Fits(w, regions) && Clean(w, regions)
  {
    StrayRegions();
    var w, claim := StrayWorld(), Claim(StrayDoc()[1..]);
    assert Body(claim) == [] && Inlinable(claim);
    assert UsesOf(w, claim) == [Use(ScriptRef, "", Local("a.js"))] && UsesOf(w, Gap(CommentOpen)) == [];
    hide Scan;
  }

  lemma StrayIsClosed()
    ensures !NoStrayClosed(StrayWorld(), Scan(StrayDoc(), false))
  {
    StrayRegions();
    var w, regions, claim := StrayWorld(), Scan(StrayDoc(), false), Claim(StrayDoc()[1..]);
    assert Body(claim) == [] && Inlinable(claim);
    assert Closes(CommentOpen, w.resolve("", Local("a.js")).text[0]);
    assert PayloadCloses(w, claim, CommentOpen);
    hide Scan, Inlinable, PayloadCloses;
    assert claim in regions[1..] && Lexemes(regions[0]) == [CommentOpen];
    assert Opens([CommentOpen][0], true);
  }

  function StrayTail(): Doc {
    [ScriptOpen(Some(HIDDEN), true, []), Text("\n"), ScriptClose(true)]
  }

  function StrayClaim(): Doc {
    [CommentOpen, ScriptOpen(None, true, []), Name(Local("a.js")), CommentClose]
  }

  lemma StrayParts()
    ensures StrayOut() == StrayClaim() + StrayTail()
    ensures Opens(StrayClaim()[0], true) && CloserOf(StrayClaim(), StrayClaim()[0], 1) == |StrayClaim()| - 1
    ensures forall l <- StrayTail() :: !Opens(l, true)
  {
    FirstCloser(StrayClaim(), CommentOpen, 1, 3);
  }

  lemma BareCommentAndGaps(doc: Doc, claim: Doc, tail: Doc)
    requires Scan(doc, true) == [Claim(claim)] + Gaps(tail) && claim != [] && claim[0] == CommentOpen
    ensures Bare(doc) == tail
  {
    StripJoin([Claim(claim)], Gaps(tail));
    StripGaps(tail);
    StripOne(Claim(claim));
    hide StripAll, Scan;
    assert [] + tail == tail;
  }

  lemma ScanAllGaps(tail: Doc)
    requires forall l <- tail :: !Opens(l, true)
    ensures Scan(tail, true) == Gaps(tail)
  {
    ScanGaps(tail, []);
    ScanNothing();
    hide Scan, Opens;
    assert tail + [] == tail && Gaps(tail) + [] == Gaps(tail);
  }

  lemma StraySecondScan()
    ensures Bare(StrayOut()) == StrayTail()
  {
    hide *;
    StrayParts();
    StrayStarts();
    ScanWhole(StrayClaim(), StrayTail());
    ScanAllGaps(StrayTail());
    BareCommentAndGaps(StrayOut(), StrayClaim(), StrayTail());
  }

  lemma StrayStarts()
    ensures |StrayClaim()| == 4 && StrayClaim()[0] == CommentOpen
  {
  }

  lemma ScanNothing()
    ensures Scan([], true) == []
  {
  }

  lemma StripOne(r: Region)
    ensures StripAll([r]) == Strip(r)
  {
    assert [r][1..] == [];
    assert Strip(r) + [] == Strip(r);
  }

  lemma StrayReported()
    ensures LiveScripts(StrayTail()) == [HIDDEN]
  {
    var tail := StrayTail();
    FirstCloser(tail, tail[0], 1, 2);
    assert tail[3..] == [];
    assert LiveScripts([]) == [];
  }

  /** An unclosed `<!--` in the source, closed by a payload, exposes the rest of that payload: nothing was recorded,
      every other condition holds, and yet the check reports the reference quoted inside the payload. */
  lemma StrayOpenerExposesPayload()
    ensures var w, regions := StrayWorld(), Scan(StrayDoc(), false);
            Fits(w, regions) && Clean(w, regions) && !NoStrayClosed(w, regions)
    ensures HIDDEN in LiveRefs(Bundled(StrayWorld(), StrayDoc()))
  {
    hide *;
    StrayMeetsTheRest();
    StrayIsClosed();
    StrayBundle();
    StraySecondScan();
    StrayReported();
    LiveRefsAre(StrayOut());
  }

  /** A deck whose only script file holds a close tag the escape misses, and a script tag behind it. */
  function UpperWorld(): World {
    World("", (d, r) => if r == Local("a.js")
        then File([ScriptClose(false), ScriptOpen(Some(HIDDEN), true, [])], "data:", "") else Absent)
  }

  function UpperDoc(): Doc {
    [ScriptOpen(Some(Local("a.js")), true, []), ScriptClose(true)]
  }

  function UpperClaim(): Doc {
    [ScriptOpen(None, true, []), Name(Local("a.js")), ScriptClose(false)]
  }

  lemma UpperRegions()
    ensures Scan(UpperDoc(), false) == [Claim(UpperDoc())]
  {
    var doc := UpperDoc();
    FirstCloser(doc, doc[0], 1, 1);
    assert doc[..2] == doc && doc[2..] == [];
    assert Scan(doc, false) == [Claim(doc)] + Scan([], false);
  }

  lemma UpperBundle()
    ensures Bundled(UpperWorld(), UpperDoc()) == UpperClaim() + StrayTail()
  {
    UpperRegions();
    var w, claim := UpperWorld(), Claim(UpperDoc());
    assert Body(claim) == [] && Inlinable(claim) && Kept([]) == [];
    var js := w.resolve("", Local("a.js")).text;
    assert Escape(js) == js;
    assert [claim][1..] == [];
    assert RewriteAll(w, [claim]) == Rewrite(w, claim) + RewriteAll(w, []);
    assert Rewrite(w, claim) == InlinedScript(UpperDoc()[0], Local("a.js"), js);
  }

  lemma UpperMisfits()
    ensures var w, regions := UpperWorld(), Scan(UpperDoc(), false);
            Clean(w, regions) && NoStrayClosed(w, regions) && PlainScript(regions[0]) && !AllFit(w, regions)
  {
    UpperRegions();
    var w, claim := UpperWorld(), Claim(UpperDoc());
    assert Body(claim) == [] && Inlinable(claim);
    assert UsesOf(w, claim) == [Use(ScriptRef, "", Local("a.js"))];
    assert w.resolve("", Local("a.js")).text[0] == ScriptClose(false);
    assert claim in [claim] && !PayloadFits(w, claim);
    hide Scan;
  }

  lemma UpperSecondScan()
    ensures Bare(UpperClaim() + StrayTail()) == [ScriptOpen(None, true, []), ScriptClose(true)] + StrayTail()
  {
    var claim, tail := UpperClaim(), StrayTail();
    FirstCloser(claim, claim[0], 1, 2);
    StrayParts();
    ScanWhole(claim, tail);
    ScanAllGaps(tail);
    StripJoin([Claim(claim)], Gaps(tail));
    StripGaps(tail);
    StripOne(Claim(claim));
    hide StripAll, Scan;
  }

  lemma UpperReported()
    ensures HIDDEN in LiveScripts([ScriptOpen(None, true, []), ScriptClose(true)] + StrayTail())
  {
    var empty := [ScriptOpen(None, true, []), ScriptClose(true)];
    LiveInert(empty, StrayTail());
    StrayReported();
  }

  /** So does a `</SCRIPT>` in a payload, which the case-sensitive escape misses: the rest of the file stands outside
      the script, and the check reports the reference quoted in it, with nothing recorded. */
  lemma UppercaseCloseExposesPayload()
    ensures var w, regions := UpperWorld(), Scan(UpperDoc(), false);
            Clean(w, regions) && NoStrayClosed(w, regions) && PlainScript(regions[0]) && !AllFit(w, regions)
    ensures HIDDEN in LiveRefs(Bundled(UpperWorld(), UpperDoc()))
  {
    hide *;
    UpperMisfits();
    UpperBundle();
    UpperSecondScan();
    UpperReported();
    LiveRefsAre(UpperClaim() + StrayTail());
  }

  lemma LiveRefsAre(doc: Doc)
    ensures LiveRefs(doc) == LiveScripts(Bare(doc)) + LiveSheets(Bare(doc))
  {
  }
}

/** The program's handlers and its one pass. */
module DeckBundle {
  import opened Wrappers
  import opened BundleSpec

  datatype Lists = Lists(missing: seq<Ref>, remote: seq<Ref>, escaped: seq<Ref>)

  /** The lists after some references were met. */
  function Recorded(w: World, s: Lists, uses: seq<Use>): Lists {
    Lists(s.missing + WithFate(w, uses, Missing), s.remote + WithFate(w, uses, Fate.Remote),
          s.escaped + WithFate(w, uses, Escaped))
  }

  lemma RecordedJoin(w: World, s: Lists, a: seq<Use>, b: seq<Use>)
    ensures Recorded(w, Recorded(w, s, a), b) == Recorded(w, s, a + b)
    ensures Recorded(w, s, []) == s
  {
    WithFateJoin(w, a, b, Missing);
    WithFateJoin(w, a, b, Fate.Remote);
    WithFateJoin(w, a, b, Escaped);
  }

  lemma RecordedOne(w: World, s: Lists, u: Use)
    ensures Recorded(w, s, [u]) ==
            match FateOf(w, u)
            case Missing => s.(missing := s.missing + [u.ref])
            case Remote => s.(remote := s.remote + [u.ref])
            case Escaped => s.(escaped := s.escaped + [u.ref])
            case _ => s
  {
    OneFate(w, u, Missing);
    OneFate(w, u, Fate.Remote);
    OneFate(w, u, Escaped);
    hide WithFate, FateOf;
    assert s.missing + [] == s.missing && s.remote + [] == s.remote && s.escaped + [] == s.escaped;
  }

  lemma OneFate(w: World, u: Use, fate: Fate)
    ensures WithFate(w, [u], fate) == if FateOf(w, u) == fate then [u.ref] else []
  {
    hide FateOf;
    assert [u][..0] == [];
    assert WithFate(w, [], fate) == [];
    assert [] + [u.ref] == [u.ref];
  }

  lemma UrlUsesSnoc(dir: Dir, css: Doc, l: Lexeme)
    ensures UrlUses(dir, css + [l]) == if l.Url? then UrlUses(dir, css) + [Use(UrlRef, dir, l.ref)]
            else UrlUses(dir, css)
  {
    assert (css + [l])[..|css|] == css;
    assert UrlUses(dir, css) + [] == UrlUses(dir, css);
  }

  class Bundler {
    const w: World
    var missing: seq<Ref>
    var remote: seq<Ref>
    var escaped: seq<Ref>

    function State(): Lists
      reads this
    {
      Lists(missing, remote, escaped)
    }

    constructor (w: World)
      ensures this.w == w && State() == Lists([], [], [])
    {
      this.w := w;
      missing, remote, escaped := [], [], [];
    }

    /** One url() of a stylesheet in folder `dir`. */
    method SwapCssUrl(dir: Dir, l: Lexeme) returns (out: Lexeme)
      requires l.Url?
      modifies this
      ensures out == SwapUrl(w, dir, l)
      ensures State() == Recorded(w, old(State()), [Use(UrlRef, dir, l.ref)])
    {
      RecordedOne(w, State(), Use(UrlRef, dir, l.ref));
      hide Recorded;
      if l.ref.Empty? || l.ref.Fragment? || l.ref.Data? {
        return l;
      }
      if l.ref.Remote? {
        remote := remote + [l.ref];
        return l;
      }
      match w.resolve(dir, l.ref) {
        case Escapes =>
          escaped := escaped + [l.ref];
          return l;
        case Absent =>
          missing := missing + [l.ref];
          return l;
        case File(_, uri, _) =>
          return Url(Data(uri));
      }
    }

    method InlineCssUrls(css: Doc, dir: Dir) returns (out: Doc)
      modifies this
      ensures out == InlineCss(w, dir, css)
      ensures State() == Recorded(w, old(State()), UrlUses(dir, css))
    {
      hide Recorded, SwapUrl, UrlUses;
      NoUrls(dir);
      out := [];
      ghost var start := State();
      RecordedJoin(w, start, [], []);
      for i := 0 to |css|
        invariant |out| == i && forall j :: 0 <= j < i ==> out[j] == SwapUrl(w, dir, css[j])
        invariant State() == Recorded(w, start, UrlUses(dir, css[..i]))
      {
        assert css[..i + 1] == css[..i] + [css[i]];
        UrlUsesSnoc(dir, css[..i], css[i]);
        if css[i].Url? {
          RecordedJoin(w, start, UrlUses(dir, css[..i]), [Use(UrlRef, dir, css[i].ref)]);
          var l := SwapCssUrl(dir, css[i]);
          out := out + [l];
        } else {
          NotSwapped(w, dir, css[i]);
          out := out + [css[i]];
        }
      }
      assert css[..|css|] == css;
    }

    method HandleStyle(r: Region) returns (out: Doc)
      requires StyleBlock(r)
      modifies this
      ensures out == Rewrite(w, r) && State() == Recorded(w, old(State()), UsesOf(w, r))
    {
      var css := InlineCssUrls(Body(r), w.base);
      out := [r.lexemes[0]] + css + [r.lexemes[|r.lexemes| - 1]];
    }

    method HandleScript(r: Region) returns (out: Doc)
      requires r.Claim? && r.lexemes != [] && r.lexemes[0].ScriptOpen?
      modifies this
      ensures out == Rewrite(w, r) && State() == Recorded(w, old(State()), UsesOf(w, r))
    {
      RecordedJoin(w, State(), [], []);
      out := r.lexemes;
      if !Inlinable(r) {
        return;
      }
      var href := r.lexemes[0].src.value;
      RecordedOne(w, State(), Use(ScriptRef, w.base, href));
      hide Recorded, InlinedScript;
      if href.Data? {
        return;
      }
      if href.Remote? {
        remote := remote + [href];
        return;
      }
      match w.resolve(w.base, href) {
        case Escapes => escaped := escaped + [href];
        case Absent => missing := missing + [href];
        case File(text, _, _) => out := InlinedScript(r.lexemes[0], href, text);
      }
    }

    method HandleLink(r: Region) returns (out: Doc)
      requires r.Gap? && r.lexeme.Link?
      modifies this
      ensures out == Rewrite(w, r) && State() == Recorded(w, old(State()), UsesOf(w, r))
    {
      RecordedJoin(w, State(), [], []);
      out := [r.lexeme];
      if r.lexeme.href.None? || r.lexeme.word.Nowhere? {
        return;
      }
      var href := r.lexeme.href.value;
      ghost var u := Use(SheetRef, w.base, href);
      RecordedOne(w, State(), u);
      hide Recorded, InlineCss, UrlUses;
      assert [u] + [] == [u];
      if href.Data? {
        return;
      }
      if href.Remote? {
        remote := remote + [href];
        return;
      }
      match w.resolve(w.base, href) {
        case Escapes => escaped := escaped + [href];
        case Absent => missing := missing + [href];
        case File(text, _, dir) =>
          RecordedJoin(w, State(), [u], UrlUses(dir, text));
          var css := InlineCssUrls(text, dir);
          out := [StyleOpen, Name(href)] + css + [Text("\n"), StyleClose];
      }
    }

    method HandleMedia(r: Region) returns (out: Doc)
      requires r.Gap? && r.lexeme.Media?
      modifies this
      ensures out == Rewrite(w, r) && State() == Recorded(w, old(State()), UsesOf(w, r))
    {
      RecordedJoin(w, State(), [], []);
      out := [r.lexeme];
      if r.lexeme.source.None? {
        return;
      }
      var href := r.lexeme.source.value;
      RecordedOne(w, State(), Use(MediaRef, w.base, href));
      hide Recorded;
      if href.Empty? || href.Data? {
        return;
      }
      if href.Remote? {
        remote := remote + [href];
        return;
      }
      match w.resolve(w.base, href) {
        case Escapes => escaped := escaped + [href];
        case Absent => missing := missing + [href];
        case File(_, uri, _) => out := [Media(Some(Data(uri)))];
      }
    }

    /** One claimed region, or one lexeme between them. */
    method Dispatch(r: Region) returns (out: Doc)
      requires WellCut(r)
      modifies this
      ensures out == Rewrite(w, r) && State() == Recorded(w, old(State()), UsesOf(w, r))
    {
      if StyleBlock(r) {
        out := HandleStyle(r);
      } else if r.Claim? && r.lexemes[0].ScriptOpen? {
        out := HandleScript(r);
      } else if r.Gap? && r.lexeme.Link? {
        out := HandleLink(r);
      } else if r.Gap? && r.lexeme.Media? {
        out := HandleMedia(r);
      } else {
        RecordedJoin(w, State(), [], []);
        out := Lexemes(r);
      }
    }

    /** The pass over the document: the result, and every reference met in exactly one list, in order. */
    method Bundle(html: Doc) returns (out: Doc)
      modifies this
      ensures out == Bundled(w, html)
      ensures State() == Recorded(w, old(State()), UsesAll(w, Scan(html, false)))
    {
      hide Rewrite, UsesOf, Recorded, Scan, RewriteAll, UsesAll, CloserOf;
      out := [];
      ghost var start := State();
      ghost var met: seq<Use> := [];
      RecordedJoin(w, start, [], []);
      var i := 0;
      assert html[0..] == html;
      while i < |html|
        invariant 0 <= i <= |html|
        invariant Bundled(w, html) == out + RewriteAll(w, Scan(html[i..], false))
        invariant UsesAll(w, Scan(html, false)) == met + UsesAll(w, Scan(html[i..], false))
        invariant State() == Recorded(w, start, met)
      {
        var k := CloserOf(html, html[i], i + 1);
        CloserShifted(html, i, html[i], i + 1);
        var r := if Opens(html[i], false) && k < |html| then Claim(html[i..k + 1]) else Gap(html[i]);
        var next := if r.Claim? then k + 1 else i + 1;
        ScanStep(html, i, k);
        ConsRegions(w, r, Scan(html[next..], false));
        RecordedJoin(w, start, met, UsesOf(w, r));
        var piece := Dispatch(r);
        out := out + piece;
        met := met + UsesOf(w, r);
        i := next;
      }
      assert html[|html|..] == [];
      NothingLeft(w);
      assert met + [] == met && out + [] == out;
    }
  }

  lemma NothingLeft(w: World)
    ensures RewriteAll(w, Scan([], false)) == [] && UsesAll(w, Scan([], false)) == []
  {
  }

  lemma ConsRegions(w: World, r: Region, rest: seq<Region>)
    ensures RewriteAll(w, [r] + rest) == Rewrite(w, r) + RewriteAll(w, rest)
    ensures UsesAll(w, [r] + rest) == UsesOf(w, r) + UsesAll(w, rest)
  {
    assert ([r] + rest)[1..] == rest;
  }

  lemma NoUrls(dir: Dir)
    ensures UrlUses(dir, []) == []
  {
  }

  lemma NotSwapped(w: World, dir: Dir, l: Lexeme)
    ensures !l.Url? ==> SwapUrl(w, dir, l) == l
  {
  }

  lemma {:induction false} CloserShifted(html: Doc, i: nat, open: Lexeme, from: nat)
    requires i <= from <= |html|
    ensures CloserOf(html, open, from) == i + CloserOf(html[i..], open, from - i)
    decreases |html| - from
  {
    if from < |html| && !Closes(open, html[from]) {
      CloserShifted(html, i, open, from + 1);
    }
  }

  lemma ScanStep(html: Doc, i: nat, k: nat)
    requires i < |html| && k == CloserOf(html, html[i], i + 1) == i + CloserOf(html[i..], html[i], 1)
    ensures var r := if Opens(html[i], false) && k < |html| then Claim(html[i..k + 1]) else Gap(html[i]);
            var next := if r.Claim? then k + 1 else i + 1;
            && WellCut(r)
            && Scan(html[i..], false) == [r] + Scan(html[next..], false)
  {
    var rest := html[i..];
    if Opens(html[i], false) && k < |html| {
      assert rest[..k - i + 1] == html[i..k + 1] && rest[k - i + 1..] == html[k + 1..];
      FirstCloser(html[i..k + 1], html[i], 1, k - i);
    } else {
      assert rest[1..] == html[i + 1..];
    }
  }

  // ----- the verdict ----------------------------------------------------------------------------------

  lemma {:induction false} UsesMembers(w: World, regions: seq<Region>, u: Use)
    ensures u in UsesAll(w, regions) <==> exists r <- regions :: u in UsesOf(w, r)
  {
    if regions != [] {
      UsesMembers(w, regions[1..], u);
      assert regions == [regions[0]] + regions[1..];
      hide UsesOf;
    }
  }

  lemma {:induction false} NoneWithFate(w: World, uses: seq<Use>, fate: Fate)
    requires forall u <- uses :: FateOf(w, u) != fate
    ensures WithFate(w, uses, fate) == []
    decreases |uses|
  {
    if uses != [] {
      NoneWithFate(w, uses[..|uses| - 1], fate);
      hide FateOf;
    }
  }

  /** The three lists stay empty if and only if every reference met was inlined or left alone. */
  lemma NothingRecorded(w: World, regions: seq<Region>)
    ensures Recorded(w, Lists([], [], []), UsesAll(w, regions)) == Lists([], [], []) <==> Clean(w, regions)
  {
    var uses := UsesAll(w, regions);
    Accounted(w, uses);
    forall r, u | r in regions && u in UsesOf(w, r)
      ensures u in uses
    {
      UsesMembers(w, regions, u);
    }
    forall u | u in uses
      ensures exists r <- regions :: u in UsesOf(w, r)
    {
      UsesMembers(w, regions, u);
    }
    hide UsesOf, UsesAll, FateOf, WithFate;
    if Clean(w, regions) {
      NoneWithFate(w, uses, Missing);
      NoneWithFate(w, uses, Fate.Remote);
      NoneWithFate(w, uses, Escaped);
    } else {
      var r, u :| r in regions && u in UsesOf(w, r) && FateOf(w, u) != Left && FateOf(w, u) != Inlined;
      assert u.ref in WithFate(w, uses, FateOf(w, u));
    }
  }

  /** The bundler's verdict is right: with nothing recorded, no live reference is left in the result. */
  lemma {:induction false} VerdictIsRight(w: World, html: Doc)
    requires Recorded(w, Lists([], [], []), UsesAll(w, Scan(html, false))) == Lists([], [], [])
    requires Fits(w, Scan(html, false)) && NoStrayClosed(w, Scan(html, false))
    ensures AllData(LiveRefs(Bundled(w, html)))
  {
    hide *;
    NothingRecorded(w, Scan(html, false));
    CleanBundleHasNoLiveRefs(w, html);
  }
}

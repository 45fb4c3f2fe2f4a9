/** The per-page rewrite that adds a mobile navigation menu: four insertions, each skipped
    when the page already holds that insertion's guard text, each placed at the first
    occurrence of its anchor. The stylesheet and script fragments are given as parameters. */
module MobileMenu {
  import opened Wrappers
  import opened Strings

  // ---------------------------------------------------------------------------
  // Guarded first-occurrence insertion, for any guard and anchor
  // ---------------------------------------------------------------------------

  /** Whether the text goes in front of the anchor or right after it. */
  datatype Side = Before | After

  /** Where the text goes when the anchor occurs first at `i`. */
  function InsertPos(i: nat, a: string, side: Side): nat {
    if side == Before then i else i + |a|
  }

  /** `h.replace(a, text + a, 1)` or `h.replace(a, a + text, 1)`. */
  function Insert(h: string, a: string, text: string, side: Side): (r: string)
    ensures !Contains(h, a) ==> r == h
    ensures Contains(h, a) ==> var pos := InsertPos(IndexOf(h, a).value, a, side);
      pos <= |h| && r == h[..pos] + text + h[pos..]
  {
    InsertShape(h, a, text, side);
    if side == Before then ReplaceFirst(h, a, text + a) else ReplaceFirst(h, a, a + text)
  }

  lemma InsertShape(h: string, a: string, text: string, side: Side)
    ensures Contains(h, a) ==> var i := IndexOf(h, a).value;
      h[..i] + (text + a) + h[i + |a|..] == h[..i] + text + h[i..]
      && h[..i] + (a + text) + h[i + |a|..] == h[..i + |a|] + text + h[i + |a|..]
  {
    if Contains(h, a) {
      var i := IndexOf(h, a).value;
      assert h[i..] == a + h[i + |a|..] by {
        assert h[i..][..|a|] == a;
      }
      assert h[..i + |a|] == h[..i] + a;
    }
  }

  /** One step of the rewrite: nothing when the guard is already there. */
  function Guarded(h: string, g: string, a: string, text: string, side: Side): (r: string)
    ensures Contains(h, g) ==> r == h
    ensures !Contains(h, g) ==> r == Insert(h, a, text, side)
  {
    if Contains(h, g) then h else Insert(h, a, text, side)
  }

  /** A step only inserts: the page is a subsequence of its rewrite. */
  lemma GuardedSubseq(h: string, g: string, a: string, text: string, side: Side)
    ensures IsSubseq(h, Guarded(h, g, a, text, side))
  {
    if !Contains(h, g) && Contains(h, a) {
      var pos := InsertPos(IndexOf(h, a).value, a, side);
      SubseqInsert(h[..pos], text, h[pos..]);
      assert h[..pos] + h[pos..] == h;
    } else {
      SubseqRefl(h);
    }
  }

  /** After a step its guard is present, provided the guard or the anchor was present and the
      inserted text carries the guard. */
  lemma GuardedEstablishes(h: string, g: string, a: string, text: string, side: Side)
    requires Contains(h, g) || Contains(h, a)
    requires Contains(text, g)
    ensures Contains(Guarded(h, g, a, text, side), g)
  {
    if !Contains(h, g) {
      var pos := InsertPos(IndexOf(h, a).value, a, side);
      ContainsInContext(h[..pos], text, h[pos..], g);
    }
  }

  /** A step whose text carries its guard changes nothing the second time. */
  lemma GuardedIdempotent(h: string, g: string, a: string, text: string, side: Side)
    requires Contains(text, g)
    ensures Guarded(Guarded(h, g, a, text, side), g, a, text, side) == Guarded(h, g, a, text, side)
  {
    if !Contains(h, g) && Contains(h, a) {
      GuardedEstablishes(h, g, a, text, side);
    }
  }

  // ---------------------------------------------------------------------------
  // When an insertion cannot break an occurrence of some other text
  // ---------------------------------------------------------------------------

  /** `u` and `v` agree on their common length. */
  predicate Agree(u: string, v: string) {
    IsPrefix(u, v) || IsPrefix(v, u)
  }

  /** No proper suffix of `x` agrees with a text that starts with `a`: inserting in front of
      `a` cannot cut an occurrence of `x` in two. */
  predicate SafeBefore(x: string, a: string) {
    forall k | 1 <= k < |x| :: !Agree(x[k..], a)
  }

  /** No proper prefix of `x` ends a text that ends with `a`: inserting right after `a`
      cannot cut an occurrence of `x` in two. */
  predicate SafeAfter(x: string, a: string) {
    forall k | 1 <= k < |x| :: !Agree(Reverse(x[..k]), Reverse(a))
  }

  function Reverse(s: string): (r: string)
    ensures |r| == |s|
    ensures forall i :: 0 <= i < |s| ==> r[i] == s[|s| - 1 - i]
    decreases |s|
  {
    if s == [] then [] else Reverse(s[1..]) + [s[0]]
  }

  /** The usual way to show `SafeBefore`: the anchor's first character never follows the
      first character of `x`. */
  lemma SafeBeforeByFirst(x: string, a: string)
    requires a != [] && forall k | 1 <= k < |x| :: x[k] != a[0]
    ensures SafeBefore(x, a)
  {
    forall k | 1 <= k < |x|
      ensures !Agree(x[k..], a)
    {
      assert x[k..][0] == x[k];
    }
  }

  /** The usual way to show `SafeAfter`: the anchor's last character never precedes the last
      character of `x`. */
  lemma SafeAfterByLast(x: string, a: string)
    requires a != [] && forall k | 0 <= k < |x| - 1 :: x[k] != a[|a| - 1]
    ensures SafeAfter(x, a)
  {
    forall k | 1 <= k < |x|
      ensures !Agree(Reverse(x[..k]), Reverse(a))
    {
      assert Reverse(x[..k])[0] == x[k - 1];
      assert Reverse(a)[0] == a[|a| - 1];
    }
  }

  /** Inserting at `pos` keeps an occurrence of `x` at `j` that does not straddle `pos`. */
  lemma InsertKeeps(h: string, text: string, pos: nat, x: string, j: nat)
    requires pos <= |h| && OccursAt(h, x, j)
    requires j + |x| <= pos || pos <= j
    ensures Contains(h[..pos] + text + h[pos..], x)
  {
    var r := h[..pos] + text + h[pos..];
    if j + |x| <= pos {
      assert r[j..][..|x|] == h[j..][..|x|];
      assert OccursAt(r, x, j);
    } else {
      assert r[j + |text|..][..|x|] == h[j..][..|x|];
      assert OccursAt(r, x, j + |text|);
    }
  }

  /** A step keeps any text that its anchor cannot cut. */
  lemma GuardedPreserves(h: string, g: string, a: string, text: string, side: Side, x: string)
    requires Contains(h, x)
    requires side == Before ==> SafeBefore(x, a)
    requires side == After ==> SafeAfter(x, a)
    ensures Contains(Guarded(h, g, a, text, side), x)
  {
    if !Contains(h, g) && Contains(h, a) {
      var i := IndexOf(h, a).value;
      var pos := InsertPos(i, a, side);
      var j :| 0 <= j <= |h| && OccursAt(h, x, j);
      if j < pos < j + |x| {
        if side == Before {
          StraddleBefore(h, a, x, i, j);
        } else {
          StraddleAfter(h, a, x, i, j);
        }
        assert false;
      }
      InsertKeeps(h, text, pos, x, j);
    }
  }

  /** The before-anchor case of a straddling occurrence. */
  lemma StraddleBefore(h: string, a: string, x: string, i: nat, j: nat)
    requires OccursAt(h, a, i) && OccursAt(h, x, j)
    requires j < i < j + |x|
    ensures !SafeBefore(x, a)
  {
    var k := i - j;
    assert x[k..] == h[i..][..|x| - k];
    assert a == h[i..][..|a|];
    assert Agree(x[k..], a);
  }

  /** The after-anchor case of a straddling occurrence. */
  lemma StraddleAfter(h: string, a: string, x: string, i: nat, j: nat)
    requires OccursAt(h, a, i) && OccursAt(h, x, j)
    requires j < i + |a| < j + |x|
    ensures !SafeAfter(x, a)
  {
    var e := i + |a|;
    var k := e - j;
    var u := Reverse(x[..k]);
    var v := Reverse(a);
    var m := if k < |a| then k else |a|;
    forall n | 0 <= n < m
      ensures u[n] == v[n]
    {
      assert u[n] == x[k - 1 - n] == h[e - 1 - n];
      assert v[n] == a[|a| - 1 - n] == h[e - 1 - n];
    }
    if k <= |a| {
      assert u == v[..k];
    } else {
      assert v == u[..|a|];
    }
    assert Agree(u, v);
  }

  // ---------------------------------------------------------------------------
  // The four steps of the page rewrite
  // ---------------------------------------------------------------------------

  /** Guards: the text whose presence means a step has been done already. */
  const CssGuard: string := "nav-drawer"
  const ButtonGuard: string := "id=\"hamburger\""
  const DrawerGuard: string := "id=\"nav-drawer\""
  const ScriptGuard: string := "toggleMenu"

  /** Anchors: the text each step inserts next to. */
  const StyleClose: string := "  </style>"
  const NavList: string := "<ul class=\"nav-links\""
  const NavClose: string := "</nav>\n"
  const BodyClose: string := "</body>"

  /** The shared stylesheet and script fragments. Their contents are not modelled; only the
      guard text each one carries matters to the rewrite. */
  datatype Fragments = Fragments(css: string, js: string)

  /** What the shipped fragments carry: the stylesheet names the drawer class and the script
      defines `toggleMenu`. */
  predicate Shipped(f: Fragments) {
    Contains(f.css, CssGuard) && Contains(f.js, ScriptGuard)
  }

  /** The per-page settings. */
  datatype FileConfig = FileConfig(breakpoint: string, navLinksHide: string, drawerLinks: string)

  /** The stylesheet text: the shared rules, then a media query for the page's breakpoint. */
  function MediaCss(f: Fragments, cfg: FileConfig): (r: string)
    ensures IsPrefix(f.css, r)
    ensures Contains(r, "@media (max-width: " + cfg.breakpoint + ")")
    ensures Contains(r, cfg.navLinksHide)
  {
    var q := "@media (max-width: " + cfg.breakpoint + ")";
    var b := " {\n      .hamburger { display: flex; align-items: center; }\n      ";
    Framed(f.css, "\n    ", q, b, cfg.navLinksHide, "\n    }\n");
    f.css + "\n    " + q + b + cfg.navLinksHide + "\n    }\n"
  }

  /** Where the pieces of a composed text can be found again. */
  lemma Framed<T>(p: seq<T>, a: seq<T>, q: seq<T>, b: seq<T>, x: seq<T>, c: seq<T>)
    ensures var r := p + a + q + b + x + c;
      IsPrefix(p, r) && Contains(r, q) && Contains(r, x)
  {
    var r := p + a + q + b + x + c;
    assert r[..|p|] == p;
    ContainsSelf(q);
    ContainsInContext(p + a, q, b + x + c, q);
    assert p + a + q + (b + x + c) == r;
    ContainsSelf(x);
    ContainsInContext(p + a + q + b, x, c, x);
  }

  const ButtonHead: string := "<button class=\"hamburger\" "
  const ButtonTail: string := " aria-label=\"メニューを開く\" aria-expanded=\"false\">☰</button>\n  "

  /** The menu button, which goes in front of the link list. */
  function ButtonText(): (r: string)
    ensures Contains(r, ButtonGuard)
  {
    ContainsSelf(ButtonGuard);
    ContainsInContext(ButtonHead, ButtonGuard, ButtonTail, ButtonGuard);
    ButtonHead + ButtonGuard + ButtonTail
  }

  /** The drawer, a second `nav` element holding the page's links. */
  function DrawerText(cfg: FileConfig): (r: string)
    ensures Contains(r, DrawerGuard)
    ensures Contains(r, cfg.drawerLinks)
  {
    var b := " class=\"nav-drawer\" role=\"navigation\" aria-label=\"モバイルメニュー\">\n";
    Framed([], "\n<nav ", DrawerGuard, b, cfg.drawerLinks, "\n</nav>\n");
    assert [] + "\n<nav " == "\n<nav ";
    "\n<nav " + DrawerGuard + b + cfg.drawerLinks + "\n</nav>\n"
  }

  /** The script, followed by a line break, which goes in front of `</body>`. */
  function ScriptText(f: Fragments): (r: string)
    ensures IsPrefix(f.js, r) && |r| == |f.js| + 1
  {
    f.js + "\n"
  }

  /** Step 1: the stylesheet, in front of the first `  </style>`, unless `nav-drawer` is
      already in the page. */
  function AddCss(h: string, f: Fragments, cfg: FileConfig): (r: string)
    ensures Contains(h, CssGuard) || !Contains(h, StyleClose) ==> r == h
    ensures !Contains(h, CssGuard) && Contains(h, StyleClose) ==> var i := IndexOf(h, StyleClose).value;
      r == h[..i] + MediaCss(f, cfg) + h[i..]
  {
    Guarded(h, CssGuard, StyleClose, MediaCss(f, cfg), Before)
  }

  /** Step 2: the button, in front of the first `<ul class="nav-links"`, unless the button
      is already in the page. */
  function AddButton(h: string): (r: string)
    ensures Contains(h, ButtonGuard) || !Contains(h, NavList) ==> r == h
    ensures !Contains(h, ButtonGuard) && Contains(h, NavList) ==> var i := IndexOf(h, NavList).value;
      r == h[..i] + ButtonText() + h[i..]
  {
    Guarded(h, ButtonGuard, NavList, ButtonText(), Before)
  }

  /** Step 3: the drawer, right after the first `</nav>` that ends a line, unless the drawer
      is already in the page. */
  function AddDrawer(h: string, cfg: FileConfig): (r: string)
    ensures Contains(h, DrawerGuard) || !Contains(h, NavClose) ==> r == h
    ensures !Contains(h, DrawerGuard) && Contains(h, NavClose) ==> var i := IndexOf(h, NavClose).value;
      r == h[..i + |NavClose|] + DrawerText(cfg) + h[i + |NavClose|..]
  {
    Guarded(h, DrawerGuard, NavClose, DrawerText(cfg), After)
  }

  /** Step 4: the script, in front of the first `</body>`, unless `toggleMenu` is already in
      the page. */
  function AddScript(h: string, f: Fragments): (r: string)
    ensures Contains(h, ScriptGuard) || !Contains(h, BodyClose) ==> r == h
    ensures !Contains(h, ScriptGuard) && Contains(h, BodyClose) ==> var i := IndexOf(h, BodyClose).value;
      r == h[..i] + ScriptText(f) + h[i..]
  {
    Guarded(h, ScriptGuard, BodyClose, ScriptText(f), Before)
  }

  /** The whole rewrite of one page. */
  function Transform(h: string, f: Fragments, cfg: FileConfig): string {
    AddScript(AddDrawer(AddButton(AddCss(h, f, cfg)), cfg), f)
  }

  /** All four guards are in the page. */
  predicate Done(h: string) {
    Contains(h, CssGuard) && Contains(h, ButtonGuard) && Contains(h, DrawerGuard) && Contains(h, ScriptGuard)
  }

  /** Every step can act: its guard or its anchor is in the page. */
  predicate Ready(h: string) {
    (Contains(h, CssGuard) || Contains(h, StyleClose))
    && (Contains(h, ButtonGuard) || Contains(h, NavList))
    && (Contains(h, DrawerGuard) || Contains(h, NavClose))
    && (Contains(h, ScriptGuard) || Contains(h, BodyClose))
  }

  /** A page that already holds all four guards is left exactly as it is. */
  lemma DoneUnchanged(h: string, f: Fragments, cfg: FileConfig)
    requires Done(h)
    ensures Transform(h, f, cfg) == h
  {
  }

  /** The rewrite only inserts: the page is a subsequence of the result. */
  lemma TransformSubseq(h: string, f: Fragments, cfg: FileConfig)
    ensures IsSubseq(h, Transform(h, f, cfg))
  {
    var h1 := AddCss(h, f, cfg);
    var h2 := AddButton(h1);
    var h3 := AddDrawer(h2, cfg);
    GuardedSubseq(h, CssGuard, StyleClose, MediaCss(f, cfg), Before);
    GuardedSubseq(h1, ButtonGuard, NavList, ButtonText(), Before);
    GuardedSubseq(h2, DrawerGuard, NavClose, DrawerText(cfg), After);
    GuardedSubseq(h3, ScriptGuard, BodyClose, ScriptText(f), Before);
    SubseqTrans(h, h1, h2);
    SubseqTrans(h, h2, h3);
    SubseqTrans(h, h3, Transform(h, f, cfg));
  }

  /** A step keeps one of two texts that its anchor cannot cut. */
  lemma KeepsEither(h: string, g: string, a: string, text: string, side: Side, x: string, y: string)
    requires Contains(h, x) || Contains(h, y)
    requires side == Before ==> SafeBefore(x, a) && SafeBefore(y, a)
    requires side == After ==> SafeAfter(x, a) && SafeAfter(y, a)
    ensures Contains(Guarded(h, g, a, text, side), x) || Contains(Guarded(h, g, a, text, side), y)
  {
    if Contains(h, x) {
      GuardedPreserves(h, g, a, text, side, x);
    } else {
      GuardedPreserves(h, g, a, text, side, y);
    }
  }

  /** On a page where every step can act, one pass leaves all four guards in place. */
  lemma TransformDone(h: string, f: Fragments, cfg: FileConfig)
    requires Shipped(f) && Ready(h)
    ensures Done(Transform(h, f, cfg))
  {
    var h1 := AddCss(h, f, cfg);
    var h2 := AddButton(h1);
    var h3 := AddDrawer(h2, cfg);
    CssStep(h, f, cfg);
    ButtonStep(h1);
    DrawerStep(h2, cfg);
    ScriptStep(h3, f);
  }

  /** Step 1 leaves its guard and keeps the later steps able to act. */
  lemma CssStep(h: string, f: Fragments, cfg: FileConfig)
    requires Shipped(f) && Ready(h)
    ensures var h1 := AddCss(h, f, cfg);
      Contains(h1, CssGuard)
      && (Contains(h1, ButtonGuard) || Contains(h1, NavList))
      && (Contains(h1, DrawerGuard) || Contains(h1, NavClose))
      && (Contains(h1, ScriptGuard) || Contains(h1, BodyClose))
  {
    var text := MediaCss(f, cfg);
    SafeFromStyle();
    ContainsInContext([], f.css, text[|f.css|..], CssGuard);
    assert [] + f.css + text[|f.css|..] == text;
    GuardedEstablishes(h, CssGuard, StyleClose, text, Before);
    KeepsEither(h, CssGuard, StyleClose, text, Before, ButtonGuard, NavList);
    KeepsEither(h, CssGuard, StyleClose, text, Before, DrawerGuard, NavClose);
    KeepsEither(h, CssGuard, StyleClose, text, Before, ScriptGuard, BodyClose);
  }

  /** Step 2 leaves its guard and keeps what step 1 left and the later steps need. */
  lemma ButtonStep(h1: string)
    requires Contains(h1, CssGuard)
    requires Contains(h1, ButtonGuard) || Contains(h1, NavList)
    requires Contains(h1, DrawerGuard) || Contains(h1, NavClose)
    requires Contains(h1, ScriptGuard) || Contains(h1, BodyClose)
    ensures var h2 := AddButton(h1);
      Contains(h2, CssGuard) && Contains(h2, ButtonGuard)
      && (Contains(h2, DrawerGuard) || Contains(h2, NavClose))
      && (Contains(h2, ScriptGuard) || Contains(h2, BodyClose))
  {
    var text := ButtonText();
    SafeFromNavList();
    GuardedEstablishes(h1, ButtonGuard, NavList, text, Before);
    GuardedPreserves(h1, ButtonGuard, NavList, text, Before, CssGuard);
    KeepsEither(h1, ButtonGuard, NavList, text, Before, DrawerGuard, NavClose);
    KeepsEither(h1, ButtonGuard, NavList, text, Before, ScriptGuard, BodyClose);
  }

  /** Step 3 leaves its guard and keeps what the earlier steps left and step 4 needs. */
  lemma DrawerStep(h2: string, cfg: FileConfig)
    requires Contains(h2, CssGuard) && Contains(h2, ButtonGuard)
    requires Contains(h2, DrawerGuard) || Contains(h2, NavClose)
    requires Contains(h2, ScriptGuard) || Contains(h2, BodyClose)
    ensures var h3 := AddDrawer(h2, cfg);
      Contains(h3, CssGuard) && Contains(h3, ButtonGuard) && Contains(h3, DrawerGuard)
      && (Contains(h3, ScriptGuard) || Contains(h3, BodyClose))
  {
    var text := DrawerText(cfg);
    SafeFromNavClose();
    GuardedEstablishes(h2, DrawerGuard, NavClose, text, After);
    GuardedPreserves(h2, DrawerGuard, NavClose, text, After, CssGuard);
    GuardedPreserves(h2, DrawerGuard, NavClose, text, After, ButtonGuard);
    KeepsEither(h2, DrawerGuard, NavClose, text, After, ScriptGuard, BodyClose);
  }

  /** Step 4 leaves its guard and keeps the other three. */
  lemma ScriptStep(h3: string, f: Fragments)
    requires Shipped(f)
    requires Contains(h3, CssGuard) && Contains(h3, ButtonGuard) && Contains(h3, DrawerGuard)
    requires Contains(h3, ScriptGuard) || Contains(h3, BodyClose)
    ensures Done(AddScript(h3, f))
  {
    var text := ScriptText(f);
    SafeFromBodyClose();
    ContainsInContext([], f.js, "\n", ScriptGuard);
    assert [] + f.js + "\n" == text;
    GuardedEstablishes(h3, ScriptGuard, BodyClose, text, Before);
    GuardedPreserves(h3, ScriptGuard, BodyClose, text, Before, CssGuard);
    GuardedPreserves(h3, ScriptGuard, BodyClose, text, Before, ButtonGuard);
    GuardedPreserves(h3, ScriptGuard, BodyClose, text, Before, DrawerGuard);
  }

  /** Running the rewrite twice on a page where every step can act gives the same page as
      running it once. */
  lemma TransformIdempotent(h: string, f: Fragments, cfg: FileConfig)
    requires Shipped(f) && Ready(h)
    ensures Transform(Transform(h, f, cfg), f, cfg) == Transform(h, f, cfg)
  {
    TransformDone(h, f, cfg);
    DoneUnchanged(Transform(h, f, cfg), f, cfg);
  }

  // ---------------------------------------------------------------------------
  // The literal facts behind the preservation steps
  // ---------------------------------------------------------------------------

  /** Nothing the later steps look for can be cut by an insertion in front of `  </style>`. */
  lemma SafeFromStyle()
    ensures SafeBefore(ButtonGuard, StyleClose) && SafeBefore(NavList, StyleClose)
    ensures SafeBefore(DrawerGuard, StyleClose) && SafeBefore(NavClose, StyleClose)
    ensures SafeBefore(ScriptGuard, StyleClose) && SafeBefore(BodyClose, StyleClose)
  {
    SafeBeforeByFirst(ButtonGuard, StyleClose);
    SafeBeforeByFirst(DrawerGuard, StyleClose);
    SafeBeforeByFirst(NavClose, StyleClose);
    SafeBeforeByFirst(ScriptGuard, StyleClose);
    SafeBeforeByFirst(BodyClose, StyleClose);
    NavListSafeFromStyle();
  }

  /** The link list's one space is followed by `c`, not by the second space of `  </style>`. */
  lemma NavListSafeFromStyle()
    ensures SafeBefore(NavList, StyleClose)
  {
    forall k | 1 <= k < |NavList|
      ensures !Agree(NavList[k..], StyleClose)
    {
      assert NavList[k..][0] == NavList[k];
      if k == 3 {
        assert NavList[k..][1] == NavList[4];
      }
    }
  }

  /** Nothing the other steps look for can be cut by an insertion in front of the link list. */
  lemma SafeFromNavList()
    ensures SafeBefore(CssGuard, NavList) && SafeBefore(DrawerGuard, NavList)
    ensures SafeBefore(NavClose, NavList) && SafeBefore(ScriptGuard, NavList)
    ensures SafeBefore(BodyClose, NavList)
  {
    SafeBeforeByFirst(CssGuard, NavList);
    SafeBeforeByFirst(DrawerGuard, NavList);
    SafeBeforeByFirst(NavClose, NavList);
    SafeBeforeByFirst(ScriptGuard, NavList);
    SafeBeforeByFirst(BodyClose, NavList);
  }

  /** Nothing the other steps look for can be cut by an insertion after `</nav>` and a line
      break. */
  lemma SafeFromNavClose()
    ensures SafeAfter(CssGuard, NavClose) && SafeAfter(ButtonGuard, NavClose)
    ensures SafeAfter(ScriptGuard, NavClose) && SafeAfter(BodyClose, NavClose)
  {
    SafeAfterByLast(CssGuard, NavClose);
    SafeAfterByLast(ButtonGuard, NavClose);
    SafeAfterByLast(ScriptGuard, NavClose);
    SafeAfterByLast(BodyClose, NavClose);
  }

  /** Nothing the earlier steps insert can be cut by an insertion in front of `</body>`. */
  lemma SafeFromBodyClose()
    ensures SafeBefore(CssGuard, BodyClose) && SafeBefore(ButtonGuard, BodyClose)
    ensures SafeBefore(DrawerGuard, BodyClose)
  {
    SafeBeforeByFirst(CssGuard, BodyClose);
    SafeBeforeByFirst(ButtonGuard, BodyClose);
    SafeBeforeByFirst(DrawerGuard, BodyClose);
  }

  // ---------------------------------------------------------------------------
  // Without its anchors present, the rewrite is not idempotent
  // ---------------------------------------------------------------------------

  /** A page with a `</nav>` that does not end a line. */
  const BareNav: string := "</nav></body>"

  /** On `BareNav` the first pass only adds the script; since the shipped script starts with a
      line break, that line break turns `</nav>` into the drawer's anchor, and the second pass
      adds the drawer. */
  lemma NotIdempotent(f: Fragments, cfg: FileConfig)
    requires Shipped(f) && f.js != [] && f.js[0] == '\n' && !Contains(f.js, DrawerGuard)
    ensures !Ready(BareNav)
    ensures var once := Transform(BareNav, f, cfg);
      !Contains(once, DrawerGuard) && Contains(Transform(once, f, cfg), DrawerGuard)
  {
    var once := BareNavOnce(f, cfg);
    OnceLacksDrawer(f);
    OnceEndsNav(f);
    DrawerArrives(once, f, cfg);
  }

  /** The page after the first pass lacks the drawer, because the script does. */
  lemma OnceLacksDrawer(f: Fragments)
    requires !Contains(f.js, DrawerGuard)
    ensures !Contains("</nav>" + ScriptText(f) + BodyClose, DrawerGuard)
  {
    ContainsWithin([], f.js, "\n", DrawerGuard);
    assert [] + f.js + "\n" == ScriptText(f);
    ContainsWithin("</nav>", ScriptText(f), BodyClose, DrawerGuard);
  }

  /** The page after the first pass has `</nav>` at the end of a line, because the script
      starts with a line break. */
  lemma OnceEndsNav(f: Fragments)
    requires f.js != [] && f.js[0] == '\n'
    ensures Contains("</nav>" + ScriptText(f) + BodyClose, NavClose)
  {
    var x := ScriptText(f);
    assert x[0] == '\n';
    HeadOccurs("</nav>", x, BodyClose);
    assert "</nav>" + [x[0]] == NavClose;
  }

  /** A text followed by a non-empty one: the text and the next element occur at the start. */
  lemma HeadOccurs<T>(a: seq<T>, x: seq<T>, b: seq<T>)
    requires x != []
    ensures OccursAt(a + x + b, a + [x[0]], 0)
  {
    assert (a + x + b)[..|a| + 1] == a + [x[0]];
  }

  /** Whenever the drawer's anchor or the drawer itself is in the page, the drawer is in the
      result. */
  lemma DrawerArrives(h: string, f: Fragments, cfg: FileConfig)
    requires Contains(h, DrawerGuard) || Contains(h, NavClose)
    ensures Contains(Transform(h, f, cfg), DrawerGuard)
  {
    var h1 := AddCss(h, f, cfg);
    var h2 := AddButton(h1);
    var h3 := AddDrawer(h2, cfg);
    SafeFromStyle();
    SafeFromNavList();
    SafeFromBodyClose();
    KeepsEither(h, CssGuard, StyleClose, MediaCss(f, cfg), Before, DrawerGuard, NavClose);
    KeepsEither(h1, ButtonGuard, NavList, ButtonText(), Before, DrawerGuard, NavClose);
    GuardedEstablishes(h2, DrawerGuard, NavClose, DrawerText(cfg), After);
    GuardedPreserves(h3, ScriptGuard, BodyClose, ScriptText(f), Before, DrawerGuard);
  }

  /** The first pass over `BareNav`: only the script goes in, in front of `</body>`. */
  lemma BareNavOnce(f: Fragments, cfg: FileConfig) returns (once: string)
    ensures !Ready(BareNav)
    ensures once == Transform(BareNav, f, cfg)
    ensures once == "</nav>" + ScriptText(f) + BodyClose
  {
    BareNavGuards();
    BareNavAnchors();
    var h3 := AddDrawer(AddButton(AddCss(BareNav, f, cfg)), cfg);
    assert h3 == BareNav;
    once := AddScript(BareNav, f);
    BareNavBody();
  }

  /** `BareNav` holds none of the guards. */
  lemma BareNavGuards()
    ensures !Contains(BareNav, CssGuard) && !Contains(BareNav, ButtonGuard)
    ensures !Contains(BareNav, DrawerGuard) && !Contains(BareNav, ScriptGuard)
  {
    MissingElement(BareNav, CssGuard, 7);
    MissingElement(BareNav, ButtonGuard, 0);
    MissingElement(BareNav, DrawerGuard, 0);
    MissingElement(BareNav, ScriptGuard, 0);
  }

  /** Of the anchors, `BareNav` holds only `</body>`. */
  lemma BareNavAnchors()
    ensures !Contains(BareNav, StyleClose) && !Contains(BareNav, NavList) && !Contains(BareNav, NavClose)
  {
    MissingElement(BareNav, StyleClose, 0);
    MissingElement(BareNav, NavList, 1);
    MissingElement(BareNav, NavClose, 6);
  }

  /** `</body>` first occurs in `BareNav` right after `</nav>`. */
  lemma BareNavBody()
    ensures IndexOf(BareNav, BodyClose) == Some(6)
    ensures BareNav[..6] == "</nav>" && BareNav[6..] == BodyClose
  {
    assert OccursAt(BareNav, BodyClose, 6) by {
      assert BareNav[6..][..|BodyClose|] == BodyClose;
    }
    forall j | 0 <= j < 6
      ensures !OccursAt(BareNav, BodyClose, j)
    {
      OccursElement(BareNav, BodyClose, j, 2);
    }
  }
}

/** elf_load (kernel/src/elf.c): segment and page loops that allocate, map and copy. */
module ElfLoader {
  import opened PageTableEntries
  import opened PhysicalMemory
  import opened PageTables
  import opened AddressSpaces
  import opened ForkCopy
  import opened UserMemory
  import opened ElfImage
  import opened Vmm

  const USER_FLAGS: nat := 7  // present | writable | user-accessible

  /** The body of the page loop: false means page_alloc returned NULL. */
  function LoadPage(s: Phys, r: nat, file: seq<Byte>, seg: Segment, n: nat): (o: (Phys, bool))
    requires r < |s.mem| <= MAX_FRAMES && FreeListOk(s) && n < USER_PAGES && SegmentOk(file, seg)
    ensures |o.0.mem| == |s.mem| && FreeListOk(o.0)
  {
    var pte := PteOf(s.mem, r, n);
    if !Present(pte) then
      if s.free == [] then (s, false)
      else
        var g, s1 := s.free[0], FreshMap(s, r, n, USER_FLAGS, ZeroFrame());
        (Phys(s1.mem[g := Overlay(s1.mem[g], file, seg, n)], s1.free), true)
    else
      var f := FrameOf(pte);
      (if f < |s.mem| then Phys(s.mem[f := Overlay(s.mem[f], file, seg, n)], s.free) else s, true)
  }

  /** Pages FirstPage(seg)..k-1 of one segment. */
  function LoadPages(s: Phys, r: nat, file: seq<Byte>, seg: Segment, k: nat): (o: (Phys, bool))
    requires r < |s.mem| <= MAX_FRAMES && FreeListOk(s) && k <= USER_PAGES && SegmentOk(file, seg)
    ensures |o.0.mem| == |s.mem| && FreeListOk(o.0)
    decreases k, s
  {
    if k <= FirstPage(seg) then (s, true)
    else
      var o := LoadPages(s, r, file, seg, k - 1);
      if !o.1 then o else LoadPage(o.0, r, file, seg, k - 1)
  }

  function LoadSegments(s: Phys, r: nat, img: Image, i: nat): (o: (Phys, bool))
    requires r < |s.mem| <= MAX_FRAMES && FreeListOk(s) && SegmentsOk(img) && i <= |img.segments|
    ensures |o.0.mem| == |s.mem| && FreeListOk(o.0)
    decreases i
  {
    if i == 0 then (s, true)
    else
      var o := LoadSegments(s, r, img, i - 1);
      var seg := img.segments[i - 1];
      if !o.1 || seg.kind != PT_LOAD then o
      else (PagesInUserHalf(img.file, seg); LoadPages(o.0, r, img.file, seg, EndPage(seg)))
  }

  /** elf_load; the result is the entry point. */
  function Load(s: Phys, r: nat, img: Image): (Phys, Option<nat>)
    requires r < |s.mem| <= MAX_FRAMES && FreeListOk(s) && SegmentsOk(img)
  {
    if img.magic != ELF_MAGIC || img.class_ != ELF_CLASS_64 then (s, None)
    else
      var (s', ok) := LoadSegments(s, r, img, |img.segments|);
      (s', if ok then Some(img.entry) else None)
  }

  // ----- one page

  /** The page's contents so far: zero when it is not mapped. */
  ghost function Contents(s: Phys, r: nat, n: nat): Frame {
    if n in UserView(s, r) then UserView(s, r)[n].1 else ZeroFrame()
  }

  ghost predicate OthersSame(s: Phys, s': Phys, roots: set<nat>, r: nat) {
    forall r2 :: r2 in roots && r2 != r ==> UserView(s', r2) == UserView(s, r2)
  }

  lemma ViewEntry(s: Phys, roots: set<nat>, slots: set<nat>, r: nat, n: nat)
    requires Private(s, roots, slots) && r in roots && n < USER_PAGES
    ensures n in UserView(s, r) <==> Mapped(s.mem, r, n)
    ensures Mapped(s.mem, r, n) ==>
              && LeafFrame(s.mem, r, n) < |s.mem|
              && UserView(s, r)[n] == (PteOf(s.mem, r, n) % 4096, s.mem[LeafFrame(s.mem, r, n)])
    ensures r < |s.mem| <= MAX_FRAMES && FreeListOk(s)
  {
    hide PteOf;
    assert LeavesHeld(s, r);
    SeparatedBasics(s, roots, slots, r);
  }

  /** With the frames it needs, loading a page overlays that page and nothing else. */
  lemma LoadPageRefines(s: Phys, roots: set<nat>, slots: set<nat>, r: nat, file: seq<Byte>, seg: Segment, n: nat)
    requires Private(s, roots, slots) && r in roots && n < USER_PAGES && SegmentOk(file, seg)
    requires n in UserView(s, r) ==> UserView(s, r)[n].0 == USER_FLAGS
    requires n !in UserView(s, r) ==> 1 + Missing(s.mem, r, PathOf(n)) <= |s.free|
    ensures r < |s.mem| <= MAX_FRAMES && FreeListOk(s)
    ensures var (s', ok) := LoadPage(s, r, file, seg, n);
            && ok && Private(s', roots, slots) && OthersSame(s, s', roots, r)
            && UserView(s', r) == UserView(s, r)[n := (USER_FLAGS, Overlay(Contents(s, r, n), file, seg, n))]
            && (if n in UserView(s, r)
                then s'.free == s.free
                     && forall q {:trigger TableAt(s'.mem, r, q)} :: Tracked(slots, q) ==>
                          TableAt(s'.mem, r, q) == TableAt(s.mem, r, q)
                else |s'.free| == |s.free| - 1 - Missing(s.mem, r, PathOf(n))
                     && forall q {:trigger TableAt(s'.mem, r, q)} :: Tracked(slots, q)
                          ==> (TableAt(s'.mem, r, q).Some? <==> TableAt(s.mem, r, q).Some? || q <= PathOf(n)))
  {
    hide Private, PteOf, TableAt, FrameOf, Present, UserView, Missing, FreshMap, Overlay;
    ViewEntry(s, roots, slots, r, n);
    if Mapped(s.mem, r, n) {
      PageWrite(s, roots, slots, r, n, Overlay(Contents(s, r, n), file, seg, n));
    } else {
      FlagsPresent();
      FreshMapRefines(s, roots, slots, r, n, USER_FLAGS, ZeroFrame());
      var s1 := FreshMap(s, r, n, USER_FLAGS, ZeroFrame());
      ViewEntry(s1, roots, slots, r, n);
      PageWrite(s1, roots, slots, r, n, Overlay(ZeroFrame(), file, seg, n));
    }
  }

  lemma FlagsPresent()
    ensures Present(USER_FLAGS)
  {
  }

  // ----- the invariant of the loops

  /** Headers below i were loaded, and of header i the pages below k. */
  ghost predicate Reached(img: Image, i: nat, k: nat, n: nat)
    requires i <= |img.segments|
  {
    || (exists j: nat :: j < i && Touches(img.segments[j], n))
    || (i < |img.segments| && Touches(img.segments[i], n) && n < k)
  }

  ghost function PagesAt(img: Image, i: nat, k: nat): set<nat>
    requires i <= |img.segments|
  {
    set n | 0 <= n < USER_PAGES && Reached(img, i, k, n)
  }

  ghost function ContentAt(img: Image, i: nat, k: nat, n: nat): Frame
    requires SegmentsOk(img) && i <= |img.segments|
  {
    if i < |img.segments| && Touches(img.segments[i], n) && n < k then PageOf(img, i + 1, n) else PageOf(img, i, n)
  }

  ghost function ViewAt(img: Image, i: nat, k: nat): map<nat, (nat, Frame)>
    requires SegmentsOk(img) && i <= |img.segments|
  {
    map n | n in PagesAt(img, i, k) :: (USER_FLAGS, ContentAt(img, i, k, n))
  }

  /** Frames that mapping these pages takes, one per page and one per table. */
  ghost function Cost(pages: set<nat>): nat { |pages| + |TablesFor(pages)| }

  ghost predicate TablesAre(m: Memory, r: nat, pages: set<nat>) {
    forall q {:trigger TableAt(m, r, q)} :: 1 <= |q| <= 3 && q[0] < KERNEL_PML4_START ==>
      (TableAt(m, r, q).Some? <==> q in TablesFor(pages))
  }

  ghost predicate Loaded(s0: Phys, s: Phys, roots: set<nat>, slots: set<nat>, r: nat, img: Image, i: nat, k: nat)
    requires SegmentsOk(img) && i <= |img.segments|
  {
    && Private(s, roots, slots) && r in roots && OthersSame(s0, s, roots, r)
    && UserView(s, r) == ViewAt(img, i, k)
    && TablesAre(s.mem, r, PagesAt(img, i, k))
    && |s.free| + Cost(PagesAt(img, i, k)) == |s0.free|
  }

  // ----- counting frames

  lemma MoreTables(pages: set<nat>, n: nat)
    requires n !in pages
    ensures Cost(pages + {n}) == Cost(pages) + 1 + MissingFrom(TablesFor(pages), PathOf(n))
    ensures TablesFor(pages + {n}) == TablesFor(pages) + NonemptyPrefixes(PathOf(n))
  {
    assert TablesFor(pages + {n}) == TablesFor(pages) + NonemptyPrefixes(PathOf(n));
    AddPrefixes(TablesFor(pages), PathOf(n));
  }

  lemma Subset<T>(a: set<T>, b: set<T>)
    requires a <= b
    ensures |a| <= |b|
  {
    assert b == a + (b - a);
  }

  lemma CostMonotone(a: set<nat>, b: set<nat>)
    requires a <= b
    ensures Cost(a) <= Cost(b)
  {
    Subset(a, b);
    assert TablesFor(a) <= TablesFor(b);
    Subset(TablesFor(a), TablesFor(b));
  }

  lemma MissingTables(m: Memory, slots: set<nat>, r: nat, pages: set<nat>, n: nat)
    requires TablesAre(m, r, pages) && n < USER_PAGES && UserSlots(slots)
    ensures Missing(m, r, PathOf(n)) == MissingFrom(TablesFor(pages), PathOf(n))
  {
    UserPage(slots, n);
    forall q | q != [] && q <= PathOf(n) ensures TableAt(m, r, q).Some? <==> q in TablesFor(pages) {
      assert q[0] == PathOf(n)[0];
    }
    MissingIsMissingFrom(m, r, TablesFor(pages), PathOf(n));
  }

  lemma TablesGrow(m: Memory, m': Memory, slots: set<nat>, r: nat, pages: set<nat>, n: nat)
    requires TablesAre(m, r, pages) && n !in pages && n < USER_PAGES && UserSlots(slots)
    requires forall q {:trigger TableAt(m', r, q)} :: Tracked(slots, q)
               ==> (TableAt(m', r, q).Some? <==> TableAt(m, r, q).Some? || q <= PathOf(n))
    ensures TablesAre(m', r, pages + {n})
  {
    MoreTables(pages, n);
    hide TableAt, TablesFor;
    forall q | 1 <= |q| <= 3 && q[0] < KERNEL_PML4_START
      ensures TableAt(m', r, q).Some? <==> q in TablesFor(pages + {n})
    {
      assert Tracked(slots, q);
      PrefixesAre(PathOf(n), q);
    }
  }

  // ----- the loops

  /** One page further. */
  lemma ReachedStep(img: Image, i: nat, n: nat)
    requires SegmentsOk(img) && i < |img.segments| && img.segments[i].kind == PT_LOAD
    requires FirstPage(img.segments[i]) <= n < EndPage(img.segments[i])
    ensures n < USER_PAGES && PagesAt(img, i, n + 1) == PagesAt(img, i, n) + {n}
    ensures n in PagesAt(img, i, n) ==> ContentAt(img, i, n, n) == PageOf(img, i, n)
    ensures n !in PagesAt(img, i, n) ==> PageOf(img, i, n) == ZeroFrame()
    ensures ViewAt(img, i, n + 1) == ViewAt(img, i, n)[n := (USER_FLAGS, PageOf(img, i + 1, n))]
  {
    hide PageOf;
    PagesInUserHalf(img.file, img.segments[i]);
    if n !in PagesAt(img, i, n) {
      UntouchedZero(img, i, n);
    }
  }

  lemma PageStep(s0: Phys, s: Phys, roots: set<nat>, slots: set<nat>, r: nat, img: Image, i: nat, n: nat)
    requires SegmentsOk(img) && i < |img.segments| && img.segments[i].kind == PT_LOAD
    requires FirstPage(img.segments[i]) <= n < EndPage(img.segments[i])
    requires Loaded(s0, s, roots, slots, r, img, i, n) && Cost(PagesAt(img, i, n + 1)) <= |s0.free|
    ensures n < USER_PAGES && r < |s.mem| <= MAX_FRAMES && FreeListOk(s)
    ensures var (s', ok) := LoadPage(s, r, img.file, img.segments[i], n);
            ok && Loaded(s0, s', roots, slots, r, img, i, n + 1)
  {
    hide Private, PteOf, TableAt, UserView, Missing, LoadPage, PageOf, Cost, TablesFor, PagesAt, Overlay,
      MissingFrom, TablesAre;
    var seg, pages := img.segments[i], PagesAt(img, i, n);
    ReachedStep(img, i, n);
    ViewEntry(s, roots, slots, r, n);
    PrivateSlots(s, roots, slots);
    if n !in pages {
      MissingTables(s.mem, slots, r, pages, n);
      MoreTables(pages, n);
    }
    LoadPageRefines(s, roots, slots, r, img.file, seg, n);
    var s' := LoadPage(s, r, img.file, seg, n).0;
    OverlayNext(img, i, n);
    if n in pages {
      assert pages + {n} == pages;
      TablesSame(s.mem, s'.mem, slots, r, pages);
    } else {
      TablesGrow(s.mem, s'.mem, slots, r, pages, n);
    }
  }

  lemma TablesSame(m: Memory, m': Memory, slots: set<nat>, r: nat, pages: set<nat>)
    requires TablesAre(m, r, pages) && UserSlots(slots)
    requires forall q {:trigger TableAt(m', r, q)} :: Tracked(slots, q) ==> TableAt(m', r, q) == TableAt(m, r, q)
    ensures TablesAre(m', r, pages)
  {
    hide TableAt, TablesFor;
    forall q | 1 <= |q| <= 3 && q[0] < KERNEL_PML4_START ensures TableAt(m', r, q).Some? <==> q in TablesFor(pages) {
      assert Tracked(slots, q);
    }
  }

  lemma FewerPages(img: Image, i: nat, j: nat, k: nat)
    requires i <= |img.segments| && j <= k
    ensures Cost(PagesAt(img, i, j)) <= Cost(PagesAt(img, i, k))
  {
    CostMonotone(PagesAt(img, i, j), PagesAt(img, i, k));
  }

  /** A header's pages all done is the next header with none done. */
  lemma NextHeader(img: Image, i: nat)
    requires SegmentsOk(img) && i < |img.segments|
    ensures var k := if img.segments[i].kind == PT_LOAD then EndPage(img.segments[i]) else 0;
            PagesAt(img, i + 1, 0) == PagesAt(img, i, k) && ViewAt(img, i + 1, 0) == ViewAt(img, i, k)
  {
    hide PageOf;
    var k := if img.segments[i].kind == PT_LOAD then EndPage(img.segments[i]) else 0;
    forall n: nat ensures Reached(img, i + 1, 0, n) <==> Reached(img, i, k, n) {
      if Touches(img.segments[i], n) { assert Reached(img, i + 1, 0, n); }
    }
    forall n: nat ensures ContentAt(img, i + 1, 0, n) == ContentAt(img, i, k, n) {
      if !Touches(img.segments[i], n) { UntouchedNext(img, i, n); }
    }
  }

  /** No page below the first is touched, so a header may start there. */
  lemma HeaderStart(img: Image, i: nat)
    requires SegmentsOk(img) && i < |img.segments|
    ensures PagesAt(img, i, FirstPage(img.segments[i])) == PagesAt(img, i, 0)
    ensures ViewAt(img, i, FirstPage(img.segments[i])) == ViewAt(img, i, 0)
  {
    hide PageOf;
    var k := FirstPage(img.segments[i]);
    assert forall n: nat :: Reached(img, i, k, n) <==> Reached(img, i, 0, n);
  }

  lemma MoreHeaders(img: Image, i: nat, j: nat, k: nat)
    requires i < j <= |img.segments|
    ensures PagesAt(img, i, k) <= PagesAt(img, j, 0)
  {
    forall n | n in PagesAt(img, i, k) ensures n in PagesAt(img, j, 0) {
      if exists h: nat :: h < i && Touches(img.segments[h], n) {
        var h: nat :| h < i && Touches(img.segments[h], n);
        assert h < j && Touches(img.segments[h], n);
      } else {
        assert Touches(img.segments[i], n) && i < j;
      }
    }
  }

  /** Pages any loadable segment touches. */
  ghost function ImagePages(img: Image): set<nat> { PagesAt(img, |img.segments|, 0) }

  // ----- too few frames

  /** The space is short of page n, and nothing is left to map it with. */
  ghost predicate Stuck(s: Phys, roots: set<nat>, slots: set<nat>, r: nat, n: nat) {
    Private(s, roots, slots) && r in roots && s.free == [] && n < USER_PAGES && !Mapped(s.mem, r, n)
  }

  /** Loading a page keeps user pages private whatever happens, and other spaces as they are. */
  lemma LoadPagePrivate(s: Phys, roots: set<nat>, slots: set<nat>, r: nat, file: seq<Byte>, seg: Segment, n: nat)
    requires Private(s, roots, slots) && r in roots && n < USER_PAGES && SegmentOk(file, seg)
    ensures r < |s.mem| <= MAX_FRAMES && FreeListOk(s)
    ensures var (s', ok) := LoadPage(s, r, file, seg, n);
            && Private(s', roots, slots) && OthersSame(s, s', roots, r)
            && (s.free == [] ==> s'.free == [] && SamePtes(s.mem, s'.mem, roots, slots))
            && (!Mapped(s.mem, r, n) && |s.free| < 1 + Missing(s.mem, r, PathOf(n)) ==>
                  !ok || Stuck(s', roots, slots, r, n))
  {
    hide Private, PteOf, TableAt, FrameOf, Present, UserView, Missing, FreshMap, Overlay, Spare, SamePtes;
    ViewEntry(s, roots, slots, r, n);
    SameOthers(s, roots, r);
    SamePtesRefl(s.mem, roots, slots);
    PrivateSlots(s, roots, slots);
    FlagsPresent();
    if Mapped(s.mem, r, n) {
      PageWrite(s, roots, slots, r, n, Overlay(Contents(s, r, n), file, seg, n));
    } else if s.free != [] {
      if |s.free| < 1 + Missing(s.mem, r, PathOf(n)) {
        FreshMapFails(s, roots, slots, r, n, USER_FLAGS, ZeroFrame());
        var s1, g := FreshMap(s, r, n, USER_FLAGS, ZeroFrame()), s.free[0];
        SpareWrite(s1, roots, slots, g, Overlay(s1.mem[g], file, seg, n));
        var s' := LoadPage(s, r, file, seg, n).0;
        SamePte(s.mem, s1.mem, roots, slots, r, n);
        SamePte(s1.mem, s'.mem, roots, slots, r, n);
      } else {
        FreshMapRefines(s, roots, slots, r, n, USER_FLAGS, ZeroFrame());
        var s1 := FreshMap(s, r, n, USER_FLAGS, ZeroFrame());
        ViewEntry(s1, roots, slots, r, n);
        PageWrite(s1, roots, slots, r, n, Overlay(s1.mem[s.free[0]], file, seg, n));
      }
    }
  }

  /** Once stuck, loading goes on to fail or stays stuck. */
  lemma StuckPage(s: Phys, roots: set<nat>, slots: set<nat>, r: nat, file: seq<Byte>, seg: Segment, k: nat, n: nat)
    requires Stuck(s, roots, slots, r, n) && k < USER_PAGES && SegmentOk(file, seg)
    ensures r < |s.mem| <= MAX_FRAMES && FreeListOk(s) && Stuck(LoadPage(s, r, file, seg, k).0, roots, slots, r, n)
  {
    hide Private, PteOf, LoadPage;
    LoadPagePrivate(s, roots, slots, r, file, seg, k);
    PrivateSlots(s, roots, slots);
    SamePte(s.mem, LoadPage(s, r, file, seg, k).0.mem, roots, slots, r, n);
  }

  /** Complete so far when the frames sufficed; otherwise given up, or stuck with a page missing. */
  ghost predicate SoFar(s0: Phys, o: (Phys, bool), roots: set<nat>, slots: set<nat>, r: nat, img: Image, i: nat, k: nat)
    requires SegmentsOk(img) && i <= |img.segments|
  {
    if Cost(PagesAt(img, i, k)) <= |s0.free| then o.1 && Loaded(s0, o.0, roots, slots, r, img, i, k)
    else !o.1 || exists n :: n in PagesAt(img, i, k) && Stuck(o.0, roots, slots, r, n)
  }

  lemma SoFarPage(s0: Phys, s: Phys, roots: set<nat>, slots: set<nat>, r: nat, img: Image, i: nat, n: nat)
    requires SegmentsOk(img) && i < |img.segments| && img.segments[i].kind == PT_LOAD
    requires FirstPage(img.segments[i]) <= n < EndPage(img.segments[i])
    requires r < |s.mem| <= MAX_FRAMES && FreeListOk(s) && SoFar(s0, (s, true), roots, slots, r, img, i, n)
    ensures n < USER_PAGES && SoFar(s0, LoadPage(s, r, img.file, img.segments[i], n), roots, slots, r, img, i, n + 1)
  {
    hide Private, LoadPage, Cost, PagesAt, UserView, PteOf, TableAt, Missing, MissingFrom, TablesFor, OthersSame,
      TablesAre, ViewAt, SegmentsOk;
    var seg, pages := SegmentAt(img, i), PagesAt(img, i, n);
    ReachedStep(img, i, n);
    FewerPages(img, i, n, n + 1);
    if Cost(PagesAt(img, i, n + 1)) <= |s0.free| {
      PageStep(s0, s, roots, slots, r, img, i, n);
    } else if Cost(pages) <= |s0.free| {
      ShortPage(s0, s, roots, slots, r, img, i, n);
    } else {
      var n0 :| n0 in pages && Stuck(s, roots, slots, r, n0);
      StuckPage(s, roots, slots, r, img.file, seg, n, n0);
      assert n0 in PagesAt(img, i, n + 1);
    }
  }

  lemma ShortPage(s0: Phys, s: Phys, roots: set<nat>, slots: set<nat>, r: nat, img: Image, i: nat, n: nat)
    requires SegmentsOk(img) && i < |img.segments| && img.segments[i].kind == PT_LOAD
    requires FirstPage(img.segments[i]) <= n < EndPage(img.segments[i])
    requires Loaded(s0, s, roots, slots, r, img, i, n) && Cost(PagesAt(img, i, n + 1)) > |s0.free|
    ensures n < USER_PAGES && r < |s.mem| <= MAX_FRAMES && FreeListOk(s) && n in PagesAt(img, i, n + 1)
    ensures var (s', ok) := LoadPage(s, r, img.file, img.segments[i], n); !ok || Stuck(s', roots, slots, r, n)
  {
    hide Private, LoadPage, Cost, PagesAt, UserView, PteOf, TableAt, Missing, MissingFrom, TablesFor, OthersSame,
      TablesAre, PageOf;
    var pages := PagesAt(img, i, n);
    ReachedStep(img, i, n);
    ViewEntry(s, roots, slots, r, n);
    PrivateSlots(s, roots, slots);
    assert n in pages ==> pages + {n} == pages;
    if n !in pages {
      MissingTables(s.mem, slots, r, pages, n);
      MoreTables(pages, n);
    }
    LoadPagePrivate(s, roots, slots, r, img.file, img.segments[i], n);
  }

  function SegmentAt(img: Image, i: nat): (seg: Segment)
    requires SegmentsOk(img) && i < |img.segments|
    ensures seg.kind == PT_LOAD ==> SegmentOk(img.file, seg)
  {
    img.segments[i]
  }

  lemma {:induction false} SoFarPages(s0: Phys, s: Phys, roots: set<nat>, slots: set<nat>, r: nat, img: Image,
                                      i: nat, k: nat)
    requires SegmentsOk(img) && i < |img.segments| && img.segments[i].kind == PT_LOAD
    requires FirstPage(img.segments[i]) <= k <= EndPage(img.segments[i]) && k <= USER_PAGES
    requires r < |s.mem| <= MAX_FRAMES && FreeListOk(s)
    requires SoFar(s0, (s, true), roots, slots, r, img, i, FirstPage(img.segments[i]))
    ensures SoFar(s0, LoadPages(s, r, img.file, img.segments[i], k), roots, slots, r, img, i, k)
    decreases k
  {
    hide SoFar, LoadPage;
    var seg := img.segments[i];
    if k > FirstPage(seg) {
      SoFarPages(s0, s, roots, slots, r, img, i, k - 1);
      var o := LoadPages(s, r, img.file, seg, k - 1);
      if o.1 {
        SoFarPage(s0, o.0, roots, slots, r, img, i, k - 1);
      } else {
        GivenUp(s0, o.0, roots, slots, r, img, i, k - 1, i, k);
      }
    }
  }

  lemma GivenUp(s0: Phys, s: Phys, roots: set<nat>, slots: set<nat>, r: nat, img: Image, i: nat, k: nat, i': nat,
                k': nat)
    requires SegmentsOk(img) && i <= i' <= |img.segments| && (i < i' || k <= k')
    requires SoFar(s0, (s, false), roots, slots, r, img, i, k)
    ensures SoFar(s0, (s, false), roots, slots, r, img, i', k')
  {
    if i < i' {
      MoreHeaders(img, i, i', k);
      CostMonotone(PagesAt(img, i, k), PagesAt(img, i', 0));
      FewerPages(img, i', 0, k');
    } else {
      FewerPages(img, i, k, k');
    }
  }

  lemma SoFarSame(s0: Phys, o: (Phys, bool), roots: set<nat>, slots: set<nat>, r: nat, img: Image, i: nat, k: nat,
                  i': nat, k': nat)
    requires SegmentsOk(img) && i <= |img.segments| && i' <= |img.segments|
    requires PagesAt(img, i, k) == PagesAt(img, i', k') && ViewAt(img, i, k) == ViewAt(img, i', k')
    requires SoFar(s0, o, roots, slots, r, img, i, k)
    ensures SoFar(s0, o, roots, slots, r, img, i', k')
  {
    hide Private, UserView, TablesAre, OthersSame, Cost, PagesAt, ViewAt, Stuck;
  }

  lemma {:induction false} SoFarSegments(s0: Phys, roots: set<nat>, slots: set<nat>, r: nat, img: Image, i: nat)
    requires SegmentsOk(img) && i <= |img.segments| && r < |s0.mem| <= MAX_FRAMES && FreeListOk(s0)
    requires SoFar(s0, (s0, true), roots, slots, r, img, 0, 0)
    ensures SoFar(s0, LoadSegments(s0, r, img, i), roots, slots, r, img, i, 0)
    decreases i
  {
    hide SoFar, LoadPages, PagesAt, ViewAt;
    if i > 0 {
      SoFarSegments(s0, roots, slots, r, img, i - 1);
      var o, seg := LoadSegments(s0, r, img, i - 1), img.segments[i - 1];
      NextHeader(img, i - 1);
      HeaderStart(img, i - 1);
      if seg.kind != PT_LOAD {
        SoFarSame(s0, o, roots, slots, r, img, i - 1, 0, i, 0);
      } else if !o.1 {
        GivenUp(s0, o.0, roots, slots, r, img, i - 1, 0, i, 0);
      } else {
        PagesInUserHalf(img.file, seg);
        SoFarSame(s0, o, roots, slots, r, img, i - 1, 0, i - 1, FirstPage(seg));
        SoFarPages(s0, o.0, roots, slots, r, img, i - 1, EndPage(seg));
        SoFarSame(s0, LoadPages(o.0, r, img.file, seg, EndPage(seg)), roots, slots, r, img, i - 1, EndPage(seg), i, 0);
      }
    }
  }

  /** The state before the first header. */
  lemma LoadStarts(s: Phys, roots: set<nat>, slots: set<nat>, r: nat, img: Image)
    requires Private(s, roots, slots) && r in roots && SegmentsOk(img) && UserView(s, r) == map[]
    requires TablesAre(s.mem, r, {})
    ensures Loaded(s, s, roots, slots, r, img, 0, 0) && Cost(PagesAt(img, 0, 0)) == 0
  {
    hide PteOf, TableAt, Private, UserView, TablesAre, OthersSame, Cost, PageOf;
    assert PagesAt(img, 0, 0) == {} by {
      forall n: nat ensures n !in PagesAt(img, 0, 0) {
        if 0 < |img.segments| && Touches(img.segments[0], n) { assert !(n < 0); }
      }
    }
    assert ViewAt(img, 0, 0) == map[];
    EmptyCost();
    SameOthers(s, roots, r);
  }

  /** A load is complete exactly when there were enough frames: otherwise it fails, or it reports
      success although a page of the image is not mapped. */
  lemma LoadCompleteIffEnough(s: Phys, roots: set<nat>, slots: set<nat>, r: nat, img: Image)
    requires Private(s, roots, slots) && r in roots && SegmentsOk(img)
    requires img.magic == ELF_MAGIC && img.class_ == ELF_CLASS_64
    requires UserView(s, r) == map[] && TablesAre(s.mem, r, {})
    ensures r < |s.mem| <= MAX_FRAMES && FreeListOk(s)
    ensures var (s', entry) := Load(s, r, img);
            entry.Some? && ImagePages(img) <= UserView(s', r).Keys <==> Cost(ImagePages(img)) <= |s.free|
  {
    hide LoadSegments, PteOf, TableAt, Private, UserView, TablesAre, OthersSame, Cost, PageOf, PagesAt;
    PrivateSize(s, roots, slots, r);
    LoadStarts(s, roots, slots, r, img);
    SoFarSegments(s, roots, slots, r, img, |img.segments|);
    var o := LoadSegments(s, r, img, |img.segments|);
    if o.1 && Cost(ImagePages(img)) > |s.free| {
      var n :| n in PagesAt(img, |img.segments|, 0) && Stuck(o.0, roots, slots, r, n);
      ViewEntry(o.0, roots, slots, r, n);
      assert n in ImagePages(img) && n !in UserView(o.0, r).Keys;
    }
  }

  /** Loader meaning.  Loading a well-formed image into a space with an empty user half, with one
      free frame for every page and every table needed, succeeds: exactly the touched pages are
      mapped, writable and user-accessible; every byte of a segment reads as its file byte up to
      filesz and zero up to memsz, also where segments share a page; every other byte of the pages
      is zero; and no other space changes. */
  lemma LoadMeaning(s: Phys, roots: set<nat>, slots: set<nat>, r: nat, img: Image)
    requires Private(s, roots, slots) && r in roots && WellFormed(img)
    requires img.magic == ELF_MAGIC && img.class_ == ELF_CLASS_64
    requires UserView(s, r) == map[] && TablesAre(s.mem, r, {}) && Cost(ImagePages(img)) <= |s.free|
    ensures r < |s.mem| <= MAX_FRAMES && FreeListOk(s)
    ensures var (s', entry) := Load(s, r, img);
            var view := UserView(s', r);
            && entry == Some(img.entry) && Private(s', roots, slots) && OthersSame(s, s', roots, r)
            && |s.free| - |s'.free| == Cost(ImagePages(img))
            && ImageView(img, view)
  {
    hide LoadSegments, PteOf, TableAt, Private, UserView, TablesAre, OthersSame, Cost, PageOf, Stuck;
    PrivateSize(s, roots, slots, r);
    LoadStarts(s, roots, slots, r, img);
    SoFarSegments(s, roots, slots, r, img, |img.segments|);
    var view := UserView(Load(s, r, img).0, r);
    hide PagesAt;
    forall n: nat, j: nat | n in view && j < 4096
      ensures view[n].0 == USER_FLAGS && view[n].1[j] == ByteOf(img, |img.segments|, n * 4096 + j)
    {
      assert view[n] == (USER_FLAGS, PageOf(img, |img.segments|, n));
    }
  }

  /** Segment k is loadable and holds address x. */
  ghost predicate Holds(img: Image, k: nat, x: nat) {
    && k < |img.segments| && img.segments[k].kind == 1
    && img.segments[k].vaddr <= x < img.segments[k].vaddr + img.segments[k].memsz
  }

  /** The byte a program reads at x in a space with these pages. */
  ghost function ReadAt(view: map<nat, (nat, Frame)>, x: nat): nat {
    if x / 4096 in view then view[x / 4096].1[x % 4096] else 0
  }

  /** The pages are those of the image, with its bytes. */
  ghost predicate ImageView(img: Image, view: map<nat, (nat, Frame)>)
    requires SegmentsOk(img)
  {
    && view.Keys == ImagePages(img)
    && (forall n: nat :: n in view ==> view[n].0 == 7)
    && forall n: nat, j: nat {:trigger view[n].1[j]} :: n in view && j < 4096 ==>
         view[n].1[j] == ByteOf(img, |img.segments|, n * 4096 + j)
  }

  /** What a program reads at x, which segment k holds: the file's byte, or zero past the segment's
      file part. */
  ghost predicate HeldByte(img: Image, view: map<nat, (nat, Frame)>, k: nat, x: nat)
    requires Holds(img, k, x)
  {
    var seg := img.segments[k];
    && x / 4096 in view && seg.offset + seg.filesz <= |img.file|
    && ReadAt(view, x) == if x < seg.vaddr + seg.filesz then img.file[seg.offset + (x - seg.vaddr)] else 0
  }

  lemma SplitAddress(x: nat)
    ensures x / 4096 * 4096 + x % 4096 == x && x % 4096 < 4096
  {
  }

  lemma ReadsImage(img: Image, view: map<nat, (nat, Frame)>, x: nat)
    requires SegmentsOk(img) && ImageView(img, view)
    ensures x / 4096 in view ==> ReadAt(view, x) == ByteOf(img, |img.segments|, x)
  {
    hide ByteOf, ImagePages;
    SplitAddress(x);
    if x / 4096 in view {
      assert view[x / 4096].1[x % 4096] == ByteOf(img, |img.segments|, x / 4096 * 4096 + x % 4096);
    }
  }

  lemma ReadsHeld(img: Image, view: map<nat, (nat, Frame)>, k: nat, x: nat)
    requires WellFormed(img) && ImageView(img, view) && Holds(img, k, x)
    ensures HeldByte(img, view, k, x)
  {
    hide ByteOf, ImagePages, ReadAt;
    HeldPage(img, k, x);
    LoadedBytes(img, |img.segments|, x);
    ReadsImage(img, view, x);
  }

  lemma ReadsOther(img: Image, view: map<nat, (nat, Frame)>, x: nat)
    requires WellFormed(img) && ImageView(img, view) && forall k: nat :: !Holds(img, k, x)
    ensures ReadAt(view, x) == 0
  {
    hide ByteOf, ImagePages;
    ReadsImage(img, view, x);
    LoadedBytes(img, |img.segments|, x);
    forall k: nat | k < |img.segments| ensures !InFilePart(img.segments[k], x) {
      assert !Holds(img, k, x);
    }
  }

  /** What a program finds when it starts: every page it gets has a byte of a segment in it and is
      present, writable and accessible to it; at every address of a segment it reads the file's
      byte, or zero past the segment's file part; and in these pages zero at every other address. */
  lemma LoadedProgram(s: Phys, roots: set<nat>, slots: set<nat>, r: nat, img: Image)
    requires Private(s, roots, slots) && r in roots && WellFormed(img) && img.magic == 0x464C_457F && img.class_ == 2
    requires UserView(s, r) == map[] && TablesAre(s.mem, r, {}) && Cost(ImagePages(img)) <= |s.free|
    ensures r < |s.mem| <= MAX_FRAMES && FreeListOk(s)
    ensures var view := UserView(Load(s, r, img).0, r);
            && Load(s, r, img).1 == Some(img.entry)
            && (forall n: nat :: n in view ==> view[n].0 == 7 && SharesPage(img, n))
            && (forall k: nat, x: nat :: Holds(img, k, x) ==> HeldByte(img, view, k, x))
            && (forall x: nat :: (forall k: nat :: !Holds(img, k, x)) ==> ReadAt(view, x) == 0)
  {
    hide Private, Load, TablesAre, Cost, OthersSame, UserView, ImagePages, ImageView, HeldByte, ReadAt,
      SharesPage, Holds, WellFormed;
    PrivateSize(s, roots, slots, r);
    SegmentsOf(img);
    LoadMeaning(s, roots, slots, r, img);
    var view := UserView(Load(s, r, img).0, r);
    forall n: nat | n in view ensures view[n].0 == 7 && SharesPage(img, n) {
      ViewFlags(img, view, n);
      PageShared(img, n);
    }
    forall k: nat, x: nat | Holds(img, k, x) ensures HeldByte(img, view, k, x) {
      ReadsHeld(img, view, k, x);
    }
    forall x: nat | forall k: nat :: !Holds(img, k, x) ensures ReadAt(view, x) == 0 {
      ReadsOther(img, view, x);
    }
  }

  lemma ViewFlags(img: Image, view: map<nat, (nat, Frame)>, n: nat)
    requires SegmentsOk(img) && ImageView(img, view) && n in view
    ensures view[n].0 == 7 && n in ImagePages(img)
  {
  }

  lemma SegmentsOf(img: Image)
    requires WellFormed(img)
    ensures SegmentsOk(img)
  {
  }

  /** Some loadable segment lies partly in page n (an empty one inside it counts). */
  ghost predicate SharesPage(img: Image, n: nat) {
    exists k: nat {:trigger img.segments[k]} ::
      && k < |img.segments| && img.segments[k].kind == 1
      && n * 4096 < img.segments[k].vaddr + img.segments[k].memsz && img.segments[k].vaddr < n * 4096 + 4096
  }

  lemma PageShared(img: Image, n: nat)
    requires n in ImagePages(img)
    ensures SharesPage(img, n)
  {
    assert Reached(img, |img.segments|, 0, n);
    var k: nat :| k < |img.segments| && Touches(img.segments[k], n);
    TouchesIff(img.segments[k], n);
  }

  lemma HeldPage(img: Image, k: nat, x: nat)
    requires SegmentsOk(img) && Holds(img, k, x)
    ensures x / 4096 in ImagePages(img) && SegmentOk(img.file, img.segments[k])
  {
    TouchesIff(img.segments[k], x / 4096);
    assert Touches(img.segments[k], x / 4096);
    PagesInUserHalf(img.file, img.segments[k]);
    assert Reached(img, |img.segments|, 0, x / 4096);
  }

  lemma PageOutcome(s: Phys, r: nat, file: seq<Byte>, seg: Segment, n: nat)
    requires r < |s.mem| <= MAX_FRAMES && FreeListOk(s) && n < USER_PAGES && SegmentOk(file, seg)
    ensures LoadPage(s, r, file, seg, n).1 <==> Mapped(s.mem, r, n) || s.free != []
  {
    hide FreshMap, Overlay, PteOf;
  }

  /** Loading segment seg from state s reaches its page n with page n unmapped and no frame left. */
  ghost predicate StarvedAt(s: Phys, r: nat, file: seq<Byte>, seg: Segment, n: nat)
    requires r < |s.mem| <= MAX_FRAMES && FreeListOk(s) && SegmentOk(file, seg)
  {
    && FirstPage(seg) <= n < USER_PAGES
    && var (s1, ok) := LoadPages(s, r, file, seg, n);
    ok && s1.free == [] && !Mapped(s1.mem, r, n)
  }

  lemma {:induction false} PagesFailIff(s: Phys, r: nat, file: seq<Byte>, seg: Segment, k: nat)
    requires r < |s.mem| <= MAX_FRAMES && FreeListOk(s) && k <= USER_PAGES && SegmentOk(file, seg)
    ensures !LoadPages(s, r, file, seg, k).1 <==> exists n: nat :: n < k && StarvedAt(s, r, file, seg, n)
    decreases k
  {
    hide LoadPage, Mapped;
    if k > FirstPage(seg) {
      PagesFailIff(s, r, file, seg, k - 1);
      var o := LoadPages(s, r, file, seg, k - 1);
      PageOutcome(o.0, r, file, seg, k - 1);
      if o.1 && !LoadPages(s, r, file, seg, k).1 { assert StarvedAt(s, r, file, seg, k - 1); }
    }
  }

  /** The load of the first i headers is given up exactly when, at some loadable header, a page is
      reached that is not mapped while no frame is left. */
  lemma {:induction false} LoadFailsIff(s: Phys, r: nat, img: Image, i: nat)
    requires r < |s.mem| <= MAX_FRAMES && FreeListOk(s) && SegmentsOk(img) && i <= |img.segments|
    ensures !LoadSegments(s, r, img, i).1 <==> exists h: nat, n: nat :: h < i && StarvedIn(s, r, img, h, n)
    decreases i
  {
    hide LoadPages, StarvedAt;
    if i > 0 {
      LoadFailsIff(s, r, img, i - 1);
      var o, seg := LoadSegments(s, r, img, i - 1), img.segments[i - 1];
      if seg.kind == PT_LOAD {
        PagesInUserHalf(img.file, seg);
        PagesFailIff(o.0, r, img.file, seg, EndPage(seg));
        if o.1 && !LoadSegments(s, r, img, i).1 {
          var n: nat :| n < EndPage(seg) && StarvedAt(o.0, r, img.file, seg, n);
          assert StarvedIn(s, r, img, i - 1, n);
        }
      }
    }
  }

  ghost predicate StarvedIn(s: Phys, r: nat, img: Image, h: nat, n: nat)
    requires r < |s.mem| <= MAX_FRAMES && FreeListOk(s) && SegmentsOk(img)
  {
    && h < |img.segments| && img.segments[h].kind == PT_LOAD && n < EndPage(img.segments[h])
    && var (s1, ok) := LoadSegments(s, r, img, h);
    ok && StarvedAt(s1, r, img.file, img.segments[h], n)
  }

  /** An image that is no 64-bit ELF file is refused without change. */
  lemma BadImageRefused(s: Phys, r: nat, img: Image)
    requires r < |s.mem| <= MAX_FRAMES && FreeListOk(s) && SegmentsOk(img)
    requires img.magic != 0x464C_457F || img.class_ != 2
    ensures Load(s, r, img) == (s, None)
  {
  }

  /** An image of one page, and frames for the page but not for its three tables: the load reports
      success and the page is not there. */
  lemma SilentLoad(s: Phys, roots: set<nat>, slots: set<nat>, r: nat, img: Image, n: nat)
    requires Private(s, roots, slots) && r in roots && UserView(s, r) == map[] && TablesAre(s.mem, r, {})
    requires img.magic == ELF_MAGIC && img.class_ == ELF_CLASS_64 && |img.segments| == 1 && SegmentsOk(img)
    requires img.segments[0].kind == PT_LOAD && FirstPage(img.segments[0]) == n && EndPage(img.segments[0]) == n + 1
    requires 1 <= |s.free| <= 3
    ensures r < |s.mem| <= MAX_FRAMES && FreeListOk(s)
    ensures Load(s, r, img).1 == Some(img.entry)
    ensures n in ImagePages(img) && n !in UserView(Load(s, r, img).0, r)
  {
    hide Private, PteOf, TableAt, UserView, TablesAre, Missing, TablesFor;
    var seg := img.segments[0];
    PagesInUserHalf(img.file, seg);
    PrivateSize(s, roots, slots, r);
    PrivateSlots(s, roots, slots);
    ViewEntry(s, roots, slots, r, n);
    MissingTables(s.mem, slots, r, {}, n);
    NoTablesYet(n);
    LoadPagePrivate(s, roots, slots, r, img.file, seg, n);
    OnePageLoad(s, r, img, n);
    var s' := LoadPage(s, r, img.file, seg, n).0;
    ViewEntry(s', roots, slots, r, n);
    assert Touches(seg, n);
    assert Reached(img, 1, 0, n);
  }

  lemma NoTablesYet(n: nat)
    ensures MissingFrom(TablesFor({}), PathOf(n)) == 3
  {
    assert TablesFor({}) == {};
    AllMissing(PathOf(n));
  }

  lemma OnePageLoad(s: Phys, r: nat, img: Image, n: nat)
    requires r < |s.mem| <= MAX_FRAMES && FreeListOk(s) && SegmentsOk(img) && |img.segments| == 1 && n < USER_PAGES
    requires img.segments[0].kind == PT_LOAD && FirstPage(img.segments[0]) == n && EndPage(img.segments[0]) == n + 1
    ensures LoadSegments(s, r, img, 1) == LoadPage(s, r, img.file, img.segments[0], n)
  {
    hide LoadPage;
    var seg := img.segments[0];
    assert LoadPages(s, r, img.file, seg, n) == (s, true);
    assert LoadSegments(s, r, img, 0) == (s, true);
  }

  /** A space just created is an empty user half, as loading expects. */
  lemma NewSpaceIsEmpty(s: Phys, roots: set<nat>, slots: set<nat>, c: nat)
    requires Private(s, roots, slots) && c in roots && s.free != []
    ensures c < |s.mem| && FreeListOk(s)
    ensures var (s', o) := NewSpace(s, c);
            && o.Some? && Private(s', roots + {o.value}, slots)
            && UserView(s', o.value) == map[] && TablesAre(s'.mem, o.value, {})
  {
    NewSpaceKeepsPrivate(s, roots, slots, c);
    PrivateSize(s, roots, slots, c);
    PrivateSlots(s, roots, slots);
    var (s', o) := NewSpace(s, c);
    hide NewSpace, Private, PteOf, TableAt, FrameOf, Present;
    forall q | 1 <= |q| <= 3 && q[0] < KERNEL_PML4_START ensures TableAt(s'.mem, o.value, q).None? {
      assert Tracked(slots, q);
      NewTables(s, roots, slots, c, o.value, q);
    }
    assert TablesFor({}) == {};
    forall n: nat | n < USER_PAGES ensures n !in UserView(s', o.value) {
      ViewEntry(s', roots + {o.value}, slots, o.value, n);
    }
    assert UserView(s', o.value).Keys == {};
  }

  lemma EmptyCost()
    ensures Cost({}) == 0
  {
    assert TablesFor({}) == {};
  }

  lemma SameOthers(s: Phys, roots: set<nat>, r: nat)
    ensures OthersSame(s, s, roots, r)
  {
  }

  // ----- the loader as it runs

  /** The frame behind page va: the one mapped there, or a fresh one that is then mapped. */
  method FrameForPage(vm: Manager, root: nat, va: nat, ghost roots: set<nat>,
                      ghost slots: set<nat>) returns (frame: Option<nat>)
    requires Private(vm.State(), roots, slots) && root in roots && va % 4096 == 0 && va / 4096 < USER_PAGES
    modifies vm
    ensures root < |old(vm.mem)| <= MAX_FRAMES && FreeListOk(old(vm.State()))
    ensures var s, n := old(vm.State()), va / 4096;
            if Mapped(s.mem, root, n) then frame == Some(LeafFrame(s.mem, root, n)) && vm.State() == s
            else if s.free == [] then frame == None && vm.State() == s
            else frame == Some(s.free[0]) && vm.State() == FreshMap(s, root, n, USER_FLAGS, ZeroFrame())
  {
    hide Private, PteOf, TableAt, FrameOf, Present, Missing, VmmMap, Vpn, PathOf, Separated;
    ghost var n := va / 4096;
    PrivateSize(vm.State(), roots, slots, root);
    PrivateSlots(vm.State(), roots, slots);
    UserPage(slots, n);
    EntryIs(vm.mem, root, n);
    NotPresentZero();
    var existing := vm.Walk(root, va, false, roots, slots);
    if existing == None || !Present(Ent(vm.mem, existing.value.0, existing.value.1)) {
      if vm.free != [] { FilledFrame(vm.State(), roots, slots, root, n, ZeroFrame()); }
      frame := vm.PageAlloc(true);
      if frame == None {
        return;
      }
      vm.Map(root, va, frame.value * 4096, USER_FLAGS, roots, slots);
    } else {
      var phys := PteGetAddr(Ent(vm.mem, existing.value.0, existing.value.1));
      AddrFrame(Ent(vm.mem, existing.value.0, existing.value.1));
      frame := Some(phys / 4096);
    }
  }

  /** The file bytes of the page, copied into its frame. */
  method CopyFileBytes(vm: Manager, frame: nat, file: seq<Byte>, seg: Segment, va: nat)
    requires frame < |vm.mem| && SegmentOk(file, seg) && va % 4096 == 0 && Touches(seg, va / 4096)
    modifies vm`mem
    ensures vm.mem == old(vm.mem)[frame := Overlay(old(vm.mem)[frame], file, seg, va / 4096)]
  {
    hide Overlay, Memcpy;
    MemcpyIsOverlay(vm.mem[frame], file, seg, va / 4096);
    var lo := if seg.vaddr > va then seg.vaddr else va;
    var hi := if seg.vaddr + seg.filesz < va + 4096 then seg.vaddr + seg.filesz else va + 4096;
    if lo < hi {
      var src := seg.offset + (lo - seg.vaddr);
      vm.mem := vm.mem[frame := Memcpy(vm.mem[frame], lo - va, file[src..src + (hi - lo)])];
    }
  }

  /** The body of the page loop. */
  method LoadPageInto(vm: Manager, root: nat, file: seq<Byte>, seg: Segment, va: nat, ghost roots: set<nat>,
                      ghost slots: set<nat>)
    returns (ok: bool)
    requires Private(vm.State(), roots, slots) && root in roots && SegmentOk(file, seg)
    requires va % 4096 == 0 && va / 4096 < USER_PAGES && Touches(seg, va / 4096)
    modifies vm
    ensures Private(vm.State(), roots, slots) && root < |old(vm.mem)| <= MAX_FRAMES && FreeListOk(old(vm.State()))
    ensures (vm.State(), ok) == LoadPage(old(vm.State()), root, file, seg, va / 4096)
  {
    hide Private, PteOf, FrameOf, Present, Missing, FreshMap, Overlay, UserView, OthersSame;
    LoadPagePrivate(vm.State(), roots, slots, root, file, seg, va / 4096);
    ViewEntry(vm.State(), roots, slots, root, va / 4096);
    FlagsPresent();
    var frame := FrameForPage(vm, root, va, roots, slots);
    if frame == None {
      return false;
    }
    CopyFileBytes(vm, frame.value, file, seg, va);
    return true;
  }

  method LoadSegmentInto(vm: Manager, root: nat, file: seq<Byte>, seg: Segment, ghost roots: set<nat>,
                         ghost slots: set<nat>)
    returns (ok: bool)
    requires Private(vm.State(), roots, slots) && root in roots && SegmentOk(file, seg) && seg.kind == PT_LOAD
    modifies vm
    ensures Private(vm.State(), roots, slots) && root < |old(vm.mem)| <= MAX_FRAMES && FreeListOk(old(vm.State()))
    ensures EndPage(seg) <= USER_PAGES && (vm.State(), ok) == LoadPages(old(vm.State()), root, file, seg, EndPage(seg))
  {
    hide Private, LoadPage;
    PrivateSize(vm.State(), roots, slots, root);
    PagesInUserHalf(file, seg);
    PageBounds(seg);
    var vstart := seg.vaddr / 4096 * 4096;
    var vend := (seg.vaddr + seg.memsz + 4095) / 4096 * 4096;
    var va := vstart;
    while va < vend
      invariant vstart <= va <= vend && va % 4096 == 0
      invariant Private(vm.State(), roots, slots)
      invariant (vm.State(), true) == LoadPages(old(vm.State()), root, file, seg, va / 4096)
    {
      NextPage(va, vend);
      ok := LoadPageInto(vm, root, file, seg, va, roots, slots);
      if !ok {
        GivesUp(old(vm.State()), root, file, seg, va / 4096 + 1, EndPage(seg));
        return;
      }
      va := va + 4096;
    }
    ok := true;
  }

  lemma PageBounds(seg: Segment)
    ensures var lo, hi := seg.vaddr / 4096 * 4096, (seg.vaddr + seg.memsz + 4095) / 4096 * 4096;
            && lo % 4096 == 0 && hi % 4096 == 0 && lo <= hi && lo / 4096 == FirstPage(seg) && hi / 4096 == EndPage(seg)
  {
  }

  lemma NextPage(va: nat, vend: nat)
    requires va % 4096 == 0 && vend % 4096 == 0 && va < vend
    ensures va + 4096 <= vend && (va + 4096) % 4096 == 0 && (va + 4096) / 4096 == va / 4096 + 1
    ensures va / 4096 < vend / 4096
  {
  }

  lemma {:induction false} GivesUp(s: Phys, r: nat, file: seq<Byte>, seg: Segment, j: nat, k: nat)
    requires r < |s.mem| <= MAX_FRAMES && FreeListOk(s) && j <= k <= USER_PAGES && SegmentOk(file, seg)
    requires !LoadPages(s, r, file, seg, j).1
    ensures LoadPages(s, r, file, seg, k) == LoadPages(s, r, file, seg, j)
    decreases k
  {
    hide LoadPage;
    if k > j { GivesUp(s, r, file, seg, j, k - 1); }
  }

  lemma {:induction false} GivesUpSegments(s: Phys, r: nat, img: Image, i: nat, k: nat)
    requires r < |s.mem| <= MAX_FRAMES && FreeListOk(s) && SegmentsOk(img) && i <= k <= |img.segments|
    requires !LoadSegments(s, r, img, i).1
    ensures LoadSegments(s, r, img, k) == LoadSegments(s, r, img, i)
    decreases k
  {
    hide LoadPages;
    if k > i { GivesUpSegments(s, r, img, i, k - 1); }
  }

  /** elf_load */
  method ElfLoad(vm: Manager, root: nat, img: Image, ghost roots: set<nat>,
                 ghost slots: set<nat>) returns (entry: Option<nat>)
    requires Private(vm.State(), roots, slots) && root in roots && SegmentsOk(img)
    modifies vm
    ensures Private(vm.State(), roots, slots) && root < |old(vm.mem)| <= MAX_FRAMES && FreeListOk(old(vm.State()))
    ensures (vm.State(), entry) == Load(old(vm.State()), root, img)
  {
    hide Private, LoadPages;
    PrivateSize(vm.State(), roots, slots, root);
    if img.magic != ELF_MAGIC {
      return None;
    }
    if img.class_ != ELF_CLASS_64 {
      return None;
    }
    for i := 0 to |img.segments|
      invariant Private(vm.State(), roots, slots)
      invariant (vm.State(), true) == LoadSegments(old(vm.State()), root, img, i)
    {
      var seg := img.segments[i];
      if seg.kind != PT_LOAD {
        continue;
      }
      var ok := LoadSegmentInto(vm, root, img.file, seg, roots, slots);
      if !ok {
        GivesUpSegments(old(vm.State()), root, img, i + 1, |img.segments|);
        return None;
      }
    }
    return Some(img.entry);
  }

  lemma EntryIs(m: Memory, root: nat, n: nat)
    ensures var o := TableAt(m, root, PathOf(n));
            PteOf(m, root, n) == if o.None? then 0 else Ent(m, o.value, Index1(n))
  {
  }

}

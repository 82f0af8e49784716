/** The memory behind the heap: heap_extend (kernel/src/kheap.c) with the frames and page tables it
    really uses.  vmm_map fails silently, so an extension can report success although a page of the
    new extent is not mapped. */
module HeapPages {
  import opened Words
  import opened PageTableEntries
  import opened PhysicalMemory
  import opened PageTables
  import opened ForkCopy
  import opened HeapLayout
  import opened Vmm
  import UserMemory

  const HEAP_PAGES: nat := 0x2_0000         // pages of the heap window
  const FIRST_PAGE: nat := 0x9_0000_0000    // page number of KHEAP_BASE
  const HEAP_FLAGS: nat := 3                // present | writable

  /** Address of heap page j. */
  function HeapVa(j: nat): nat { KHEAP_BASE + j * 4096 }

  lemma WindowPages()
    ensures HeapVa(HEAP_PAGES) == KHEAP_BASE + KHEAP_SIZE
  {
  }

  lemma HeapVpn(j: nat)
    requires j < HEAP_PAGES
    ensures HeapVa(j) < TWO64 && Vpn(HeapVa(j)) == FIRST_PAGE + j < PAGES
  {
    var q := HeapVa(j) / 4096;
    assert q == 0xF_FFF9_0000_0000 + j;
    assert q == 0xFFFF * PAGES + (FIRST_PAGE + j);
  }

  /** One round of the loop: false means page_alloc returned NULL. */
  function ExtendStep(s: Phys, r: nat, j: nat): (o: (Phys, bool))
    requires r < |s.mem| <= MAX_FRAMES && FreeListOk(s) && j < HEAP_PAGES
    ensures |o.0.mem| == |s.mem| && FreeListOk(o.0)
  {
    if s.free == [] then (s, false)
    else
      var g := s.free[0];
      HeapVpn(j);
      (VmmMap(Phys(s.mem[g := ZeroFrame()], s.free[1..]), r, HeapVa(j), g * 4096, HEAP_FLAGS), true)
  }

  /** k rounds from heap page j on. */
  function Extend(s: Phys, r: nat, j: nat, k: nat): (o: (Phys, bool))
    requires r < |s.mem| <= MAX_FRAMES && FreeListOk(s) && j + k <= HEAP_PAGES
    ensures |o.0.mem| == |s.mem| && FreeListOk(o.0)
    decreases k
  {
    if k == 0 then (s, true)
    else
      var o := Extend(s, r, j, k - 1);
      if !o.1 then o else ExtendStep(o.0, r, j + k - 1)
  }

  /** Page numbers of k heap pages from page j on. */
  ghost function PagesFrom(j: nat, k: nat): (ns: set<nat>)
    ensures |ns| == k && forall n :: n in ns <==> FIRST_PAGE + j <= n < FIRST_PAGE + j + k
  {
    if k == 0 then {} else PagesFrom(j, k - 1) + {FIRST_PAGE + j + k - 1}
  }

  /** Tables of the extent that were there before. */
  ghost function Existing(m: Memory, r: nat, pages: set<nat>): set<Path> {
    set q | q in TablesFor(pages) && TableAt(m, r, q).Some?
  }

  /** Frames an extension by k pages takes: the pages, and the tables above them that are missing. */
  ghost function ExtentCost(m: Memory, r: nat, j: nat, k: nat): nat {
    k + |TablesFor(PagesFrom(j, k)) - Existing(m, r, PagesFrom(j, k))|
  }

  /** The heap's slot of the root table is tracked. */
  predicate HeapTracked(slots: set<nat>) {
    forall n: nat {:trigger Index4(n)} :: FIRST_PAGE <= n < FIRST_PAGE + HEAP_PAGES ==> Index4(n) in slots
  }

  lemma HeapPage(slots: set<nat>, j: nat)
    requires HeapTracked(slots) && j < HEAP_PAGES
    ensures TrackedPage(slots, FIRST_PAGE + j) && Vpn(HeapVa(j)) == FIRST_PAGE + j && HeapVa(j) < TWO64
    ensures Tracked(slots, PathOf(FIRST_PAGE + j))
  {
    HeapVpn(j);
    assert Index4(FIRST_PAGE + j) in slots;
  }

  // ----- counting

  /** Tables of the extent that exist once its first pages are mapped. */
  ghost function Have(m: Memory, r: nat, pages: set<nat>, all: set<nat>): set<Path> {
    TablesFor(pages) + Existing(m, r, all)
  }

  lemma OneMore(m: Memory, r: nat, pages: set<nat>, all: set<nat>, n: nat)
    ensures |Have(m, r, pages + {n}, all)| == |Have(m, r, pages, all)| + MissingFrom(Have(m, r, pages, all), PathOf(n))
    ensures Have(m, r, pages + {n}, all) == Have(m, r, pages, all) + NonemptyPrefixes(PathOf(n))
  {
    assert TablesFor(pages + {n}) == TablesFor(pages) + NonemptyPrefixes(PathOf(n));
    assert Have(m, r, pages + {n}, all) == Have(m, r, pages, all) + NonemptyPrefixes(PathOf(n));
    AddPrefixes(Have(m, r, pages, all), PathOf(n));
  }

  lemma HaveAll(m: Memory, r: nat, all: set<nat>)
    ensures |Have(m, r, all, all)| == |Existing(m, r, all)| + |TablesFor(all) - Existing(m, r, all)|
    ensures |Have(m, r, {}, all)| == |Existing(m, r, all)|
  {
    var e, t := Existing(m, r, all), TablesFor(all);
    assert e <= t && Have(m, r, all, all) == e + (t - e);
    assert TablesFor({}) == {};
    assert Have(m, r, {}, all) == e;
  }

  /** Tables are those of memory m0, and those above the pages. */
  ghost predicate TablesOver(m0: Memory, m: Memory, slots: set<nat>, r: nat, pages: set<nat>) {
    forall q {:trigger TableAt(m, r, q)} :: Tracked(slots, q) && q != [] ==>
      (TableAt(m, r, q).Some? <==> TableAt(m0, r, q).Some? || q in TablesFor(pages))
  }

  /** Pages mapped so far, of an extent with pages `all`. */
  ghost predicate ExtentMapped(s0: Phys, s: Phys, roots: set<nat>, slots: set<nat>, r: nat, pages: set<nat>,
                               all: set<nat>)
  {
    && Separated(s, roots, slots) && r in roots
    && (forall n :: n in pages ==> TrackedPage(slots, n) && Present(PteOf(s.mem, r, n)))
    && TablesOver(s0.mem, s.mem, slots, r, pages)
    && (forall n: nat {:trigger PteOf(s.mem, r, n)} :: TrackedPage(slots, n) && n !in pages ==>
          PteOf(s.mem, r, n) == PteOf(s0.mem, r, n))
    && |s.free| + |pages| + |Have(s0.mem, r, pages, all)| == |s0.free| + |Existing(s0.mem, r, all)|
    && OwnFrames(s0, s, roots, slots, r, pages)
  }

  /** Page n is mapped present and writable, to a zeroed frame that was free and now is neither free
      nor a table. */
  ghost predicate HeapLeaf(s0: Phys, s: Phys, roots: set<nat>, slots: set<nat>, r: nat, n: nat) {
    var g := PteOf(s.mem, r, n) / 4096;
    && PteOf(s.mem, r, n) == g * 4096 + 3
    && g in s0.free && g !in s.free && NoTable(s.mem, roots, slots, g)
    && g < |s.mem| && s.mem[g] == ZeroFrame()
  }

  /** The pages have frames of their own. */
  ghost predicate OwnFrames(s0: Phys, s: Phys, roots: set<nat>, slots: set<nat>, r: nat, pages: set<nat>) {
    && (forall x :: x in s.free ==> x in s0.free)
    && (forall n: nat :: n in pages ==> HeapLeaf(s0, s, roots, slots, r, n))
    && (forall n: nat, k: nat {:trigger PteOf(s.mem, r, n), PteOf(s.mem, r, k)} ::
          n in pages && k in pages && n != k ==>
          PteOf(s.mem, r, n) / 4096 != PteOf(s.mem, r, k) / 4096)
  }

  lemma TablesNeeded(s0: Phys, s: Phys, roots: set<nat>, slots: set<nat>, r: nat, pages: set<nat>, all: set<nat>,
                     n: nat)
    requires ExtentMapped(s0, s, roots, slots, r, pages, all) && n in all && Tracked(slots, PathOf(n))
    ensures Missing(s.mem, r, PathOf(n)) == MissingFrom(Have(s0.mem, r, pages, all), PathOf(n))
  {
    var p := PathOf(n);
    forall q | q != [] && q <= p ensures TableAt(s.mem, r, q).Some? <==> q in Have(s0.mem, r, pages, all) {
      assert Tracked(slots, q);
      PrefixesAre(p, q);
      assert q in TablesFor(all);
    }
    MissingIsMissingFrom(s.mem, r, Have(s0.mem, r, pages, all), p);
  }

  // ----- one round

  /** The frame page_alloc gives is no table, and zeroing it moves none. */
  lemma FrameTaken(s: Phys, roots: set<nat>, slots: set<nat>, r: nat, p: Path)
    requires Separated(s, roots, slots) && s.free != [] && r in roots && Tracked(slots, p)
    ensures var s1 := Phys(s.mem[s.free[0] := ZeroFrame()], s.free[1..]);
            && Separated(s1, roots, slots) && OneFilled(s, s1, roots, slots)
            && Missing(s1.mem, r, p) == Missing(s.mem, r, p)
  {
    var g := s.free[0];
    forall r2, q | r2 in roots && Tracked(slots, q) ensures TableAt(s.mem, r2, q) != Some(g) {
      assert g in s.free;
    }
    ShorterFreeList(s, roots, slots, 1);
    DataWrite(Phys(s.mem, s.free[1..]), roots, slots, g, ZeroFrame());
    UserMemory.SameMissing(s.mem, s.mem[g := ZeroFrame()], slots, r, p);
  }

  /** What one round does to the space, with the frames it needs and without. */
  lemma StepOutcome(s: Phys, roots: set<nat>, slots: set<nat>, r: nat, j: nat)
    requires Separated(s, roots, slots) && r in roots && HeapTracked(slots) && j < HEAP_PAGES && s.free != []
    ensures r < |s.mem| <= MAX_FRAMES && FreeListOk(s)
    ensures var (s', ok) := ExtendStep(s, r, j); var n := FIRST_PAGE + j;
            && ok && Separated(s', roots, slots)
            && (forall k: nat {:trigger PteOf(s'.mem, r, k)} :: TrackedPage(slots, k) && k != n ==>
                  PteOf(s'.mem, r, k) == PteOf(s.mem, r, k))
            && (if 1 + Missing(s.mem, r, PathOf(n)) <= |s.free| then
                  && Present(PteOf(s'.mem, r, n))
                  && |s'.free| == |s.free| - 1 - Missing(s.mem, r, PathOf(n))
                  && (forall q {:trigger TableAt(s'.mem, r, q)} :: Tracked(slots, q) ==>
                        (TableAt(s'.mem, r, q).Some? <==> TableAt(s.mem, r, q).Some? || q <= PathOf(n)))
                else PteOf(s'.mem, r, n) == PteOf(s.mem, r, n) && s'.free == [])
  {
    hide Separated, TableAt, Missing, VmmMap, PteOf, TablesFromFree, FramesKept, PathOf, Vpn, FrameOf;
    SeparatedBasics(s, roots, slots, r);
    HeapPage(slots, j);
    var n, g := FIRST_PAGE + j, s.free[0];
    FrameTaken(s, roots, slots, r, PathOf(n));
    var s1 := Phys(s.mem[g := ZeroFrame()], s.free[1..]);
    SeparatedBasics(s1, roots, slots, r);
    MapRefines(s1, roots, slots, r, HeapVa(j), g * 4096, HEAP_FLAGS);
    MapFrames(s1, roots, slots, r, HeapVa(j), g * 4096, HEAP_FLAGS);
    var s' := ExtendStep(s, r, j).0;
    if CanMap(s1, r, n) { MapChildTables(s1, s', roots, slots, r, n); }
    forall k: nat | TrackedPage(slots, k) && k != n ensures PteOf(s'.mem, r, k) == PteOf(s.mem, r, k) {
      assert PteOf(s1.mem, r, k) == PteOf(s.mem, r, k);
    }
    assert PteOf(s1.mem, r, n) == PteOf(s.mem, r, n);
  }

  /** Frames that are neither free nor tables are left alone. */
  ghost predicate Undisturbed(s: Phys, s': Phys, roots: set<nat>, slots: set<nat>) {
    && |s'.mem| == |s.mem| && (forall x :: x in s'.free ==> x in s.free)
    && forall x: nat {:trigger NoTable(s'.mem, roots, slots, x)} ::
         x < |s.mem| && x !in s.free && NoTable(s.mem, roots, slots, x) ==>
           s'.mem[x] == s.mem[x] && NoTable(s'.mem, roots, slots, x)
  }

  lemma NotOnTrackedPath(m: Memory, roots: set<nat>, slots: set<nat>, r: nat, p: Path, x: nat)
    requires NoTable(m, roots, slots, x) && r in roots && Tracked(slots, p)
    ensures !OnPath(m, r, p, x)
  {
    forall k | 0 <= k <= |p| ensures TableAt(m, r, p[..k]) != Some(x) {
      assert Tracked(slots, p[..k]);
    }
  }

  /** The frame a round maps: the head of the list, zeroed, and no other frame in use is touched. */
  lemma StepFrame(s: Phys, roots: set<nat>, slots: set<nat>, r: nat, j: nat)
    requires Separated(s, roots, slots) && r in roots && HeapTracked(slots) && j < HEAP_PAGES
    requires 1 + Missing(s.mem, r, PathOf(FIRST_PAGE + j)) <= |s.free|
    ensures r < |s.mem| <= MAX_FRAMES && FreeListOk(s)
    ensures var s', g := ExtendStep(s, r, j).0, s.free[0];
            && PteOf(s'.mem, r, FIRST_PAGE + j) == g * 4096 + 3 && g < |s'.mem| && s'.mem[g] == ZeroFrame()
            && g !in s'.free && NoTable(s'.mem, roots, slots, g) && Undisturbed(s, s', roots, slots)
  {
    hide Separated, TableAt, Missing, VmmMap, PteOf, TablesFromFree, OnPath, PathOf, Vpn, FrameOf, NoTable, Present,
      MakePte;
    SeparatedBasics(s, roots, slots, r);
    HeapPage(slots, j);
    var n, g := FIRST_PAGE + j, s.free[0];
    FrameTaken(s, roots, slots, r, PathOf(n));
    FreeNoTable(s, roots, slots, g);
    var s1 := Phys(s.mem[g := ZeroFrame()], s.free[1..]);
    SeparatedBasics(s1, roots, slots, r);
    MapRefines(s1, roots, slots, r, HeapVa(j), g * 4096, HEAP_FLAGS);
    MapFrames(s1, roots, slots, r, HeapVa(j), g * 4096, HEAP_FLAGS);
    SmallFlags(g, HEAP_FLAGS);
    var s' := ExtendStep(s, r, j).0;
    forall x: nat | x < |s.mem| && x !in s1.free && NoTable(s.mem, roots, slots, x)
      ensures s'.mem[x] == s1.mem[x] && NoTable(s'.mem, roots, slots, x)
    {
      UserMemory.StillNoTable(s, s1, s', roots, slots, x);
      NotOnTrackedPath(s1.mem, roots, slots, r, PathOf(n), x);
    }
    assert g !in s1.free;
  }

  lemma FreeNoTable(s: Phys, roots: set<nat>, slots: set<nat>, g: nat)
    requires Separated(s, roots, slots) && g in s.free
    ensures NoTable(s.mem, roots, slots, g)
  {
  }

  lemma OneMoreFrame(s0: Phys, s: Phys, s': Phys, roots: set<nat>, slots: set<nat>, r: nat, pages: set<nat>, n: nat,
                     g: nat)
    requires OwnFrames(s0, s, roots, slots, r, pages) && n !in pages && g in s.free && Undisturbed(s, s', roots, slots)
    requires forall k: nat :: k in pages ==> PteOf(s'.mem, r, k) == PteOf(s.mem, r, k)
    requires PteOf(s'.mem, r, n) == g * 4096 + 3 && g < |s'.mem| && s'.mem[g] == ZeroFrame()
    requires g !in s'.free && NoTable(s'.mem, roots, slots, g)
    ensures OwnFrames(s0, s', roots, slots, r, pages + {n})
  {
    hide PteOf, NoTable;
    assert (g * 4096 + 3) / 4096 == g;
    forall k: nat | k in pages ensures HeapLeaf(s0, s', roots, slots, r, k) && PteOf(s'.mem, r, k) / 4096 != g {
      assert HeapLeaf(s0, s, roots, slots, r, k);
    }
  }

  lemma StepMaps(s0: Phys, s: Phys, roots: set<nat>, slots: set<nat>, r: nat, pages: set<nat>, all: set<nat>, j: nat)
    requires ExtentMapped(s0, s, roots, slots, r, pages, all) && HeapTracked(slots) && j < HEAP_PAGES
    requires FIRST_PAGE + j in all && FIRST_PAGE + j !in pages
    requires 1 + MissingFrom(Have(s0.mem, r, pages, all), PathOf(FIRST_PAGE + j)) <= |s.free|
    ensures r < |s.mem| <= MAX_FRAMES && FreeListOk(s)
    ensures var (s', ok) := ExtendStep(s, r, j);
            ok && ExtentMapped(s0, s', roots, slots, r, pages + {FIRST_PAGE + j}, all)
  {
    hide Separated, TableAt, Missing, PteOf, ExtendStep, Have, Existing, TablesFor, MissingFrom, PathOf, TablesOver,
      Index4, HeapTracked, OwnFrames, Undisturbed, NoTable;
    var n := FIRST_PAGE + j;
    HeapPage(slots, j);
    TablesNeeded(s0, s, roots, slots, r, pages, all, n);
    OneMore(s0.mem, r, pages, all, n);
    StepOutcome(s, roots, slots, r, j);
    var s' := ExtendStep(s, r, j).0;
    MoreTablesAre(s0.mem, s.mem, s'.mem, slots, r, pages, n);
    StepFrame(s, roots, slots, r, j);
    OneMoreFrame(s0, s, s', roots, slots, r, pages, n, s.free[0]);
  }

  lemma MoreTablesAre(m0: Memory, m: Memory, m': Memory, slots: set<nat>, r: nat, pages: set<nat>, n: nat)
    requires TablesOver(m0, m, slots, r, pages)
    requires forall q {:trigger TableAt(m', r, q)} :: Tracked(slots, q) ==>
               (TableAt(m', r, q).Some? <==> TableAt(m, r, q).Some? || q <= PathOf(n))
    ensures TablesOver(m0, m', slots, r, pages + {n})
  {
    hide TableAt, TablesFor, PathOf;
    forall q | Tracked(slots, q) && q != []
      ensures TableAt(m', r, q).Some? <==> TableAt(m0, r, q).Some? || q in TablesFor(pages + {n})
    {
      MoreTablesFor(pages, n, q);
    }
  }

  lemma MoreTablesFor(pages: set<nat>, n: nat, q: Path)
    ensures q in TablesFor(pages + {n}) <==> q in TablesFor(pages) || (q != [] && q <= PathOf(n))
  {
    PrefixesAre(PathOf(n), q);
    assert TablesFor(pages + {n}) == TablesFor(pages) + NonemptyPrefixes(PathOf(n));
  }

  // ----- the loop

  /** Frames the first i pages of an extent with pages `all` take. */
  ghost function CostSoFar(m: Memory, r: nat, j: nat, i: nat, all: set<nat>): int {
    i + |Have(m, r, PagesFrom(j, i), all)| - |Existing(m, r, all)|
  }

  /** All mapped while the frames sufficed; otherwise given up, or out of frames with a page missing. */
  ghost predicate SoFar(s0: Phys, o: (Phys, bool), roots: set<nat>, slots: set<nat>, r: nat, j: nat, i: nat,
                        all: set<nat>) {
    if CostSoFar(s0.mem, r, j, i, all) <= |s0.free|
    then o.1 && ExtentMapped(s0, o.0, roots, slots, r, PagesFrom(j, i), all)
    else !o.1 || (o.0.free == [] && exists n :: n in PagesFrom(j, i) && !Present(PteOf(o.0.mem, r, n)))
  }

  lemma CostGrows(m: Memory, r: nat, j: nat, i: nat, all: set<nat>)
    ensures CostSoFar(m, r, j, i + 1, all) ==
            CostSoFar(m, r, j, i, all) + 1 + MissingFrom(Have(m, r, PagesFrom(j, i), all), PathOf(FIRST_PAGE + j + i))
  {
    hide Have, Existing, TablesFor, MissingFrom, PathOf;
    var pages := PagesFrom(j, i);
    assert PagesFrom(j, i + 1) == pages + {FIRST_PAGE + j + i};
    hide PagesFrom;
    OneMore(m, r, pages, all, FIRST_PAGE + j + i);
  }

  lemma SoFarStep(s0: Phys, s: Phys, roots: set<nat>, slots: set<nat>, r: nat, j: nat, i: nat, all: set<nat>)
    requires HeapTracked(slots) && j + i < HEAP_PAGES && FIRST_PAGE + j + i in all
    requires !Present(PteOf(s0.mem, r, FIRST_PAGE + j + i))
    requires r < |s.mem| <= MAX_FRAMES && FreeListOk(s) && SoFar(s0, (s, true), roots, slots, r, j, i, all)
    ensures SoFar(s0, ExtendStep(s, r, j + i), roots, slots, r, j, i + 1, all)
  {
    hide ExtentMapped, PteOf, Have, Existing, MissingFrom, PathOf, HeapTracked, CostSoFar, ExtendStep,
      Present, PagesFrom;
    CostGrows(s0.mem, r, j, i, all);
    PagesGrow(j, i);
    if CostSoFar(s0.mem, r, j, i, all) > |s0.free| {
      NoFrames(s, r, j + i);
    } else if CostSoFar(s0.mem, r, j, i + 1, all) <= |s0.free| {
      FramesLeft(s0, s, roots, slots, r, j, i, all);
      StepMaps(s0, s, roots, slots, r, PagesFrom(j, i), all, j + i);
    } else {
      ShortStep(s0, s, roots, slots, r, j, i, all);
      assert FIRST_PAGE + j + i in PagesFrom(j, i + 1);
    }
  }

  lemma PagesGrow(j: nat, i: nat)
    ensures PagesFrom(j, i + 1) == PagesFrom(j, i) + {FIRST_PAGE + j + i} && FIRST_PAGE + j + i !in PagesFrom(j, i)
  {
  }

  lemma NoFrames(s: Phys, r: nat, j: nat)
    requires r < |s.mem| <= MAX_FRAMES && FreeListOk(s) && j < HEAP_PAGES
    ensures s.free == [] ==> !ExtendStep(s, r, j).1
  {
  }

  lemma ShortStep(s0: Phys, s: Phys, roots: set<nat>, slots: set<nat>, r: nat, j: nat, i: nat, all: set<nat>)
    requires HeapTracked(slots) && j + i < HEAP_PAGES && FIRST_PAGE + j + i in all
    requires !Present(PteOf(s0.mem, r, FIRST_PAGE + j + i))
    requires r < |s.mem| <= MAX_FRAMES && FreeListOk(s) && ExtentMapped(s0, s, roots, slots, r, PagesFrom(j, i), all)
    requires CostSoFar(s0.mem, r, j, i + 1, all) > |s0.free|
    ensures var (s', ok) := ExtendStep(s, r, j + i);
            !ok || (s'.free == [] && !Present(PteOf(s'.mem, r, FIRST_PAGE + j + i)))
  {
    hide Separated, TableAt, Missing, PteOf, Have, Existing, TablesFor, MissingFrom, PathOf, TablesOver, Index4,
      HeapTracked,
      CostSoFar, ExtendStep, PagesFrom, Present, OwnFrames;
    var n := FIRST_PAGE + j + i;
    CostGrows(s0.mem, r, j, i, all);
    FramesLeft(s0, s, roots, slots, r, j, i, all);
    PagesGrow(j, i);
    NoFrames(s, r, j + i);
    HeapPage(slots, j + i);
    TablesNeeded(s0, s, roots, slots, r, PagesFrom(j, i), all, n);
    if s.free != [] {
      StepOutcome(s, roots, slots, r, j + i);
      assert PteOf(s.mem, r, n) == PteOf(s0.mem, r, n);
    }
  }

  lemma FramesLeft(s0: Phys, s: Phys, roots: set<nat>, slots: set<nat>, r: nat, j: nat, i: nat, all: set<nat>)
    requires ExtentMapped(s0, s, roots, slots, r, PagesFrom(j, i), all)
    ensures |s.free| == |s0.free| - CostSoFar(s0.mem, r, j, i, all)
  {
  }

  lemma {:induction false} SoFarLoop(s0: Phys, roots: set<nat>, slots: set<nat>, r: nat, j: nat, i: nat, k: nat)
    requires Separated(s0, roots, slots) && r in roots && HeapTracked(slots) && i <= k && j + k <= HEAP_PAGES
    requires forall n :: n in PagesFrom(j, k) ==> !Present(PteOf(s0.mem, r, n))
    ensures r < |s0.mem| <= MAX_FRAMES && FreeListOk(s0)
    ensures SoFar(s0, Extend(s0, r, j, i), roots, slots, r, j, i, PagesFrom(j, k))
    decreases i
  {
    hide Separated, TableAt, PteOf, Present, HeapTracked, ExtendStep, SoFar;
    SeparatedBasics(s0, roots, slots, r);
    var all := PagesFrom(j, k);
    if i == 0 {
      NothingMapped(s0, roots, slots, r, j, all);
    } else {
      SoFarLoop(s0, roots, slots, r, j, i - 1, k);
      var o := Extend(s0, r, j, i - 1);
      assert FIRST_PAGE + j + (i - 1) in all;
      if o.1 {
        SoFarStep(s0, o.0, roots, slots, r, j, i - 1, all);
      } else {
        StaysGivenUp(s0, o.0, roots, slots, r, j, i - 1, all);
      }
    }
  }

  lemma StaysGivenUp(s0: Phys, s: Phys, roots: set<nat>, slots: set<nat>, r: nat, j: nat, i: nat, all: set<nat>)
    requires SoFar(s0, (s, false), roots, slots, r, j, i, all)
    ensures SoFar(s0, (s, false), roots, slots, r, j, i + 1, all)
  {
    hide ExtentMapped, PteOf, Have, Existing, MissingFrom, PathOf, CostSoFar, PagesFrom;
    CostGrows(s0.mem, r, j, i, all);
  }

  lemma NothingMapped(s: Phys, roots: set<nat>, slots: set<nat>, r: nat, j: nat, all: set<nat>)
    requires Separated(s, roots, slots) && r in roots
    ensures SoFar(s, (s, true), roots, slots, r, j, 0, all)
  {
    hide Separated, TableAt, PteOf;
    assert TablesFor({}) == {} && PagesFrom(j, 0) == {};
    HaveAll(s.mem, r, all);
  }

  /** An extension reports success with every page of the extent mapped exactly when the pages and
      the tables they lack fit in the free frames. */
  lemma ExtentMappedIff(s: Phys, roots: set<nat>, slots: set<nat>, r: nat, j: nat, k: nat)
    requires Separated(s, roots, slots) && r in roots && HeapTracked(slots) && j + k <= HEAP_PAGES
    requires forall n :: n in PagesFrom(j, k) ==> !Present(PteOf(s.mem, r, n))
    ensures r < |s.mem| <= MAX_FRAMES && FreeListOk(s)
    ensures var (s', ok) := Extend(s, r, j, k);
            ok && (forall n :: n in PagesFrom(j, k) ==> Present(PteOf(s'.mem, r, n)))
            <==> ExtentCost(s.mem, r, j, k) <= |s.free|
  {
    hide Separated, TableAt, PteOf, TablesFor, Index4, HeapTracked, Extend, Have, Existing;
    SoFarLoop(s, roots, slots, r, j, k, k);
    HaveAll(s.mem, r, PagesFrom(j, k));
  }

  /** An extension with the frames it needs maps each page of the extent present and writable to a
      zeroed frame of its own, taken from the free list and neither listed nor a table afterwards. */
  lemma ExtentFrames(s: Phys, roots: set<nat>, slots: set<nat>, r: nat, j: nat, k: nat)
    requires Separated(s, roots, slots) && r in roots && HeapTracked(slots) && j + k <= HEAP_PAGES
    requires forall n :: n in PagesFrom(j, k) ==> !Present(PteOf(s.mem, r, n))
    requires ExtentCost(s.mem, r, j, k) <= |s.free|
    ensures r < |s.mem| <= MAX_FRAMES && FreeListOk(s)
    ensures var (s', ok) := Extend(s, r, j, k);
            && ok && Separated(s', roots, slots) && |s.free| - |s'.free| == ExtentCost(s.mem, r, j, k)
            && OwnFrames(s, s', roots, slots, r, PagesFrom(j, k))
            && (forall n: nat {:trigger PteOf(s'.mem, r, n)} :: TrackedPage(slots, n) && n !in PagesFrom(j, k) ==>
                  PteOf(s'.mem, r, n) == PteOf(s.mem, r, n))
  {
    hide Separated, TableAt, PteOf, TablesFor, Index4, HeapTracked, Extend, Have, Existing, OwnFrames;
    SoFarLoop(s, roots, slots, r, j, k, k);
    HaveAll(s.mem, r, PagesFrom(j, k));
  }

  lemma StepOk(s: Phys, r: nat, j: nat)
    requires r < |s.mem| <= MAX_FRAMES && FreeListOk(s) && j < HEAP_PAGES
    ensures ExtendStep(s, r, j).1 <==> s.free != []
  {
    hide VmmMap;
  }

  /** An extension is given up exactly when some page of it is reached with every frame taken, by
      the pages before it and their tables. */
  lemma {:induction false} ExtendFailsIff(s: Phys, roots: set<nat>, slots: set<nat>, r: nat, j: nat, i: nat, k: nat)
    requires Separated(s, roots, slots) && r in roots && HeapTracked(slots) && i <= k && j + k <= HEAP_PAGES
    requires forall n :: n in PagesFrom(j, k) ==> !Present(PteOf(s.mem, r, n))
    ensures r < |s.mem| <= MAX_FRAMES && FreeListOk(s)
    ensures !Extend(s, r, j, i).1 <==> exists h: nat :: h < i && CostSoFar(s.mem, r, j, h, PagesFrom(j, k)) >= |s.free|
    decreases i
  {
    hide Separated, TableAt, PteOf, Present, HeapTracked, ExtendStep, ExtentMapped, CostSoFar, PagesFrom;
    SeparatedBasics(s, roots, slots, r);
    if i > 0 {
      ExtendFailsIff(s, roots, slots, r, j, i - 1, k);
      SoFarLoop(s, roots, slots, r, j, i - 1, k);
      var o := Extend(s, r, j, i - 1);
      if o.1 {
        StepOk(o.0, r, j + i - 1);
        if CostSoFar(s.mem, r, j, i - 1, PagesFrom(j, k)) <= |s.free| {
          FramesLeft(s, o.0, roots, slots, r, j, i - 1, PagesFrom(j, k));
        }
      }
    }
  }

  /** The silent failure: one page asked for, and frames for it but not for its missing tables. */
  lemma SilentExtension(s: Phys, roots: set<nat>, slots: set<nat>, r: nat, j: nat)
    requires Separated(s, roots, slots) && r in roots && HeapTracked(slots) && j < HEAP_PAGES
    requires !Present(PteOf(s.mem, r, FIRST_PAGE + j))
    requires 1 <= |s.free| < 1 + Missing(s.mem, r, PathOf(FIRST_PAGE + j))
    ensures r < |s.mem| <= MAX_FRAMES && FreeListOk(s)
    ensures var (s', ok) := Extend(s, r, j, 1); ok && !Present(PteOf(s'.mem, r, FIRST_PAGE + j))
  {
    StepOutcome(s, roots, slots, r, j);
    hide Separated, TableAt, PteOf, ExtendStep, Missing;
    assert Extend(s, r, j, 0) == (s, true);
  }

  /** heap_extend over the virtual memory manager, from heap page j on. */
  method HeapExtend(vm: Manager, root: nat, j: nat, npages: nat, ghost roots: set<nat>, ghost slots: set<nat>)
    returns (ok: bool, next: nat)
    requires Separated(vm.State(), roots, slots) && root in roots && HeapTracked(slots) && j <= HEAP_PAGES
    modifies vm
    ensures root < |old(vm.mem)| <= MAX_FRAMES && FreeListOk(old(vm.State())) && j <= next <= HEAP_PAGES
    ensures Separated(vm.State(), roots, slots)
    ensures if j + npages <= HEAP_PAGES
            then (vm.State(), ok) == Extend(old(vm.State()), root, j, npages)
            else !ok
    ensures ok ==> next == j + npages
    ensures !ok ==> (vm.State(), true) == Extend(old(vm.State()), root, j, next - j)
    ensures !ok ==> next == HEAP_PAGES || vm.free == []
  {
    hide Separated, VmmMap, HeapTracked, TableAt, PteOf, Present, Missing, PathOf, Index4, Vpn;
    SeparatedBasics(vm.State(), roots, slots, root);
    next := j;
    for i := 0 to npages
      invariant next == j + i <= HEAP_PAGES && Separated(vm.State(), roots, slots)
      invariant (vm.State(), true) == Extend(old(vm.State()), root, j, i)
    {
      if next >= HEAP_PAGES {
        return false, next;
      }
      HeapPage(slots, next);
      if vm.free != [] {
        StepOutcome(vm.State(), roots, slots, root, next);
        FrameTaken(vm.State(), roots, slots, root, PathOf(FIRST_PAGE + next));
      }
      ghost var s := vm.State();
      var pp := vm.PageAlloc(true);
      if pp == None {
        if j + npages <= HEAP_PAGES { GivesUp(old(vm.State()), root, j, i + 1, npages); }
        return false, next;
      }
      vm.Map(root, HeapVa(next), pp.value * 4096, HEAP_FLAGS, roots, slots);
      assert (vm.State(), true) == ExtendStep(s, root, next);
      next := next + 1;
    }
    ok := true;
  }

  lemma {:induction false} GivesUp(s: Phys, r: nat, j: nat, i: nat, k: nat)
    requires r < |s.mem| <= MAX_FRAMES && FreeListOk(s) && i <= k && j + k <= HEAP_PAGES && !Extend(s, r, j, i).1
    ensures Extend(s, r, j, k) == Extend(s, r, j, i)
    decreases k
  {
    hide ExtendStep;
    if k > i { GivesUp(s, r, j, i, k - 1); }
  }
}

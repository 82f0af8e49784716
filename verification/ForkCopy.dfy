/** vmm_copy_address_space (kernel/src/paging.c): the address space a forked child gets. */
module ForkCopy {
  import opened Words
  import opened PageTableEntries
  import opened PhysicalMemory
  import opened PageTables
  import opened AddressSpaces

  // ----- what has to be copied

  ghost function NonemptyPrefixes(p: Path): set<Path>
    decreases |p|
  {
    if p == [] then {} else NonemptyPrefixes(p[..|p| - 1]) + {p}
  }

  /** User pages below k that the space maps. */
  ghost function Pages(m: Memory, r: nat, k: nat): set<nat> {
    set n | 0 <= n < k && Present(PteOf(m, r, n))
  }

  /** Tables (below the root) that have a leaf for one of the pages. */
  ghost function TablesFor(pages: set<nat>): set<Path> {
    set n, q | n in pages && q in NonemptyPrefixes(PathOf(n)) :: q
  }

  /** Frames a copy of the pages below k takes: one per page, one per table with a leaf. */
  ghost function Needed(m: Memory, r: nat, k: nat): nat {
    |Pages(m, r, k)| + |TablesFor(Pages(m, r, k))|
  }

  ghost function MissingFrom(tables: set<Path>, p: Path): nat
    decreases |p|
  {
    if p == [] then 0 else MissingFrom(tables, p[..|p| - 1]) + (if p in tables then 0 else 1)
  }

  lemma {:induction false} PrefixesAre(p: Path, q: Path)
    ensures q in NonemptyPrefixes(p) <==> q != [] && q <= p
    decreases |p|
  {
    if p != [] {
      PrefixesAre(p[..|p| - 1], q);
      if q != [] && q <= p && q != p { assert q <= p[..|p| - 1]; }
    }
  }

  lemma {:induction false} AddPrefixes(tables: set<Path>, p: Path)
    ensures |tables + NonemptyPrefixes(p)| == |tables| + MissingFrom(tables, p)
    decreases |p|
  {
    if p == [] {
      assert tables + {} == tables;
    } else {
      var p0 := p[..|p| - 1];
      AddPrefixes(tables, p0);
      PrefixesAre(p0, p);
      var grown := tables + NonemptyPrefixes(p0);
      assert p in grown <==> p in tables;
      assert tables + NonemptyPrefixes(p) == if p in tables then grown else grown + {p};
    }
  }

  lemma {:induction false} MissingIsMissingFrom(m: Memory, r: nat, tables: set<Path>, p: Path)
    requires forall q :: q != [] && q <= p ==> (TableAt(m, r, q).Some? <==> q in tables)
    ensures Missing(m, r, p) == MissingFrom(tables, p)
    decreases |p|
  {
    if p != [] {
      forall q | q != [] && q <= p[..|p| - 1] ensures TableAt(m, r, q).Some? <==> q in tables {
        assert q <= p;
      }
      MissingIsMissingFrom(m, r, tables, p[..|p| - 1]);
    }
  }

  lemma OnePage(m: Memory, r: nat, n: nat)
    ensures Pages(m, r, n + 1) == Pages(m, r, n) + (if Present(PteOf(m, r, n)) then {n} else {})
    ensures TablesFor(Pages(m, r, n) + {n}) == TablesFor(Pages(m, r, n)) + NonemptyPrefixes(PathOf(n))
  {
  }

  lemma NeededStep(m: Memory, r: nat, n: nat)
    ensures Needed(m, r, n + 1) ==
            Needed(m, r, n) + (if Present(PteOf(m, r, n))
                               then 1 + MissingFrom(TablesFor(Pages(m, r, n)), PathOf(n)) else 0)
  {
    OnePage(m, r, n);
    AddPrefixes(TablesFor(Pages(m, r, n)), PathOf(n));
  }

  // ----- the copy

  /** The body of the innermost loop: false means page_alloc returned NULL. */
  function CopyPage(s: Phys, parent: nat, child: nat, n: nat): (r: (Phys, bool))
    requires child < |s.mem| <= MAX_FRAMES && FreeListOk(s) && n < USER_PAGES
    ensures |r.0.mem| == |s.mem| && FreeListOk(r.0)
  {
    var pte := PteOf(s.mem, parent, n);
    if !Present(pte) then (s, true)
    else if s.free == [] then (s, false)
    else
      var g := s.free[0];
      var src := if FrameOf(pte) < |s.mem| then s.mem[FrameOf(pte)] else s.mem[g];
      (VmmMap(Phys(s.mem[g := src], s.free[1..]), child, n * 4096, g * 4096, pte % 4096), true)
  }

  /** State after the loops handled every page below k, in page order. */
  function CopyBelow(s: Phys, parent: nat, child: nat, k: nat): (r: (Phys, bool))
    requires child < |s.mem| <= MAX_FRAMES && FreeListOk(s) && k <= USER_PAGES
    ensures |r.0.mem| == |s.mem| && FreeListOk(r.0)
    decreases k, s
  {
    if k == 0 then (s, true)
    else
      var r := CopyBelow(s, parent, child, k - 1);
      if !r.1 then r else CopyPage(r.0, parent, child, k - 1)
  }

  predicate UserSlots(slots: set<nat>) { forall i :: 0 <= i < KERNEL_PML4_START ==> i in slots }

  lemma UserPage(slots: set<nat>, n: nat)
    requires UserSlots(slots) && n < USER_PAGES
    ensures TrackedPage(slots, n) && Index4(n) < KERNEL_PML4_START && Vpn(n * 4096) == n
  {
    var c := n / 512;
    var b := c / 512;
    assert b < 0x2_0000;
    assert n * 4096 / 4096 == n;
  }

  /** User pages of r lie in memory, off the free list. */
  ghost predicate LeavesHeld(s: Phys, r: nat) {
    forall n: nat {:trigger PteOf(s.mem, r, n)} :: n < USER_PAGES && Present(PteOf(s.mem, r, n)) ==>
      FrameOf(PteOf(s.mem, r, n)) < |s.mem| && FrameOf(PteOf(s.mem, r, n)) !in s.free
  }

  /** Child entry e and memory m hold a fresh copy of the page behind parent entry o. */
  ghost predicate CopyOf(s0: Phys, s: Phys, o: Word, e: Word) {
    && e == FrameOf(e) * 4096 + o % 4096
    && FrameOf(e) < |s.mem| == |s0.mem| && FrameOf(o) < |s0.mem|
    && FrameOf(e) in s0.free && FrameOf(e) !in s.free
    && s.mem[FrameOf(e)] == s0.mem[FrameOf(o)]
  }

  ghost predicate ChildPages(s0: Phys, s: Phys, parent: nat, child: nat, k: nat) {
    forall n: nat {:trigger PteOf(s.mem, child, n)} :: n < USER_PAGES ==>
      if n < k && Present(PteOf(s0.mem, parent, n))
      then CopyOf(s0, s, PteOf(s0.mem, parent, n), PteOf(s.mem, child, n))
      else PteOf(s.mem, child, n) == 0
  }

  ghost predicate ChildTables(s0: Phys, s: Phys, parent: nat, child: nat, k: nat) {
    forall q {:trigger TableAt(s.mem, child, q)} :: 1 <= |q| <= 3 && q[0] < KERNEL_PML4_START ==>
      && (TableAt(s.mem, child, q).Some? <==> q in TablesFor(Pages(s0.mem, parent, k)))
      && (TableAt(s.mem, child, q).Some? ==> TableAt(s.mem, child, q).value in s0.free)
  }

  /** The child's pages share no frame with one another and none of them is a page table. */
  ghost predicate ChildFresh(s: Phys, roots: set<nat>, slots: set<nat>, child: nat) {
    && (forall n: nat {:trigger PteOf(s.mem, child, n)} ::
          n < USER_PAGES && Present(PteOf(s.mem, child, n)) ==>
              NoTable(s.mem, roots, slots, FrameOf(PteOf(s.mem, child, n))))
    && (forall n: nat, k: nat {:trigger PteOf(s.mem, child, n), PteOf(s.mem, child, k)} ::
          n < USER_PAGES && k < USER_PAGES && n != k && Present(PteOf(s.mem, child, n)) &&
              Present(PteOf(s.mem, child, k))
          ==> FrameOf(PteOf(s.mem, child, n)) != FrameOf(PteOf(s.mem, child, k)))
  }

  /** Nothing but free frames and the child's root changed; no other space changed. */
  ghost predicate OthersKept(s0: Phys, s: Phys, roots: set<nat>, slots: set<nat>, child: nat) {
    && |s.mem| == |s0.mem|
    && (forall x :: x in s.free ==> x in s0.free)
    && (forall x: nat {:trigger s.mem[x]} :: x < |s.mem| && x !in s0.free && x != child ==> s.mem[x] == s0.mem[x])
    && SamePtes(s0.mem, s.mem, roots - {child}, slots)
  }

  /** The invariant of the four loops. */
  ghost predicate Copied(s0: Phys, s: Phys, roots: set<nat>, slots: set<nat>, parent: nat, child: nat, k: nat) {
    && Separated(s, roots, slots)
    && OthersKept(s0, s, roots, slots, child)
    && ChildPages(s0, s, parent, child, k)
    && ChildTables(s0, s, parent, child, k)
    && ChildFresh(s, roots, slots, child)
    && |s.free| + Needed(s0.mem, parent, k) == |s0.free|
  }

  /** State s0 in which the child's root has just been made. */
  ghost predicate CopyStart(s0: Phys, roots: set<nat>, slots: set<nat>, parent: nat, child: nat) {
    && Separated(s0, roots, slots) && UserSlots(slots)
    && parent in roots && child in roots && parent != child
    && LeavesHeld(s0, parent)
    && (forall n: nat {:trigger PteOf(s0.mem, parent, n)} :: n < USER_PAGES && Present(PteOf(s0.mem, parent, n))
          ==> FrameOf(PteOf(s0.mem, parent, n)) != child)
    && (forall q {:trigger TableAt(s0.mem, child, q)} :: 1 <= |q| <= 3 && q[0] < KERNEL_PML4_START
          ==> TableAt(s0.mem, child, q).None?)
  }

  lemma CopyStarts(s0: Phys, roots: set<nat>, slots: set<nat>, parent: nat, child: nat)
    requires CopyStart(s0, roots, slots, parent, child)
    ensures Copied(s0, s0, roots, slots, parent, child, 0)
  {
    forall n: nat | n < USER_PAGES ensures PteOf(s0.mem, child, n) == 0 {
      UserPage(slots, n);
      assert TableAt(s0.mem, child, PathOf(n)).None?;
    }
    assert TablesFor(Pages(s0.mem, parent, 0)) == {};
  }

  // ----- one page

  /** State after page_alloc and memcpy, before vmm_map. */
  function Filled(s: Phys, o: Word): (s1: Phys)
    requires FreeListOk(s) && s.free != [] && FrameOf(o) < |s.mem|
    ensures |s1.mem| == |s.mem| && FreeListOk(s1)
  {
    Phys(s.mem[s.free[0] := s.mem[FrameOf(o)]], s.free[1..])
  }

  lemma FillKeeps(s: Phys, roots: set<nat>, slots: set<nat>, o: Word)
    requires Separated(s, roots, slots) && s.free != [] && FrameOf(o) < |s.mem|
    ensures var s1 := Filled(s, o);
            && Separated(s1, roots, slots) && SamePtes(s.mem, s1.mem, roots, slots)
            && (forall r, q {:trigger TableAt(s1.mem, r, q)} :: r in roots && Tracked(slots, q)
                  ==> TableAt(s1.mem, r, q) == TableAt(s.mem, r, q))
  {
    var g := s.free[0];
    DataWrite(s, roots, slots, g, s.mem[FrameOf(o)]);
    ShorterFreeList(Phys(s.mem[g := s.mem[FrameOf(o)]], s.free), roots, slots, 1);
  }

  /** Frames the map of page n needs are the tables it adds to the set of copied tables. */
  lemma MapNeeds(s0: Phys, s1: Phys, parent: nat, child: nat, n: nat)
    requires n < USER_PAGES && Index4(n) < KERNEL_PML4_START
    requires ChildTables(s0, s1, parent, child, n)
    ensures Missing(s1.mem, child, PathOf(n)) == MissingFrom(TablesFor(Pages(s0.mem, parent, n)), PathOf(n))
  {
    forall q | q != [] && q <= PathOf(n)
      ensures TableAt(s1.mem, child, q).Some? <==> q in TablesFor(Pages(s0.mem, parent, n))
    {
      assert q[0] == PathOf(n)[0];
    }
    MissingIsMissingFrom(s1.mem, child, TablesFor(Pages(s0.mem, parent, n)), PathOf(n));
  }

  /** The filled state still satisfies what the invariant says about the child. */
  lemma FilledChild(s0: Phys, s: Phys, roots: set<nat>, slots: set<nat>, parent: nat, child: nat, n: nat, o: Word)
    requires CopyStart(s0, roots, slots, parent, child) && Copied(s0, s, roots, slots, parent, child, n)
    requires n < USER_PAGES && s.free != [] && o == PteOf(s0.mem, parent, n) && Present(o)
    ensures var s1 := Filled(s, o);
            && FrameOf(o) < |s.mem|
            && Separated(s1, roots, slots)
            && OthersKept(s0, s1, roots, slots, child)
            && ChildPages(s0, s1, parent, child, n)
            && ChildTables(s0, s1, parent, child, n)
            && ChildFresh(s1, roots, slots, child)
            && s1.mem[s.free[0]] == s0.mem[FrameOf(o)]
            && CopyPage(s, parent, child, n) == (VmmMap(s1, child, n * 4096, s.free[0] * 4096, o % 4096), true)
  {
    UserPage(slots, n);
    FillKeeps(s, roots, slots, o);
    assert PteOf(s.mem, parent, n) == o;
    assert s.mem[FrameOf(o)] == s0.mem[FrameOf(o)];
    hide Separated;
    FilledOthers(s0, s, Filled(s, o), roots, slots, parent, child, n);
    FilledPages(s0, s, Filled(s, o), roots, slots, parent, child, n);
  }

  /** s1 is s with the first free frame taken and overwritten. */
  ghost predicate OneFilled(s: Phys, s1: Phys, roots: set<nat>, slots: set<nat>) {
    && |s1.mem| == |s.mem| && s.free != [] && s1.free == s.free[1..]
    && (forall x: nat {:trigger s1.mem[x]} :: x < |s.mem| && x != s.free[0] ==> s1.mem[x] == s.mem[x])
    && SamePtes(s.mem, s1.mem, roots, slots)
    && (forall r, q {:trigger TableAt(s1.mem, r, q)} :: r in roots && Tracked(slots, q)
          ==> TableAt(s1.mem, r, q) == TableAt(s.mem, r, q))
  }

  lemma FilledOthers(s0: Phys, s: Phys, s1: Phys, roots: set<nat>, slots: set<nat>, parent: nat, child: nat, n: nat)
    requires OneFilled(s, s1, roots, slots) && child in roots && UserSlots(slots)
    requires OthersKept(s0, s, roots, slots, child) && ChildTables(s0, s, parent, child, n)
    ensures OthersKept(s0, s1, roots, slots, child) && ChildTables(s0, s1, parent, child, n)
  {
    assert forall q :: 1 <= |q| <= 3 && q[0] < KERNEL_PML4_START ==> Tracked(slots, q);
    forall r, k | r in roots - {child} && TrackedPage(slots, k)
      ensures PteOf(s1.mem, r, k) == PteOf(s0.mem, r, k)
    {
      assert PteOf(s.mem, r, k) == PteOf(s0.mem, r, k);
    }
  }

  lemma FilledPages(s0: Phys, s: Phys, s1: Phys, roots: set<nat>, slots: set<nat>, parent: nat, child: nat, n: nat)
    requires OneFilled(s, s1, roots, slots) && child in roots && UserSlots(slots)
    requires ChildPages(s0, s, parent, child, n) && ChildFresh(s, roots, slots, child)
    ensures ChildPages(s0, s1, parent, child, n) && ChildFresh(s1, roots, slots, child)
  {
    hide PteOf, TableAt, FrameOf, Present;
    forall k: nat | k < USER_PAGES
      ensures PteOf(s1.mem, child, k) == PteOf(s.mem, child, k)
    {
      UserPage(slots, k);
    }
  }

  lemma {:induction false} PrefixTable(m: Memory, r: nat, p: Path, q: Path)
    requires TableAt(m, r, p).Some? && q <= p
    ensures TableAt(m, r, q).Some?
    decreases |p|
  {
    if q != p { PrefixTable(m, r, p[..|p| - 1], q); }
  }

  /** What vmm_map does to the filled state when it has the frames. */
  ghost predicate MappedChild(s1: Phys, s2: Phys, roots: set<nat>, slots: set<nat>, child: nat, n: nat, e: Word) {
    && Separated(s2, roots, slots) && |s2.mem| == |s1.mem|
    && Missing(s1.mem, child, PathOf(n)) <= |s1.free|
    && s2.free == s1.free[Missing(s1.mem, child, PathOf(n))..]
    && SamePtes(s1.mem, s2.mem, roots - {child}, slots)
    && (forall k: nat {:trigger PteOf(s2.mem, child, k)} :: TrackedPage(slots, k)
          ==> PteOf(s2.mem, child, k) == if k == n then e else PteOf(s1.mem, child, k))
    && TablesFromFree(s1, s2.mem, roots, slots)
    && FramesKept(s1, s2.mem, child, PathOf(n))
    && (forall q {:trigger TableAt(s2.mem, child, q)} :: Tracked(slots, q)
          ==> (TableAt(s2.mem, child, q).Some? <==> TableAt(s1.mem, child, q).Some? || q <= PathOf(n)))
  }

  lemma MapChild(s1: Phys, roots: set<nat>, slots: set<nat>, child: nat, n: nat, g: nat, o: Word)
    requires Separated(s1, roots, slots) && UserSlots(slots) && child in roots
    requires n < USER_PAGES && g < |s1.mem| && Missing(s1.mem, child, PathOf(n)) <= |s1.free|
    ensures var s2 := VmmMap(s1, child, n * 4096, g * 4096, o % 4096);
            MappedChild(s1, s2, roots, slots, child, n, g * 4096 + o % 4096)
    ensures FrameOf(g * 4096 + o % 4096) == g
  {
    hide Separated, TablesFromFree, FramesKept, TablesKept, TableAt, Missing, VmmMap, MakePte, FrameOf, PathOf, Vpn,
      PteOf,
      UserSlots, Index4, Present;
    UserPage(slots, n);
    SeparatedBasics(s1, roots, slots, child);
    SmallFlags(g, o % 4096);
    var va, phys, flags := n * 4096, g * 4096, o % 4096;
    MapRefines(s1, roots, slots, child, va, phys, flags);
    MapFrames(s1, roots, slots, child, va, phys, flags);
    MapChildTables(s1, VmmMap(s1, child, va, phys, flags), roots, slots, child, n);
  }

  lemma MapChildTables(s1: Phys, s2: Phys, roots: set<nat>, slots: set<nat>, child: nat, n: nat)
    requires TablesKept(s1.mem, s2.mem, roots, slots, child, PathOf(n)) && child in roots
    requires TableAt(s2.mem, child, PathOf(n)).Some?
    ensures forall q {:trigger TableAt(s2.mem, child, q)} :: Tracked(slots, q)
              ==> (TableAt(s2.mem, child, q).Some? <==> TableAt(s1.mem, child, q).Some? || q <= PathOf(n))
  {
    var p := PathOf(n);
    forall q | Tracked(slots, q)
      ensures TableAt(s2.mem, child, q).Some? <==> TableAt(s1.mem, child, q).Some? || q <= p
    {
      if q <= p { PrefixTable(s2.mem, child, p, q); }
    }
  }

  lemma OffPath(s0: Phys, s1: Phys, parent: nat, child: nat, n: nat, x: nat)
    requires ChildTables(s0, s1, parent, child, n) && Index4(n) < KERNEL_PML4_START
    requires x !in s0.free && x != child && child < |s1.mem|
    ensures !OnPath(s1.mem, child, PathOf(n), x)
  {
    var p := PathOf(n);
    forall k | 0 <= k <= |p| ensures TableAt(s1.mem, child, p[..k]) != Some(x) {
      if k > 0 { assert p[..k][0] == p[0]; }
    }
  }

  lemma NotOnPath(m: Memory, roots: set<nat>, slots: set<nat>, child: nat, p: Path, x: nat)
    requires child in roots && Tracked(slots, p) && NoTable(m, roots, slots, x)
    ensures !OnPath(m, child, p, x)
  {
    forall k | 0 <= k <= |p| ensures TableAt(m, child, p[..k]) != Some(x) {
      assert Tracked(slots, p[..k]);
    }
  }

  lemma MappedOthers(s0: Phys, s1: Phys, s2: Phys, roots: set<nat>, slots: set<nat>,
                     parent: nat, child: nat, n: nat, e: Word)
    requires OthersKept(s0, s1, roots, slots, child) && ChildTables(s0, s1, parent, child, n)
    requires MappedChild(s1, s2, roots, slots, child, n, e)
    requires Index4(n) < KERNEL_PML4_START && child < |s1.mem|
    ensures OthersKept(s0, s2, roots, slots, child)
  {
    forall x: nat | x < |s2.mem| && x !in s0.free && x != child
      ensures s2.mem[x] == s0.mem[x]
    {
      OffPath(s0, s1, parent, child, n, x);
      assert s1.mem[x] == s0.mem[x];
    }
    forall r, k | r in roots - {child} && TrackedPage(slots, k)
      ensures PteOf(s2.mem, r, k) == PteOf(s0.mem, r, k)
    {
      assert PteOf(s1.mem, r, k) == PteOf(s0.mem, r, k);
    }
  }

  lemma MappedCopy(s0: Phys, s1: Phys, s2: Phys, roots: set<nat>, slots: set<nat>, child: nat, n: nat, o: Word, e: Word)
    requires FramesKept(s1, s2.mem, child, PathOf(n)) && child in roots && Tracked(slots, PathOf(n))
    requires CopyOf(s0, s1, o, e) && NoTable(s1.mem, roots, slots, FrameOf(e))
    requires forall x :: x in s2.free ==> x in s1.free
    ensures CopyOf(s0, s2, o, e)
  {
    NotOnPath(s1.mem, roots, slots, child, PathOf(n), FrameOf(e));
  }

  lemma CopyPresent(s0: Phys, s: Phys, o: Word, e: Word)
    requires CopyOf(s0, s, o, e)
    ensures Present(e) == Present(o)
  {
    LowFlags(o);
    SmallFlags(FrameOf(e), o % 4096);
  }

  lemma MappedPages(s0: Phys, s1: Phys, s2: Phys, roots: set<nat>, slots: set<nat>,
                    parent: nat, child: nat, n: nat, o: Word, e: Word)
    requires MappedChild(s1, s2, roots, slots, child, n, e) && UserSlots(slots) && child in roots
    requires ChildPages(s0, s1, parent, child, n) && ChildFresh(s1, roots, slots, child)
    requires n < USER_PAGES && o == PteOf(s0.mem, parent, n) && Present(o)
    requires CopyOf(s0, s1, o, e) && NoTable(s1.mem, roots, slots, FrameOf(e))
    ensures ChildPages(s0, s2, parent, child, n + 1)
  {
    hide Separated, TablesFromFree, FramesKept, TableAt, Missing, NoTable, PteOf, SamePtes, CopyOf, FrameOf, Present;
    UserPage(slots, n);
    forall k: nat | k < USER_PAGES
      ensures if k < n + 1 && Present(PteOf(s0.mem, parent, k))
              then CopyOf(s0, s2, PteOf(s0.mem, parent, k), PteOf(s2.mem, child, k))
              else PteOf(s2.mem, child, k) == 0
    {
      UserPage(slots, k);
      if k < n + 1 && Present(PteOf(s0.mem, parent, k)) {
        if k != n { CopyPresent(s0, s1, PteOf(s0.mem, parent, k), PteOf(s1.mem, child, k)); }
        MappedCopy(s0, s1, s2, roots, slots, child, n, PteOf(s0.mem, parent, k), PteOf(s2.mem, child, k));
      }
    }
  }

  lemma MappedFresh(s1: Phys, s2: Phys, roots: set<nat>, slots: set<nat>, child: nat, n: nat, e: Word)
    requires MappedChild(s1, s2, roots, slots, child, n, e) && UserSlots(slots) && child in roots
    requires ChildFresh(s1, roots, slots, child) && n < USER_PAGES
    requires forall k: nat :: k < USER_PAGES && Present(PteOf(s1.mem, child, k)) ==>
               FrameOf(PteOf(s1.mem, child, k)) !in s1.free && FrameOf(PteOf(s1.mem, child, k)) != FrameOf(e)
    requires NoTable(s1.mem, roots, slots, FrameOf(e)) && FrameOf(e) !in s1.free
    ensures ChildFresh(s2, roots, slots, child)
  {
    forall k: nat | k < USER_PAGES
      ensures PteOf(s2.mem, child, k) == if k == n then e else PteOf(s1.mem, child, k)
    {
      UserPage(slots, k);
    }
  }

  lemma MappedTables(s0: Phys, s1: Phys, s2: Phys, roots: set<nat>, slots: set<nat>,
                     parent: nat, child: nat, n: nat, e: Word)
    requires MappedChild(s1, s2, roots, slots, child, n, e) && UserSlots(slots) && child in roots
    requires ChildTables(s0, s1, parent, child, n) && n < USER_PAGES && Present(PteOf(s0.mem, parent, n))
    requires forall x :: x in s1.free ==> x in s0.free
    ensures ChildTables(s0, s2, parent, child, n + 1)
  {
    UserPage(slots, n);
    OnePage(s0.mem, parent, n);
    forall q | 1 <= |q| <= 3 && q[0] < KERNEL_PML4_START
      ensures TableAt(s2.mem, child, q).Some? <==> q in TablesFor(Pages(s0.mem, parent, n + 1))
      ensures TableAt(s2.mem, child, q).Some? ==> TableAt(s2.mem, child, q).value in s0.free
    {
      assert Tracked(slots, q);
      PrefixesAre(PathOf(n), q);
    }
  }

  lemma SkippedPage(s0: Phys, s: Phys, parent: nat, child: nat, n: nat)
    requires ChildPages(s0, s, parent, child, n) && ChildTables(s0, s, parent, child, n)
    requires !Present(PteOf(s0.mem, parent, n))
    ensures ChildPages(s0, s, parent, child, n + 1) && ChildTables(s0, s, parent, child, n + 1)
  {
    OnePage(s0.mem, parent, n);
  }

  /** The loop body keeps the invariant while frames last. */
  lemma CopyOnePage(s0: Phys, s: Phys, roots: set<nat>, slots: set<nat>, parent: nat, child: nat, n: nat)
    requires CopyStart(s0, roots, slots, parent, child) && Copied(s0, s, roots, slots, parent, child, n)
    requires n < USER_PAGES && Needed(s0.mem, parent, n + 1) <= |s0.free|
    ensures var (s', ok) := CopyPage(s, parent, child, n);
            ok && Copied(s0, s', roots, slots, parent, child, n + 1)
  {
    ParentEntry(s0, s, roots, slots, parent, child, n);
    NeededStep(s0.mem, parent, n);
    if Present(PteOf(s0.mem, parent, n)) {
      CopyMappedPage(s0, s, roots, slots, parent, child, n);
    } else {
      SkippedPage(s0, s, parent, child, n);
    }
    hide Separated, OthersKept, ChildPages, ChildTables, ChildFresh, Needed, MissingFrom, TablesFor, PteOf, VmmMap;
  }

  lemma ParentEntry(s0: Phys, s: Phys, roots: set<nat>, slots: set<nat>, parent: nat, child: nat, n: nat)
    requires CopyStart(s0, roots, slots, parent, child) && OthersKept(s0, s, roots, slots, child) && n < USER_PAGES
    ensures PteOf(s.mem, parent, n) == PteOf(s0.mem, parent, n)
  {
    UserPage(slots, n);
  }

  lemma CopyMappedPage(s0: Phys, s: Phys, roots: set<nat>, slots: set<nat>, parent: nat, child: nat, n: nat)
    requires CopyStart(s0, roots, slots, parent, child) && Copied(s0, s, roots, slots, parent, child, n)
    requires n < USER_PAGES && Needed(s0.mem, parent, n + 1) <= |s0.free| && Present(PteOf(s0.mem, parent, n))
    ensures var (s', ok) := CopyPage(s, parent, child, n);
            ok && Copied(s0, s', roots, slots, parent, child, n + 1)
  {
    hide Separated, OthersKept, ChildPages, ChildTables, ChildFresh, LeavesHeld, Needed, MissingFrom, TablesFor, Pages,
      PteOf, Present, FrameOf, VmmMap, NoTable, TableAt, Missing, CopyPage, FramesKept, SamePtes, TablesFromFree,
      CopyOf;
    NeededStep(s0.mem, parent, n);
    SeparatedBasics(s, roots, slots, child);
    var o := PteOf(s0.mem, parent, n);
    FilledChild(s0, s, roots, slots, parent, child, n, o);
    var s1, g := Filled(s, o), s.free[0];
    MapNeeds(s0, s1, parent, child, n);
    MapChild(s1, roots, slots, child, n, g, o);
    var e := g * 4096 + o % 4096;
    var s2 := VmmMap(s1, child, n * 4096, g * 4096, o % 4096);
    FreshFrame(s0, s, roots, slots, parent, child, n, o);
    FilledCopy(s0, s, roots, slots, child, o);
    MappedOthers(s0, s1, s2, roots, slots, parent, child, n, e);
    MappedPages(s0, s1, s2, roots, slots, parent, child, n, o, e);
    MappedFresh(s1, s2, roots, slots, child, n, e);
    MappedTables(s0, s1, s2, roots, slots, parent, child, n, e);
  }

  lemma FilledCopy(s0: Phys, s: Phys, roots: set<nat>, slots: set<nat>, child: nat, o: Word)
    requires OthersKept(s0, s, roots, slots, child) && FreeListOk(s) && s.free != []
    requires FrameOf(o) < |s.mem| <= MAX_FRAMES
    requires Filled(s, o).mem[s.free[0]] == s0.mem[FrameOf(o)]
    ensures s.free[0] * 4096 + o % 4096 < TWO64
    ensures CopyOf(s0, Filled(s, o), o, s.free[0] * 4096 + o % 4096)
    ensures forall x :: x in Filled(s, o).free ==> x in s0.free
  {
    SmallFlags(s.free[0], o % 4096);
  }

  lemma FreshFrame(s0: Phys, s: Phys, roots: set<nat>, slots: set<nat>, parent: nat, child: nat, n: nat, o: Word)
    requires Separated(s, roots, slots) && UserSlots(slots) && child in roots
    requires ChildPages(s0, s, parent, child, n) && s.free != [] && FrameOf(o) < |s.mem|
    ensures var s1, g := Filled(s, o), s.free[0];
            && NoTable(s1.mem, roots, slots, g) && g !in s1.free
            && (forall k: nat {:trigger PteOf(s1.mem, child, k)} ::
                  k < USER_PAGES && Present(PteOf(s1.mem, child, k)) ==>
                  FrameOf(PteOf(s1.mem, child, k)) !in s1.free && FrameOf(PteOf(s1.mem, child, k)) != g)
  {
    FillKeeps(s, roots, slots, o);
    var s1, g := Filled(s, o), s.free[0];
    forall k: nat | k < USER_PAGES && Present(PteOf(s1.mem, child, k))
      ensures FrameOf(PteOf(s1.mem, child, k)) !in s1.free && FrameOf(PteOf(s1.mem, child, k)) != g
    {
      UserPage(slots, k);
      assert PteOf(s1.mem, child, k) == PteOf(s.mem, child, k);
    }
  }

  // ----- the whole copy

  lemma {:induction false} NeededGrows(m: Memory, r: nat, j: nat, k: nat)
    requires j <= k
    ensures Needed(m, r, j) <= Needed(m, r, k)
    decreases k - j
  {
    hide Needed, PteOf, MissingFrom, TablesFor, Pages;
    if j < k {
      NeededGrows(m, r, j, k - 1);
      NeededStep(m, r, k - 1);
    }
  }

  lemma CopyBelowStep(s: Phys, parent: nat, child: nat, k: nat)
    requires child < |s.mem| <= MAX_FRAMES && FreeListOk(s) && k < USER_PAGES
    requires CopyBelow(s, parent, child, k).1
    ensures CopyBelow(s, parent, child, k + 1) == CopyPage(CopyBelow(s, parent, child, k).0, parent, child, k)
  {
    hide CopyPage;
  }

  ghost predicate CopiedBelow(s0: Phys, roots: set<nat>, slots: set<nat>, parent: nat, child: nat, k: nat)
    requires child < |s0.mem| <= MAX_FRAMES && FreeListOk(s0) && k <= USER_PAGES
  {
    var (s, ok) := CopyBelow(s0, parent, child, k);
    ok && Copied(s0, s, roots, slots, parent, child, k)
  }

  lemma CopyLoopStep(s0: Phys, roots: set<nat>, slots: set<nat>, parent: nat, child: nat, k: nat)
    requires CopyStart(s0, roots, slots, parent, child)
    requires k < USER_PAGES && Needed(s0.mem, parent, k + 1) <= |s0.free|
    requires CopiedBelow(s0, roots, slots, parent, child, k)
    ensures CopiedBelow(s0, roots, slots, parent, child, k + 1)
  {
    CopyBelowStep(s0, parent, child, k);
    hide Copied, CopyPage, CopyStart, Needed, CopyBelow;
    CopyOnePage(s0, CopyBelow(s0, parent, child, k).0, roots, slots, parent, child, k);
  }

  lemma StartsWellFormed(s0: Phys, roots: set<nat>, slots: set<nat>, parent: nat, child: nat)
    requires CopyStart(s0, roots, slots, parent, child)
    ensures child < |s0.mem| <= MAX_FRAMES && FreeListOk(s0)
    ensures CopiedBelow(s0, roots, slots, parent, child, 0)
  {
    CopyStarts(s0, roots, slots, parent, child);
    hide Copied;
  }

  lemma {:induction false} CopyLoop(s0: Phys, roots: set<nat>, slots: set<nat>, parent: nat, child: nat, k: nat)
    requires CopyStart(s0, roots, slots, parent, child)
    requires k <= USER_PAGES && Needed(s0.mem, parent, k) <= |s0.free|
    ensures child < |s0.mem| <= MAX_FRAMES && FreeListOk(s0)
    ensures CopiedBelow(s0, roots, slots, parent, child, k)
    decreases k
  {
    hide *;
    StartsWellFormed(s0, roots, slots, parent, child);
    if k > 0 {
      NeededGrows(s0.mem, parent, k - 1, k);
      CopyLoop(s0, roots, slots, parent, child, k - 1);
      CopyLoopStep(s0, roots, slots, parent, child, k - 1);
    }
  }

  /** With no frame left the loops change nothing more. */
  lemma {:induction false} CopyStuck(s0: Phys, parent: nat, child: nat, j: nat, k: nat)
    requires child < |s0.mem| <= MAX_FRAMES && FreeListOk(s0) && j <= k <= USER_PAGES
    requires CopyBelow(s0, parent, child, j).0.free == []
    ensures CopyBelow(s0, parent, child, k).0 == CopyBelow(s0, parent, child, j).0
    ensures !CopyBelow(s0, parent, child, j).1 ==> !CopyBelow(s0, parent, child, k).1
    decreases k
  {
    hide PteOf, VmmMap;
    if j < k { CopyStuck(s0, parent, child, j, k - 1); }
  }

  lemma {:induction false} FirstShortage(m: Memory, r: nat, frames: nat, k: nat) returns (j: nat)
    requires Needed(m, r, 0) <= frames < Needed(m, r, k)
    ensures j < k && Needed(m, r, j) <= frames < Needed(m, r, j + 1)
    decreases k
  {
    hide Needed;
    if Needed(m, r, k - 1) <= frames { j := k - 1; } else { j := FirstShortage(m, r, frames, k - 1); }
  }

  /** Page n did not make it into the child. */
  ghost predicate Lost(s0: Phys, s: Phys, parent: nat, child: nat, n: nat) {
    n < USER_PAGES && Present(PteOf(s0.mem, parent, n)) && !Present(PteOf(s.mem, child, n))
  }

  lemma ShortMap(s1: Phys, roots: set<nat>, slots: set<nat>, child: nat, n: nat, g: nat, o: Word)
    requires Separated(s1, roots, slots) && UserSlots(slots) && child in roots
    requires n < USER_PAGES && g < |s1.mem| && Missing(s1.mem, child, PathOf(n)) > |s1.free|
    ensures var s2 := VmmMap(s1, child, n * 4096, g * 4096, o % 4096);
            s2.free == [] && PteOf(s2.mem, child, n) == PteOf(s1.mem, child, n)
  {
    UserPage(slots, n);
    assert FreeListOk(s1) && child < |s1.mem| <= MAX_FRAMES;
    hide Separated, TablesFromFree, FramesKept, TablesKept, TableAt, Missing, VmmMap, MakePte, PteOf, PathOf, Vpn;
    MapRefines(s1, roots, slots, child, n * 4096, g * 4096, o % 4096);
    MapFrames(s1, roots, slots, child, n * 4096, g * 4096, o % 4096);
  }

  /** A page whose copy runs out of frames is either reported or left out of the child. */
  lemma ShortPage(s0: Phys, s: Phys, roots: set<nat>, slots: set<nat>, parent: nat, child: nat, n: nat)
    requires CopyStart(s0, roots, slots, parent, child) && Copied(s0, s, roots, slots, parent, child, n)
    requires n < USER_PAGES && Needed(s0.mem, parent, n + 1) > |s0.free|
    ensures var (s', ok) := CopyPage(s, parent, child, n);
            s'.free == [] && (!ok || Lost(s0, s', parent, child, n))
  {
    UserPage(slots, n);
    NeededStep(s0.mem, parent, n);
    var o := PteOf(s0.mem, parent, n);
    assert PteOf(s.mem, parent, n) == o;
    if s.free != [] {
      hide Needed, MissingFrom, PteOf, VmmMap, Separated, OthersKept, ChildTables, ChildFresh, CopyOf;
      FilledChild(s0, s, roots, slots, parent, child, n, o);
      var s1 := Filled(s, o);
      MapNeeds(s0, s1, parent, child, n);
      ShortMap(s1, roots, slots, child, n, s.free[0], o);
      assert Lost(s0, CopyPage(s, parent, child, n).0, parent, child, n);
    }
  }

  lemma NothingNeeded(m: Memory, r: nat)
    ensures Needed(m, r, 0) == 0
  {
    assert Pages(m, r, 0) == {} && TablesFor({}) == {};
  }

  lemma ShortBelow(s0: Phys, roots: set<nat>, slots: set<nat>, parent: nat, child: nat, n: nat)
    requires CopyStart(s0, roots, slots, parent, child) && n < USER_PAGES
    requires CopiedBelow(s0, roots, slots, parent, child, n) && Needed(s0.mem, parent, n + 1) > |s0.free|
    ensures var (s, ok) := CopyBelow(s0, parent, child, n + 1);
            s.free == [] && (!ok || Lost(s0, s, parent, child, n))
  {
    CopyBelowStep(s0, parent, child, n);
    hide Copied, CopyPage, CopyStart, Needed, CopyBelow, Lost;
    ShortPage(s0, CopyBelow(s0, parent, child, n).0, roots, slots, parent, child, n);
  }

  lemma CopyShort(s0: Phys, roots: set<nat>, slots: set<nat>, parent: nat, child: nat) returns (n: nat)
    requires CopyStart(s0, roots, slots, parent, child)
    requires Needed(s0.mem, parent, USER_PAGES) > |s0.free|
    ensures child < |s0.mem| <= MAX_FRAMES && FreeListOk(s0)
    ensures var (s, ok) := CopyBelow(s0, parent, child, USER_PAGES);
            !ok || Lost(s0, s, parent, child, n)
  {
    hide *;
    StartsWellFormed(s0, roots, slots, parent, child);
    NothingNeeded(s0.mem, parent);
    n := FirstShortage(s0.mem, parent, |s0.free|, USER_PAGES);
    CopyLoop(s0, roots, slots, parent, child, n);
    ShortBelow(s0, roots, slots, parent, child, n);
    CopyStuck(s0, parent, child, n + 1, USER_PAGES);
  }

  function CopySpace(s: Phys, parent: nat): (r: (Phys, Option<nat>))
    requires parent < |s.mem| <= MAX_FRAMES && FreeListOk(s)
    ensures |r.0.mem| == |s.mem| && FreeListOk(r.0)
  {
    var (s0, o) := NewSpace(s, parent);
    if o.None? then (s0, None)
    else
      var (s', ok) := CopyBelow(s0, parent, o.value, USER_PAGES);
      (s', if ok then o else None)
  }

  /** What a user program sees of its space: for every mapped page, the low twelve flag bits and
      the contents. */
  ghost function UserView(s: Phys, r: nat): map<nat, (nat, Frame)> {
    map n | 0 <= n < USER_PAGES && Present(PteOf(s.mem, r, n)) && FrameOf(PteOf(s.mem, r, n)) < |s.mem| ::
      (PteOf(s.mem, r, n) % 4096, s.mem[FrameOf(PteOf(s.mem, r, n))])
  }

  lemma NewSpaceStartsCopy(s: Phys, roots: set<nat>, slots: set<nat>, parent: nat)
    requires Separated(s, roots, slots) && UserSlots(slots) && parent in roots && LeavesHeld(s, parent) && s.free != []
    ensures var (s0, o) := NewSpace(s, parent);
            && o == Some(s.free[0]) && o.value !in roots
            && CopyStart(s0, roots + {o.value}, slots, parent, o.value)
            && SamePtes(s.mem, s0.mem, roots, slots) && s0.free == s.free[1..] && |s0.mem| == |s.mem|
            && (forall x: nat {:trigger s0.mem[x]} :: x < |s.mem| && x != o.value ==> s0.mem[x] == s.mem[x])
            && Needed(s0.mem, parent, USER_PAGES) == Needed(s.mem, parent, USER_PAGES)
  {
    NewSpaceSeparated(s, roots, slots, parent);
    var (s0, o) := NewSpace(s, parent);
    var g := s.free[0];
    forall n: nat | n < USER_PAGES
      ensures PteOf(s0.mem, parent, n) == PteOf(s.mem, parent, n)
    {
      UserPage(slots, n);
    }
    assert Pages(s0.mem, parent, USER_PAGES) == Pages(s.mem, parent, USER_PAGES);
    forall q | 1 <= |q| <= 3 && q[0] < KERNEL_PML4_START ensures TableAt(s0.mem, g, q).None? {
      assert Tracked(slots, q);
      NewTables(s, roots, slots, parent, g, q);
    }
    assert TableAt(s.mem, parent, []) == Some(parent) && Tracked(slots, []);
    forall x: nat | x < |s.mem| && x != g ensures s0.mem[x] == s.mem[x] {
      NewRootEnt(s, parent, x, 0);
    }
  }

  /** The child's entry for a page is a fresh frame with the parent's low flag bits. */
  lemma CopiedView(s: Phys, s0: Phys, s': Phys, roots: set<nat>, slots: set<nat>, parent: nat, child: nat)
    requires CopyStart(s0, roots, slots, parent, child) && ChildPages(s0, s', parent, child, USER_PAGES)
    requires |s.mem| == |s0.mem| && |s'.mem| == |s0.mem|
    requires forall x: nat {:trigger s0.mem[x]} :: x < |s.mem| && x != child ==> s0.mem[x] == s.mem[x]
    requires SamePtes(s.mem, s0.mem, {parent}, slots)
    ensures UserView(s', child) == UserView(s, parent)
  {
    forall n: nat | n < USER_PAGES
      ensures n in UserView(s', child) <==> n in UserView(s, parent)
      ensures n in UserView(s', child) ==> UserView(s', child)[n] == UserView(s, parent)[n]
    {
      UserPage(slots, n);
      CopiedViewPage(s, s0, s', parent, child, n);
    }
  }

  lemma SameLowBits(f: nat, o: nat, e: nat)
    requires e == f * 4096 + o % 4096
    ensures e % 4096 == o % 4096
  {
  }

  lemma CopiedViewPage(s: Phys, s0: Phys, s': Phys, parent: nat, child: nat, n: nat)
    requires ChildPages(s0, s', parent, child, USER_PAGES) && n < USER_PAGES
    requires |s.mem| == |s0.mem| && |s'.mem| == |s0.mem|
    requires PteOf(s0.mem, parent, n) == PteOf(s.mem, parent, n)
    requires Present(PteOf(s.mem, parent, n)) ==>
               var f := FrameOf(PteOf(s.mem, parent, n)); f < |s.mem| && s0.mem[f] == s.mem[f]
    ensures n in UserView(s', child) <==> n in UserView(s, parent)
    ensures n in UserView(s', child) ==> UserView(s', child)[n] == UserView(s, parent)[n]
  {
    var o, e := PteOf(s.mem, parent, n), PteOf(s'.mem, child, n);
    hide PteOf;
    if Present(o) {
      CopyPresent(s0, s', o, e);
      SameLowBits(FrameOf(e), o, e);
    }
  }

  /** Nothing a caller had not freed changed: all held frames, all translations of all spaces. */
  ghost predicate ForkFramed(s: Phys, s': Phys, roots: set<nat>, slots: set<nat>) {
    && |s'.mem| == |s.mem|
    && (forall x: nat {:trigger s'.mem[x]} :: x < |s.mem| && x !in s.free ==> s'.mem[x] == s.mem[x])
    && SamePtes(s.mem, s'.mem, roots, slots)
  }

  lemma CopiedFrame(s: Phys, s0: Phys, s': Phys, roots: set<nat>, slots: set<nat>, child: nat)
    requires OthersKept(s0, s', roots + {child}, slots, child) && child !in roots && child in s.free
    requires |s0.mem| == |s.mem| && (forall x :: x in s0.free ==> x in s.free)
    requires forall x: nat {:trigger s0.mem[x]} :: x < |s.mem| && x != child ==> s0.mem[x] == s.mem[x]
    requires SamePtes(s.mem, s0.mem, roots, slots)
    ensures ForkFramed(s, s', roots, slots)
  {
    forall x: nat | x < |s.mem| && x !in s.free ensures s'.mem[x] == s.mem[x] {
      assert s0.mem[x] == s.mem[x];
    }
    forall r, n | r in roots && TrackedPage(slots, n)
      ensures PteOf(s'.mem, r, n) == PteOf(s.mem, r, n)
    {
      assert r in roots + {child} - {child};
      assert PteOf(s0.mem, r, n) == PteOf(s.mem, r, n);
    }
  }

  /** Fork preserves meaning.  With enough free frames the child sees exactly the parent's pages,
      with the same low flag bits and the same contents; every frame of the child is fresh; the
      frames used are one root, one per page and one per table with a page below it; no other
      space and no held frame changes; and the child has the parent's kernel half. */
  lemma ForkPreservesMeaning(s: Phys, roots: set<nat>, slots: set<nat>, parent: nat)
    requires Separated(s, roots, slots) && UserSlots(slots) && parent in roots && LeavesHeld(s, parent)
    requires 1 + Needed(s.mem, parent, USER_PAGES) <= |s.free|
    ensures var (s', o) := CopySpace(s, parent);
            && o.Some? && o.value in s.free && o.value !in roots
            && Separated(s', roots + {o.value}, slots)
            && UserView(s', o.value) == UserView(s, parent)
            && (forall n: nat {:trigger PteOf(s'.mem, o.value, n)} ::
                  n < USER_PAGES && Present(PteOf(s'.mem, o.value, n)) ==>
                    && FrameOf(PteOf(s'.mem, o.value, n)) in s.free
                    && PteOf(s'.mem, o.value, n) < MAX_FRAMES * 4096)
            && (forall q {:trigger TableAt(s'.mem, o.value, q)} ::
                  1 <= |q| <= 3 && q[0] < KERNEL_PML4_START && TableAt(s'.mem, o.value, q).Some?
                  ==> TableAt(s'.mem, o.value, q).value in s.free)
            && ChildFresh(s', roots + {o.value}, slots, o.value)
            && LeavesHeld(s', o.value)
            && |s.free| - |s'.free| == 1 + Needed(s.mem, parent, USER_PAGES)
            && ForkFramed(s, s', roots, slots)
            && SameKernelHalf(s'.mem, slots, parent, o.value)
  {
    ForkSharesKernelHalf(s, roots, slots, parent);
    NewSpaceStartsCopy(s, roots, slots, parent);
    var (s0, o) := NewSpace(s, parent);
    var child := s.free[0];
    CopyLoop(s0, roots + {child}, slots, parent, child, USER_PAGES);
    var s' := CopyBelow(s0, parent, child, USER_PAGES).0;
    ForkConclusions(s, s0, s', roots, slots, parent, child);
    hide Separated, OthersKept, ChildPages, ChildTables, ChildFresh, LeavesHeld, CopyStart, Needed, UserView, PteOf,
      TableAt, ForkFramed,
      FrameOf, Present, CopyBelow, NewSpace, SameKernelHalf;
  }

  lemma ForkConclusions(s: Phys, s0: Phys, s': Phys, roots: set<nat>, slots: set<nat>, parent: nat, child: nat)
    requires CopyStart(s0, roots + {child}, slots, parent, child)
    requires Copied(s0, s', roots + {child}, slots, parent, child, USER_PAGES)
    requires SamePtes(s.mem, s0.mem, roots, slots) && parent in roots && child !in roots
    requires s.free != [] && child == s.free[0] && s0.free == s.free[1..] && |s0.mem| == |s.mem|
    requires forall x: nat {:trigger s0.mem[x]} :: x < |s.mem| && x != child ==> s0.mem[x] == s.mem[x]
    ensures UserView(s', child) == UserView(s, parent)
    ensures ForkFramed(s, s', roots, slots)
    ensures LeavesHeld(s', child)
    ensures forall n: nat {:trigger PteOf(s'.mem, child, n)} :: n < USER_PAGES && Present(PteOf(s'.mem, child, n)) ==>
              FrameOf(PteOf(s'.mem, child, n)) in s.free && PteOf(s'.mem, child, n) < MAX_FRAMES * 4096
    ensures forall q {:trigger TableAt(s'.mem, child, q)} ::
              1 <= |q| <= 3 && q[0] < KERNEL_PML4_START && TableAt(s'.mem, child, q).Some?
              ==> TableAt(s'.mem, child, q).value in s.free
  {
    hide Separated, ChildFresh, Needed, UserView, PteOf, TableAt, TablesFor;
    CopiedView(s, s0, s', roots + {child}, slots, parent, child);
    CopiedFrame(s, s0, s', roots, slots, child);
  }

  /** The copy is complete exactly when there were enough frames.  Without them vmm_map fails
      silently, so a child may be returned that lacks pages of its parent. */
  lemma ForkCompleteIffEnough(s: Phys, roots: set<nat>, slots: set<nat>, parent: nat)
    requires Separated(s, roots, slots) && UserSlots(slots) && parent in roots && LeavesHeld(s, parent)
    ensures var (s', o) := CopySpace(s, parent);
            (o.Some? && UserView(s', o.value) == UserView(s, parent))
            <==> 1 + Needed(s.mem, parent, USER_PAGES) <= |s.free|
  {
    if 1 + Needed(s.mem, parent, USER_PAGES) <= |s.free| {
      ForkPreservesMeaning(s, roots, slots, parent);
    } else if s.free != [] {
      NewSpaceStartsCopy(s, roots, slots, parent);
      var (s0, o) := NewSpace(s, parent);
      var child := s.free[0];
      var n := CopyShort(s0, roots + {child}, slots, parent, child);
      var (s', ok) := CopyBelow(s0, parent, child, USER_PAGES);
      if ok {
        LostFromView(s, s0, s', roots, slots, parent, child, n);
      }
    }
    hide UserView, Needed, CopyBelow, NewSpace, Separated, LeavesHeld;
  }

  lemma LostFromView(s: Phys, s0: Phys, s': Phys, roots: set<nat>, slots: set<nat>, parent: nat, child: nat, n: nat)
    requires Lost(s0, s', parent, child, n) && LeavesHeld(s, parent) && UserSlots(slots) && parent in roots
    requires SamePtes(s.mem, s0.mem, roots, slots)
    ensures n in UserView(s, parent) && n !in UserView(s', child)
  {
    UserPage(slots, n);
  }

  // ----- skipping unmapped ranges

  /** The loops skip a table that is not present; so does the page-by-page copy. */
  lemma {:induction false} CopySkip(s0: Phys, parent: nat, child: nat, j: nat, k: nat)
    requires child < |s0.mem| <= MAX_FRAMES && FreeListOk(s0) && j <= k <= USER_PAGES
    requires forall n {:trigger PteOf(CopyBelow(s0, parent, child, j).0.mem, parent, n)} ::
               j <= n < k ==> !Present(PteOf(CopyBelow(s0, parent, child, j).0.mem, parent, n))
    ensures CopyBelow(s0, parent, child, k) == CopyBelow(s0, parent, child, j)
    decreases k
  {
    hide PteOf, VmmMap, CopyBelow, Present;
    if j < k {
      CopySkip(s0, parent, child, j, k - 1);
      CopyAbsent(s0, parent, child, k - 1);
    }
  }

  lemma CopyAbsent(s0: Phys, parent: nat, child: nat, k: nat)
    requires child < |s0.mem| <= MAX_FRAMES && FreeListOk(s0) && k < USER_PAGES
    requires !Present(PteOf(CopyBelow(s0, parent, child, k).0.mem, parent, k))
    ensures CopyBelow(s0, parent, child, k + 1) == CopyBelow(s0, parent, child, k)
  {
    hide PteOf, VmmMap;
  }

  /** Exactly one page, and frames for the child's root and the page but not for its three
      tables: the copy reports success and the child has no page at all. */
  lemma SilentLoss(s: Phys, roots: set<nat>, slots: set<nat>, parent: nat, n: nat)
    requires Separated(s, roots, slots) && UserSlots(slots) && parent in roots && LeavesHeld(s, parent)
    requires n < USER_PAGES && Pages(s.mem, parent, USER_PAGES) == {n}
    requires 2 <= |s.free| <= 4
    ensures CopySpace(s, parent).1.Some?
    ensures UserView(CopySpace(s, parent).0, CopySpace(s, parent).1.value) != UserView(s, parent)
  {
    NewSpaceStartsCopy(s, roots, slots, parent);
    var (s0, o) := NewSpace(s, parent);
    var child := s.free[0];
    OnlyPage(s, s0, slots, parent, n);
    SilentCopy(s0, roots + {child}, slots, parent, child, n);
    OnePageNeeds(s.mem, parent, n);
    hide UserView, Needed, CopyBelow, NewSpace, Separated, LeavesHeld;
    ForkCompleteIffEnough(s, roots, slots, parent);
  }

  lemma SilentCopy(s0: Phys, roots: set<nat>, slots: set<nat>, parent: nat, child: nat, n: nat)
    requires CopyStart(s0, roots, slots, parent, child) && s0.free != [] && n < USER_PAGES
    requires forall k: nat {:trigger PteOf(s0.mem, parent, k)} :: k < USER_PAGES ==>
               (Present(PteOf(s0.mem, parent, k)) <==> k == n)
    ensures child < |s0.mem| <= MAX_FRAMES && FreeListOk(s0)
    ensures CopyBelow(s0, parent, child, USER_PAGES).1
  {
    StartsWellFormed(s0, roots, slots, parent, child);
    hide CopyStart, PteOf, Separated, VmmMap, Copied;
    assert CopyBelow(s0, parent, child, 0) == (s0, true);
    CopySkip(s0, parent, child, 0, n);
    CopyBelowStep(s0, parent, child, n);
    assert CopyPage(s0, parent, child, n).1;
    SilentRest(s0, roots, slots, parent, child, n);
  }

  lemma SilentRest(s0: Phys, roots: set<nat>, slots: set<nat>, parent: nat, child: nat, n: nat)
    requires CopyStart(s0, roots, slots, parent, child) && n < USER_PAGES
    requires forall k: nat {:trigger PteOf(s0.mem, parent, k)} :: k < USER_PAGES ==>
               (Present(PteOf(s0.mem, parent, k)) <==> k == n)
    ensures child < |s0.mem| <= MAX_FRAMES && FreeListOk(s0)
    ensures CopyBelow(s0, parent, child, USER_PAGES) == CopyBelow(s0, parent, child, n + 1)
  {
    hide PteOf, CopyBelow, CopyStart;
    StartsWellFormed(s0, roots, slots, parent, child);
    var m := CopyBelow(s0, parent, child, n + 1).0.mem;
    forall k: nat {:trigger PteOf(m, parent, k)} | n + 1 <= k < USER_PAGES
      ensures !Present(PteOf(m, parent, k))
    {
      ParentKept(s0, roots, slots, parent, child, n + 1, k);
    }
    CopySkip(s0, parent, child, n + 1, USER_PAGES);
  }

  lemma ParentKept(s0: Phys, roots: set<nat>, slots: set<nat>, parent: nat, child: nat, k: nat, n: nat)
    requires CopyStart(s0, roots, slots, parent, child) && k <= USER_PAGES && n < USER_PAGES
    requires child < |s0.mem| <= MAX_FRAMES && FreeListOk(s0)
    ensures PteOf(CopyBelow(s0, parent, child, k).0.mem, parent, n) == PteOf(s0.mem, parent, n)
  {
    CopyKeepsSpaces(s0, roots, slots, parent, child, k);
    hide PteOf, CopyBelow, KernelTablesKept, Separated;
    UserPage(slots, n);
  }

  lemma OnlyPage(s: Phys, s0: Phys, slots: set<nat>, parent: nat, n: nat)
    requires SamePtes(s.mem, s0.mem, {parent}, slots) && UserSlots(slots)
    requires n < USER_PAGES && Pages(s.mem, parent, USER_PAGES) == {n}
    ensures Pages(s0.mem, parent, USER_PAGES) == {n}
    ensures forall k: nat {:trigger PteOf(s0.mem, parent, k)} :: k < USER_PAGES ==>
              (Present(PteOf(s0.mem, parent, k)) <==> k == n)
  {
    forall k: nat | k < USER_PAGES ensures Present(PteOf(s0.mem, parent, k)) <==> k == n {
      UserPage(slots, k);
      assert k in Pages(s.mem, parent, USER_PAGES) <==> k == n;
    }
  }

  lemma OnePageNeeds(m: Memory, r: nat, n: nat)
    requires Pages(m, r, USER_PAGES) == {n}
    ensures Needed(m, r, USER_PAGES) == 4
  {
    var p := PathOf(n);
    assert TablesFor({n}) == {} + NonemptyPrefixes(p);
    AddPrefixes({}, p);
    AllMissing(p);
  }

  lemma {:induction false} AllMissing(p: Path)
    ensures MissingFrom({}, p) == |p|
    decreases |p|
  {
    if p != [] { AllMissing(p[..|p| - 1]); }
  }

  // ----- the other spaces during the copy, with or without enough frames

  ghost predicate SpacesKept(s0: Phys, s: Phys, roots: set<nat>, slots: set<nat>, child: nat) {
    && Separated(s, roots, slots)
    && LeavesHeld(s, child)
    && (forall x :: x in s.free ==> x in s0.free)
    && SamePtes(s0.mem, s.mem, roots - {child}, slots)
    && (forall r, q {:trigger TableAt(s.mem, r, q)} :: r in roots - {child} && Tracked(slots, q)
          ==> TableAt(s.mem, r, q) == TableAt(s0.mem, r, q))
    && KernelTablesKept(s0.mem, s.mem, slots, child)
  }

  predicate KernelPath(slots: set<nat>, q: Path) { Tracked(slots, q) && q != [] && q[0] >= KERNEL_PML4_START }

  ghost predicate KernelTablesKept(m: Memory, m': Memory, slots: set<nat>, r: nat) {
    forall q {:trigger TableAt(m', r, q)} :: KernelPath(slots, q) ==> TableAt(m', r, q) == TableAt(m, r, q)
  }

  lemma {:induction false} CopyKeepsSpaces(s0: Phys, roots: set<nat>, slots: set<nat>, parent: nat, child: nat, k: nat)
    requires CopyStart(s0, roots, slots, parent, child) && k <= USER_PAGES
    ensures child < |s0.mem| <= MAX_FRAMES && FreeListOk(s0)
    ensures SpacesKept(s0, CopyBelow(s0, parent, child, k).0, roots, slots, child)
    decreases k
  {
    hide *;
    SpacesKeptAtStart(s0, roots, slots, parent, child);
    if k > 0 {
      CopyKeepsSpaces(s0, roots, slots, parent, child, k - 1);
      SpacesKeptStep(s0, roots, slots, parent, child, k - 1);
    }
  }

  lemma SpacesKeptAtStart(s0: Phys, roots: set<nat>, slots: set<nat>, parent: nat, child: nat)
    requires CopyStart(s0, roots, slots, parent, child)
    ensures child < |s0.mem| <= MAX_FRAMES && FreeListOk(s0)
    ensures SpacesKept(s0, CopyBelow(s0, parent, child, 0).0, roots, slots, child)
  {
    forall n: nat | n < USER_PAGES ensures PteOf(s0.mem, child, n) == 0 {
      UserPage(slots, n);
      assert TableAt(s0.mem, child, PathOf(n)).None?;
    }
  }

  lemma SpacesKeptStep(s0: Phys, roots: set<nat>, slots: set<nat>, parent: nat, child: nat, k: nat)
    requires CopyStart(s0, roots, slots, parent, child) && k < USER_PAGES
    requires child < |s0.mem| <= MAX_FRAMES && FreeListOk(s0)
    requires SpacesKept(s0, CopyBelow(s0, parent, child, k).0, roots, slots, child)
    ensures SpacesKept(s0, CopyBelow(s0, parent, child, k + 1).0, roots, slots, child)
  {
    hide CopyStart, SpacesKept, CopyPage;
    PageKeepsSpaces(s0, CopyBelow(s0, parent, child, k).0, roots, slots, parent, child, k);
  }

  lemma PageKeepsSpaces(s0: Phys, s: Phys, roots: set<nat>, slots: set<nat>, parent: nat, child: nat, n: nat)
    requires CopyStart(s0, roots, slots, parent, child) && SpacesKept(s0, s, roots, slots, child)
    requires |s.mem| == |s0.mem| && n < USER_PAGES
    ensures child < |s.mem| <= MAX_FRAMES && FreeListOk(s)
    ensures SpacesKept(s0, CopyPage(s, parent, child, n).0, roots, slots, child)
  {
    UserPage(slots, n);
    var o := PteOf(s.mem, parent, n);
    if Present(o) && s.free != [] {
      assert o == PteOf(s0.mem, parent, n);
      FillKeeps(s, roots, slots, o);
      var s1, g := Filled(s, o), s.free[0];
      MapKeepsSpaces(s1, roots, slots, child, n, g, o % 4096);
      var s2 := VmmMap(s1, child, n * 4096, g * 4096, o % 4096);
      hide Separated, VmmMap, TableAt;
      forall r, k | r in roots - {child} && TrackedPage(slots, k) ensures PteOf(s2.mem, r, k) == PteOf(s0.mem, r, k) {
        assert PteOf(s1.mem, r, k) == PteOf(s.mem, r, k);
      }
      FilledHeld(s, s1, s2, roots, slots, child, g);
    }
  }

  lemma FilledHeld(s: Phys, s1: Phys, s2: Phys, roots: set<nat>, slots: set<nat>, child: nat, g: nat)
    requires LeavesHeld(s, child) && UserSlots(slots) && child in roots && SamePtes(s.mem, s1.mem, roots, slots)
    requires |s2.mem| == |s.mem| && g < |s.mem| && g !in s2.free && (forall x :: x in s2.free ==> x in s.free)
    requires forall k: nat {:trigger PteOf(s2.mem, child, k)} :: TrackedPage(slots, k) ==>
               PteOf(s2.mem, child, k) == PteOf(s1.mem, child, k) || FrameOf(PteOf(s2.mem, child, k)) == g
    ensures LeavesHeld(s2, child)
  {
    hide FrameOf, PteOf;
    forall k: nat | k < USER_PAGES && Present(PteOf(s2.mem, child, k))
      ensures FrameOf(PteOf(s2.mem, child, k)) < |s2.mem| && FrameOf(PteOf(s2.mem, child, k)) !in s2.free
    {
      UserPage(slots, k);
      assert PteOf(s1.mem, child, k) == PteOf(s.mem, child, k);
    }
  }

  /** What one vmm_map into the child leaves alone. */
  lemma MapKeepsSpaces(s1: Phys, roots: set<nat>, slots: set<nat>, child: nat, n: nat, g: nat, flags: nat)
    requires Separated(s1, roots, slots) && UserSlots(slots) && child in roots
    requires n < USER_PAGES && g < |s1.mem| && flags < 4096
    ensures child < |s1.mem| <= MAX_FRAMES && FreeListOk(s1)
    ensures var s2 := VmmMap(s1, child, n * 4096, g * 4096, flags);
            && Separated(s2, roots, slots) && (forall x :: x in s2.free ==> x in s1.free)
            && SamePtes(s1.mem, s2.mem, roots - {child}, slots)
            && (forall r, q {:trigger TableAt(s2.mem, r, q)} :: r in roots - {child} && Tracked(slots, q)
                  ==> TableAt(s2.mem, r, q) == TableAt(s1.mem, r, q))
            && KernelTablesKept(s1.mem, s2.mem, slots, child)
            && (forall k: nat {:trigger PteOf(s2.mem, child, k)} :: TrackedPage(slots, k) ==>
                  PteOf(s2.mem, child, k) == PteOf(s1.mem, child, k) || FrameOf(PteOf(s2.mem, child, k)) == g)
  {
    hide Separated, VmmMap, MakePte, FrameOf, CanMap, Missing, TablesFromFree, FramesKept, PteOf, Vpn, Index3,
      Index2, Present;
    UserPage(slots, n);
    SeparatedBasics(s1, roots, slots, child);
    SmallFlags(g, flags);
    MapRefines(s1, roots, slots, child, n * 4096, g * 4096, flags);
    MapFrames(s1, roots, slots, child, n * 4096, g * 4096, flags);
    forall q | KernelPath(slots, q)
      ensures var s2 := VmmMap(s1, child, n * 4096, g * 4096, flags);
              TableAt(s2.mem, child, q) == TableAt(s1.mem, child, q)
    {
      assert !(q <= PathOf(n));
    }
  }

  // ----- the child's kernel half

  /** Spaces r1 and r2 have the same kernel half: the same tables behind the same tracked slots,
      so the same translation of every page under them. */
  ghost predicate SameKernelHalf(m: Memory, slots: set<nat>, r1: nat, r2: nat) {
    && (forall q {:trigger TableAt(m, r2, q)} :: KernelPath(slots, q) ==> TableAt(m, r2, q) == TableAt(m, r1, q))
    && (forall n: nat {:trigger PteOf(m, r2, n)} :: TrackedPage(slots, n) && n >= USER_PAGES ==>
          PteOf(m, r2, n) == PteOf(m, r1, n))
  }

  lemma KernelPage(n: nat)
    requires USER_PAGES <= n < PAGES
    ensures Index4(n) >= KERNEL_PML4_START
  {
    var c := n / 512;
    assert c >= 0x400_0000;
    assert c / 512 >= 0x2_0000;
  }

  /** A copied space, complete or not, has its parent's kernel half. */
  lemma ForkSharesKernelHalf(s: Phys, roots: set<nat>, slots: set<nat>, parent: nat)
    requires Separated(s, roots, slots) && UserSlots(slots) && parent in roots && LeavesHeld(s, parent)
    ensures parent < |s.mem| <= MAX_FRAMES && FreeListOk(s)
    ensures var (s', o) := CopySpace(s, parent);
            o.Some? ==>
              && SameKernelHalf(s'.mem, slots, parent, o.value)
              && forall q {:trigger TableAt(s'.mem, parent, q)} :: KernelPath(slots, q)
                   ==> TableAt(s'.mem, parent, q) == TableAt(s.mem, parent, q)
  {
    SeparatedBasics(s, roots, slots, parent);
    if s.free != [] {
      NewSpaceStartsCopy(s, roots, slots, parent);
      var (s0, o) := NewSpace(s, parent);
      var child := o.value;
      CopyKeepsSpaces(s0, roots + {child}, slots, parent, child, USER_PAGES);
      var s' := CopyBelow(s0, parent, child, USER_PAGES).0;
      hide Separated, LeavesHeld, NewSpace, CopyBelow, TableAt, CopyStart, SamePtes, Needed;
      forall q | KernelPath(slots, q)
        ensures TableAt(s'.mem, child, q) == TableAt(s.mem, parent, q)
        ensures TableAt(s'.mem, parent, q) == TableAt(s.mem, parent, q)
      {
        assert parent in roots + {child} - {child};
        NewTables(s, roots, slots, parent, child, q);
        NewTables(s, roots, slots, parent, parent, q);
      }
      forall n: nat | TrackedPage(slots, n) && n >= USER_PAGES
        ensures PteOf(s'.mem, child, n) == PteOf(s'.mem, parent, n)
      {
        KernelPage(n);
        assert KernelPath(slots, PathOf(n));
      }
    }
  }

  // ----- when a copy is given up

  /** The copy reaches page n of space r with every one of its frames taken. */
  ghost predicate Starved(m: Memory, r: nat, frames: nat, n: nat) {
    n < USER_PAGES && Present(PteOf(m, r, n)) && Needed(m, r, n) >= frames
  }

  lemma PageOutcome(s: Phys, parent: nat, child: nat, n: nat)
    requires child < |s.mem| <= MAX_FRAMES && FreeListOk(s) && n < USER_PAGES
    ensures CopyPage(s, parent, child, n).1 <==> !Present(PteOf(s.mem, parent, n)) || s.free != []
    ensures !Present(PteOf(s.mem, parent, n)) || s.free == [] ==> CopyPage(s, parent, child, n).0 == s
  {
    hide VmmMap, PteOf;
  }

  /** The loops go on exactly while no page is reached without a frame; once the frames do not
      suffice none is left. */
  ghost predicate GoesOn(s0: Phys, parent: nat, child: nat, k: nat)
    requires child < |s0.mem| <= MAX_FRAMES && FreeListOk(s0) && k <= USER_PAGES
  {
    var (s, ok) := CopyBelow(s0, parent, child, k);
    && (ok <==> forall n: nat :: n < k ==> !Starved(s0.mem, parent, |s0.free|, n))
    && (ok && Needed(s0.mem, parent, k) > |s0.free| ==> s.free == [])
  }

  lemma FramesLeft(s0: Phys, roots: set<nat>, slots: set<nat>, parent: nat, child: nat, k: nat)
    requires CopyStart(s0, roots, slots, parent, child) && k <= USER_PAGES && Needed(s0.mem, parent, k) <= |s0.free|
    ensures child < |s0.mem| <= MAX_FRAMES && FreeListOk(s0)
    ensures var (s, ok) := CopyBelow(s0, parent, child, k); ok && |s.free| == |s0.free| - Needed(s0.mem, parent, k)
  {
    hide Needed, PteOf, CopyStart, CopyBelow;
    CopyLoop(s0, roots, slots, parent, child, k);
  }

  lemma {:induction false} CopyGoesOn(s0: Phys, roots: set<nat>, slots: set<nat>, parent: nat, child: nat, k: nat)
    requires CopyStart(s0, roots, slots, parent, child) && k <= USER_PAGES
    ensures child < |s0.mem| <= MAX_FRAMES && FreeListOk(s0) && GoesOn(s0, parent, child, k)
    decreases k
  {
    hide Needed, PteOf, CopyStart, CopyPage, CopiedBelow, Present, Starved, Lost;
    StartsWellFormed(s0, roots, slots, parent, child);
    if k == 0 {
      NothingNeeded(s0.mem, parent);
    } else {
      var j := k - 1;
      CopyGoesOn(s0, roots, slots, parent, child, j);
      var s := CopyBelow(s0, parent, child, j).0;
      ParentKept(s0, roots, slots, parent, child, j, j);
      PageOutcome(s, parent, child, j);
      NeededGrows(s0.mem, parent, j, k);
      StarvedIff(s0.mem, parent, |s0.free|, j);
      if Needed(s0.mem, parent, j) <= |s0.free| {
        FramesLeft(s0, roots, slots, parent, child, j);
        if Needed(s0.mem, parent, k) > |s0.free| {
          CopyLoop(s0, roots, slots, parent, child, j);
          ShortBelow(s0, roots, slots, parent, child, j);
        }
      }
    }
  }

  lemma StarvedIff(m: Memory, r: nat, frames: nat, n: nat)
    requires n < USER_PAGES
    ensures Starved(m, r, frames, n) <==> Present(PteOf(m, r, n)) && Needed(m, r, n) >= frames
  {
  }

  /** A copy is given up exactly when there is no frame for the root, or some page of the parent is
      reached when the root and the pages before it have taken, or wanted, every free frame. */
  lemma ForkFailsIff(s: Phys, roots: set<nat>, slots: set<nat>, parent: nat)
    requires Separated(s, roots, slots) && UserSlots(slots) && parent in roots && LeavesHeld(s, parent)
    ensures parent < |s.mem| <= MAX_FRAMES && FreeListOk(s)
    ensures CopySpace(s, parent).1.None? <==>
            s.free == [] || exists n: nat :: n < USER_PAGES && Present(PteOf(s.mem, parent, n))
                                             && 1 + Needed(s.mem, parent, n) >= |s.free|
  {
    SeparatedBasics(s, roots, slots, parent);
    if s.free != [] {
      NewSpaceStartsCopy(s, roots, slots, parent);
      var (s0, o) := NewSpace(s, parent);
      CopyGoesOn(s0, roots + {o.value}, slots, parent, o.value, USER_PAGES);
      hide Separated, LeavesHeld, NewSpace, CopyBelow, CopyStart, Needed, PteOf, Present;
      forall n: nat | n < USER_PAGES
        ensures Starved(s0.mem, parent, |s0.free|, n) <==>
                Present(PteOf(s.mem, parent, n)) && 1 + Needed(s.mem, parent, n) >= |s.free|
      {
        SamePages(s, s0, roots, slots, parent, n);
      }
    }
  }

  lemma SamePages(s: Phys, s0: Phys, roots: set<nat>, slots: set<nat>, r: nat, n: nat)
    requires SamePtes(s.mem, s0.mem, roots, slots) && r in roots && UserSlots(slots) && n < USER_PAGES
    ensures PteOf(s0.mem, r, n) == PteOf(s.mem, r, n) && Needed(s0.mem, r, n) == Needed(s.mem, r, n)
  {
    hide PteOf, TablesFor;
    forall k: nat | k < USER_PAGES ensures PteOf(s0.mem, r, k) == PteOf(s.mem, r, k) {
      UserPage(slots, k);
    }
    assert Pages(s0.mem, r, n) == Pages(s.mem, r, n);
  }
}

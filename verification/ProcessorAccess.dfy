/** Access as the processor decides it: a user-mode access goes through four entries, and every one
    of them must be present and user-accessible, and writable for a write (section 4.6 of volume 3A
    of the Intel SDM).  vmm_walk (kernel/src/paging.c) links tables with all three bits set, so for
    user pages the leaf entry alone decides. */
module ProcessorAccess {
  import opened Words
  import opened PageTableEntries
  import opened PhysicalMemory
  import opened PageTables
  import opened AddressSpaces
  import opened ForkCopy
  import opened UserAccess
  import opened Isolation
  import opened UserMemory
  import opened ElfImage
  import opened ElfLoader

  /** Bits 0, 2 and, for a write, 1 of an entry are set. */
  predicate LetsThrough(e: nat, write: bool) {
    e % 2 == 1 && e / 4 % 2 == 1 && (write ==> e / 2 % 2 == 1)
  }

  /** The walk of the processor for a user-mode access to page n of space r. */
  ghost predicate ProcessorAllows(m: Memory, r: nat, n: nat, write: bool) {
    var p := PathOf(n);
    && TableAt(m, r, p).Some?
    && Passes(m, r, [], p[0], write) && Passes(m, r, [p[0]], p[1], write) && Passes(m, r, [p[0], p[1]], p[2], write)
    && LetsThrough(Ent(m, TableAt(m, r, p).value, Index1(n)), write)
  }

  /** Entry i of the table at path q lets the access through. */
  ghost predicate Passes(m: Memory, r: nat, q: Path, i: nat, write: bool) {
    TableAt(m, r, q).Some? && i < 512 && LetsThrough(Ent(m, TableAt(m, r, q).value, i), write)
  }

  /** Every entry that leads to a user-half table has its three low bits set. */
  ghost predicate OpenTables(m: Memory, roots: set<nat>) {
    forall r, q, i: nat {:trigger OpenEntry(m, r, q, i)} :: r in roots && UserTable(q, i) ==> OpenEntry(m, r, q, i)
  }

  /** Entry i of a table at path q is one that leads to a user-half table. */
  predicate UserTable(q: Path, i: nat) { |q| < 3 && i < 512 && (q + [i])[0] < KERNEL_PML4_START }

  ghost predicate OpenEntry(m: Memory, r: nat, q: Path, i: nat)
    requires i < 512
  {
    TableAt(m, r, q).Some? && Ent(m, TableAt(m, r, q).value, i) % 2 == 1 ==>
      Ent(m, TableAt(m, r, q).value, i) % 8 == 7
  }

  lemma ThreeBits(e: nat)
    requires e % 8 == 7
    ensures forall write :: LetsThrough(e, write)
  {
    var q := e / 8;
    Halve(4 * q, 7);
    Halve(2 * q, 3);
    Halve(q, 1);
    assert e == 2 * (4 * q) + 7;
    assert e / 2 == 2 * (2 * q) + 3 && e / 4 == e / 2 / 2;
  }

  lemma UserPaths(slots: set<nat>, n: nat)
    requires UserSlots(slots) && n < USER_PAGES
    ensures var p := PathOf(n);
            && UserTable([], p[0]) && UserTable([p[0]], p[1]) && UserTable([p[0], p[1]], p[2])
            && p == [p[0], p[1]] + [p[2]] && [p[0], p[1]] == [p[0]] + [p[1]] && [p[0]] == [] + [p[0]]
            && Index1(n) < 512
  {
    UserPage(slots, n);
    PageAtIndices(n);
  }

  /** A table on a path is reached through a present entry. */
  lemma Reached(m: Memory, r: nat, q: Path, i: nat)
    requires TableAt(m, r, q + [i]).Some?
    ensures TableAt(m, r, q).Some? && i < 512 && Ent(m, TableAt(m, r, q).value, i) % 2 == 1
  {
    TableAtSnoc(m, r, q, i);
  }

  lemma Through(m: Memory, roots: set<nat>, r: nat, q: Path, i: nat, write: bool)
    requires OpenTables(m, roots) && r in roots && UserTable(q, i) && TableAt(m, r, q + [i]).Some?
    ensures Passes(m, r, q, i, write)
  {
    Reached(m, r, q, i);
    assert OpenEntry(m, r, q, i);
    ThreeBits(Ent(m, TableAt(m, r, q).value, i));
  }

  /** For user pages the processor allows exactly what the leaf entry allows. */
  lemma LeafDecides(m: Memory, roots: set<nat>, slots: set<nat>, r: nat, n: nat, write: bool)
    requires OpenTables(m, roots) && UserSlots(slots) && r in roots && n < USER_PAGES
    ensures ProcessorAllows(m, r, n, write) <==> Allows(PteOf(m, r, n), write)
  {
    var p := PathOf(n);
    UserPaths(slots, n);
    if TableAt(m, r, p).Some? {
      Reached(m, r, [p[0], p[1]], p[2]);
      Reached(m, r, [p[0]], p[1]);
      Through(m, roots, r, [], p[0], write);
      Through(m, roots, r, [p[0]], p[1], write);
      Through(m, roots, r, [p[0], p[1]], p[2], write);
    }
  }

  /** So the range check says yes exactly when the processor would let the program itself make the
      access, byte by byte. */
  lemma CheckIsProcessor(m: Memory, roots: set<nat>, slots: set<nat>, r: nat, uva: nat, len: nat, write: bool)
    requires OpenTables(m, roots) && UserSlots(slots) && r in roots && uva + len <= USER_TOP
    ensures RangeOk(m, r, uva, len, write) <==>
              forall x: nat {:trigger Vpn(x)} :: uva <= x < uva + len ==> ProcessorAllows(m, r, Vpn(x), write)
  {
    forall x: nat | uva <= x < uva + len
      ensures Vpn(x) < USER_PAGES && (ByteOk(m, r, x, write) <==> ProcessorAllows(m, r, Vpn(x), write))
    {
      assert Vpn(x) < USER_PAGES;
      LeafDecides(m, roots, slots, r, Vpn(x), write);
    }
    hide ProcessorAllows, ByteOk, Vpn;
    if forall x: nat {:trigger Vpn(x)} :: uva <= x < uva + len ==> ProcessorAllows(m, r, Vpn(x), write) {
      forall x: nat | uva <= x < uva + len ensures ByteOk(m, r, x, write) {
        assert ProcessorAllows(m, r, Vpn(x), write);
      }
    }
  }

  // ----- the operations keep tables open

  lemma LinkedOpen(s: Phys, roots: set<nat>, slots: set<nat>, r: nat, p: Path, f: nat, i: nat)
    requires Separated(s, roots, slots) && UserSlots(slots) && r in roots && OpenTables(s.mem, roots)
    requires |p| < 3 && Tracked(slots, p + [i]) && i < 512 && TableAt(s.mem, r, p) == Some(f)
    requires !Present(Ent(s.mem, f, i)) && s.free != []
    ensures OpenTables(Linked(s.mem, f, i, s.free[0]), roots)
  {
    var g := s.free[0];
    var m' := Linked(s.mem, f, i, g);
    forall r2, q, j: nat | r2 in roots && UserTable(q, j) ensures OpenEntry(m', r2, q, j) {
      assert Tracked(slots, q);
      LinkedTables(s, roots, slots, r, p, f, i, g, r2, q);
      if TableAt(m', r2, q).Some? {
        assert Tracked(slots, p);
        LinkedEnt(s.mem, f, i, g, TableAt(m', r2, q).value, j);
        NewTableEntry(g);
        assert OpenEntry(s.mem, r2, q, j);
      }
    }
  }

  lemma NewTableEntry(g: nat)
    requires g < MAX_FRAMES
    ensures MakePte(g * 4096, TABLE_FLAGS) % 8 == 7
  {
    SmallFlags(g, TABLE_FLAGS);
    assert g * 4096 + 7 == 8 * (g * 512) + 7;
  }

  lemma {:induction false} WalkOpen(s: Phys, roots: set<nat>, slots: set<nat>, r: nat, p: Path)
    requires Separated(s, roots, slots) && UserSlots(slots) && r in roots && Tracked(slots, p) && ValidPath(p)
    requires OpenTables(s.mem, roots)
    ensures r < |s.mem| <= MAX_FRAMES && FreeListOk(s) && OpenTables(WalkCreate(s, r, p).0.mem, roots)
    decreases |p|
  {
    hide Separated, OpenTables, Linked, TableAt;
    SeparatedBasics(s, roots, slots, r);
    if p != [] {
      var p0, i := p[..|p| - 1], p[|p| - 1];
      assert p == p0 + [i];
      WalkOpen(s, roots, slots, r, p0);
      WalkGrows(s, roots, slots, r, p0);
      var (s1, o1) := WalkCreate(s, r, p0);
      if o1.Some? && !Present(Ent(s1.mem, o1.value, i)) && s1.free != [] {
        LinkedOpen(s1, roots, slots, r, p0, o1.value, i);
      }
    }
  }

  lemma LeafOpen(s: Phys, roots: set<nat>, slots: set<nat>, r: nat, p: Path, f: nat, i: nat, w: Word)
    requires Separated(s, roots, slots) && UserSlots(slots) && r in roots && OpenTables(s.mem, roots)
    requires |p| == 3 && Tracked(slots, p) && TableAt(s.mem, r, p) == Some(f) && i < 512
    ensures OpenTables(PutEnt(s.mem, f, i, w), roots)
  {
    var m' := PutEnt(s.mem, f, i, w);
    forall r2, q, j: nat | r2 in roots && UserTable(q, j) ensures OpenEntry(m', r2, q, j) {
      assert Tracked(slots, q);
      LeafKeepsTables(s.mem, roots, slots, r, p, f, i, w, r2, q);
      if TableAt(s.mem, r2, q).Some? {
        EntPut(s.mem, f, i, w, TableAt(s.mem, r2, q).value, j);
        assert OpenEntry(s.mem, r2, q, j);
      }
    }
  }

  lemma MapOpen(s: Phys, roots: set<nat>, slots: set<nat>, r: nat, va: Word, phys: Word, flags: Word)
    requires Separated(s, roots, slots) && UserSlots(slots) && r in roots && TrackedPage(slots, Vpn(va))
    requires OpenTables(s.mem, roots)
    ensures r < |s.mem| <= MAX_FRAMES && FreeListOk(s) && OpenTables(VmmMap(s, r, va, phys, flags).mem, roots)
  {
    hide Separated, OpenTables, TableAt, WalkCreate, MakePte;
    SeparatedBasics(s, roots, slots, r);
    var n := Vpn(va);
    PageAtIndices(n);
    assert Tracked(slots, PathOf(n)) && ValidPath(PathOf(n));
    WalkOpen(s, roots, slots, r, PathOf(n));
    WalkGrows(s, roots, slots, r, PathOf(n));
    var (s1, o) := WalkCreate(s, r, PathOf(n));
    if o.Some? {
      LeafOpen(s1, roots, slots, r, PathOf(n), o.value, Index1(n), MakePte(phys, flags));
    }
  }

  lemma UnmapOpen(s: Phys, roots: set<nat>, slots: set<nat>, r: nat, va: Word)
    requires Separated(s, roots, slots) && UserSlots(slots) && r in roots && TrackedPage(slots, Vpn(va))
    requires OpenTables(s.mem, roots)
    ensures OpenTables(VmmUnmap(s, r, va).mem, roots)
  {
    hide Separated, OpenTables, TableAt;
    var n := Vpn(va);
    PageAtIndices(n);
    var t := TableAt(s.mem, r, PathOf(n));
    if t.Some? {
      LeafOpen(s, roots, slots, r, PathOf(n), t.value, Index1(n), 0);
    }
  }

  lemma DataOpen(s: Phys, roots: set<nat>, slots: set<nat>, x: nat, c: Frame)
    requires Separated(s, roots, slots) && UserSlots(slots) && x < |s.mem| && NoTable(s.mem, roots, slots, x)
    requires OpenTables(s.mem, roots)
    ensures OpenTables(s.mem[x := c], roots)
  {
    var m' := s.mem[x := c];
    forall r, q, j: nat | r in roots && UserTable(q, j) ensures OpenEntry(m', r, q, j) {
      assert Tracked(slots, q);
      DataKeepsTables(s.mem, roots, slots, x, c, r, q);
      if TableAt(s.mem, r, q).Some? {
        EntFrame(s.mem, m', TableAt(s.mem, r, q).value, j);
        assert OpenEntry(s.mem, r, q, j);
      }
    }
  }

  lemma NewSpaceOpen(s: Phys, roots: set<nat>, slots: set<nat>, c: nat)
    requires Separated(s, roots, slots) && UserSlots(slots) && c in roots && s.free != [] && OpenTables(s.mem, roots)
    ensures c < |s.mem| && FreeListOk(s) && OpenTables(NewSpace(s, c).0.mem, roots + {s.free[0]})
  {
    SeparatedBasics(s, roots, slots, c);
    var m', g := NewSpace(s, c).0.mem, s.free[0];
    assert g in s.free;
    forall r, q, j: nat | r in roots + {g} && UserTable(q, j) ensures OpenEntry(m', r, q, j) {
      assert Tracked(slots, q);
      NewTables(s, roots, slots, c, r, q);
      NewEntry(s, roots, slots, c, r, q, j);
    }
  }

  /** An entry of a user-half table after a space was made: as before, or empty in the new root. */
  lemma NewEntry(s: Phys, roots: set<nat>, slots: set<nat>, c: nat, r: nat, q: Path, j: nat)
    requires Separated(s, roots, slots) && UserSlots(slots) && c in roots && s.free != [] && OpenTables(s.mem, roots)
    requires (r in roots || r == s.free[0]) && UserTable(q, j) && c < |s.mem| && FreeListOk(s)
    ensures OpenEntry(NewSpace(s, c).0.mem, r, q, j)
  {
    var m', g := NewSpace(s, c).0.mem, s.free[0];
    assert Tracked(slots, q) && Tracked(slots, []) && TableAt(s.mem, c, []) == Some(c);
    NewTables(s, roots, slots, c, r, q);
    var t := TableAt(m', r, q);
    if t.Some? {
      NewRootEnt(s, c, t.value, j);
      if r != g {
        assert OpenEntry(s.mem, r, q, j);
        assert t.value !in s.free;
      }
    }
  }

  lemma FewerOpen(m: Memory, roots: set<nat>, fewer: set<nat>)
    requires OpenTables(m, roots) && fewer <= roots
    ensures OpenTables(m, fewer)
  {
  }

  /** Zeroed memory, where runs can start, has no entry to mind. */
  lemma ZeroedOpen(m: Memory, root: nat)
    requires root < |m| && forall x :: 0 <= x < |m| ==> m[x] == ZeroFrame()
    ensures OpenTables(m, {root})
  {
    forall q, i: nat | UserTable(q, i) ensures OpenEntry(m, root, q, i) {
      ZeroTables(m, root, q);
      if q == [] { EntZero(m, root, i); }
    }
  }

  // ----- copies

  lemma CopyPageOpen(s: Phys, roots: set<nat>, slots: set<nat>, parent: nat, child: nat, n: nat)
    requires Separated(s, roots, slots) && UserSlots(slots) && child in roots && OpenTables(s.mem, roots)
    requires n < USER_PAGES
    requires Present(PteOf(s.mem, parent, n)) ==> FrameOf(PteOf(s.mem, parent, n)) < |s.mem|
    ensures child < |s.mem| <= MAX_FRAMES && FreeListOk(s) && OpenTables(CopyPage(s, parent, child, n).0.mem, roots)
  {
    hide Separated, OpenTables, TableAt, VmmMap, PteOf, NoTable, Present, FrameOf;
    SeparatedBasics(s, roots, slots, child);
    var o := PteOf(s.mem, parent, n);
    if Present(o) && s.free != [] {
      var g := s.free[0];
      FillKeeps(s, roots, slots, o);
      FreeFrame(s, roots, slots);
      DataOpen(s, roots, slots, g, s.mem[FrameOf(o)]);
      UserPage(slots, n);
      MapOpen(Filled(s, o), roots, slots, child, n * 4096, g * 4096, o % 4096);
    }
  }

  lemma FreeFrame(s: Phys, roots: set<nat>, slots: set<nat>)
    requires Separated(s, roots, slots) && s.free != []
    ensures NoTable(s.mem, roots, slots, s.free[0]) && s.free[0] < |s.mem|
  {
    assert s.free[0] in s.free;
  }

  lemma {:induction false} CopyOpen(s0: Phys, roots: set<nat>, slots: set<nat>, parent: nat, child: nat, k: nat)
    requires CopyStart(s0, roots, slots, parent, child) && k <= USER_PAGES && OpenTables(s0.mem, roots)
    ensures child < |s0.mem| <= MAX_FRAMES && FreeListOk(s0)
    ensures OpenTables(CopyBelow(s0, parent, child, k).0.mem, roots)
    decreases k
  {
    hide OpenTables, CopyPage, CopyStart;
    StartsWellFormed(s0, roots, slots, parent, child);
    if k > 0 {
      CopyOpen(s0, roots, slots, parent, child, k - 1);
      var r := CopyBelow(s0, parent, child, k - 1);
      if r.1 {
        CopyReady(s0, roots, slots, parent, child, k - 1);
        CopyPageOpen(r.0, roots, slots, parent, child, k - 1);
      }
    }
  }

  lemma CopyReady(s0: Phys, roots: set<nat>, slots: set<nat>, parent: nat, child: nat, n: nat)
    requires CopyStart(s0, roots, slots, parent, child) && n < USER_PAGES && child < |s0.mem| <= MAX_FRAMES
    requires FreeListOk(s0)
    ensures var s := CopyBelow(s0, parent, child, n).0;
            && Separated(s, roots, slots) && UserSlots(slots) && child in roots
            && (Present(PteOf(s.mem, parent, n)) ==> FrameOf(PteOf(s.mem, parent, n)) < |s.mem|)
  {
    CopyKeepsSpaces(s0, roots, slots, parent, child, n);
    ParentKept(s0, roots, slots, parent, child, n, n);
    hide CopyBelow, Separated, TableAt, PteOf, FrameOf, Present;
    assert PteOf(s0.mem, parent, n) == PteOf(s0.mem, parent, n);
  }

  lemma CopySpaceOpen(s: Phys, roots: set<nat>, slots: set<nat>, parent: nat)
    requires Separated(s, roots, slots) && UserSlots(slots) && parent in roots && LeavesHeld(s, parent)
    requires OpenTables(s.mem, roots)
    ensures parent < |s.mem| <= MAX_FRAMES && FreeListOk(s)
    ensures var (s', o) := CopySpace(s, parent); OpenTables(s'.mem, if o.Some? then roots + {o.value} else roots)
  {
    hide Separated, OpenTables, LeavesHeld, CopyBelow, CopyStart, NewSpace, Needed, SamePtes;
    SeparatedBasics(s, roots, slots, parent);
    if s.free == [] {
      NoNewSpace(s, parent);
    } else {
      NewSpaceStartsCopy(s, roots, slots, parent);
      NewSpaceOpen(s, roots, slots, parent);
      var (s0, o) := NewSpace(s, parent);
      CopyOpen(s0, roots + {o.value}, slots, parent, o.value, USER_PAGES);
      FewerOpen(CopyBelow(s0, parent, o.value, USER_PAGES).0.mem, roots + {o.value}, roots);
    }
  }

  // ----- runs of create, copy, map and unmap

  lemma StepOpen(w: World, slots: set<nat>, op: SpaceOp)
    requires WorldOk(w, slots) && OpOk(w, slots, op) && OpenTables(w.s.mem, w.roots)
    ensures var w' := Apply(w, slots, op); OpenTables(w'.s.mem, w'.roots)
  {
    hide Separated, OpenTables, LeavesHeld, CopySpace, NewSpace, VmmMap, VmmUnmap;
    match op
    case Create(c) =>
      if w.s.free == [] {
        Isolation.NoSpace(w.s, w.roots, slots, c);
        NoNewSpace(w.s, c);
      } else {
        NewSpaceIs(w.s, w.roots, slots, c);
        NewSpaceOpen(w.s, w.roots, slots, c);
      }
    case Copy(p) => CopySpaceOpen(w.s, w.roots, slots, p);
    case Map(r, va, phys, flags) => MapOpen(w.s, w.roots, slots, r, va, phys, flags);
    case Unmap(r, va) => UnmapOpen(w.s, w.roots, slots, r, va);
  }

  /** Over any run of create, copy, map and unmap, the processor allows on every user page of every
      space exactly what the page's leaf entry allows. */
  lemma {:induction false} RunOpen(w: World, slots: set<nat>, ops: seq<SpaceOp>)
    requires WorldOk(w, slots) && RunOk(w, slots, ops) && OpenTables(w.s.mem, w.roots)
    ensures var w' := Run(w, slots, ops); OpenTables(w'.s.mem, w'.roots)
    decreases |ops|
  {
    hide WorldOk, Apply, OpenTables;
    if ops != [] {
      StepOpen(w, slots, ops[0]);
      StepIsolated(w, slots, ops[0]);
      RunOpen(Apply(w, slots, ops[0]), slots, ops[1..]);
    }
  }

  lemma RunLeafDecides(w: World, slots: set<nat>, ops: seq<SpaceOp>, r: nat, n: nat, write: bool)
    requires WorldOk(w, slots) && RunOk(w, slots, ops) && OpenTables(w.s.mem, w.roots)
    requires r in Run(w, slots, ops).roots && n < USER_PAGES
    ensures var m := Run(w, slots, ops).s.mem; ProcessorAllows(m, r, n, write) <==> Allows(PteOf(m, r, n), write)
  {
    hide RunOk, Run, OpenTables, ProcessorAllows, Separated;
    RunOpen(w, slots, ops);
    LeafDecides(Run(w, slots, ops).s.mem, Run(w, slots, ops).roots, slots, r, n, write);
  }

  // ----- loading

  lemma FreshMapOpen(s: Phys, roots: set<nat>, slots: set<nat>, r: nat, n: nat, flags: nat, c: Frame)
    requires Private(s, roots, slots) && r in roots && n < USER_PAGES && flags < 4096 && s.free != []
    requires OpenTables(s.mem, roots)
    ensures r < |s.mem| <= MAX_FRAMES && FreeListOk(s) && OpenTables(FreshMap(s, r, n, flags, c).mem, roots)
  {
    hide Separated, OpenTables, VmmMap, TableAt, PteOf, NoTable, LeavesHeld, LeavesNoTable, LeavesApart, Missing;
    SeparatedBasics(s, roots, slots, r);
    FilledFrame(s, roots, slots, r, n, c);
    FreeFrame(s, roots, slots);
    DataOpen(s, roots, slots, s.free[0], c);
    UserPage(slots, n);
    MapOpen(Phys(s.mem[s.free[0] := c], s.free[1..]), roots, slots, r, n * 4096, s.free[0] * 4096, flags);
  }

  lemma LeafWriteOpen(s: Phys, roots: set<nat>, slots: set<nat>, r: nat, n: nat, c: Frame)
    requires Private(s, roots, slots) && r in roots && Mapped(s.mem, r, n) && OpenTables(s.mem, roots)
    ensures LeafFrame(s.mem, r, n) < |s.mem| && OpenTables(s.mem[LeafFrame(s.mem, r, n) := c], roots)
  {
    hide OpenTables, PteOf, Separated;
    assert LeavesHeld(s, r);
    DataOpen(s, roots, slots, LeafFrame(s.mem, r, n), c);
  }

  lemma SpareWriteOpen(s: Phys, roots: set<nat>, slots: set<nat>, g: nat, c: Frame)
    requires Private(s, roots, slots) && g < |s.mem| && Spare(s.mem, roots, slots, g) && OpenTables(s.mem, roots)
    ensures OpenTables(s.mem[g := c], roots)
  {
    hide OpenTables, PteOf, Separated;
    DataOpen(s, roots, slots, g, c);
  }

  lemma LoadPageOpen(s: Phys, roots: set<nat>, slots: set<nat>, r: nat, file: seq<Byte>, seg: Segment, n: nat)
    requires Private(s, roots, slots) && r in roots && n < USER_PAGES && SegmentOk(file, seg)
    requires OpenTables(s.mem, roots)
    ensures r < |s.mem| <= MAX_FRAMES && FreeListOk(s) && OpenTables(LoadPage(s, r, file, seg, n).0.mem, roots)
  {
    hide Private, PteOf, TableAt, FrameOf, Present, UserView, Missing, FreshMap, Overlay, Spare, SamePtes, OpenTables;
    ViewEntry(s, roots, slots, r, n);
    FlagsPresent();
    if Mapped(s.mem, r, n) {
      LeafWriteOpen(s, roots, slots, r, n, Overlay(Contents(s, r, n), file, seg, n));
    } else if s.free != [] {
      var s1, g := FreshMap(s, r, n, USER_FLAGS, ZeroFrame()), s.free[0];
      FreshMapOpen(s, roots, slots, r, n, USER_FLAGS, ZeroFrame());
      if |s.free| < 1 + Missing(s.mem, r, PathOf(n)) {
        FreshMapFails(s, roots, slots, r, n, USER_FLAGS, ZeroFrame());
        SpareWriteOpen(s1, roots, slots, g, Overlay(s1.mem[g], file, seg, n));
      } else {
        FreshMapRefines(s, roots, slots, r, n, USER_FLAGS, ZeroFrame());
        ViewEntry(s1, roots, slots, r, n);
        LeafWriteOpen(s1, roots, slots, r, n, Overlay(s1.mem[g], file, seg, n));
      }
    }
  }

  lemma {:induction false} LoadPagesOpen(s: Phys, roots: set<nat>, slots: set<nat>, r: nat, file: seq<Byte>,
                                         seg: Segment, k: nat)
    requires Private(s, roots, slots) && r in roots && k <= USER_PAGES && SegmentOk(file, seg)
    requires OpenTables(s.mem, roots)
    ensures r < |s.mem| <= MAX_FRAMES && FreeListOk(s)
    ensures var s' := LoadPages(s, r, file, seg, k).0; Private(s', roots, slots) && OpenTables(s'.mem, roots)
    decreases k
  {
    hide Private, OpenTables, LoadPage, OthersSame;
    PrivateSize(s, roots, slots, r);
    if k > FirstPage(seg) {
      LoadPagesOpen(s, roots, slots, r, file, seg, k - 1);
      var s1 := LoadPages(s, r, file, seg, k - 1).0;
      LoadPagePrivate(s1, roots, slots, r, file, seg, k - 1);
      LoadPageOpen(s1, roots, slots, r, file, seg, k - 1);
    }
  }

  lemma {:induction false} LoadOpen(s: Phys, roots: set<nat>, slots: set<nat>, r: nat, img: Image, i: nat)
    requires Private(s, roots, slots) && r in roots && SegmentsOk(img) && i <= |img.segments|
    requires OpenTables(s.mem, roots)
    ensures r < |s.mem| <= MAX_FRAMES && FreeListOk(s)
    ensures var s' := LoadSegments(s, r, img, i).0; Private(s', roots, slots) && OpenTables(s'.mem, roots)
    decreases i
  {
    hide Private, OpenTables, LoadPages;
    PrivateSize(s, roots, slots, r);
    if i > 0 {
      LoadOpen(s, roots, slots, r, img, i - 1);
      var s1, seg := LoadSegments(s, r, img, i - 1).0, img.segments[i - 1];
      if seg.kind == PT_LOAD {
        PagesInUserHalf(img.file, seg);
        LoadPagesOpen(s1, roots, slots, r, img.file, seg, EndPage(seg));
      }
    }
  }

  /** A loaded program may read and write every byte of its segments. */
  lemma LoadedAccessible(s: Phys, roots: set<nat>, slots: set<nat>, r: nat, img: Image, k: nat, x: nat, write: bool)
    requires Private(s, roots, slots) && r in roots && WellFormed(img) && img.magic == 0x464C_457F && img.class_ == 2
    requires UserView(s, r) == map[] && TablesAre(s.mem, r, {}) && Cost(ImagePages(img)) <= |s.free|
    requires OpenTables(s.mem, roots) && Holds(img, k, x)
    ensures r < |s.mem| <= MAX_FRAMES && FreeListOk(s)
    ensures ProcessorAllows(Load(s, r, img).0.mem, r, x / 4096, write)
  {
    hide Private, OpenTables, LoadSegments, UserView, TablesAre, Cost, OthersSame, ProcessorAllows, ReadAt, PteOf,
      SharesPage;
    SegmentsOf(img);
    LoadedProgram(s, roots, slots, r, img);
    LoadOpen(s, roots, slots, r, img, |img.segments|);
    var s', n := Load(s, r, img).0, x / 4096;
    assert HeldByte(img, UserView(s', r), k, x);
    HeldPage(img, k, x);
    HeldUserPage(img, k, x);
    PrivateSlots(s', roots, slots);
    ViewEntry(s', roots, slots, r, n);
    LowFlags(PteOf(s'.mem, r, n));
    LeafDecides(s'.mem, roots, slots, r, n, write);
  }

  lemma HeldUserPage(img: Image, k: nat, x: nat)
    requires SegmentsOk(img) && Holds(img, k, x)
    ensures x / 4096 < USER_PAGES
  {
  }
}

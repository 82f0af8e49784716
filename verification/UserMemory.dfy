/** User pages as bytes: when no two user pages of any address space share a frame, writing a page
    or mapping a fresh one changes exactly that page of exactly that space. */
module UserMemory {
  import opened PageTableEntries
  import opened PhysicalMemory
  import opened PageTables
  import opened AddressSpaces
  import opened ForkCopy

  /** Page n of space r is mapped. */
  predicate Mapped(m: Memory, r: nat, n: nat) { n < USER_PAGES && Present(PteOf(m, r, n)) }

  function LeafFrame(m: Memory, r: nat, n: nat): nat { FrameOf(PteOf(m, r, n)) }

  /** Frames of user pages hold no table. */
  ghost predicate LeavesNoTable(m: Memory, roots: set<nat>, slots: set<nat>) {
    forall r, n: nat {:trigger Mapped(m, r, n)} :: r in roots && Mapped(m, r, n) ==>
        NoTable(m, roots, slots, LeafFrame(m, r, n))
  }

  /** Distinct user pages, of one space or of two, have distinct frames. */
  ghost predicate LeavesApart(m: Memory, roots: set<nat>) {
    forall r1, n1: nat, r2, n2: nat {:trigger Mapped(m, r1, n1), Mapped(m, r2, n2)} ::
      r1 in roots && r2 in roots && Mapped(m, r1, n1) && Mapped(m, r2, n2) &&
          LeafFrame(m, r1, n1) == LeafFrame(m, r2, n2)
      ==> r1 == r2 && n1 == n2
  }

  ghost predicate Private(s: Phys, roots: set<nat>, slots: set<nat>) {
    && Separated(s, roots, slots) && UserSlots(slots)
    && (forall r :: r in roots ==> LeavesHeld(s, r))
    && LeavesNoTable(s.mem, roots, slots) && LeavesApart(s.mem, roots)
  }

  lemma SamePte(m: Memory, m': Memory, roots: set<nat>, slots: set<nat>, r: nat, n: nat)
    requires SamePtes(m, m', roots, slots) && UserSlots(slots) && r in roots && n < USER_PAGES
    ensures PteOf(m', r, n) == PteOf(m, r, n)
  {
    UserPage(slots, n);
  }

  lemma PrivateSlots(s: Phys, roots: set<nat>, slots: set<nat>)
    requires Private(s, roots, slots)
    ensures UserSlots(slots)
  {
  }

  lemma SamePtesRefl(m: Memory, roots: set<nat>, slots: set<nat>)
    ensures SamePtes(m, m, roots, slots)
  {
  }

  /** Overwriting one user page. */
  lemma PageWrite(s: Phys, roots: set<nat>, slots: set<nat>, r: nat, n: nat, c: Frame)
    requires Private(s, roots, slots) && r in roots && Mapped(s.mem, r, n)
    ensures LeafFrame(s.mem, r, n) < |s.mem|
    ensures var s' := Phys(s.mem[LeafFrame(s.mem, r, n) := c], s.free);
            && Private(s', roots, slots) && SamePtes(s.mem, s'.mem, roots, slots)
            && UserView(s', r) == UserView(s, r)[n := (PteOf(s.mem, r, n) % 4096, c)]
            && (forall r2 :: r2 in roots && r2 != r ==> UserView(s', r2) == UserView(s, r2))
            && (forall r2, q {:trigger TableAt(s'.mem, r2, q)} :: r2 in roots && Tracked(slots, q)
                  ==> TableAt(s'.mem, r2, q) == TableAt(s.mem, r2, q))
  {
    hide Separated, PteOf, TableAt, FrameOf, Present;
    var f := LeafFrame(s.mem, r, n);
    assert LeavesHeld(s, r);
    var s' := Phys(s.mem[f := c], s.free);
    DataWrite(s, roots, slots, f, c);
    WrittenPrivate(s, s', roots, slots, f, c);
    forall r2 | r2 in roots
      ensures UserView(s', r2) == if r2 == r then
                UserView(s, r)[n := (PteOf(s.mem, r, n) % 4096, c)] else UserView(s, r2)
    {
      WrittenView(s, s', roots, slots, r, n, c, r2);
    }
  }

  lemma WrittenPrivate(s: Phys, s': Phys, roots: set<nat>, slots: set<nat>, f: nat, c: Frame)
    requires Private(s, roots, slots) && f < |s.mem| && s' == Phys(s.mem[f := c], s.free)
    requires Separated(s', roots, slots) && SamePtes(s.mem, s'.mem, roots, slots)
    requires forall r2, q {:trigger TableAt(s'.mem, r2, q)} :: r2 in roots && Tracked(slots, q)
                  ==> TableAt(s'.mem, r2, q) == TableAt(s.mem, r2, q)
    ensures Private(s', roots, slots)
  {
    hide Separated, PteOf, TableAt, FrameOf, Present;
    forall r2, k: nat | r2 in roots && k < USER_PAGES
      ensures PteOf(s'.mem, r2, k) == PteOf(s.mem, r2, k) && Mapped(s'.mem, r2, k) == Mapped(s.mem, r2, k)
    {
      SamePte(s.mem, s'.mem, roots, slots, r2, k);
    }
    forall r2 | r2 in roots ensures LeavesHeld(s', r2) {
      assert LeavesHeld(s, r2);
    }
    forall r2, k: nat | r2 in roots && Mapped(s'.mem, r2, k)
      ensures NoTable(s'.mem, roots, slots, LeafFrame(s'.mem, r2, k))
    {
      assert Mapped(s.mem, r2, k);
    }
    forall r1, n1: nat, r2, n2: nat | r1 in roots && r2 in roots && Mapped(s'.mem, r1, n1) && Mapped(s'.mem, r2, n2)
      && LeafFrame(s'.mem, r1, n1) == LeafFrame(s'.mem, r2, n2)
      ensures r1 == r2 && n1 == n2
    {
      assert Mapped(s.mem, r1, n1) && Mapped(s.mem, r2, n2);
    }
  }

  lemma WrittenView(s: Phys, s': Phys, roots: set<nat>, slots: set<nat>, r: nat, n: nat, c: Frame, r2: nat)
    requires Private(s, roots, slots) && r in roots && r2 in roots && Mapped(s.mem, r, n)
    requires LeafFrame(s.mem, r, n) < |s.mem| && s' == Phys(s.mem[LeafFrame(s.mem, r, n) := c], s.free)
    requires SamePtes(s.mem, s'.mem, roots, slots)
    ensures UserView(s', r2) == if r2 == r then UserView(s, r)[n := (PteOf(s.mem, r, n) % 4096, c)] else UserView(s, r2)
  {
    hide Separated, PteOf, TableAt, FrameOf, Present;
    forall k: nat | k < USER_PAGES
      ensures PteOf(s'.mem, r2, k) == PteOf(s.mem, r2, k)
      ensures Mapped(s.mem, r2, k) && (r2 != r || k != n) ==> LeafFrame(s.mem, r2, k) != LeafFrame(s.mem, r, n)
    {
      SamePte(s.mem, s'.mem, roots, slots, r2, k);
    }
  }

  // ----- mapping a fresh page

  /** page_alloc, the frame filled with c, and vmm_map of it. */
  function FreshMap(s: Phys, r: nat, n: nat, flags: nat, c: Frame): (s': Phys)
    requires r < |s.mem| <= MAX_FRAMES && FreeListOk(s) && s.free != [] && n < USER_PAGES && flags < 4096
    ensures |s'.mem| == |s.mem| && FreeListOk(s')
  {
    var g := s.free[0];
    VmmMap(Phys(s.mem[g := c], s.free[1..]), r, n * 4096, g * 4096, flags)
  }

  lemma FilledFrame(s: Phys, roots: set<nat>, slots: set<nat>, r: nat, n: nat, c: Frame)
    requires Separated(s, roots, slots) && s.free != [] && r in roots && UserSlots(slots) && n < USER_PAGES
    ensures var s1 := Phys(s.mem[s.free[0] := c], s.free[1..]);
            && Separated(s1, roots, slots) && OneFilled(s, s1, roots, slots)
            && NoTable(s.mem, roots, slots, s.free[0]) && s.free[0] !in s1.free
            && Missing(s1.mem, r, PathOf(n)) == Missing(s.mem, r, PathOf(n))
  {
    var g := s.free[0];
    forall r2, q | r2 in roots && Tracked(slots, q) ensures TableAt(s.mem, r2, q) != Some(g) {
      assert g in s.free;
    }
    ShorterFreeList(s, roots, slots, 1);
    DataWrite(Phys(s.mem, s.free[1..]), roots, slots, g, c);
    UserPage(slots, n);
    SameMissing(s.mem, s.mem[g := c], slots, r, PathOf(n));
  }

  lemma {:induction false} SameMissing(m: Memory, m': Memory, slots: set<nat>, r: nat, p: Path)
    requires Tracked(slots, p)
    requires forall q {:trigger TableAt(m', r, q)} :: Tracked(slots, q) ==> TableAt(m', r, q) == TableAt(m, r, q)
    ensures Missing(m', r, p) == Missing(m, r, p)
    decreases |p|
  {
    if p != [] {
      assert Tracked(slots, p[..|p| - 1]);
      SameMissing(m, m', slots, r, p[..|p| - 1]);
    }
  }

  lemma FreshMapRefines(s: Phys, roots: set<nat>, slots: set<nat>, r: nat, n: nat, flags: nat, c: Frame)
    requires Private(s, roots, slots) && r in roots && n < USER_PAGES && !Present(PteOf(s.mem, r, n))
    requires flags < 4096 && Present(flags) && 1 + Missing(s.mem, r, PathOf(n)) <= |s.free|
    ensures r < |s.mem| <= MAX_FRAMES && FreeListOk(s)
    ensures var s' := FreshMap(s, r, n, flags, c);
            && Private(s', roots, slots) && Mapped(s'.mem, r, n) && LeafFrame(s'.mem, r, n) == s.free[0]
            && UserView(s', r) == UserView(s, r)[n := (flags, c)]
            && (forall r2 :: r2 in roots && r2 != r ==> UserView(s', r2) == UserView(s, r2))
            && |s'.free| == |s.free| - 1 - Missing(s.mem, r, PathOf(n))
            && (forall q {:trigger TableAt(s'.mem, r, q)} :: Tracked(slots, q)
                  ==> (TableAt(s'.mem, r, q).Some? <==> TableAt(s.mem, r, q).Some? || q <= PathOf(n)))
  {
    hide Separated, PteOf, TableAt, FrameOf, Present, Missing, VmmMap, NoTable;
    SeparatedBasics(s, roots, slots, r);
    FilledFrame(s, roots, slots, r, n, c);
    var g := s.free[0];
    var s1 := Phys(s.mem[g := c], s.free[1..]);
    MapChild(s1, roots, slots, r, n, g, flags);
    SmallFlags(g, flags);
    assert flags % 4096 == flags;
    var s' := FreshMap(s, r, n, flags, c);
    FreshPrivate(s, s1, s', roots, slots, r, n, g, flags);
    forall r2 | r2 in roots
      ensures UserView(s', r2) == if r2 == r then UserView(s, r)[n := (flags, c)] else UserView(s, r2)
    {
      FreshView(s, s1, s', roots, slots, r, n, g, flags, c, r2);
    }
  }

  /** Entries and frames after a fresh page was mapped. */
  lemma FreshEntry(s: Phys, s1: Phys, s': Phys, roots: set<nat>, slots: set<nat>, r: nat, n: nat, g: nat, flags: nat,
                   r2: nat, k: nat)
    requires Private(s, roots, slots) && r in roots && r2 in roots && n < USER_PAGES && k < USER_PAGES
    requires !Present(PteOf(s.mem, r, n))
    requires g < MAX_FRAMES && flags < 4096 && Present(flags)
    requires OneFilled(s, s1, roots, slots) && g == s.free[0] && NoTable(s.mem, roots, slots, g) && g !in s1.free
    requires MappedChild(s1, s', roots, slots, r, n, g * 4096 + flags)
    ensures PteOf(s'.mem, r2, k) == if r2 == r && k == n then g * 4096 + flags else PteOf(s.mem, r2, k)
    ensures Mapped(s'.mem, r2, k) <==> Mapped(s.mem, r2, k) || (r2 == r && k == n)
    ensures Mapped(s'.mem, r2, k) ==> LeafFrame(s'.mem, r2, k) < |s.mem| && LeafFrame(s'.mem, r2, k) !in s1.free
    ensures r2 == r && k == n ==> LeafFrame(s'.mem, r2, k) == g
    ensures Mapped(s.mem, r2, k) ==> LeafFrame(s.mem, r2, k) < |s.mem| && LeafFrame(s.mem, r2, k) !in s.free
  {
    hide Separated, TableAt, FrameOf, Present, Missing, PteOf, NoTable;
    UserPage(slots, k);
    SmallFlags(g, flags);
    assert PteOf(s1.mem, r2, k) == PteOf(s.mem, r2, k);
    if r2 != r { assert r2 in roots - {r}; }
    assert LeavesHeld(s, r2);
    assert g in s.free;
    assert FreeListOk(s) by { SeparatedBasics(s, roots, slots, r); }
  }

  lemma LeafNotOnPath(m: Memory, roots: set<nat>, slots: set<nat>, r: nat, n: nat, x: nat)
    requires NoTable(m, roots, slots, x) && r in roots && UserSlots(slots) && n < USER_PAGES
    ensures !OnPath(m, r, PathOf(n), x)
  {
    UserPage(slots, n);
    forall k | 0 <= k <= |PathOf(n)| ensures TableAt(m, r, PathOf(n)[..k]) != Some(x) {
      assert Tracked(slots, PathOf(n)[..k]);
    }
  }

  lemma StillNoTable(s: Phys, s1: Phys, s': Phys, roots: set<nat>, slots: set<nat>, x: nat)
    requires OneFilled(s, s1, roots, slots) && TablesFromFree(s1, s'.mem, roots, slots)
    requires NoTable(s.mem, roots, slots, x) && x !in s1.free
    ensures NoTable(s'.mem, roots, slots, x) && NoTable(s1.mem, roots, slots, x)
  {
  }

  lemma FreshPrivate(s: Phys, s1: Phys, s': Phys, roots: set<nat>, slots: set<nat>, r: nat, n: nat, g: nat, flags: nat)
    requires Private(s, roots, slots) && r in roots && n < USER_PAGES && !Present(PteOf(s.mem, r, n))
    requires g < MAX_FRAMES && flags < 4096 && Present(flags)
    requires OneFilled(s, s1, roots, slots) && g == s.free[0] && NoTable(s.mem, roots, slots, g) && g !in s1.free
    requires MappedChild(s1, s', roots, slots, r, n, g * 4096 + flags)
    ensures Private(s', roots, slots) && Mapped(s'.mem, r, n) && LeafFrame(s'.mem, r, n) == g
  {
    hide Separated, PteOf, TableAt, FrameOf, Present, Missing, NoTable, TablesFromFree, FramesKept;
    forall r2, k: nat | r2 in roots && k < USER_PAGES
      ensures Mapped(s'.mem, r2, k) <==> Mapped(s.mem, r2, k) || (r2 == r && k == n)
      ensures Mapped(s'.mem, r2, k) ==> LeafFrame(s'.mem, r2, k) < |s.mem| && LeafFrame(s'.mem, r2, k) !in s1.free
      ensures LeafFrame(s'.mem, r2, k) == if r2 == r && k == n then g else LeafFrame(s.mem, r2, k)
      ensures Mapped(s.mem, r2, k) ==> LeafFrame(s.mem, r2, k) !in s.free
    {
      FreshEntry(s, s1, s', roots, slots, r, n, g, flags, r2, k);
    }
    assert g in s.free;
    forall r2, k: nat | r2 in roots && Mapped(s'.mem, r2, k)
      ensures NoTable(s'.mem, roots, slots, LeafFrame(s'.mem, r2, k))
    {
      assert (r2 == r && k == n) || Mapped(s.mem, r2, k);
      StillNoTable(s, s1, s', roots, slots, LeafFrame(s'.mem, r2, k));
    }
    forall r1, n1: nat, r2, n2: nat | r1 in roots && r2 in roots && Mapped(s'.mem, r1, n1) && Mapped(s'.mem, r2, n2)
      && LeafFrame(s'.mem, r1, n1) == LeafFrame(s'.mem, r2, n2)
      ensures r1 == r2 && n1 == n2
    {
      if !(r1 == r && n1 == n) && !(r2 == r && n2 == n) {
        assert Mapped(s.mem, r1, n1) && Mapped(s.mem, r2, n2);
      }
    }
    forall r2 | r2 in roots ensures LeavesHeld(s', r2) {
      forall k: nat | k < USER_PAGES && Present(PteOf(s'.mem, r2, k))
        ensures FrameOf(PteOf(s'.mem, r2, k)) < |s'.mem| && FrameOf(PteOf(s'.mem, r2, k)) !in s'.free
      {
        assert Mapped(s'.mem, r2, k);
        assert LeafFrame(s'.mem, r2, k) !in s1.free;
      }
    }
  }

  lemma FreshView(s: Phys, s1: Phys, s': Phys, roots: set<nat>, slots: set<nat>, r: nat, n: nat, g: nat, flags: nat,
                  c: Frame, r2: nat)
    requires Private(s, roots, slots) && r in roots && r2 in roots && n < USER_PAGES && !Present(PteOf(s.mem, r, n))
    requires g < |s.mem| <= MAX_FRAMES && flags < 4096 && Present(flags)
    requires OneFilled(s, s1, roots, slots) && s1.mem[g] == c && g == s.free[0] && NoTable(s.mem, roots, slots, g)
    requires g !in s1.free
    requires MappedChild(s1, s', roots, slots, r, n, g * 4096 + flags)
    ensures UserView(s', r2) == if r2 == r then UserView(s, r)[n := (flags, c)] else UserView(s, r2)
  {
    hide Separated, PteOf, TableAt, FrameOf, Present, Missing, NoTable, TablesFromFree, OnPath;
    forall k: nat | k < USER_PAGES
      ensures PteOf(s'.mem, r2, k) == if r2 == r && k == n then g * 4096 + flags else PteOf(s.mem, r2, k)
      ensures Mapped(s'.mem, r2, k) <==> Mapped(s.mem, r2, k) || (r2 == r && k == n)
      ensures Mapped(s'.mem, r2, k) ==>
                && LeafFrame(s'.mem, r2, k) < |s.mem|
                && s'.mem[LeafFrame(s'.mem, r2, k)] == if r2 == r && k == n then c else s.mem[LeafFrame(s'.mem, r2, k)]
    {
      FreshEntry(s, s1, s', roots, slots, r, n, g, flags, r2, k);
      if Mapped(s'.mem, r2, k) {
        var x := LeafFrame(s'.mem, r2, k);
        StillNoTable(s, s1, s', roots, slots, x);
        LeafNotOnPath(s1.mem, roots, slots, r, n, x);
        assert s'.mem[x] == s1.mem[x];
        assert g in s.free;
      }
    }
    assert (g * 4096 + flags) % 4096 == flags;
  }

  // ----- a map that runs out of frames

  /** Memory in which no user page and no table uses frame g. */
  ghost predicate Spare(m: Memory, roots: set<nat>, slots: set<nat>, g: nat) {
    && NoTable(m, roots, slots, g)
    && forall r, n: nat {:trigger Mapped(m, r, n)} :: r in roots && Mapped(m, r, n) ==> LeafFrame(m, r, n) != g
  }

  /** Writing a spare frame is invisible to every space. */
  lemma SpareWrite(s: Phys, roots: set<nat>, slots: set<nat>, g: nat, c: Frame)
    requires Private(s, roots, slots) && g < |s.mem| && Spare(s.mem, roots, slots, g)
    ensures var s' := Phys(s.mem[g := c], s.free);
            && Private(s', roots, slots) && SamePtes(s.mem, s'.mem, roots, slots)
            && (forall r :: r in roots ==> UserView(s', r) == UserView(s, r))
  {
    hide Separated, PteOf, TableAt, FrameOf, Present, NoTable;
    var s' := Phys(s.mem[g := c], s.free);
    DataWrite(s, roots, slots, g, c);
    WrittenPrivate(s, s', roots, slots, g, c);
    forall r | r in roots ensures UserView(s', r) == UserView(s, r) {
      forall k: nat | k < USER_PAGES
        ensures PteOf(s'.mem, r, k) == PteOf(s.mem, r, k) && (Mapped(s.mem, r, k) ==> LeafFrame(s.mem, r, k) != g)
      {
        SamePte(s.mem, s'.mem, roots, slots, r, k);
      }
    }
  }

  /** Taking a frame off the list and zeroing it, for a kernel stack say, is invisible to every
      space. */
  lemma TakeFramePrivate(s: Phys, roots: set<nat>, slots: set<nat>)
    requires Private(s, roots, slots) && s.free != [] && s.free[0] < |s.mem|
    ensures var s' := Phys(s.mem[s.free[0] := ZeroFrame()], s.free[1..]);
            && Private(s', roots, slots) && (forall r :: r in roots ==> UserView(s', r) == UserView(s, r))
  {
    var g := s.free[0];
    assert g in s.free;
    FreeIsSpare(s, roots, slots, g);
    SpareWrite(s, roots, slots, g, ZeroFrame());
    var s1 := Phys(s.mem[g := ZeroFrame()], s.free);
    ShorterFreeList(s1, roots, slots, 1);
    ShorterPrivate(s1, roots, slots);
  }

  lemma FreeIsSpare(s: Phys, roots: set<nat>, slots: set<nat>, g: nat)
    requires Private(s, roots, slots) && g in s.free
    ensures Spare(s.mem, roots, slots, g)
  {
    hide PteOf;
    forall r, q | r in roots && Tracked(slots, q) ensures TableAt(s.mem, r, q) != Some(g) {}
    forall r, n: nat | r in roots && Mapped(s.mem, r, n) ensures LeafFrame(s.mem, r, n) != g {
      assert LeavesHeld(s, r);
    }
  }

  lemma ShorterPrivate(s: Phys, roots: set<nat>, slots: set<nat>)
    requires Private(s, roots, slots) && s.free != [] && Separated(Phys(s.mem, s.free[1..]), roots, slots)
    ensures Private(Phys(s.mem, s.free[1..]), roots, slots)
    ensures forall r :: r in roots ==> UserView(Phys(s.mem, s.free[1..]), r) == UserView(s, r)
  {
    hide PteOf, TableAt, Separated;
    forall r | r in roots ensures LeavesHeld(Phys(s.mem, s.free[1..]), r) {
      assert LeavesHeld(s, r);
    }
  }

  /** vmm_map fails silently: the frames are gone, but no space changed, and the page allocated
      for it is neither mapped nor free. */
  lemma FreshMapFails(s: Phys, roots: set<nat>, slots: set<nat>, r: nat, n: nat, flags: nat, c: Frame)
    requires Private(s, roots, slots) && r in roots && n < USER_PAGES && !Present(PteOf(s.mem, r, n))
    requires flags < 4096 && s.free != [] && |s.free| < 1 + Missing(s.mem, r, PathOf(n))
    ensures r < |s.mem| <= MAX_FRAMES && FreeListOk(s)
    ensures var s' := FreshMap(s, r, n, flags, c);
            && Private(s', roots, slots) && s'.free == [] && SamePtes(s.mem, s'.mem, roots, slots)
            && Spare(s'.mem, roots, slots, s.free[0])
            && (forall r2 :: r2 in roots ==> UserView(s', r2) == UserView(s, r2))
  {
    hide Separated, PteOf, TableAt, FrameOf, Present, Missing, VmmMap, NoTable, TablesFromFree, FramesKept,
      TablesKept, PathOf, Vpn;
    SeparatedBasics(s, roots, slots, r);
    FilledFrame(s, roots, slots, r, n, c);
    UserPage(slots, n);
    var g := s.free[0];
    var s1 := Phys(s.mem[g := c], s.free[1..]);
    SeparatedBasics(s1, roots, slots, r);
    MapRefines(s1, roots, slots, r, n * 4096, g * 4096, flags);
    MapFrames(s1, roots, slots, r, n * 4096, g * 4096, flags);
    var s' := FreshMap(s, r, n, flags, c);
    forall r2, k | r2 in roots && TrackedPage(slots, k) ensures PteOf(s'.mem, r2, k) == PteOf(s.mem, r2, k) {
      assert PteOf(s1.mem, r2, k) == PteOf(s.mem, r2, k);
      if r2 != r { assert PteOf(s'.mem, r2, k) == PteOf(s1.mem, r2, k); }
    }
    FailedPrivate(s, s1, s', roots, slots, r, n);
  }

  lemma FailedPrivate(s: Phys, s1: Phys, s': Phys, roots: set<nat>, slots: set<nat>, r: nat, n: nat)
    requires Private(s, roots, slots) && OneFilled(s, s1, roots, slots) && r in roots && n < USER_PAGES
    requires NoTable(s.mem, roots, slots, s.free[0]) && s.free[0] !in s1.free
    requires Separated(s', roots, slots) && s'.free == [] && SamePtes(s.mem, s'.mem, roots, slots)
    requires |s'.mem| == |s.mem|
    requires FramesKept(s1, s'.mem, r, PathOf(n)) && TablesFromFree(s1, s'.mem, roots, slots)
    ensures Private(s', roots, slots) && Spare(s'.mem, roots, slots, s.free[0])
    ensures forall r2 :: r2 in roots ==> UserView(s', r2) == UserView(s, r2)
  {
    hide Separated, PteOf, TableAt, FrameOf, Present, NoTable, TablesFromFree, OnPath;
    var g := s.free[0];
    assert g in s.free;
    StillNoTable(s, s1, s', roots, slots, g);
    forall r2, k: nat | r2 in roots && k < USER_PAGES
      ensures PteOf(s'.mem, r2, k) == PteOf(s.mem, r2, k) && Mapped(s'.mem, r2, k) == Mapped(s.mem, r2, k)
      ensures Mapped(s.mem, r2, k) ==>
                && LeafFrame(s.mem, r2, k) < |s.mem| && LeafFrame(s.mem, r2, k) != g
                && NoTable(s'.mem, roots, slots, LeafFrame(s.mem, r2, k))
                && s'.mem[LeafFrame(s.mem, r2, k)] == s.mem[LeafFrame(s.mem, r2, k)]
    {
      SamePte(s.mem, s'.mem, roots, slots, r2, k);
      if Mapped(s.mem, r2, k) {
        var x := LeafFrame(s.mem, r2, k);
        assert LeavesHeld(s, r2);
        StillNoTable(s, s1, s', roots, slots, x);
        LeafNotOnPath(s1.mem, roots, slots, r, n, x);
        assert s'.mem[x] == s1.mem[x];
      }
    }
    forall r1, n1: nat, r2, n2: nat | r1 in roots && r2 in roots && Mapped(s'.mem, r1, n1) && Mapped(s'.mem, r2, n2)
      && LeafFrame(s'.mem, r1, n1) == LeafFrame(s'.mem, r2, n2)
      ensures r1 == r2 && n1 == n2
    {
      assert Mapped(s.mem, r1, n1) && Mapped(s.mem, r2, n2);
    }
    forall r2 | r2 in roots ensures LeavesHeld(s', r2) && UserView(s', r2) == UserView(s, r2) {
      assert LeavesHeld(s, r2);
    }
  }

  // ----- new and forked spaces

  lemma {:induction false} ZeroTables(m: Memory, root: nat, q: Path)
    requires root < |m| && forall x :: 0 <= x < |m| ==> m[x] == ZeroFrame()
    ensures TableAt(m, root, q) == if q == [] then Some(root) else None
    decreases |q|
  {
    if q != [] {
      ZeroTables(m, root, q[..|q| - 1]);
      if |q| == 1 && q[0] < 512 {
        EntZero(m, root, q[0]);
        NotPresentZero();
      }
    }
  }

  /** Where runs can start: zeroed memory with one empty space and every other frame free. */
  lemma ZeroedMemoryPrivate(s: Phys, root: nat, slots: set<nat>)
    requires root < |s.mem| <= MAX_FRAMES && UserSlots(slots) && FreeListOk(s) && root !in s.free
    requires forall x :: 0 <= x < |s.mem| ==> s.mem[x] == ZeroFrame()
    ensures Private(s, {root}, slots) && UserView(s, root) == map[]
  {
    forall q ensures TableAt(s.mem, root, q) == if q == [] then Some(root) else None {
      ZeroTables(s.mem, root, q);
    }
    NotPresentZero();
    forall n: nat ensures PteOf(s.mem, root, n) == 0 && !Mapped(s.mem, root, n) {
    }
    forall i: nat | i < 512 ensures !Present(Ent(s.mem, root, i)) {
      EntZero(s.mem, root, i);
    }
  }

  lemma NewSpaceKeepsPrivate(s: Phys, roots: set<nat>, slots: set<nat>, c: nat)
    requires Private(s, roots, slots) && c in roots && s.free != []
    ensures c < |s.mem| && FreeListOk(s)
    ensures var (s', o) := NewSpace(s, c);
            && o == Some(s.free[0]) && o.value !in roots && Private(s', roots + {o.value}, slots)
            && (forall n: nat {:trigger Mapped(s'.mem, o.value, n)} :: !Mapped(s'.mem, o.value, n))
            && (forall r :: r in roots ==> UserView(s', r) == UserView(s, r))
  {
    SeparatedBasics(s, roots, slots, c);
    NewSpaceSeparated(s, roots, slots, c);
    var s', g := NewSpace(s, c).0, s.free[0];
    assert g in s.free;
    hide Separated, PteOf, FrameOf, Present, NewSpace, TableAt;
    forall r, k: nat | r in roots && k < USER_PAGES
      ensures PteOf(s'.mem, r, k) == PteOf(s.mem, r, k) && Mapped(s'.mem, r, k) == Mapped(s.mem, r, k)
      ensures Mapped(s.mem, r, k) ==>
                && LeafFrame(s.mem, r, k) < |s.mem| && LeafFrame(s.mem, r, k) != g
                && s'.mem[LeafFrame(s.mem, r, k)] == s.mem[LeafFrame(s.mem, r, k)]
                && NoTable(s'.mem, roots + {g}, slots, LeafFrame(s.mem, r, k))
    {
      SamePte(s.mem, s'.mem, roots, slots, r, k);
      if Mapped(s.mem, r, k) {
        assert LeavesHeld(s, r);
        RootNotFree(s, roots, slots, c);
        NewRootEnt(s, c, LeafFrame(s.mem, r, k), 0);
        NewNoTable(s, roots, slots, c, LeafFrame(s.mem, r, k));
      }
    }
    forall k: nat ensures !Mapped(s'.mem, g, k) {
      if k < USER_PAGES {
        UserPage(slots, k);
        NotPresentZero();
      }
    }
    NewLeaves(s, s', roots, slots, g);
    forall r | r in roots ensures UserView(s', r) == UserView(s, r) {
      assert LeavesHeld(s, r);
    }
  }

  lemma NotPresentZero()
    ensures !Present(0)
  {
  }

  lemma RootNotFree(s: Phys, roots: set<nat>, slots: set<nat>, c: nat)
    requires Separated(s, roots, slots) && c in roots
    ensures c !in s.free
  {
    assert Tracked(slots, []) && TableAt(s.mem, c, []) == Some(c);
  }

  /** A frame that is held and no table does not become a table of the new space either. */
  lemma NewNoTable(s: Phys, roots: set<nat>, slots: set<nat>, c: nat, x: nat)
    requires Separated(s, roots, slots) && c in roots && s.free != [] && c < |s.mem| && FreeListOk(s)
    requires NoTable(s.mem, roots, slots, x) && x != s.free[0]
    ensures NoTable(NewSpace(s, c).0.mem, roots + {s.free[0]}, slots, x)
  {
    hide Separated, NewSpace;
    var m', g := NewSpace(s, c).0.mem, s.free[0];
    assert |m'| == |s.mem|;
    forall r, q | r in roots + {g} && Tracked(slots, q) ensures TableAt(m', r, q) != Some(x) {
      NewTables(s, roots, slots, c, r, q);
      if q == [] { assert TableAt(m', r, q) != Some(x) || r == x; }
    }
  }

  lemma NewLeaves(s: Phys, s': Phys, roots: set<nat>, slots: set<nat>, g: nat)
    requires Private(s, roots, slots) && g !in roots && |s'.mem| == |s.mem|
    requires (forall x :: x in s'.free ==> x in s.free)
    requires Separated(s', roots + {g}, slots) && forall k: nat {:trigger Mapped(s'.mem, g, k)} :: !Mapped(s'.mem, g, k)
    requires forall r, k: nat {:trigger Mapped(s'.mem, r, k)} :: r in roots && k < USER_PAGES ==>
               && PteOf(s'.mem, r, k) == PteOf(s.mem, r, k) && Mapped(s'.mem, r, k) == Mapped(s.mem, r, k)
               && (Mapped(s.mem, r, k) ==> NoTable(s'.mem, roots + {g}, slots, LeafFrame(s.mem, r, k)))
    ensures Private(s', roots + {g}, slots)
  {
    hide Separated, PteOf, FrameOf, Present, NoTable;
    forall r | r in roots + {g} ensures LeavesHeld(s', r) {
      if r != g { assert LeavesHeld(s, r); }
      forall k: nat | k < USER_PAGES && Present(PteOf(s'.mem, r, k))
        ensures FrameOf(PteOf(s'.mem, r, k)) < |s'.mem| && FrameOf(PteOf(s'.mem, r, k)) !in s'.free
      {
        assert Mapped(s'.mem, r, k);
      }
    }
    forall r1, n1: nat, r2, n2: nat | r1 in roots + {g} && r2 in roots + {g} && Mapped(s'.mem, r1, n1) &&
        Mapped(s'.mem, r2, n2)
      && LeafFrame(s'.mem, r1, n1) == LeafFrame(s'.mem, r2, n2)
      ensures r1 == r2 && n1 == n2
    {
      assert Mapped(s.mem, r1, n1) && Mapped(s.mem, r2, n2);
    }
  }

  /** The fork loop's page is a fresh map with the parent's contents. */
  lemma CopyPageIsFreshMap(s: Phys, parent: nat, child: nat, n: nat)
    requires child < |s.mem| <= MAX_FRAMES && FreeListOk(s) && n < USER_PAGES
    requires Mapped(s.mem, parent, n) && LeafFrame(s.mem, parent, n) < |s.mem| && s.free != []
    ensures var pte := PteOf(s.mem, parent, n);
            && Present(pte % 4096)
            && CopyPage(s, parent, child, n) == (FreshMap(s, child, n, pte % 4096, s.mem[FrameOf(pte)]), true)
  {
    LowFlags(PteOf(s.mem, parent, n));
  }

  ghost predicate CopyPrivate(s0: Phys, s: Phys, roots: set<nat>, slots: set<nat>, child: nat, k: nat) {
    && Private(s, roots, slots)
    && (forall n: nat {:trigger Mapped(s.mem, child, n)} :: n >= k ==> !Mapped(s.mem, child, n))
    && (forall r :: r in roots && r != child ==> UserView(s, r) == UserView(s0, r))
  }

  lemma CopyPagePrivate(s0: Phys, s: Phys, roots: set<nat>, slots: set<nat>, parent: nat, child: nat, n: nat)
    requires CopyPrivate(s0, s, roots, slots, child, n) && parent in roots && child in roots && parent != child
    requires n < USER_PAGES
    requires child < |s.mem| <= MAX_FRAMES && FreeListOk(s)
    ensures CopyPrivate(s0, CopyPage(s, parent, child, n).0, roots, slots, child, n + 1)
  {
    hide Private, PteOf, FrameOf, Present, UserView, VmmMap, FreshMap, Spare, SamePtes;
    PrivateLeaf(s, roots, slots, parent, n);
    if Mapped(s.mem, parent, n) && s.free != [] {
      CopyPageIsFreshMap(s, parent, child, n);
      var flags, c := PteOf(s.mem, parent, n) % 4096, s.mem[LeafFrame(s.mem, parent, n)];
      assert !Mapped(s.mem, child, n);
      var s' := FreshMap(s, child, n, flags, c);
      if 1 + Missing(s.mem, child, PathOf(n)) <= |s.free| {
        FreshMapRefines(s, roots, slots, child, n, flags, c);
      } else {
        FreshMapFails(s, roots, slots, child, n, flags, c);
      }
      forall k: nat | k >= n + 1 ensures !Mapped(s'.mem, child, k) {
        assert !Mapped(s.mem, child, k);
        if k < USER_PAGES {
          PrivateLeaf(s, roots, slots, child, k);
          PrivateLeaf(s', roots, slots, child, k);
        }
      }
    }
  }

  lemma PrivateLeaf(s: Phys, roots: set<nat>, slots: set<nat>, r: nat, n: nat)
    requires Private(s, roots, slots) && r in roots && n < USER_PAGES
    ensures Mapped(s.mem, r, n) <==> n in UserView(s, r)
    ensures Mapped(s.mem, r, n) ==> LeafFrame(s.mem, r, n) < |s.mem|
  {
    hide PteOf;
    assert LeavesHeld(s, r);
  }

  lemma {:induction false} CopyKeepsPrivate(s0: Phys, roots: set<nat>, slots: set<nat>, parent: nat, child: nat, k: nat)
    requires CopyPrivate(s0, s0, roots, slots, child, 0) && parent in roots && child in roots && parent != child
    requires k <= USER_PAGES
    requires child < |s0.mem| <= MAX_FRAMES && FreeListOk(s0)
    ensures CopyPrivate(s0, CopyBelow(s0, parent, child, k).0, roots, slots, child, k)
    decreases k
  {
    hide CopyPage, Private, UserView;
    if k > 0 {
      CopyKeepsPrivate(s0, roots, slots, parent, child, k - 1);
      var r := CopyBelow(s0, parent, child, k - 1);
      CopyPagePrivate(s0, r.0, roots, slots, parent, child, k - 1);
    }
  }

  /** A fork, complete or not, leaves every user page of every space, the child's included, in a
      frame of its own, and every other space's memory as it was. */
  lemma ForkKeepsPrivate(s: Phys, roots: set<nat>, slots: set<nat>, parent: nat)
    requires Private(s, roots, slots) && parent in roots
    ensures parent < |s.mem| <= MAX_FRAMES && FreeListOk(s)
    ensures var (s', o) := CopySpace(s, parent);
            && Private(s', if o.Some? then roots + {o.value} else roots, slots)
            && (o.Some? ==> o.value !in roots)
            && forall r :: r in roots ==> UserView(s', r) == UserView(s, r)
  {
    hide Private, UserView, NewSpace, CopyBelow;
    PrivateSize(s, roots, slots, parent);
    if s.free == [] {
      NoNewSpace(s, parent);
    } else {
      NewSpaceKeepsPrivate(s, roots, slots, parent);
      var (s0, o) := NewSpace(s, parent);
      PrivateSize(s0, roots + {o.value}, slots, o.value);
      CopyKeepsPrivate(s0, roots + {o.value}, slots, parent, o.value, USER_PAGES);
      var s' := CopyBelow(s0, parent, o.value, USER_PAGES).0;
      FewerPrivate(s', roots + {o.value}, slots, roots);
    }
  }

  lemma NoNewSpace(s: Phys, c: nat)
    requires c < |s.mem| && FreeListOk(s) && s.free == []
    ensures NewSpace(s, c) == (s, None)
  {
  }

  lemma PrivateSize(s: Phys, roots: set<nat>, slots: set<nat>, r: nat)
    requires Private(s, roots, slots) && r in roots
    ensures r < |s.mem| <= MAX_FRAMES && FreeListOk(s) && Separated(s, roots, slots)
  {
    SeparatedBasics(s, roots, slots, r);
  }

  lemma FewerPrivate(s: Phys, roots: set<nat>, slots: set<nat>, fewer: set<nat>)
    requires Private(s, roots, slots) && fewer <= roots
    ensures Private(s, fewer, slots)
  {
    hide PteOf, TableAt;
    FewerRoots(s, roots, slots, fewer);
    hide Separated;
  }

  lemma FewerRoots(s: Phys, roots: set<nat>, slots: set<nat>, fewer: set<nat>)
    requires Separated(s, roots, slots) && fewer <= roots
    ensures Separated(s, fewer, slots)
  {
    forall r, p, i | r in fewer && |p| < 3 && Tracked(slots, p + [i]) && i < 512
      && TableAt(s.mem, r, p).Some? && Present(Ent(s.mem, TableAt(s.mem, r, p).value, i))
      ensures FrameOf(Ent(s.mem, TableAt(s.mem, r, p).value, i)) < |s.mem|
    {
      TableAtSnoc(s.mem, r, p, i);
    }
  }
}

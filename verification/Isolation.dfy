/** Isolation of address spaces over any run of create, copy, map and unmap. */
module Isolation {
  import opened Words
  import opened PageTableEntries
  import opened PhysicalMemory
  import opened PageTables
  import opened AddressSpaces
  import opened ForkCopy
  import UserMemory

  datatype World = World(s: Phys, roots: set<nat>)

  datatype SpaceOp =
    | Create(current: nat)
    | Copy(parent: nat)
    | Map(root: nat, va: Word, phys: Word, flags: Word)
    | Unmap(root: nat, va: Word)

  /** Memory is separated and every user page is a held frame. */
  ghost predicate WorldOk(w: World, slots: set<nat>) {
    && Separated(w.s, w.roots, slots) && UserSlots(slots)
    && forall r :: r in w.roots ==> LeavesHeld(w.s, r)
  }

  /** What the kernel's callers respect: they name existing spaces, they touch tracked slots,
      and they map user pages to frames they hold. */
  ghost predicate OpOk(w: World, slots: set<nat>, op: SpaceOp) {
    match op
    case Create(c) => c in w.roots
    case Copy(p) => p in w.roots
    case Map(r, va, phys, flags) =>
      && r in w.roots && TrackedPage(slots, Vpn(va))
      && (Vpn(va) < USER_PAGES && Present(flags) ==>
            FrameOf(MakePte(phys, flags)) < |w.s.mem| && FrameOf(MakePte(phys, flags)) !in w.s.free)
    case Unmap(r, va) => r in w.roots && TrackedPage(slots, Vpn(va))
  }

  ghost function Apply(w: World, slots: set<nat>, op: SpaceOp): World
    requires WorldOk(w, slots) && OpOk(w, slots, op)
  {
    match op
    case Create(c) =>
      var (s', o) := NewSpace(w.s, c);
      World(s', if o.Some? then w.roots + {o.value} else w.roots)
    case Copy(p) =>
      var (s', o) := CopySpace(w.s, p);
      World(s', if o.Some? then w.roots + {o.value} else w.roots)
    case Map(r, va, phys, flags) => World(VmmMap(w.s, r, va, phys, flags), w.roots)
    case Unmap(r, va) => World(VmmUnmap(w.s, r, va), w.roots)
  }

  /** Spaces r and r2 reach page n through the same leaf table. */
  ghost predicate SameLeafTable(m: Memory, r: nat, r2: nat, n: nat) {
    TableAt(m, r, PathOf(n)).Some? && TableAt(m, r, PathOf(n)) == TableAt(m, r2, PathOf(n))
  }

  /** Entries of space r that op may change: none, except the one page it names in the space it
      names and, for a kernel-half page, in the spaces that share its leaf table. */
  ghost predicate MayChange(m': Memory, op: SpaceOp, r: nat, n: nat) {
    match op
    case Create(_) => false
    case Copy(_) => false
    case Map(r2, va, _, _) => n == Vpn(va) && (r == r2 || (n >= USER_PAGES && SameLeafTable(m', r, r2, n)))
    case Unmap(r2, va) => n == Vpn(va) && (r == r2 || (n >= USER_PAGES && SameLeafTable(m', r, r2, n)))
  }

  ghost predicate Isolated(w: World, w': World, slots: set<nat>, op: SpaceOp) {
    && w.roots <= w'.roots
    && |w'.s.mem| == |w.s.mem|
    && (forall r, n: nat {:trigger PteOf(w'.s.mem, r, n)} ::
          r in w.roots && TrackedPage(slots, n) && !MayChange(w'.s.mem, op, r, n)
          ==> PteOf(w'.s.mem, r, n) == PteOf(w.s.mem, r, n))
    && (forall r, q {:trigger TableAt(w'.s.mem, r, q)} ::
          r in w.roots && Tracked(slots, q) && TableAt(w.s.mem, r, q).Some?
          ==> TableAt(w'.s.mem, r, q) == TableAt(w.s.mem, r, q))
  }

  lemma LeavesStayHeld(s: Phys, s': Phys, r: nat)
    requires LeavesHeld(s, r) && |s'.mem| == |s.mem| && (forall x :: x in s'.free ==> x in s.free)
    requires forall n: nat {:trigger PteOf(s'.mem, r, n)} :: n < USER_PAGES && Present(PteOf(s'.mem, r, n)) ==>
               PteOf(s'.mem, r, n) == PteOf(s.mem, r, n)
               || (FrameOf(PteOf(s'.mem, r, n)) < |s.mem| && FrameOf(PteOf(s'.mem, r, n)) !in s'.free)
    ensures LeavesHeld(s', r)
  {
  }

  lemma CreateStep(w: World, slots: set<nat>, c: nat)
    requires WorldOk(w, slots) && c in w.roots
    ensures var w' := Apply(w, slots, Create(c)); WorldOk(w', slots) && Isolated(w, w', slots, Create(c))
  {
    var w' := Apply(w, slots, Create(c));
    if w.s.free != [] {
      NewSpaceSeparated(w.s, w.roots, slots, c);
      var g := w.s.free[0];
      forall r | r in w'.roots ensures LeavesHeld(w'.s, r) {
        forall n: nat | n < USER_PAGES
          ensures PteOf(w'.s.mem, r, n) == if r == g then 0 else PteOf(w.s.mem, r, n)
        {
          UserPage(slots, n);
        }
        if r != g { LeavesStayHeld(w.s, w'.s, r); }
      }
      forall r, q | r in w.roots && Tracked(slots, q) ensures TableAt(w'.s.mem, r, q) == TableAt(w.s.mem, r, q) {
        NewTables(w.s, w.roots, slots, c, r, q);
        assert TableAt(w.s.mem, r, []) == Some(r) && Tracked(slots, []);
      }
    }
  }

  lemma MapStep(w: World, slots: set<nat>, op: SpaceOp)
    requires WorldOk(w, slots) && op.Map? && OpOk(w, slots, op)
    ensures var w' := Apply(w, slots, op); WorldOk(w', slots) && Isolated(w, w', slots, op)
  {
    var w' := Apply(w, slots, op);
    MapRefines(w.s, w.roots, slots, op.root, op.va, op.phys, op.flags);
    MapFrames(w.s, w.roots, slots, op.root, op.va, op.phys, op.flags);
    hide Separated, VmmMap, TableAt, CanMap, Missing, TablesFromFree, FramesKept;
    forall r | r in w'.roots ensures LeavesHeld(w'.s, r) {
      forall n: nat | n < USER_PAGES
        ensures PteOf(w'.s.mem, r, n) == PteOf(w.s.mem, r, n)
                || (n == Vpn(op.va) && PteOf(w'.s.mem, r, n) == MakePte(op.phys, op.flags))
      {
        UserPage(slots, n);
      }
      LeavesStayHeld(w.s, w'.s, r);
    }
  }

  lemma UnmapStep(w: World, slots: set<nat>, op: SpaceOp)
    requires WorldOk(w, slots) && op.Unmap? && OpOk(w, slots, op)
    ensures var w' := Apply(w, slots, op); WorldOk(w', slots) && Isolated(w, w', slots, op)
  {
    var w' := Apply(w, slots, op);
    UnmapRefines(w.s, w.roots, slots, op.root, op.va);
    hide Separated, VmmUnmap, TableAt, PteOf;
    forall r | r in w'.roots ensures LeavesHeld(w'.s, r) {
      UnmapHeld(w.s, w'.s, w.roots, slots, op.root, op.va, r);
    }
  }

  lemma UnmapHeld(s: Phys, s': Phys, roots: set<nat>, slots: set<nat>, root: nat, va: Word, r: nat)
    requires Separated(s, roots, slots) && root in roots && r in roots && TrackedPage(slots, Vpn(va))
    requires UserSlots(slots)
    requires s' == VmmUnmap(s, root, va) && LeavesHeld(s, r)
    ensures LeavesHeld(s', r)
  {
    UnmapRefines(s, roots, slots, root, va);
    hide Separated, VmmUnmap, TableAt, PteOf;
    forall n: nat | n < USER_PAGES
      ensures PteOf(s'.mem, r, n) == PteOf(s.mem, r, n) || PteOf(s'.mem, r, n) == 0
    {
      UserPage(slots, n);
    }
    LeavesStayHeld(s, s', r);
  }

  lemma CopyStep(w: World, slots: set<nat>, parent: nat)
    requires WorldOk(w, slots) && parent in w.roots
    ensures var w' := Apply(w, slots, Copy(parent)); WorldOk(w', slots) && Isolated(w, w', slots, Copy(parent))
  {
    SeparatedBasics(w.s, w.roots, slots, parent);
    hide Separated, LeavesHeld, CopyBelow, TableAt, PteOf, CopyStart;
    if w.s.free != [] {
      var (s0, o) := NewSpace(w.s, parent);
      var child := w.s.free[0];
      NewSpaceStartsCopy(w.s, w.roots, slots, parent);
      CopyKeepsSpaces(s0, w.roots + {child}, slots, parent, child, USER_PAGES);
      var s' := CopyBelow(s0, parent, child, USER_PAGES).0;
      UserMemory.FewerRoots(s', w.roots + {child}, slots, w.roots);
      CopiedSpaces(w, slots, parent, child, s0, s');
    }
  }

  lemma CopiedSpaces(w: World, slots: set<nat>, parent: nat, child: nat, s0: Phys, s': Phys)
    requires WorldOk(w, slots) && parent in w.roots && w.s.free != [] && child == w.s.free[0] && child !in w.roots
    requires s0 == NewSpace(w.s, parent).0 && |s'.mem| == |s0.mem|
    requires SpacesKept(s0, s', w.roots + {child}, slots, child)
    ensures forall r :: r in w.roots + {child} ==> LeavesHeld(s', r)
    ensures Isolated(w, World(s', w.roots), slots, Copy(parent))
  {
    CreateStep(w, slots, parent);
    var w0 := Apply(w, slots, Create(parent));
    hide Separated, TableAt, PteOf;
    forall r, n: nat | r in w.roots && TrackedPage(slots, n) ensures PteOf(s'.mem, r, n) == PteOf(w.s.mem, r, n) {
      assert r in w.roots + {child} - {child};
      assert PteOf(s0.mem, r, n) == PteOf(w.s.mem, r, n);
    }
    forall r, q | r in w.roots && Tracked(slots, q) && TableAt(w.s.mem, r, q).Some?
      ensures TableAt(s'.mem, r, q) == TableAt(w.s.mem, r, q)
    {
      assert r in w.roots + {child} - {child};
      assert TableAt(s0.mem, r, q) == TableAt(w.s.mem, r, q);
    }
    forall r | r in w.roots ensures LeavesHeld(s', r) {
      forall n: nat | n < USER_PAGES ensures PteOf(s'.mem, r, n) == PteOf(w.s.mem, r, n) {
        UserPage(slots, n);
      }
      assert forall x :: x in s0.free ==> x in w.s.free;
      LeavesStayHeld(w.s, s', r);
    }
  }

  /** Every operation keeps the spaces separated and touches no entry but the one it names. */
  lemma StepIsolated(w: World, slots: set<nat>, op: SpaceOp)
    requires WorldOk(w, slots) && OpOk(w, slots, op)
    ensures var w' := Apply(w, slots, op); WorldOk(w', slots) && Isolated(w, w', slots, op)
  {
    hide *;
    match op
    case Create(c) => CreateAllowed(w, slots, op); CreateStep(w, slots, c);
    case Copy(p) => CreateAllowed(w, slots, op); CopyStep(w, slots, p);
    case Map(_, _, _, _) => MapStep(w, slots, op);
    case Unmap(_, _) => UnmapStep(w, slots, op);
  }

  lemma CreateAllowed(w: World, slots: set<nat>, op: SpaceOp)
    requires OpOk(w, slots, op)
    ensures op.Create? ==> op.current in w.roots
    ensures op.Copy? ==> op.parent in w.roots
  {
  }

  // ----- runs

  ghost predicate RunOk(w: World, slots: set<nat>, ops: seq<SpaceOp>)
    requires WorldOk(w, slots)
    decreases |ops|
  {
    ops != [] ==>
      && OpOk(w, slots, ops[0])
      && (StepIsolated(w, slots, ops[0]); RunOk(Apply(w, slots, ops[0]), slots, ops[1..]))
  }

  ghost function Run(w: World, slots: set<nat>, ops: seq<SpaceOp>): World
    requires WorldOk(w, slots) && RunOk(w, slots, ops)
    decreases |ops|
  {
    if ops == [] then w
    else (StepIsolated(w, slots, ops[0]); Run(Apply(w, slots, ops[0]), slots, ops[1..]))
  }

  /** Over any run: user-half tables of distinct spaces never share a frame; a space no operation
      names keeps every user translation; and two spaces that share a kernel-half table at some
      point translate every page under it identically ever after. */
  lemma {:induction false} RunIsolated(w: World, slots: set<nat>, ops: seq<SpaceOp>)
    requires WorldOk(w, slots) && RunOk(w, slots, ops)
    ensures var w' := Run(w, slots, ops);
            && WorldOk(w', slots) && w.roots <= w'.roots
            && (forall r, n: nat {:trigger PteOf(w'.s.mem, r, n)} ::
                  r in w.roots && n < USER_PAGES && (forall i :: 0 <= i < |ops| ==> !Names(ops[i], r))
                  ==> PteOf(w'.s.mem, r, n) == PteOf(w.s.mem, r, n))
            && (forall r, q {:trigger TableAt(w'.s.mem, r, q)} ::
                  r in w.roots && Tracked(slots, q) && TableAt(w.s.mem, r, q).Some?
                  ==> TableAt(w'.s.mem, r, q) == TableAt(w.s.mem, r, q))
    decreases |ops|
  {
    if ops != [] {
      StepIsolated(w, slots, ops[0]);
      var w1 := Apply(w, slots, ops[0]);
      RunIsolated(w1, slots, ops[1..]);
      var w' := Run(w, slots, ops);
      hide Apply, RunOk, Run, TableAt, PteOf, Separated;
      forall r, n: nat | r in w.roots && n < USER_PAGES && (forall i :: 0 <= i < |ops| ==> !Names(ops[i], r))
        ensures PteOf(w'.s.mem, r, n) == PteOf(w.s.mem, r, n)
      {
        UserPage(slots, n);
        assert forall i :: 0 <= i < |ops[1..]| ==> ops[1..][i] == ops[i + 1];
        assert PteOf(w1.s.mem, r, n) == PteOf(w.s.mem, r, n);
      }
      forall r, q | r in w.roots && Tracked(slots, q) && TableAt(w.s.mem, r, q).Some?
        ensures TableAt(w'.s.mem, r, q) == TableAt(w.s.mem, r, q)
      {
        assert TableAt(w1.s.mem, r, q) == TableAt(w.s.mem, r, q);
      }
    }
  }

  predicate Names(op: SpaceOp, r: nat) {
    (op.Map? || op.Unmap?) && op.root == r
  }

  ghost predicate SharedSlot(m: Memory, r1: nat, r2: nat, i: nat) {
    TableAt(m, r1, [i]).Some? && TableAt(m, r1, [i]) == TableAt(m, r2, [i])
  }

  lemma {:induction false} SharedTables(m: Memory, r1: nat, r2: nat, i: nat, q: Path)
    requires SharedSlot(m, r1, r2, i)
    ensures TableAt(m, r1, [i] + q) == TableAt(m, r2, [i] + q)
    decreases |q|
  {
    if q == [] {
      assert [i] + q == [i];
    } else {
      SharedTables(m, r1, r2, i, q[..|q| - 1]);
      assert ([i] + q)[..|q|] == [i] + q[..|q| - 1];
    }
  }

  lemma SharedTranslation(m: Memory, r1: nat, r2: nat, i: nat, n: nat)
    requires SharedSlot(m, r1, r2, i) && Index4(n) == i
    ensures PteOf(m, r1, n) == PteOf(m, r2, n)
  {
    assert PathOf(n) == [i] + [Index3(n), Index2(n)];
    SharedTables(m, r1, r2, i, [Index3(n), Index2(n)]);
  }

  /** A kernel-half slot shared at some point is seen identically for ever, whatever is mapped or
      unmapped under it through either space. */
  lemma KernelHalfStaysShared(w: World, slots: set<nat>, ops: seq<SpaceOp>, r1: nat, r2: nat, n: nat)
    requires WorldOk(w, slots) && RunOk(w, slots, ops)
    requires r1 in w.roots && r2 in w.roots && Index4(n) in slots && SharedSlot(w.s.mem, r1, r2, Index4(n))
    ensures PteOf(Run(w, slots, ops).s.mem, r1, n) == PteOf(Run(w, slots, ops).s.mem, r2, n)
  {
    RunIsolated(w, slots, ops);
    assert Tracked(slots, [Index4(n)]);
    SharedTranslation(Run(w, slots, ops).s.mem, r1, r2, Index4(n), n);
  }

  /** A created space shares every kernel-half slot that was present where it was created. */
  lemma CreatedSpaceShares(w: World, slots: set<nat>, c: nat, i: nat)
    requires WorldOk(w, slots) && c in w.roots && w.s.free != []
    requires i in slots && i >= KERNEL_PML4_START && TableAt(w.s.mem, c, [i]).Some?
    ensures var w' := Apply(w, slots, Create(c));
            w.s.free[0] in w'.roots && SharedSlot(w'.s.mem, c, w.s.free[0], i)
  {
    assert Tracked(slots, [i]) && Tracked(slots, []) && TableAt(w.s.mem, c, []) == Some(c);
    NewTables(w.s, w.roots, slots, c, c, [i]);
    NewTables(w.s, w.roots, slots, c, w.s.free[0], [i]);
  }

  /** A copied space shares every kernel-half slot its parent has. */
  lemma CopiedSpaceShares(w: World, slots: set<nat>, parent: nat, i: nat)
    requires WorldOk(w, slots) && parent in w.roots
    requires i in slots && i >= KERNEL_PML4_START && TableAt(w.s.mem, parent, [i]).Some?
    ensures parent < |w.s.mem| <= MAX_FRAMES && FreeListOk(w.s)
    ensures var (s', o) := CopySpace(w.s, parent); o.Some? ==> SharedSlot(s'.mem, parent, o.value, i)
  {
    ForkSharesKernelHalf(w.s, w.roots, slots, parent);
    assert KernelPath(slots, [i]);
  }

  /** All spaces there are share slot i. */
  ghost predicate AllShare(w: World, i: nat) {
    forall r1, r2 :: r1 in w.roots && r2 in w.roots ==> SharedSlot(w.s.mem, r1, r2, i)
  }

  /** Space r shares slot i with space c, so with everyone c shared it with. */
  ghost predicate Joins(w: World, w': World, c: nat, r: nat, i: nat) {
    c in w.roots && w'.roots == w.roots + {r} && SharedSlot(w'.s.mem, c, r, i)
  }

  lemma JoinedAllShare(w: World, w': World, slots: set<nat>, i: nat, c: nat, r: nat)
    requires AllShare(w, i) && Joins(w, w', c, r, i)
    requires forall x :: x in w.roots ==> TableAt(w'.s.mem, x, [i]) == TableAt(w.s.mem, x, [i])
    ensures AllShare(w', i)
  {
    hide TableAt;
    forall r1, r2 | r1 in w'.roots && r2 in w'.roots ensures SharedSlot(w'.s.mem, r1, r2, i) {
      var x1, x2 := if r1 == r then c else r1, if r2 == r then c else r2;
      assert SharedSlot(w.s.mem, x1, x2, i);
    }
  }

  lemma StepAllShare(w: World, slots: set<nat>, op: SpaceOp, i: nat)
    requires WorldOk(w, slots) && OpOk(w, slots, op) && i in slots && i >= KERNEL_PML4_START && AllShare(w, i)
    ensures AllShare(Apply(w, slots, op), i)
  {
    StepIsolated(w, slots, op);
    var w' := Apply(w, slots, op);
    assert Tracked(slots, [i]);
    forall x | x in w.roots ensures TableAt(w'.s.mem, x, [i]) == TableAt(w.s.mem, x, [i]) {
      assert SharedSlot(w.s.mem, x, x, i);
    }
    hide TableAt, Separated, NewSpace, CopySpace, VmmMap, VmmUnmap, PteOf, LeavesHeld;
    match op
    case Create(c) =>
      assert SharedSlot(w.s.mem, c, c, i);
      if w.s.free != [] {
        CreatedSpaceShares(w, slots, c, i);
        NewSpaceIs(w.s, w.roots, slots, c);
        JoinedAllShare(w, w', slots, i, c, w.s.free[0]);
      } else {
        NoSpace(w.s, w.roots, slots, c);
        SameAllShare(w, w', i);
      }
    case Copy(p) =>
      assert SharedSlot(w.s.mem, p, p, i);
      CopiedSpaceShares(w, slots, p, i);
      var o := CopySpace(w.s, p).1;
      if o.Some? { JoinedAllShare(w, w', slots, i, p, o.value); } else { SameAllShare(w, w', i); }
    case _ => SameAllShare(w, w', i);
  }

  lemma SameAllShare(w: World, w': World, i: nat)
    requires AllShare(w, i) && w'.roots == w.roots
    requires forall x :: x in w.roots ==> TableAt(w'.s.mem, x, [i]) == TableAt(w.s.mem, x, [i])
    ensures AllShare(w', i)
  {
    hide TableAt;
    forall r1, r2 | r1 in w'.roots && r2 in w'.roots ensures SharedSlot(w'.s.mem, r1, r2, i) {
      assert SharedSlot(w.s.mem, r1, r2, i);
    }
  }

  lemma NewSpaceIs(s: Phys, roots: set<nat>, slots: set<nat>, c: nat)
    requires Separated(s, roots, slots) && c in roots && s.free != []
    ensures c < |s.mem| && FreeListOk(s) && NewSpace(s, c).1 == Some(s.free[0])
  {
  }

  lemma NoSpace(s: Phys, roots: set<nat>, slots: set<nat>, c: nat)
    requires Separated(s, roots, slots) && c in roots && s.free == []
    ensures c < |s.mem| && FreeListOk(s) && NewSpace(s, c).1 == None
  {
  }

  /** Over any run, a kernel-half slot all spaces share at the start is shared by all spaces,
      those created and copied on the way included. */
  lemma {:induction false} RunAllShare(w: World, slots: set<nat>, ops: seq<SpaceOp>, i: nat)
    requires WorldOk(w, slots) && RunOk(w, slots, ops) && i in slots && i >= KERNEL_PML4_START && AllShare(w, i)
    ensures AllShare(Run(w, slots, ops), i)
    decreases |ops|
  {
    hide WorldOk, Apply, AllShare;
    if ops != [] {
      StepAllShare(w, slots, ops[0], i);
      StepIsolated(w, slots, ops[0]);
      RunAllShare(Apply(w, slots, ops[0]), slots, ops[1..], i);
    }
  }

  /** So every kernel-half page under a slot present at the start is translated identically in
      all spaces at any time, whatever was mapped or unmapped through any of them. */
  lemma KernelHalfSeenByAll(w: World, slots: set<nat>, ops: seq<SpaceOp>, n: nat, r1: nat, r2: nat)
    requires WorldOk(w, slots) && RunOk(w, slots, ops) && USER_PAGES <= n < PAGES
    requires Index4(n) in slots && AllShare(w, Index4(n))
    requires r1 in Run(w, slots, ops).roots && r2 in Run(w, slots, ops).roots
    ensures PteOf(Run(w, slots, ops).s.mem, r1, n) == PteOf(Run(w, slots, ops).s.mem, r2, n)
  {
    KernelPage(n);
    RunAllShare(w, slots, ops, Index4(n));
    SharedTranslation(Run(w, slots, ops).s.mem, r1, r2, Index4(n), n);
  }

  /** A map or an unmap of a kernel-half page under a slot all spaces share, through any one of them,
      is seen by all of them. */
  lemma KernelMapSeenByAll(w: World, slots: set<nat>, op: SpaceOp, r: nat)
    requires WorldOk(w, slots) && OpOk(w, slots, op) && (op.Map? || op.Unmap?) && r in w.roots
    requires Vpn(op.va) >= USER_PAGES && AllShare(w, Index4(Vpn(op.va)))
    ensures op.root < |w.s.mem| <= MAX_FRAMES && FreeListOk(w.s)
    ensures var m, n := Apply(w, slots, op).s.mem, Vpn(op.va);
            PteOf(m, r, n) ==
            if op.Map? && CanMap(w.s, op.root, n) then MakePte(op.phys, op.flags)
            else if op.Unmap? && Present(PteOf(w.s.mem, op.root, n)) then 0
            else PteOf(w.s.mem, op.root, n)
  {
    var n := Vpn(op.va);
    var w' := Apply(w, slots, op);
    SeparatedBasics(w.s, w.roots, slots, op.root);
    KernelPage(n);
    StepAllShare(w, slots, op, Index4(n));
    SharedTranslation(w'.s.mem, op.root, r, Index4(n), n);
    if op.Map? {
      MapRefines(w.s, w.roots, slots, op.root, op.va, op.phys, op.flags);
    } else {
      UnmapRefines(w.s, w.roots, slots, op.root, op.va);
    }
    hide Separated, VmmMap, VmmUnmap, TableAt, PteOf, CanMap, TablesKept, MakePte;
  }
}

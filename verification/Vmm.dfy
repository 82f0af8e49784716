/** The virtual memory manager of kernel/src/paging.c as it runs: table entries written in place
    in memory, frames taken from the free list. */
module Vmm {
  import opened Words
  import opened PageTableEntries
  import opened PhysicalMemory
  import opened PageTables
  import opened AddressSpaces
  import opened ForkCopy

  class Manager {
    var mem: Memory
    var free: seq<nat>

    ghost function State(): Phys
      reads this
    {
      Phys(mem, free)
    }

    constructor (mem: Memory, free: seq<nat>)
      ensures this.mem == mem && this.free == free
    {
      this.mem := mem;
      this.free := free;
    }

    /** page_alloc: takes the head of the free list, zeroing the frame when asked. */
    method PageAlloc(zero: bool) returns (g: Option<nat>)
      requires FreeListOk(State())
      modifies this
      ensures old(free) == [] ==> g == None && State() == old(State())
      ensures old(free) != [] ==>
                && g == Some(old(free)[0]) && free == old(free)[1..]
                && mem == if zero then old(mem)[g.value := ZeroFrame()] else old(mem)
    {
      if free == [] {
        return None;
      }
      var pp := free[0];
      free := free[1..];
      if zero {
        mem := mem[pp := ZeroFrame()];
      }
      return Some(pp);
    }

    /** One level of vmm_walk. */
    method WalkLevel(f: nat, i: nat, create: bool) returns (t: Option<nat>)
      requires f < |mem| <= MAX_FRAMES && i < 512 && FreeListOk(State())
      requires Present(Ent(mem, f, i)) ==> FrameOf(Ent(mem, f, i)) < |mem|
      requires f !in free
      modifies this
      ensures create ==> (State(), t) == WalkStep(old(State()), f, i)
      ensures !create ==> State() == old(State()) && t == Child(mem, f, i)
    {
      if !Present(Ent(mem, f, i)) {
        if !create {
          return None;
        }
        var pp := PageAlloc(true);
        if pp == None {
          return None;
        }
        var entry := PteMake(pp.value * 4096, TABLE_FLAGS);
        mem := PutEnt(mem, f, i, entry);
        TablePte(pp.value);
        LinkedEnt(old(mem), f, i, pp.value, f, i);
      }
      var phys := PteGetAddr(Ent(mem, f, i));
      t := Some(phys / 4096);
    }

    /** vmm_walk: the leaf table and index of va. */
    method Walk(root: nat, va: Word, create: bool, ghost roots: set<nat>, ghost slots: set<nat>)
      returns (slot: Option<(nat, nat)>)
      requires Separated(State(), roots, slots) && root in roots && TrackedPage(slots, Vpn(va))
      modifies this
      ensures create ==> var (s, o) := WalkCreate(old(State()), root, PathOf(Vpn(va)));
                         State() == s && slot == if o.None? then None else Some((o.value, Index1(Vpn(va))))
      ensures !create ==> var o := TableAt(mem, root, PathOf(Vpn(va)));
                          State() == old(State()) && slot == if o.None? then None else Some((o.value, Index1(Vpn(va))))
    {
      hide Separated, TableAt, WalkCreate, WalkStep, Child, Ent, Present, FrameOf, Index1, Index2, Index3, Index4,
        PathOf, Vpn;
      var i4, i3, i2, i1 := Indices(va);
      WalkPlan(State(), roots, slots, root, va, i4, i3, i2);
      var pdpt := WalkLevel(root, i4, create);
      if pdpt == None {
        return None;
      }
      var pd := WalkLevel(pdpt.value, i3, create);
      if pd == None {
        return None;
      }
      var pt := WalkLevel(pd.value, i2, create);
      if pt == None {
        return None;
      }
      return Some((pt.value, i1));
    }

    method Map(root: nat, va: Word, phys: Word, flags: Word, ghost roots: set<nat>, ghost slots: set<nat>)
      requires Separated(State(), roots, slots) && root in roots && TrackedPage(slots, Vpn(va))
      modifies this
      ensures State() == VmmMap(old(State()), root, va, phys, flags)
    {
      SeparatedBasics(State(), roots, slots, root);
      PageAtIndices(Vpn(va));
      hide Separated, WalkCreate, TableAt, MakePte;
      var slot := Walk(root, va, true, roots, slots);
      if slot == None {
        return;
      }
      var pte := PteMake(phys, flags);
      mem := PutEnt(mem, slot.value.0, slot.value.1, pte);
    }

    method Unmap(root: nat, va: Word, ghost roots: set<nat>, ghost slots: set<nat>)
      requires Separated(State(), roots, slots) && root in roots && TrackedPage(slots, Vpn(va))
      modifies this
      ensures State() == VmmUnmap(old(State()), root, va)
    {
      var slot := Walk(root, va, false, roots, slots);
      hide Separated, TableAt;
      if slot == None {
        return;
      }
      if !Present(Ent(mem, slot.value.0, slot.value.1)) {
        return;
      }
      mem := PutEnt(mem, slot.value.0, slot.value.1, 0);
    }

    /** Copies the kernel half of root c into root g. */
    method CopyUpper(g: nat, c: nat)
      requires g < |mem| && c < |mem|
      modifies this`mem
      ensures mem == CopyKernelHalf(old(mem), g, c, 512)
    {
      for i := KERNEL_PML4_START to 512
        invariant mem == CopyKernelHalf(old(mem), g, c, i)
      {
        mem := PutEnt(mem, g, i, Ent(mem, c, i));
      }
    }

    method NewAddressSpace(current: nat) returns (root: Option<nat>)
      requires current < |mem| && FreeListOk(State())
      modifies this
      ensures (State(), root) == NewSpace(old(State()), current)
    {
      root := PageAlloc(true);
      if root == None {
        return None;
      }
      CopyUpper(root.value, current);
    }

    /** The body of the innermost loop of the copy: one leaf entry of the parent. */
    method CopyLeaf(parent: nat, child: nat, pt: nat, i4: nat, i3: nat, i2: nat, i1: nat,
                    ghost s0: Phys, ghost roots: set<nat>, ghost slots: set<nat>)
      returns (ok: bool)
      requires CopyStart(s0, roots, slots, parent, child) && i4 < KERNEL_PML4_START && i3 < 512 && i2 < 512 && i1 < 512
      requires Progress(s0, State(), parent, child, PageAt(i4, i3, i2, i1))
      requires TableAt(mem, parent, [i4, i3, i2]) == Some(pt)
      modifies this
      ensures ok ==> Progress(s0, State(), parent, child, PageAt(i4, i3, i2, i1 + 1))
      ensures !ok ==> CopyBelow(s0, parent, child, USER_PAGES) == (State(), false)
    {
      hide CopyStart, TableAt, CopyBelow, PteOf, VmmMap, Ent, MakePte, SpacesKept, Separated, Or, Shl, FrameOf,
        AddrOf, Vpn,
        Index1, Index2, Index3, Index4;
      ghost var s := State();
      LeafRead(s0, s, roots, slots, parent, child, i4, i3, i2, i1, pt);
      ghost var n := PageAt(i4, i3, i2, i1);
      var pte := Ent(mem, pt, i1);
      if !Present(pte) {
        CopyAbsent(s0, parent, child, n);
        return true;
      }
      ReassemblyInvertsIndices(i4, i3, i2, i1);
      var va := Or(Or(Or(Shl(i4, 39), Shl(i3, 30)), Shl(i2, 21)), Shl(i1, 12));
      var phys := PteGetAddr(pte);
      AddrFrame(pte);
      var flags := pte % 4096;
      CopyBelowStep(s0, parent, child, n);
      var pp := PageAlloc(false);
      if pp == None {
        CopyFailed(s0, parent, child, n + 1, USER_PAGES);
        return false;
      }
      mem := mem[pp.value := mem[phys / 4096]];
      FillKeeps(s, roots, slots, pte);
      Map(child, va, pp.value * 4096, flags, roots, slots);
      return true;
    }

    /** The loop over one leaf table of the parent. */
    method CopyPt(parent: nat, child: nat, pt: nat, i4: nat, i3: nat, i2: nat,
                  ghost s0: Phys, ghost roots: set<nat>, ghost slots: set<nat>)
      returns (ok: bool)
      requires CopyStart(s0, roots, slots, parent, child) && i4 < KERNEL_PML4_START && i3 < 512 && i2 < 512
      requires Progress(s0, State(), parent, child, PageAt(i4, i3, i2, 0))
      requires TableAt(s0.mem, parent, [i4, i3, i2]) == Some(pt)
      modifies this
      ensures ok ==> Progress(s0, State(), parent, child, PageAt(i4, i3, i2 + 1, 0))
      ensures !ok ==> CopyBelow(s0, parent, child, USER_PAGES) == (State(), false)
    {
      hide CopyStart, TableAt, CopyBelow, PageAt;
      PageAtCarry(i4, i3, i2);
      for i1 := 0 to 512
        invariant Progress(s0, State(), parent, child, PageAt(i4, i3, i2, i1))
      {
        TableStays(s0, State(), roots, slots, parent, child, PageAt(i4, i3, i2, i1), [i4, i3, i2]);
        ok := CopyLeaf(parent, child, pt, i4, i3, i2, i1, s0, roots, slots);
        if !ok {
          return;
        }
      }
      return true;
    }

    /** The loop over one page directory of the parent. */
    method CopyPd(parent: nat, child: nat, pd: nat, i4: nat, i3: nat,
                  ghost s0: Phys, ghost roots: set<nat>, ghost slots: set<nat>)
      returns (ok: bool)
      requires CopyStart(s0, roots, slots, parent, child) && i4 < KERNEL_PML4_START && i3 < 512
      requires Progress(s0, State(), parent, child, PageAt(i4, i3, 0, 0))
      requires TableAt(s0.mem, parent, [i4, i3]) == Some(pd)
      modifies this
      ensures ok ==> Progress(s0, State(), parent, child, PageAt(i4, i3 + 1, 0, 0))
      ensures !ok ==> CopyBelow(s0, parent, child, USER_PAGES) == (State(), false)
    {
      hide CopyStart, TableAt, CopyBelow, Child, Ent, PageAt, FrameOf, AddrOf;
      PageAtCarry(i4, i3, 0);
      for i2 := 0 to 512
        invariant Progress(s0, State(), parent, child, PageAt(i4, i3, i2, 0))
      {
        TableRead(s0, State(), roots, slots, parent, child, PageAt(i4, i3, i2, 0), [i4, i3], i2, pd);
        if !Present(Ent(mem, pd, i2)) {
          SkipPt(s0, State(), roots, slots, parent, child, i4, i3, i2);
          continue;
        }
        var phys := PteGetAddr(Ent(mem, pd, i2));
        AddrFrame(Ent(mem, pd, i2));
        assert [i4, i3] + [i2] == [i4, i3, i2];
        ok := CopyPt(parent, child, phys / 4096, i4, i3, i2, s0, roots, slots);
        if !ok {
          return;
        }
      }
      return true;
    }

    /** The loop over one page-directory-pointer table of the parent. */
    method CopyPdpt(parent: nat, child: nat, pdpt: nat, i4: nat,
                    ghost s0: Phys, ghost roots: set<nat>, ghost slots: set<nat>)
      returns (ok: bool)
      requires CopyStart(s0, roots, slots, parent, child) && i4 < KERNEL_PML4_START
      requires Progress(s0, State(), parent, child, PageAt(i4, 0, 0, 0))
      requires TableAt(s0.mem, parent, [i4]) == Some(pdpt)
      modifies this
      ensures ok ==> Progress(s0, State(), parent, child, PageAt(i4 + 1, 0, 0, 0))
      ensures !ok ==> CopyBelow(s0, parent, child, USER_PAGES) == (State(), false)
    {
      hide CopyStart, TableAt, CopyBelow, Child, Ent, PageAt, FrameOf, AddrOf;
      PageAtCarry(i4, 0, 0);
      for i3 := 0 to 512
        invariant Progress(s0, State(), parent, child, PageAt(i4, i3, 0, 0))
      {
        TableRead(s0, State(), roots, slots, parent, child, PageAt(i4, i3, 0, 0), [i4], i3, pdpt);
        if !Present(Ent(mem, pdpt, i3)) {
          SkipPd(s0, State(), roots, slots, parent, child, i4, i3);
          continue;
        }
        var phys := PteGetAddr(Ent(mem, pdpt, i3));
        AddrFrame(Ent(mem, pdpt, i3));
        assert [i4] + [i3] == [i4, i3];
        ok := CopyPd(parent, child, phys / 4096, i4, i3, s0, roots, slots);
        if !ok {
          return;
        }
      }
      return true;
    }

    /** The outer loop of the copy, over the user half of the parent's root. */
    method CopyUserHalf(parent: nat, child: nat, ghost s0: Phys, ghost roots: set<nat>, ghost slots: set<nat>)
      returns (ok: bool)
      requires CopyStart(s0, roots, slots, parent, child) && s0 == State()
      modifies this
      ensures child < |s0.mem| <= MAX_FRAMES && FreeListOk(s0)
      ensures CopyBelow(s0, parent, child, USER_PAGES) == (State(), ok)
    {
      hide CopyStart, TableAt, CopyBelow, Child, Ent, PageAt, FrameOf, AddrOf;
      PageAtUserEnd();
      CopyBegins(s0, roots, slots, parent, child);
      for i4 := 0 to KERNEL_PML4_START
        invariant Progress(s0, State(), parent, child, PageAt(i4, 0, 0, 0))
      {
        TableRead(s0, State(), roots, slots, parent, child, PageAt(i4, 0, 0, 0), [], i4, parent);
        if !Present(Ent(mem, parent, i4)) {
          SkipPdpt(s0, State(), roots, slots, parent, child, i4);
          continue;
        }
        var phys := PteGetAddr(Ent(mem, parent, i4));
        AddrFrame(Ent(mem, parent, i4));
        assert [] + [i4] == [i4];
        ok := CopyPdpt(parent, child, phys / 4096, i4, s0, roots, slots);
        if !ok {
          return;
        }
      }
      return true;
    }

    /** vmm_copy_address_space: four nested loops over the parent's user half. */
    method CopyAddressSpace(parent: nat, ghost roots: set<nat>, ghost slots: set<nat>) returns (child: Option<nat>)
      requires Separated(State(), roots, slots) && UserSlots(slots) && parent in roots && LeavesHeld(State(), parent)
      modifies this
      ensures parent < |old(mem)| <= MAX_FRAMES && FreeListOk(old(State()))
      ensures (State(), child) == CopySpace(old(State()), parent)
    {
      hide Separated, LeavesHeld, CopyStart, CopyBelow, NewSpace;
      SeparatedBasics(State(), roots, slots, parent);
      ghost var s := State();
      child := NewAddressSpace(parent);
      if child == None {
        return None;
      }
      ChildMade(s, roots, slots, parent);
      var ok := CopyUserHalf(parent, child.value, State(), roots + {child.value}, slots);
      if !ok {
        return None;
      }
    }
  }

  lemma ChildMade(s: Phys, roots: set<nat>, slots: set<nat>, parent: nat)
    requires Separated(s, roots, slots) && UserSlots(slots) && parent in roots && LeavesHeld(s, parent)
    requires NewSpace(s, parent).1.Some?
    ensures var (s0, o) := NewSpace(s, parent); CopyStart(s0, roots + {o.value}, slots, parent, o.value)
  {
    NewSpaceStartsCopy(s, roots, slots, parent);
    hide CopyStart, Separated, LeavesHeld;
  }

  /** The loops have handled exactly the pages below k, without running out. */
  ghost predicate Progress(s0: Phys, s: Phys, parent: nat, child: nat, k: nat) {
    && child < |s0.mem| <= MAX_FRAMES && FreeListOk(s0) && k <= USER_PAGES
    && CopyBelow(s0, parent, child, k) == (s, true)
  }

  lemma CopyBegins(s0: Phys, roots: set<nat>, slots: set<nat>, parent: nat, child: nat)
    requires CopyStart(s0, roots, slots, parent, child)
    ensures Progress(s0, s0, parent, child, PageAt(0, 0, 0, 0)) && TableAt(s0.mem, parent, []) == Some(parent)
  {
  }

  lemma TableStays(s0: Phys, s: Phys, roots: set<nat>, slots: set<nat>, parent: nat, child: nat, k: nat, p: Path)
    requires CopyStart(s0, roots, slots, parent, child) && Progress(s0, s, parent, child, k)
    requires |p| <= 3 && (p != [] ==> p[0] < KERNEL_PML4_START)
    ensures TableAt(s.mem, parent, p) == TableAt(s0.mem, parent, p) && Tracked(slots, p)
  {
    CopyKeepsSpaces(s0, roots, slots, parent, child, k);
  }

  /** Reading entry i of a table of the parent during the copy. */
  lemma TableRead(s0: Phys, s: Phys, roots: set<nat>, slots: set<nat>, parent: nat, child: nat, k: nat,
                  p: Path, i: nat, f: nat)
    requires CopyStart(s0, roots, slots, parent, child) && Progress(s0, s, parent, child, k)
    requires |p| < 3 && (p + [i])[0] < KERNEL_PML4_START && i < 512 && TableAt(s0.mem, parent, p) == Some(f)
    ensures f < |s.mem|
    ensures Present(Ent(s.mem, f, i)) ==> TableAt(s0.mem, parent, p + [i]) == Some(FrameOf(Ent(s.mem, f, i)))
    ensures !Present(Ent(s.mem, f, i)) ==> TableAt(s0.mem, parent, p + [i]) == None
  {
    CopyKeepsSpaces(s0, roots, slots, parent, child, k);
    assert Tracked(slots, p + [i]) && Tracked(slots, p);
    TableAtSnoc(s.mem, parent, p, i);
    TableReadable(s, roots, slots, parent, p, i);
  }

  /** Pages below an absent table are unmapped, so the copy passes over them. */
  lemma SkipBelow(s0: Phys, s: Phys, roots: set<nat>, slots: set<nat>, parent: nat, child: nat, q: Path, j: nat, k: nat)
    requires CopyStart(s0, roots, slots, parent, child) && Progress(s0, s, parent, child, j) && j <= k <= USER_PAGES
    requires |q| <= 3 && TableAt(s0.mem, parent, q).None?
    requires forall n: nat {:trigger PathOf(n)} :: j <= n < k ==> q <= PathOf(n)
    ensures Progress(s0, s, parent, child, k)
  {
    hide CopyStart, PteOf, TableAt, CopyBelow;
    forall n: nat {:trigger PteOf(s.mem, parent, n)} | j <= n < k ensures !Present(PteOf(s.mem, parent, n)) {
      AbsentBelow(s0, s, roots, slots, parent, child, q, j, n);
    }
    CopySkip(s0, parent, child, j, k);
  }

  lemma AbsentBelow(s0: Phys, s: Phys, roots: set<nat>, slots: set<nat>, parent: nat, child: nat, q: Path, j: nat,
                    n: nat)
    requires CopyStart(s0, roots, slots, parent, child) && Progress(s0, s, parent, child, j) && n < USER_PAGES
    requires TableAt(s0.mem, parent, q).None? && q <= PathOf(n)
    ensures !Present(PteOf(s.mem, parent, n))
  {
    UserPage(slots, n);
    TableStays(s0, s, roots, slots, parent, child, j, PathOf(n));
    if TableAt(s0.mem, parent, PathOf(n)).Some? { PrefixTable(s0.mem, parent, PathOf(n), q); }
  }

  /** The pages a table at each level covers. */
  lemma PagesUnderPt(i4: nat, i3: nat, i2: nat)
    requires i4 < KERNEL_PML4_START && i3 < 512 && i2 < 512
    ensures PageAt(i4, i3, i2, 0) <= PageAt(i4, i3, i2 + 1, 0) <= USER_PAGES
    ensures forall n: nat {:trigger PathOf(n)} :: PageAt(i4, i3, i2, 0) <= n < PageAt(i4, i3, i2 + 1, 0) ==>
              [i4, i3] + [i2] <= PathOf(n)
  {
    var j := PageAt(i4, i3, i2, 0);
    forall n: nat {:trigger PathOf(n)} | j <= n < PageAt(i4, i3, i2 + 1, 0) ensures [i4, i3] + [i2] <= PathOf(n) {
      IndicesOfPageAt(i4, i3, i2, n - j);
    }
  }

  lemma PagesUnderPd(i4: nat, i3: nat)
    requires i4 < KERNEL_PML4_START && i3 < 512
    ensures PageAt(i4, i3, 0, 0) <= PageAt(i4, i3 + 1, 0, 0) <= USER_PAGES
    ensures forall n: nat {:trigger PathOf(n)} :: PageAt(i4, i3, 0, 0) <= n < PageAt(i4, i3 + 1, 0, 0) ==>
              [i4] + [i3] <= PathOf(n)
  {
    var j := PageAt(i4, i3, 0, 0);
    forall n: nat {:trigger PathOf(n)} | j <= n < PageAt(i4, i3 + 1, 0, 0) ensures [i4] + [i3] <= PathOf(n) {
      var d := n - j;
      assert d == d / 512 * 512 + d % 512;
      IndicesOfPageAt(i4, i3, d / 512, d % 512);
    }
  }

  lemma PagesUnderPdpt(i4: nat)
    requires i4 < KERNEL_PML4_START
    ensures PageAt(i4, 0, 0, 0) <= PageAt(i4 + 1, 0, 0, 0) <= USER_PAGES
    ensures forall n: nat {:trigger PathOf(n)} :: PageAt(i4, 0, 0, 0) <= n < PageAt(i4 + 1, 0, 0, 0) ==>
              [] + [i4] <= PathOf(n)
  {
    var j := PageAt(i4, 0, 0, 0);
    forall n: nat {:trigger PathOf(n)} | j <= n < PageAt(i4 + 1, 0, 0, 0) ensures [] + [i4] <= PathOf(n) {
      var d := n - j;
      assert d == d / 512 * 512 + d % 512 && d / 512 == d / 512 / 512 * 512 + d / 512 % 512;
      IndicesOfPageAt(i4, d / 512 / 512, d / 512 % 512, d % 512);
    }
  }

  lemma SkipPt(s0: Phys, s: Phys, roots: set<nat>, slots: set<nat>, parent: nat, child: nat, i4: nat, i3: nat, i2: nat)
    requires CopyStart(s0, roots, slots, parent, child) && i4 < KERNEL_PML4_START && i3 < 512 && i2 < 512
    requires Progress(s0, s, parent, child, PageAt(i4, i3, i2, 0)) && TableAt(s0.mem, parent, [i4, i3] + [i2]).None?
    ensures Progress(s0, s, parent, child, PageAt(i4, i3, i2 + 1, 0))
  {
    var j, k := PageAt(i4, i3, i2, 0), PageAt(i4, i3, i2 + 1, 0);
    PagesUnderPt(i4, i3, i2);
    hide CopyStart, TableAt, PageAt, PathOf, Progress;
    SkipBelow(s0, s, roots, slots, parent, child, [i4, i3] + [i2], j, k);
  }

  lemma SkipPd(s0: Phys, s: Phys, roots: set<nat>, slots: set<nat>, parent: nat, child: nat, i4: nat, i3: nat)
    requires CopyStart(s0, roots, slots, parent, child) && i4 < KERNEL_PML4_START && i3 < 512
    requires Progress(s0, s, parent, child, PageAt(i4, i3, 0, 0)) && TableAt(s0.mem, parent, [i4] + [i3]).None?
    ensures Progress(s0, s, parent, child, PageAt(i4, i3 + 1, 0, 0))
  {
    var j, k := PageAt(i4, i3, 0, 0), PageAt(i4, i3 + 1, 0, 0);
    PagesUnderPd(i4, i3);
    hide CopyStart, TableAt, PageAt, PathOf, Progress;
    SkipBelow(s0, s, roots, slots, parent, child, [i4] + [i3], j, k);
  }

  lemma SkipPdpt(s0: Phys, s: Phys, roots: set<nat>, slots: set<nat>, parent: nat, child: nat, i4: nat)
    requires CopyStart(s0, roots, slots, parent, child) && i4 < KERNEL_PML4_START
    requires Progress(s0, s, parent, child, PageAt(i4, 0, 0, 0)) && TableAt(s0.mem, parent, [] + [i4]).None?
    ensures Progress(s0, s, parent, child, PageAt(i4 + 1, 0, 0, 0))
  {
    var j, k := PageAt(i4, 0, 0, 0), PageAt(i4 + 1, 0, 0, 0);
    PagesUnderPdpt(i4);
    hide CopyStart, TableAt, PageAt, PathOf, Progress;
    SkipBelow(s0, s, roots, slots, parent, child, [] + [i4], j, k);
  }

  /** Table f of state s may be read at index i. */
  ghost predicate EntryReadable(s: Phys, f: nat, i: nat) {
    && f < |s.mem| <= MAX_FRAMES && f !in s.free && FreeListOk(s) && i < 512
    && (Present(Ent(s.mem, f, i)) ==> FrameOf(Ent(s.mem, f, i)) < |s.mem|)
  }

  lemma TableReadable(s: Phys, roots: set<nat>, slots: set<nat>, r: nat, p: Path, i: nat)
    requires Separated(s, roots, slots) && r in roots && |p| < 3 && Tracked(slots, p + [i]) && i < 512
    requires TableAt(s.mem, r, p).Some?
    ensures EntryReadable(s, TableAt(s.mem, r, p).value, i)
  {
    assert Tracked(slots, p);
    TableAtSnoc(s.mem, r, p, i);
  }

  /** A walk to p + [i] is a walk to p followed by one level. */
  lemma WalkOneLevel(s: Phys, roots: set<nat>, slots: set<nat>, r: nat, p: Path, i: nat)
    requires Separated(s, roots, slots) && r in roots
    requires |p| < 3 && Tracked(slots, p + [i]) && ValidPath(p + [i])
    ensures r < |s.mem| <= MAX_FRAMES && FreeListOk(s) && ValidPath(p)
    ensures var (s1, o1) := WalkCreate(s, r, p);
            && (o1.Some? ==> EntryReadable(s1, o1.value, i))
            && WalkCreate(s, r, p + [i]) == if o1.None? then (s1, None) else WalkStep(s1, o1.value, i)
    ensures var t := TableAt(s.mem, r, p);
            && (t.Some? ==> EntryReadable(s, t.value, i))
            && TableAt(s.mem, r, p + [i]) == if t.None? then None else Child(s.mem, t.value, i)
  {
    assert Tracked(slots, p) && (p + [i])[|p|] == i;
    assert ValidPath(p) by { assert forall k :: 0 <= k < |p| ==> p[k] == (p + [i])[k]; }
    assert (p + [i])[..|p|] == p;
    WalkGrows(s, roots, slots, r, p);
    var (s1, o1) := WalkCreate(s, r, p);
    TableAtSnoc(s.mem, r, p, i);
    if o1.Some? { TableReadable(s1, roots, slots, r, p, i); }
    if TableAt(s.mem, r, p).Some? { TableReadable(s, roots, slots, r, p, i); }
    hide Separated, TablesKept, FramesKept, SamePtes, TablesFromFree, TableAt, EntryReadable;
  }

  /** The three levels of a walk, each from the state the previous one leaves. */
  lemma WalkPlan(s: Phys, roots: set<nat>, slots: set<nat>, r: nat, va: Word, i4: nat, i3: nat, i2: nat)
    requires Separated(s, roots, slots) && r in roots && TrackedPage(slots, Vpn(va))
    requires i4 == Index4(Vpn(va)) && i3 == Index3(Vpn(va)) && i2 == Index2(Vpn(va))
    ensures EntryReadable(s, r, i4) && ValidPath(PathOf(Vpn(va)))
    ensures var (s1, o1) := WalkStep(s, r, i4);
            if o1.None? then WalkCreate(s, r, PathOf(Vpn(va))) == (s1, None)
            else (EntryReadable(s1, o1.value, i3) &&
                  var (s2, o2) := WalkStep(s1, o1.value, i3);
                  if o2.None? then WalkCreate(s, r, PathOf(Vpn(va))) == (s2, None)
                  else (EntryReadable(s2, o2.value, i2) &&
                      WalkCreate(s, r, PathOf(Vpn(va))) == WalkStep(s2, o2.value, i2)))
    ensures var t1 := Child(s.mem, r, i4);
            if t1.None? then TableAt(s.mem, r, PathOf(Vpn(va))) == None
            else (EntryReadable(s, t1.value, i3) &&
                  var t2 := Child(s.mem, t1.value, i3);
                  if t2.None? then TableAt(s.mem, r, PathOf(Vpn(va))) == None
                  else (EntryReadable(s, t2.value, i2) &&
                      TableAt(s.mem, r, PathOf(Vpn(va))) == Child(s.mem, t2.value, i2)))
  {
    assert [] + [i4] == [i4] && [i4] + [i3] == [i4, i3] && [i4, i3] + [i2] == PathOf(Vpn(va));
    PageAtIndices(Vpn(va));
    WalkOneLevel(s, roots, slots, r, [], i4);
    WalkOneLevel(s, roots, slots, r, [i4], i3);
    WalkOneLevel(s, roots, slots, r, [i4, i3], i2);
    hide Separated, WalkStep, Child, EntryReadable, Index3, Index2, Index4;
  }

  lemma LeafRead(s0: Phys, s: Phys, roots: set<nat>, slots: set<nat>, parent: nat, child: nat,
                 i4: nat, i3: nat, i2: nat, i1: nat, pt: nat)
    requires CopyStart(s0, roots, slots, parent, child)
    requires i4 < KERNEL_PML4_START && i3 < 512 && i2 < 512 && i1 < 512
    requires child < |s0.mem| <= MAX_FRAMES && FreeListOk(s0)
    requires CopyBelow(s0, parent, child, PageAt(i4, i3, i2, i1)).0 == s
    requires TableAt(s.mem, parent, [i4, i3, i2]) == Some(pt)
    ensures var n := PageAt(i4, i3, i2, i1);
            && n < USER_PAGES && Vpn(n * 4096) == n && TrackedPage(slots, n)
            && PteOf(s.mem, parent, n) == Ent(s.mem, pt, i1)
            && (Present(PteOf(s.mem, parent, n)) ==> FrameOf(PteOf(s.mem, parent, n)) < |s.mem|)
            && Separated(s, roots, slots) && child in roots
  {
    var n := PageAt(i4, i3, i2, i1);
    IndicesOfPageAt(i4, i3, i2, i1);
    CopyKeepsSpaces(s0, roots, slots, parent, child, n);
    UserPage(slots, n);
    assert PathOf(n) == [i4, i3, i2];
    assert PteOf(s.mem, parent, n) == PteOf(s0.mem, parent, n);
  }

  lemma {:induction false} CopyFailed(s0: Phys, parent: nat, child: nat, j: nat, k: nat)
    requires child < |s0.mem| <= MAX_FRAMES && FreeListOk(s0) && j <= k <= USER_PAGES
    requires !CopyBelow(s0, parent, child, j).1
    ensures CopyBelow(s0, parent, child, k) == CopyBelow(s0, parent, child, j)
    decreases k
  {
    hide CopyPage;
    if j < k { CopyFailed(s0, parent, child, j, k - 1); }
  }
}

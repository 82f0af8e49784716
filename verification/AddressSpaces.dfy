/** Creating address spaces: vmm_new_address_space (kernel/src/paging.c). */
module AddressSpaces {
  import opened PageTableEntries
  import opened PhysicalMemory
  import opened PageTables

  /** Root g after entries KERNEL_PML4_START..hi-1 were copied from root c. */
  function CopyKernelHalf(m: Memory, g: nat, c: nat, hi: nat): (m': Memory)
    requires g < |m| && c < |m| && hi <= 512
    ensures |m'| == |m|
    decreases hi, m
  {
    if hi <= KERNEL_PML4_START then m
    else
      var m1 := CopyKernelHalf(m, g, c, hi - 1);
      PutEnt(m1, g, hi - 1, Ent(m1, c, hi - 1))
  }

  lemma {:induction false} KernelHalfEnt(m: Memory, g: nat, c: nat, hi: nat, x: nat, j: nat)
    requires g < |m| && c < |m| && g != c && hi <= 512 && x < |m| && j < 512
    ensures Ent(CopyKernelHalf(m, g, c, hi), x, j) ==
            if x == g && KERNEL_PML4_START <= j < hi then Ent(m, c, j) else Ent(m, x, j)
    ensures forall y :: 0 <= y < |m| && y != g ==> CopyKernelHalf(m, g, c, hi)[y] == m[y]
    decreases hi
  {
    if hi > KERNEL_PML4_START {
      var m1 := CopyKernelHalf(m, g, c, hi - 1);
      KernelHalfEnt(m, g, c, hi - 1, x, j);
      KernelHalfEnt(m, g, c, hi - 1, c, hi - 1);
      EntPut(m1, g, hi - 1, Ent(m1, c, hi - 1), x, j);
    }
  }

  /** vmm_new_address_space: a zeroed root with the kernel half of root c. */
  function NewSpace(s: Phys, c: nat): (r: (Phys, Option<nat>))
    requires c < |s.mem| && FreeListOk(s)
    ensures |r.0.mem| == |s.mem| && FreeListOk(r.0) && (r.1.Some? ==> r.1.value < |s.mem|)
  {
    if s.free == [] then (s, None)
    else
      var g := s.free[0];
      (Phys(CopyKernelHalf(s.mem[g := ZeroFrame()], g, c, 512), s.free[1..]), Some(g))
  }

  lemma NewRootEnt(s: Phys, c: nat, x: nat, j: nat)
    requires c < |s.mem| && FreeListOk(s) && s.free != [] && c != s.free[0] && x < |s.mem| && j < 512
    ensures var m', g := NewSpace(s, c).0.mem, s.free[0];
            Ent(m', x, j) == if x != g then Ent(s.mem, x, j)
                             else if j < KERNEL_PML4_START then 0 else Ent(s.mem, c, j)
    ensures x != s.free[0] ==> NewSpace(s, c).0.mem[x] == s.mem[x]
  {
    var g := s.free[0];
    var m0 := s.mem[g := ZeroFrame()];
    KernelHalfEnt(m0, g, c, 512, x, j);
    EntFrame(s.mem, m0, c, j);
    if x == g { EntZero(m0, g, j); } else { EntFrame(s.mem, m0, x, j); }
  }

  /** Tables after the new root was filled in: old spaces keep theirs; the new space has the
      kernel-half tables of root c and no user-half table. */
  lemma {:induction false} NewTables(s: Phys, roots: set<nat>, slots: set<nat>, c: nat, r: nat, q: Path)
    requires Separated(s, roots, slots) && c in roots && s.free != []
    requires Tracked(slots, q) && (r in roots || r == s.free[0])
    ensures TableAt(NewSpace(s, c).0.mem, r, q) ==
            if r != s.free[0] || q == [] then TableAt(s.mem, r, q)
            else if q[0] < KERNEL_PML4_START then None else TableAt(s.mem, c, q)
    decreases |q|
  {
    var g := s.free[0];
    assert Tracked(slots, []) && TableAt(s.mem, c, []) == Some(c);
    if r in roots { assert TableAt(s.mem, r, []) == Some(r); }
    if q != [] {
      var q0, j := q[..|q| - 1], q[|q| - 1];
      assert Tracked(slots, q0) && q[0] == (if q0 == [] then j else q0[0]);
      NewTables(s, roots, slots, c, r, q0);
      var t := TableAt(NewSpace(s, c).0.mem, r, q0);
      if t.Some? && j < 512 { NewRootEnt(s, c, t.value, j); }
    }
  }

  /** The new space is separated from all others; old translations stay, the new user half is
      empty and the new kernel half reads like the one it was copied from. */
  lemma NewSpaceSeparated(s: Phys, roots: set<nat>, slots: set<nat>, c: nat)
    requires Separated(s, roots, slots) && c in roots && s.free != []
    ensures var (s', o) := NewSpace(s, c);
            && o == Some(s.free[0]) && o.value !in roots
            && Separated(s', roots + {o.value}, slots)
            && SamePtes(s.mem, s'.mem, roots, slots)
            && (forall n: nat {:trigger PteOf(s'.mem, o.value, n)} :: TrackedPage(slots, n) ==>
                  PteOf(s'.mem, o.value, n) == if n < USER_PAGES then 0 else PteOf(s.mem, c, n))
  {
    var (s', o) := NewSpace(s, c);
    var g := s.free[0];
    assert forall r :: r in roots ==> TableAt(s.mem, r, []) == Some(r);
    forall r, q | (r in roots || r == g) && Tracked(slots, q)
      ensures TableAt(s'.mem, r, q) ==
              if r != g || q == [] then TableAt(s.mem, r, q)
              else if q[0] < KERNEL_PML4_START then None else TableAt(s.mem, c, q)
    {
      NewTables(s, roots, slots, c, r, q);
    }
    forall r, n: nat | (r in roots || r == g) && TrackedPage(slots, n)
      ensures PteOf(s'.mem, r, n) ==
              if r != g then PteOf(s.mem, r, n) else if n < USER_PAGES then 0 else PteOf(s.mem, c, n)
    {
      NewPte(s, roots, slots, c, r, n);
    }
    NewSpaceTables(s, roots, slots, c);
  }

  lemma NewPte(s: Phys, roots: set<nat>, slots: set<nat>, c: nat, r: nat, n: nat)
    requires Separated(s, roots, slots) && c in roots && s.free != []
    requires (r in roots || r == s.free[0]) && TrackedPage(slots, n)
    ensures PteOf(NewSpace(s, c).0.mem, r, n) ==
            if r != s.free[0] then PteOf(s.mem, r, n) else if n < USER_PAGES then 0 else PteOf(s.mem, c, n)
  {
    var p := PathOf(n);
    NewTables(s, roots, slots, c, r, p);
    var t := TableAt(NewSpace(s, c).0.mem, r, p);
    if t.Some? {
      assert Tracked(slots, []) && TableAt(s.mem, c, []) == Some(c);
      NewRootEnt(s, c, t.value, Index1(n));
    }
  }

  lemma NewSpaceTables(s: Phys, roots: set<nat>, slots: set<nat>, c: nat)
    requires Separated(s, roots, slots) && c in roots && s.free != []
    ensures var (s', o) := NewSpace(s, c); Separated(s', roots + {o.value}, slots)
  {
    var (s', o) := NewSpace(s, c);
    var g := s.free[0];
    forall r, q | r in roots + {g} && Tracked(slots, q)
      ensures TableAt(s'.mem, r, q) ==
              if r != g then TableAt(s.mem, r, q) else if q == [] then Some(g)
              else if q[0] < KERNEL_PML4_START then None else TableAt(s.mem, c, q)
    {
      NewTables(s, roots, slots, c, r, q);
    }
    assert NoAliasing(s'.mem, roots + {g}, slots) && TablesHeld(s', roots + {g}, slots);
    NewSpaceInRange(s, roots, slots, c);
  }

  lemma NewSpaceInRange(s: Phys, roots: set<nat>, slots: set<nat>, c: nat)
    requires Separated(s, roots, slots) && c in roots && s.free != []
    ensures PointersInRange(NewSpace(s, c).0.mem, roots + {s.free[0]}, slots)
  {
    var m', g := NewSpace(s, c).0.mem, s.free[0];
    assert Tracked(slots, []) && TableAt(s.mem, c, []) == Some(c);
    forall r, q, j | r in roots + {g} && |q| < 3 && Tracked(slots, q + [j]) && j < 512
      && TableAt(m', r, q).Some? && Present(Ent(m', TableAt(m', r, q).value, j))
      ensures FrameOf(Ent(m', TableAt(m', r, q).value, j)) < |m'|
    {
      assert Tracked(slots, q);
      NewTables(s, roots, slots, c, r, q);
      NewRootEnt(s, c, TableAt(m', r, q).value, j);
      TableAtSnoc(s.mem, r, q, j);
      TableAtSnoc(s.mem, c, q, j);
    }
  }
}

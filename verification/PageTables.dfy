/** The four-level page-table walker of kernel/src/paging.c over physical memory.

    A table is named by the path of indices that leads to it from the root (PML4): the empty
    path is the root itself, a path of length three a table of leaf entries.  `PteOf` is the
    partial map the tree represents. */
module PageTables {
  import opened Words
  import opened PageTableEntries
  import opened PhysicalMemory

  datatype Option<+T> = None | Some(value: T)

  /** Memory together with the frame allocator's free list, head first. */
  datatype Phys = Phys(mem: Memory, free: seq<nat>)

  type Path = seq<nat>

  /** Table that entry i of table f points to. */
  function Child(m: Memory, f: nat, i: nat): (r: Option<nat>)
    requires f < |m|
    ensures r.Some? ==> r.value < |m|
  {
    if i < 512 && Present(Ent(m, f, i)) && FrameOf(Ent(m, f, i)) < |m|
    then Some(FrameOf(Ent(m, f, i)))
    else None
  }

  function TableAt(m: Memory, root: nat, p: Path): (r: Option<nat>)
    ensures r.Some? ==> r.value < |m|
    decreases |p|
  {
    if p == [] then if root < |m| then Some(root) else None
    else
      var up := TableAt(m, root, p[..|p| - 1]);
      if up.None? then None else Child(m, up.value, p[|p| - 1])
  }

  lemma TableAtSnoc(m: Memory, root: nat, p: Path, i: nat)
    ensures TableAt(m, root, p + [i]) ==
            var up := TableAt(m, root, p);
            if up.None? then None else Child(m, up.value, i)
  {
    assert (p + [i])[..|p|] == p;
  }

  /** Path of the leaf table of page n. */
  function PathOf(n: nat): Path { [Index4(n), Index3(n), Index2(n)] }

  /** Leaf entry of page n; zero where there is no leaf table. */
  function PteOf(m: Memory, root: nat, n: nat): Word {
    var t := TableAt(m, root, PathOf(n));
    if t.None? then 0 else Ent(m, t.value, Index1(n))
  }

  /** Paths below the root slots under consideration.  Slots outside `slots` (say, bootloader
      mappings with large pages) are not interpreted at all. */
  predicate Tracked(slots: set<nat>, p: Path) {
    |p| <= 3 && (p != [] ==> p[0] in slots)
  }

  predicate TrackedPage(slots: set<nat>, n: nat) {
    n < PAGES && Index4(n) in slots
  }

  predicate FreeListOk(s: Phys) {
    && (forall i :: 0 <= i < |s.free| ==> s.free[i] < |s.mem|)
    && (forall i, j :: 0 <= i < j < |s.free| ==> s.free[i] != s.free[j])
  }

  /** Distinct paths lead to distinct tables; two spaces share a table only at the same path
      under a kernel-half slot. */
  ghost predicate NoAliasing(m: Memory, roots: set<nat>, slots: set<nat>) {
    forall r1, p1, r2, p2 {:trigger TableAt(m, r1, p1), TableAt(m, r2, p2)} ::
      && r1 in roots && Tracked(slots, p1) && r2 in roots && Tracked(slots, p2)
      && TableAt(m, r1, p1).Some? && TableAt(m, r1, p1) == TableAt(m, r2, p2)
      ==> p1 == p2 && (r1 == r2 || (p1 != [] && p1[0] >= KERNEL_PML4_START))
  }

  /** No table is on the free list. */
  ghost predicate TablesHeld(s: Phys, roots: set<nat>, slots: set<nat>) {
    forall r, p {:trigger TableAt(s.mem, r, p)} ::
      r in roots && Tracked(slots, p) && TableAt(s.mem, r, p).Some?
      ==> TableAt(s.mem, r, p).value !in s.free
  }

  /** Every present table pointer leads into memory. */
  ghost predicate PointersInRange(m: Memory, roots: set<nat>, slots: set<nat>) {
    forall r, p, i {:trigger TableAt(m, r, p + [i])} ::
      && r in roots && |p| < 3 && Tracked(slots, p + [i]) && i < 512
      && TableAt(m, r, p).Some? && Present(Ent(m, TableAt(m, r, p).value, i))
      ==> FrameOf(Ent(m, TableAt(m, r, p).value, i)) < |m|
  }

  ghost predicate Separated(s: Phys, roots: set<nat>, slots: set<nat>) {
    && |s.mem| <= MAX_FRAMES
    && (forall r :: r in roots ==> r < |s.mem|)
    && FreeListOk(s)
    && TablesHeld(s, roots, slots)
    && NoAliasing(s.mem, roots, slots)
    && PointersInRange(s.mem, roots, slots)
  }

  lemma SeparatedBasics(s: Phys, roots: set<nat>, slots: set<nat>, r: nat)
    requires Separated(s, roots, slots) && r in roots
    ensures r < |s.mem| <= MAX_FRAMES && FreeListOk(s)
  {
  }

  // ----- one level of vmm_walk

  /** Memory after linking a zeroed frame g as the table behind entry i of table f. */
  function Linked(m: Memory, f: nat, i: nat, g: nat): (m': Memory)
    requires f < |m| && i < 512 && g < |m| <= MAX_FRAMES
    ensures |m'| == |m|
  {
    PutEnt(m[g := ZeroFrame()], f, i, MakePte(g * 4096, TABLE_FLAGS))
  }

  lemma LinkedEnt(m: Memory, f: nat, i: nat, g: nat, x: nat, j: nat)
    requires f < |m| && i < 512 && g < |m| <= MAX_FRAMES && f != g && x < |m| && j < 512
    ensures Ent(Linked(m, f, i, g), x, j) ==
            if x == f && j == i then MakePte(g * 4096, TABLE_FLAGS)
            else if x == g then 0
            else Ent(m, x, j)
    ensures Present(MakePte(g * 4096, TABLE_FLAGS)) && FrameOf(MakePte(g * 4096, TABLE_FLAGS)) == g
  {
    var m0 := m[g := ZeroFrame()];
    TablePte(g);
    EntPut(m0, f, i, MakePte(g * 4096, TABLE_FLAGS), x, j);
    if x == g { EntZero(m0, g, j); } else { EntFrame(m, m0, x, j); }
  }

  lemma TablePte(g: nat)
    requires g < MAX_FRAMES
    ensures Present(MakePte(g * 4096, TABLE_FLAGS)) && FrameOf(MakePte(g * 4096, TABLE_FLAGS)) == g
  {
    MakePteFields(g * 4096, TABLE_FLAGS);
  }

  lemma LinkedChild(m: Memory, f: nat, i: nat, g: nat, x: nat, j: nat)
    requires f < |m| && i < 512 && g < |m| <= MAX_FRAMES && f != g && x < |m|
    ensures Child(Linked(m, f, i, g), x, j) ==
            if x == f && j == i then Some(g) else if x == g then None else Child(m, x, j)
  {
    if j < 512 { LinkedEnt(m, f, i, g, x, j); }
  }

  /** In space r2, frame f is a table at path p only. */
  ghost predicate OnlyAt(m: Memory, slots: set<nat>, r2: nat, f: nat, p: Path) {
    forall q {:trigger TableAt(m, r2, q)} :: Tracked(slots, q) && TableAt(m, r2, q) == Some(f) ==> q == p
  }

  /** Linking adds exactly one table to every space that reaches f, and moves no other. */
  lemma {:induction false} LinkedTable(m: Memory, slots: set<nat>, p: Path, f: nat, i: nat, g: nat, r2: nat, q: Path)
    requires f < |m| <= MAX_FRAMES && g < |m| && f != g && i < 512 && !Present(Ent(m, f, i))
    requires OnlyAt(m, slots, r2, f, p) && NoTable(m, {r2}, slots, g)
    requires Tracked(slots, q)
    ensures TableAt(Linked(m, f, i, g), r2, q) ==
            if q == p + [i] && TableAt(m, r2, p) == Some(f) then Some(g) else TableAt(m, r2, q)
    decreases |q|
  {
    if q != [] {
      var q0, j := q[..|q| - 1], q[|q| - 1];
      assert q == q0 + [j];
      LinkedTable(m, slots, p, f, i, g, r2, q0);
      if q0 == p + [i] {
        TableAtSnoc(m, r2, p, i);
        LinkedChild(m, f, i, g, g, j);
      } else if TableAt(m, r2, q0).Some? {
        LinkedChild(m, f, i, g, TableAt(m, r2, q0).value, j);
      }
    }
  }

  lemma LinkedTables(s: Phys, roots: set<nat>, slots: set<nat>,
                     r: nat, p: Path, f: nat, i: nat, g: nat, r2: nat, q: Path)
    requires Separated(s, roots, slots) && r in roots && r2 in roots
    requires |p| < 3 && Tracked(slots, p + [i]) && i < 512 && TableAt(s.mem, r, p) == Some(f)
    requires !Present(Ent(s.mem, f, i)) && g in s.free && g < |s.mem|
    requires Tracked(slots, q)
    ensures TableAt(Linked(s.mem, f, i, g), r2, q) ==
            if q == p + [i] && TableAt(s.mem, r2, p) == Some(f) then Some(g) else TableAt(s.mem, r2, q)
  {
    assert Tracked(slots, p);
    LinkedTable(s.mem, slots, p, f, i, g, r2, q);
  }

  lemma LinkedPte(s: Phys, roots: set<nat>, slots: set<nat>,
                  r: nat, p: Path, f: nat, i: nat, g: nat, r2: nat, n: nat)
    requires Separated(s, roots, slots) && r in roots && r2 in roots
    requires |p| < 3 && Tracked(slots, p + [i]) && i < 512 && TableAt(s.mem, r, p) == Some(f)
    requires !Present(Ent(s.mem, f, i)) && g in s.free && g < |s.mem|
    requires TrackedPage(slots, n)
    ensures PteOf(Linked(s.mem, f, i, g), r2, n) == PteOf(s.mem, r2, n)
  {
    var q := PathOf(n);
    LinkedTables(s, roots, slots, r, p, f, i, g, r2, q);
    if q == p + [i] && TableAt(s.mem, r2, p) == Some(f) {
      TableAtSnoc(s.mem, r2, p, i);
      LinkedEnt(s.mem, f, i, g, g, Index1(n));
    } else if TableAt(s.mem, r2, q).Some? {
      assert Tracked(slots, p);
      LinkedEnt(s.mem, f, i, g, TableAt(s.mem, r2, q).value, Index1(n));
    }
  }

  lemma LinkedSeparated(s: Phys, roots: set<nat>, slots: set<nat>,
                        r: nat, p: Path, f: nat, i: nat)
    requires Separated(s, roots, slots) && r in roots
    requires |p| < 3 && Tracked(slots, p + [i]) && i < 512 && TableAt(s.mem, r, p) == Some(f)
    requires !Present(Ent(s.mem, f, i)) && s.free != []
    ensures Separated(Phys(Linked(s.mem, f, i, s.free[0]), s.free[1..]), roots, slots)
  {
    var g := s.free[0];
    var s' := Phys(Linked(s.mem, f, i, g), s.free[1..]);
    assert Tracked(slots, p);
    forall r2, q | r2 in roots && Tracked(slots, q)
      ensures TableAt(s'.mem, r2, q) ==
              if q == p + [i] && TableAt(s.mem, r2, p) == Some(f) then Some(g) else TableAt(s.mem, r2, q)
    {
      LinkedTables(s, roots, slots, r, p, f, i, g, r2, q);
    }
    assert g !in s'.free;
    LinkedInRange(s, roots, slots, r, p, f, i);
  }

  lemma LinkedInRange(s: Phys, roots: set<nat>, slots: set<nat>,
                      r: nat, p: Path, f: nat, i: nat)
    requires Separated(s, roots, slots) && r in roots
    requires |p| < 3 && Tracked(slots, p + [i]) && i < 512 && TableAt(s.mem, r, p) == Some(f)
    requires !Present(Ent(s.mem, f, i)) && s.free != []
    ensures PointersInRange(Linked(s.mem, f, i, s.free[0]), roots, slots)
  {
    var g := s.free[0];
    var m' := Linked(s.mem, f, i, g);
    forall r2, q, j | r2 in roots && |q| < 3 && Tracked(slots, q + [j]) && j < 512
      && TableAt(m', r2, q).Some? && Present(Ent(m', TableAt(m', r2, q).value, j))
      ensures FrameOf(Ent(m', TableAt(m', r2, q).value, j)) < |m'|
    {
      assert Tracked(slots, q);
      LinkedTables(s, roots, slots, r, p, f, i, g, r2, q);
      LinkedEnt(s.mem, f, i, g, TableAt(m', r2, q).value, j);
      TableAtSnoc(s.mem, r2, q, j);
    }
  }

  // ----- vmm_walk with create

  function WalkStep(s: Phys, f: nat, i: nat): (r: (Phys, Option<nat>))
    requires f < |s.mem| <= MAX_FRAMES && i < 512 && FreeListOk(s)
    ensures |r.0.mem| == |s.mem| && FreeListOk(r.0) && (r.1.Some? ==> r.1.value < |s.mem|)
  {
    if Present(Ent(s.mem, f, i)) then (s, Child(s.mem, f, i))
    else if s.free == [] then (s, None)
    else (Phys(Linked(s.mem, f, i, s.free[0]), s.free[1..]), Some(s.free[0]))
  }

  predicate ValidPath(p: Path) { forall k :: 0 <= k < |p| ==> p[k] < 512 }

  function WalkCreate(s: Phys, root: nat, p: Path): (r: (Phys, Option<nat>))
    requires root < |s.mem| <= MAX_FRAMES && FreeListOk(s) && ValidPath(p)
    ensures |r.0.mem| == |s.mem| && FreeListOk(r.0) && (r.1.Some? ==> r.1.value < |s.mem|)
    decreases |p|
  {
    if p == [] then (s, Some(root))
    else
      var up := WalkCreate(s, root, p[..|p| - 1]);
      if up.1.None? then up else WalkStep(up.0, up.1.value, p[|p| - 1])
  }

  /** Tables absent along a path: the frames a creating walk needs. */
  function Missing(m: Memory, root: nat, p: Path): (k: nat)
    ensures k <= |p|
    decreases |p|
  {
    if p == [] then 0
    else Missing(m, root, p[..|p| - 1]) + (if TableAt(m, root, p).None? then 1 else 0)
  }

  ghost predicate OnPath(m: Memory, root: nat, p: Path, x: nat) {
    exists k :: 0 <= k <= |p| && TableAt(m, root, p[..k]) == Some(x)
  }

  /** Tables a change along path p of space r leaves where they were: all that existed, all
      off the path, and, for a user-half path, all of every other space. */
  ghost predicate TablesKept(m: Memory, m': Memory, roots: set<nat>, slots: set<nat>, r: nat, p: Path) {
    forall r2, q {:trigger TableAt(m', r2, q)} ::
      r2 in roots && Tracked(slots, q) && (TableAt(m, r2, q).Some? || !(q <= p) || (r2 != r && UserPath(p)))
      ==> TableAt(m', r2, q) == TableAt(m, r2, q)
  }

  predicate UserPath(p: Path) { p == [] || p[0] < KERNEL_PML4_START }

  /** Frames such a change leaves alone: all that are neither free nor tables on the path. */
  ghost predicate FramesKept(s: Phys, m': Memory, r: nat, p: Path) {
    && |m'| == |s.mem|
    && forall x: nat {:trigger m'[x]} :: x < |m'| && x !in s.free && !OnPath(s.mem, r, p, x)
         ==> m'[x] == s.mem[x]
  }

  /** Every table was there before or is a frame taken from the free list. */
  ghost predicate TablesFromFree(s: Phys, m': Memory, roots: set<nat>, slots: set<nat>) {
    forall r, q {:trigger TableAt(m', r, q)} :: r in roots && Tracked(slots, q) && TableAt(m', r, q).Some?
      ==> TableAt(m', r, q) == TableAt(s.mem, r, q) || TableAt(m', r, q).value in s.free
  }

  ghost predicate SamePtes(m: Memory, m': Memory, roots: set<nat>, slots: set<nat>) {
    forall r, n {:trigger PteOf(m', r, n)} :: r in roots && TrackedPage(slots, n)
      ==> PteOf(m', r, n) == PteOf(m, r, n)
  }

  /** A creating walk takes the missing tables off the free list, one frame each, or all there
      is; it finds the leaf table exactly when the list was long enough; either way it changes
      no entry of the partial map of any space. */
  lemma {:induction false} WalkGrows(s: Phys, roots: set<nat>, slots: set<nat>, r: nat, p: Path)
    requires Separated(s, roots, slots) && r in roots && Tracked(slots, p) && ValidPath(p)
    ensures var (s', o) := WalkCreate(s, r, p);
            var k := Missing(s.mem, r, p);
            && Separated(s', roots, slots)
            && SamePtes(s.mem, s'.mem, roots, slots)
            && TablesKept(s.mem, s'.mem, roots, slots, r, p)
            && FramesKept(s, s'.mem, r, p)
            && TablesFromFree(s, s'.mem, roots, slots)
            && s'.free == s.free[if k <= |s.free| then k else |s.free|..]
            && (k <= |s.free| ==> o.Some? && o == TableAt(s'.mem, r, p))
            && (k > |s.free| ==> o.None?)
            && (o.Some? ==> o == TableAt(s.mem, r, p) || o.value in s.free)
    decreases |p|
  {
    if p != [] {
      hide Separated, SamePtes, TablesKept, FramesKept, TablesFromFree;
      var p0, i := p[..|p| - 1], p[|p| - 1];
      assert p == p0 + [i];
      WalkGrows(s, roots, slots, r, p0);
      var (s1, o1) := WalkCreate(s, r, p0);
      KeptFurther(s, s1.mem, roots, slots, r, p0, i);
      if o1.Some? {
        WalkLevel(s, s1, roots, slots, r, p0, i, o1.value);
      }
    }
  }

  lemma KeptFurther(s: Phys, m': Memory, roots: set<nat>, slots: set<nat>, r: nat, p0: Path, i: nat)
    requires TablesKept(s.mem, m', roots, slots, r, p0) && FramesKept(s, m', r, p0)
    ensures TablesKept(s.mem, m', roots, slots, r, p0 + [i]) && FramesKept(s, m', r, p0 + [i])
  {
    forall x: nat | x < |m'| && x !in s.free && !OnPath(s.mem, r, p0 + [i], x)
      ensures m'[x] == s.mem[x]
    {
      if OnPath(s.mem, r, p0, x) { OnLongerPath(s.mem, r, p0, i, x); }
    }
    forall r2, q | r2 in roots && Tracked(slots, q)
      && (TableAt(s.mem, r2, q).Some? || !(q <= p0 + [i]) || (r2 != r && UserPath(p0 + [i])))
      ensures TableAt(m', r2, q) == TableAt(s.mem, r2, q)
    {
      if q <= p0 { assert q <= p0 + [i]; }
    }
  }

  lemma OnLongerPath(m: Memory, r: nat, p0: Path, i: nat, x: nat)
    requires OnPath(m, r, p0, x)
    ensures OnPath(m, r, p0 + [i], x)
  {
    var k :| 0 <= k <= |p0| && TableAt(m, r, p0[..k]) == Some(x);
    assert (p0 + [i])[..k] == p0[..k];
  }

  /** The last level of a creating walk, from the state s1 its upper levels left. */
  lemma WalkLevel(s: Phys, s1: Phys, roots: set<nat>, slots: set<nat>, r: nat, p0: Path, i: nat, f: nat)
    requires Separated(s1, roots, slots) && r in roots && |p0| < 3 && Tracked(slots, p0 + [i]) && i < 512
    requires SamePtes(s.mem, s1.mem, roots, slots)
    requires TablesKept(s.mem, s1.mem, roots, slots, r, p0) && FramesKept(s, s1.mem, r, p0)
    requires TablesFromFree(s, s1.mem, roots, slots)
    requires TableAt(s1.mem, r, p0) == Some(f)
    requires TableAt(s.mem, r, p0) == Some(f) || f in s.free
    requires forall x :: x in s1.free ==> x in s.free
    ensures var (s', o) := WalkStep(s1, f, i);
            var p := p0 + [i];
            && Separated(s', roots, slots)
            && SamePtes(s.mem, s'.mem, roots, slots)
            && TablesKept(s.mem, s'.mem, roots, slots, r, p)
            && FramesKept(s, s'.mem, r, p)
            && TablesFromFree(s, s'.mem, roots, slots)
            && (if TableAt(s.mem, r, p).Some? then s'.free == s1.free && o == TableAt(s.mem, r, p)
                else if s1.free == [] then s'.free == [] && o.None?
                else s'.free == s1.free[1..] && o == Some(s1.free[0]))
            && (o.Some? ==> o == TableAt(s'.mem, r, p))
  {
    var p := p0 + [i];
    KeptFurther(s, s1.mem, roots, slots, r, p0, i);
    TableAtSnoc(s1.mem, r, p0, i);
    assert TableAt(s1.mem, r, p) == TableAt(s.mem, r, p);
    if Present(Ent(s1.mem, f, i)) {
      assert TableAt(s1.mem, r, p).Some?;
    } else if s1.free != [] {
      LinkedSeparated(s1, roots, slots, r, p0, f, i);
      LinkedSamePtes(s1, roots, slots, r, p0, f, i);
      LinkedKept(s, s1, roots, slots, r, p0, f, i);
      LinkedTables(s1, roots, slots, r, p0, f, i, s1.free[0], r, p);
    }
  }

  lemma LinkedSamePtes(s: Phys, roots: set<nat>, slots: set<nat>, r: nat, p: Path, f: nat, i: nat)
    requires Separated(s, roots, slots) && r in roots
    requires |p| < 3 && Tracked(slots, p + [i]) && i < 512 && TableAt(s.mem, r, p) == Some(f)
    requires !Present(Ent(s.mem, f, i)) && s.free != []
    ensures SamePtes(s.mem, Linked(s.mem, f, i, s.free[0]), roots, slots)
  {
    forall r2, n | r2 in roots && TrackedPage(slots, n)
      ensures PteOf(Linked(s.mem, f, i, s.free[0]), r2, n) == PteOf(s.mem, r2, n)
    {
      LinkedPte(s, roots, slots, r, p, f, i, s.free[0], r2, n);
    }
  }

  lemma LinkedKept(s: Phys, s1: Phys, roots: set<nat>, slots: set<nat>, r: nat, p0: Path, f: nat, i: nat)
    requires Separated(s1, roots, slots) && r in roots
    requires |p0| < 3 && Tracked(slots, p0 + [i]) && i < 512 && TableAt(s1.mem, r, p0) == Some(f)
    requires !Present(Ent(s1.mem, f, i)) && s1.free != [] && s1.free[0] in s.free
    requires TablesKept(s.mem, s1.mem, roots, slots, r, p0 + [i]) && FramesKept(s, s1.mem, r, p0 + [i])
    requires TableAt(s.mem, r, p0) == Some(f) || f in s.free
    requires TablesFromFree(s, s1.mem, roots, slots)
    ensures var m2 := Linked(s1.mem, f, i, s1.free[0]);
            && TablesKept(s.mem, m2, roots, slots, r, p0 + [i]) && FramesKept(s, m2, r, p0 + [i])
            && TablesFromFree(s, m2, roots, slots)
  {
    var p, g := p0 + [i], s1.free[0];
    var m2 := Linked(s1.mem, f, i, g);
    assert Tracked(slots, p0);
    forall r2, q | r2 in roots && Tracked(slots, q)
      && (TableAt(s.mem, r2, q).Some? || !(q <= p) || (r2 != r && UserPath(p)))
      ensures TableAt(m2, r2, q) == TableAt(s.mem, r2, q)
    {
      LinkedTables(s1, roots, slots, r, p0, f, i, g, r2, q);
      TableAtSnoc(s1.mem, r2, p0, i);
    }
    forall r2, q | r2 in roots && Tracked(slots, q) && TableAt(m2, r2, q).Some?
      ensures TableAt(m2, r2, q) == TableAt(s.mem, r2, q) || TableAt(m2, r2, q).value in s.free
    {
      LinkedTables(s1, roots, slots, r, p0, f, i, g, r2, q);
    }
    forall x: nat | x < |m2| && x !in s.free && !OnPath(s.mem, r, p, x)
      ensures m2[x] == s.mem[x]
    {
      assert p[..|p0|] == p0;
      assert x != f && x != g;
    }
  }

  // ----- leaf entries: vmm_map and vmm_unmap

  lemma {:induction false} LeafKeepsTables(m: Memory, roots: set<nat>, slots: set<nat>,
                                           r: nat, p: Path, f: nat, i: nat, w: Word, r2: nat, q: Path)
    requires NoAliasing(m, roots, slots) && r in roots && r2 in roots
    requires |p| == 3 && Tracked(slots, p) && TableAt(m, r, p) == Some(f) && i < 512
    requires Tracked(slots, q)
    ensures TableAt(PutEnt(m, f, i, w), r2, q) == TableAt(m, r2, q)
    decreases |q|
  {
    if q != [] {
      var q0, j := q[..|q| - 1], q[|q| - 1];
      LeafKeepsTables(m, roots, slots, r, p, f, i, w, r2, q0);
      if TableAt(m, r2, q0).Some? && j < 512 {
        EntPut(m, f, i, w, TableAt(m, r2, q0).value, j);
      }
    }
  }

  /** Page n goes through leaf table f of space r2, at entry i. */
  predicate LeafSlot(m: Memory, r2: nat, n: nat, f: nat, i: nat) {
    TableAt(m, r2, PathOf(n)) == Some(f) && Index1(n) == i
  }

  lemma LeafWrite(s: Phys, roots: set<nat>, slots: set<nat>, r: nat, p: Path, f: nat, i: nat, w: Word)
    requires Separated(s, roots, slots) && r in roots
    requires |p| == 3 && Tracked(slots, p) && TableAt(s.mem, r, p) == Some(f) && i < 512
    ensures var m' := PutEnt(s.mem, f, i, w);
            && Separated(Phys(m', s.free), roots, slots)
            && (forall r2, q {:trigger TableAt(m', r2, q)} :: r2 in roots && Tracked(slots, q)
                  ==> TableAt(m', r2, q) == TableAt(s.mem, r2, q))
            && (forall r2, n {:trigger PteOf(m', r2, n)} :: r2 in roots && TrackedPage(slots, n)
                  ==> PteOf(m', r2, n) == if LeafSlot(s.mem, r2, n, f, i) then w else PteOf(s.mem, r2, n))
  {
    var m' := PutEnt(s.mem, f, i, w);
    forall r2, q | r2 in roots && Tracked(slots, q)
      ensures TableAt(m', r2, q) == TableAt(s.mem, r2, q)
    {
      LeafKeepsTables(s.mem, roots, slots, r, p, f, i, w, r2, q);
    }
    forall r2, n | r2 in roots && TrackedPage(slots, n)
      ensures PteOf(m', r2, n) == if LeafSlot(s.mem, r2, n, f, i) then w else PteOf(s.mem, r2, n)
    {
      if TableAt(s.mem, r2, PathOf(n)).Some? {
        EntPut(s.mem, f, i, w, TableAt(s.mem, r2, PathOf(n)).value, Index1(n));
      }
    }
    forall r2, q, j | r2 in roots && |q| < 3 && Tracked(slots, q + [j]) && j < 512
      && TableAt(m', r2, q).Some? && Present(Ent(m', TableAt(m', r2, q).value, j))
      ensures FrameOf(Ent(m', TableAt(m', r2, q).value, j)) < |m'|
    {
      assert Tracked(slots, q);
      EntPut(s.mem, f, i, w, TableAt(s.mem, r2, q).value, j);
      TableAtSnoc(s.mem, r2, q, j);
    }
  }

  function VmmMap(s: Phys, root: nat, va: Word, phys: Word, flags: Word): (s': Phys)
    requires root < |s.mem| <= MAX_FRAMES && FreeListOk(s)
    ensures |s'.mem| == |s.mem| && FreeListOk(s')
  {
    var n := Vpn(va);
    PageAtIndices(n);
    var (s1, o) := WalkCreate(s, root, PathOf(n));
    if o.None? then s1 else Phys(PutEnt(s1.mem, o.value, Index1(n), MakePte(phys, flags)), s1.free)
  }

  function VmmUnmap(s: Phys, root: nat, va: Word): (s': Phys)
  {
    var n := Vpn(va);
    var t := TableAt(s.mem, root, PathOf(n));
    if t.None? || !Present(PteOf(s.mem, root, n)) then s
    else Phys(PutEnt(s.mem, t.value, Index1(n), 0), s.free)
  }

  /** A map of page n has the frames it needs. */
  predicate CanMap(s: Phys, root: nat, n: nat) {
    Missing(s.mem, root, PathOf(n)) <= |s.free|
  }

  lemma SamePage(n: nat, n2: nat)
    requires n < PAGES && n2 < PAGES && PathOf(n) == PathOf(n2) && Index1(n) == Index1(n2)
    ensures n == n2
  {
    PageAtIndices(n);
    PageAtIndices(n2);
    assert PathOf(n)[0] == PathOf(n2)[0] && PathOf(n)[1] == PathOf(n2)[1] && PathOf(n)[2] == PathOf(n2)[2];
  }

  /** vmm_map refines an update of the partial map: it changes the entry of the one page, in the
      one space (and, for a kernel-half page, in the spaces that share its leaf table), when the
      missing tables can be allocated, and changes no entry of any space when they cannot. */
  lemma MapRefines(s: Phys, roots: set<nat>, slots: set<nat>, r: nat, va: Word, phys: Word, flags: Word)
    requires Separated(s, roots, slots) && r in roots && TrackedPage(slots, Vpn(va))
    ensures var s' := VmmMap(s, r, va, phys, flags);
            var n := Vpn(va);
            && Separated(s', roots, slots)
            && TablesKept(s.mem, s'.mem, roots, slots, r, PathOf(n))
            && (forall k {:trigger PteOf(s'.mem, r, k)} :: TrackedPage(slots, k) ==>
                  PteOf(s'.mem, r, k) ==
                  if k == n && CanMap(s, r, n) then MakePte(phys, flags) else PteOf(s.mem, r, k))
            && (forall r2, k {:trigger PteOf(s'.mem, r2, k)} :: r2 in roots && r2 != r && TrackedPage(slots, k) ==>
                  PteOf(s'.mem, r2, k) ==
                  if k == n && CanMap(s, r, n) && n >= USER_PAGES
                     && TableAt(s'.mem, r2, PathOf(n)) == TableAt(s'.mem, r, PathOf(n))
                  then MakePte(phys, flags) else PteOf(s.mem, r2, k))
  {
    var n := Vpn(va);
    var p := PathOf(n);
    PageAtIndices(n);
    WalkGrows(s, roots, slots, r, p);
    var (s1, o) := WalkCreate(s, r, p);
    if o.Some? {
      LeafWrite(s1, roots, slots, r, p, o.value, Index1(n), MakePte(phys, flags));
      var s' := VmmMap(s, r, va, phys, flags);
      forall r2, k | r2 in roots && TrackedPage(slots, k)
        ensures PteOf(s'.mem, r2, k) ==
                if k == n && TableAt(s1.mem, r2, p) == o then MakePte(phys, flags) else PteOf(s.mem, r2, k)
      {
        assert PteOf(s1.mem, r2, k) == PteOf(s.mem, r2, k);
        if LeafSlot(s1.mem, r2, k, o.value, Index1(n)) {
          assert PathOf(k) == p;
          SamePage(k, n);
        }
      }
    }
  }

  /** vmm_unmap removes one page from the partial map of the space (and, for a kernel-half page,
      of the spaces that share its leaf table) and changes nothing else of any space. */
  lemma UnmapRefines(s: Phys, roots: set<nat>, slots: set<nat>, r: nat, va: Word)
    requires Separated(s, roots, slots) && r in roots && TrackedPage(slots, Vpn(va))
    ensures var s' := VmmUnmap(s, r, va);
            var n := Vpn(va);
            && Separated(s', roots, slots)
            && s'.free == s.free
            && (forall r2, q {:trigger TableAt(s'.mem, r2, q)} :: r2 in roots && Tracked(slots, q)
                  ==> TableAt(s'.mem, r2, q) == TableAt(s.mem, r2, q))
            && (forall k {:trigger PteOf(s'.mem, r, k)} :: TrackedPage(slots, k) ==>
                  PteOf(s'.mem, r, k) ==
                  if k == n && Present(PteOf(s.mem, r, n)) then 0 else PteOf(s.mem, r, k))
            && (forall r2, k {:trigger PteOf(s'.mem, r2, k)} :: r2 in roots && r2 != r && TrackedPage(slots, k) ==>
                  PteOf(s'.mem, r2, k) ==
                  if k == n && Present(PteOf(s.mem, r, n)) && n >= USER_PAGES
                     && TableAt(s.mem, r2, PathOf(n)) == TableAt(s.mem, r, PathOf(n))
                  then 0 else PteOf(s.mem, r2, k))
  {
    var n := Vpn(va);
    var p := PathOf(n);
    var t := TableAt(s.mem, r, p);
    PageAtIndices(n);
    if t.Some? && Present(PteOf(s.mem, r, n)) {
      LeafWrite(s, roots, slots, r, p, t.value, Index1(n), 0);
      var s' := VmmUnmap(s, r, va);
      forall r2, k | r2 in roots && TrackedPage(slots, k)
        ensures PteOf(s'.mem, r2, k) == if k == n && TableAt(s.mem, r2, p) == t then 0 else PteOf(s.mem, r2, k)
      {
        if LeafSlot(s.mem, r2, k, t.value, Index1(n)) {
          assert PathOf(k) == p;
          SamePage(k, n);
        }
      }
    } else if t.None? {
      AbsentIsZero(s.mem, r, n);
    }
  }

  lemma AbsentIsZero(m: Memory, r: nat, n: nat)
    requires TableAt(m, r, PathOf(n)).None?
    ensures !Present(PteOf(m, r, n))
  {
  }

  /** A map leaves alone every frame that is neither free nor one of its own tables, and takes
      exactly the missing tables from the free list (or, failing, all of it). */
  lemma MapFrames(s: Phys, roots: set<nat>, slots: set<nat>, r: nat, va: Word, phys: Word, flags: Word)
    requires Separated(s, roots, slots) && r in roots && TrackedPage(slots, Vpn(va))
    ensures var s' := VmmMap(s, r, va, phys, flags);
            var p := PathOf(Vpn(va));
            && FramesKept(s, s'.mem, r, p)
            && TablesFromFree(s, s'.mem, roots, slots)
            && s'.free == s.free[if CanMap(s, r, Vpn(va)) then Missing(s.mem, r, p) else |s.free|..]
            && (CanMap(s, r, Vpn(va)) ==> TableAt(s'.mem, r, p).Some?)
  {
    var n := Vpn(va);
    var p := PathOf(n);
    PageAtIndices(n);
    WalkGrows(s, roots, slots, r, p);
    var (s1, o) := WalkCreate(s, r, p);
    if o.Some? {
      LeafWrite(s1, roots, slots, r, p, o.value, Index1(n), MakePte(phys, flags));
      var s' := VmmMap(s, r, va, phys, flags);
      forall x: nat | x < |s'.mem| && x !in s.free && !OnPath(s.mem, r, p, x)
        ensures s'.mem[x] == s.mem[x]
      {
        assert p[..|p|] == p;
        assert x != o.value;
      }
    }
  }

  // ----- writes to frames that hold no table

  ghost predicate NoTable(m: Memory, roots: set<nat>, slots: set<nat>, x: nat) {
    forall r, q {:trigger TableAt(m, r, q)} :: r in roots && Tracked(slots, q) ==> TableAt(m, r, q) != Some(x)
  }

  lemma {:induction false} DataKeepsTables(m: Memory, roots: set<nat>, slots: set<nat>,
                                           x: nat, c: Frame, r: nat, q: Path)
    requires x < |m| && NoTable(m, roots, slots, x) && r in roots && Tracked(slots, q)
    ensures TableAt(m[x := c], r, q) == TableAt(m, r, q)
    decreases |q|
  {
    if q != [] {
      var q0, j := q[..|q| - 1], q[|q| - 1];
      DataKeepsTables(m, roots, slots, x, c, r, q0);
      if TableAt(m, r, q0).Some? && j < 512 {
        EntFrame(m, m[x := c], TableAt(m, r, q0).value, j);
      }
    }
  }

  /** Taking frames off the free list. */
  lemma ShorterFreeList(s: Phys, roots: set<nat>, slots: set<nat>, k: nat)
    requires Separated(s, roots, slots) && k <= |s.free|
    ensures Separated(Phys(s.mem, s.free[k..]), roots, slots)
  {
  }

  /** Writing page contents moves no table and changes no translation. */
  lemma DataWrite(s: Phys, roots: set<nat>, slots: set<nat>, x: nat, c: Frame)
    requires Separated(s, roots, slots) && x < |s.mem| && NoTable(s.mem, roots, slots, x)
    ensures var m' := s.mem[x := c];
            && Separated(Phys(m', s.free), roots, slots)
            && SamePtes(s.mem, m', roots, slots)
            && (forall r, q {:trigger TableAt(m', r, q)} :: r in roots && Tracked(slots, q)
                  ==> TableAt(m', r, q) == TableAt(s.mem, r, q))
  {
    var m' := s.mem[x := c];
    forall r, q | r in roots && Tracked(slots, q)
      ensures TableAt(m', r, q) == TableAt(s.mem, r, q)
    {
      DataKeepsTables(s.mem, roots, slots, x, c, r, q);
    }
    forall r, n | r in roots && TrackedPage(slots, n)
      ensures PteOf(m', r, n) == PteOf(s.mem, r, n)
    {
      if TableAt(s.mem, r, PathOf(n)).Some? {
        EntFrame(s.mem, m', TableAt(s.mem, r, PathOf(n)).value, Index1(n));
      }
    }
    forall r, q, j | r in roots && |q| < 3 && Tracked(slots, q + [j]) && j < 512
      && TableAt(m', r, q).Some? && Present(Ent(m', TableAt(m', r, q).value, j))
      ensures FrameOf(Ent(m', TableAt(m', r, q).value, j)) < |m'|
    {
      assert Tracked(slots, q);
      EntFrame(s.mem, m', TableAt(s.mem, r, q).value, j);
      TableAtSnoc(s.mem, r, q, j);
    }
  }
}

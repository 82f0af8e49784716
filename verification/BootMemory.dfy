/** Memory at boot: the bump allocator over the usable regions of the memory map
    (kernel/src/physical_page_management.c) and the hand-over of what it left to the frame
    allocator (frame_alloc_init in kernel/src/page_alloc.c). */
module BootMemory {
  import opened Words
  import opened PageTables
  import opened LinkedLists
  import opened Frames

  const PAGE_INFO_SIZE: nat := 16
  /** Physical addresses have at most 52 bits. */
  const PHYS_LIMIT: nat := 0x10_0000_0000_0000

  datatype Entry = Entry(base: nat, length: nat, usable: bool)

  function EntryEnd(e: Entry): nat { e.base + e.length }

  /** Bytes [addr, addr + size). */
  datatype Range = Range(addr: nat, size: nat)

  predicate Apart(a: Range, b: Range) {
    a.size == 0 || b.size == 0 || a.addr + a.size <= b.addr || b.addr + b.size <= a.addr
  }

  /** A memory map whose usable entries are real memory and do not overlap. */
  ghost predicate MapOk(es: seq<Entry>) {
    && (forall i :: 0 <= i < |es| && es[i].usable ==> 0 < es[i].base && EntryEnd(es[i]) <= PHYS_LIMIT)
    && (forall i, j :: 0 <= i < j < |es| && es[i].usable && es[j].usable ==>
          Apart(Range(es[i].base, es[i].length), Range(es[j].base, es[j].length)))
  }

  /** The next usable entry at or after i, or the number of entries. */
  function NextUsable(es: seq<Entry>, i: nat): (r: nat)
    requires i <= |es|
    ensures i <= r <= |es| && (r < |es| ==> es[r].usable)
    ensures forall j :: i <= j < r ==> !es[j].usable
    decreases |es| - i
  {
    if i == |es| || es[i].usable then i else NextUsable(es, i + 1)
  }

  /** Where the bump allocator stands: the region it fills and its next free byte. */
  datatype Frontier = Frontier(region: nat, next: nat)

  /** The 64-bit sum boot_alloc computes, and its bounds test. */
  function Bump(next: nat, n: nat): nat { (next + n) % TWO64 }
  predicate Fits(e: Entry, next: nat, n: nat) { Bump(next, n) <= EntryEnd(e) % TWO64 }

  function AllocFrom(es: seq<Entry>, fr: Frontier, n: nat): (Frontier, Option<nat>)
    requires fr.region <= |es|
    decreases |es| - fr.region
  {
    if fr.region == |es| then (fr, None)
    else if Fits(es[fr.region], fr.next, n) then (Frontier(fr.region, Bump(fr.next, n)), Some(fr.next))
    else
      var r := NextUsable(es, fr.region + 1);
      AllocFrom(es, Frontier(r, if r < |es| then es[r].base else fr.next), n)
  }

  ghost predicate FrontierOk(es: seq<Entry>, fr: Frontier) {
    && fr.region <= |es|
    && (fr.region < |es| ==> es[fr.region].usable && es[fr.region].base <= fr.next <= EntryEnd(es[fr.region]))
  }

  /** Range a lies in usable entry i, and before the frontier when that is where it stands. */
  ghost predicate PlacedIn(es: seq<Entry>, fr: Frontier, a: Range, i: nat) {
    && i < |es| && i <= fr.region && es[i].usable
    && es[i].base <= a.addr && a.addr + a.size <= (if i == fr.region then fr.next else EntryEnd(es[i]))
  }

  ghost predicate Placed(es: seq<Entry>, fr: Frontier, a: Range) {
    exists i: nat :: PlacedIn(es, fr, a, i)
  }

  /** Everything handed out so far lies inside one usable region each, behind the frontier, and
      no two overlap. */
  ghost predicate AllocsOk(es: seq<Entry>, fr: Frontier, allocs: seq<Range>) {
    && (forall i :: 0 <= i < |allocs| ==> Placed(es, fr, allocs[i]))
    && (forall i, j :: 0 <= i < j < |allocs| ==> Apart(allocs[i], allocs[j]))
  }

  /** Moving the frontier on leaves earlier allocations behind it. */
  ghost predicate Advances(es: seq<Entry>, fr: Frontier, fr': Frontier) {
    fr.region < fr'.region || (fr'.region == fr.region && fr.next <= fr'.next)
  }

  lemma PlacedStays(es: seq<Entry>, fr: Frontier, fr': Frontier, a: Range)
    requires Placed(es, fr, a) && FrontierOk(es, fr) && FrontierOk(es, fr') && Advances(es, fr, fr')
    ensures Placed(es, fr', a)
  {
    var i: nat :| PlacedIn(es, fr, a, i);
    assert PlacedIn(es, fr', a, i);
  }

  /** An allocation starting at the frontier meets nothing placed before it. */
  lemma FrontierApart(es: seq<Entry>, fr: Frontier, a: Range, n: nat)
    requires MapOk(es) && FrontierOk(es, fr) && Placed(es, fr, a)
    requires fr.region < |es| && fr.next + n <= EntryEnd(es[fr.region])
    ensures Apart(a, Range(fr.next, n))
  {
    var i: nat :| PlacedIn(es, fr, a, i);
    if i < fr.region {
      var e, f := es[i], es[fr.region];
      assert Apart(Range(e.base, e.length), Range(f.base, f.length));
    }
  }

  /** Where a grant starts: inside the region, at the wrapped sum's old position. */
  lemma {:induction false} GrantStarts(es: seq<Entry>, fr: Frontier, n: nat)
    requires MapOk(es) && FrontierOk(es, fr) && n < TWO64
    ensures var (fr', o) := AllocFrom(es, fr, n);
            && fr'.region <= |es| && (o.Some? <==> fr'.region < |es|)
            && (o.Some? ==>
                 && es[fr'.region].usable && es[fr'.region].base <= o.value <= EntryEnd(es[fr'.region])
                 && (o.value + n <= EntryEnd(es[fr'.region]) <==> o.value + n < TWO64))
    decreases |es| - fr.region
  {
    hide Fits, Bump;
    if fr.region < |es| {
      var e := es[fr.region];
      FitsExact(e, fr.next, n);
      if !Fits(e, fr.next, n) {
        var r := NextUsable(es, fr.region + 1);
        GrantStarts(es, Frontier(r, if r < |es| then es[r].base else fr.next), n);
      }
    }
  }

  /** boot_alloc's bounds test is exact unless its sum wraps: bytes it hands out lie inside the
      region exactly when the request is below 2^64 - 2^52. */
  lemma AllocInsideIff(es: seq<Entry>, fr: Frontier, n: nat)
    requires MapOk(es) && FrontierOk(es, fr) && n < TWO64
    ensures var (fr', o) := AllocFrom(es, fr, n);
            && fr'.region <= |es| && (o.Some? <==> fr'.region < |es|)
            && (o.Some? ==>
                 && es[fr'.region].usable && es[fr'.region].base <= o.value
                 && (o.value + n <= EntryEnd(es[fr'.region]) <==> n < TWO64 - PHYS_LIMIT))
  {
    GrantStarts(es, fr, n);
    var (fr', o) := AllocFrom(es, fr, n);
    if o.Some? {
      assert EntryEnd(es[fr'.region]) <= PHYS_LIMIT;
    }
  }

  lemma WrapsOnce(x: nat)
    requires x < 2 * TWO64
    ensures x % TWO64 == if x < TWO64 then x else x - TWO64
  {
  }

  lemma FitsExact(e: Entry, next: nat, n: nat)
    requires EntryEnd(e) <= PHYS_LIMIT && next <= EntryEnd(e) && n < TWO64
    ensures next + n < TWO64 ==> Bump(next, n) == next + n && (Fits(e, next, n) <==> next + n <= EntryEnd(e))
    ensures next + n >= TWO64 ==>
              Bump(next, n) == next + n - TWO64 && (Fits(e, next, n) <==> Bump(next, n) <= EntryEnd(e))
  {
    WrapsOnce(next + n);
  }

  // ----- when boot_alloc grants

  /** The first byte still free in entry i: past the frontier, every entry is untouched. */
  function FirstByte(es: seq<Entry>, fr: Frontier, i: nat): nat
    requires i < |es|
  {
    if i == fr.region then fr.next else es[i].base
  }

  /** Entry i, at or after the frontier, has n bytes left. */
  predicate HasRoom(es: seq<Entry>, fr: Frontier, n: nat, i: nat) {
    fr.region <= i < |es| && es[i].usable && FirstByte(es, fr, i) + n <= es[i].base + es[i].length
  }

  /** A request for n bytes is granted in the first entry with room, from its first free byte, and
      the frontier moves to the byte after; without room anywhere nothing is granted and the
      frontier is past the last entry. */
  ghost predicate Granted(es: seq<Entry>, fr: Frontier, n: nat, fr': Frontier, o: Option<nat>) {
    if exists i: nat :: HasRoom(es, fr, n, i) then
      && HasRoom(es, fr, n, fr'.region) && (forall j: nat :: j < fr'.region ==> !HasRoom(es, fr, n, j))
      && o == Some(FirstByte(es, fr, fr'.region)) && fr'.next == FirstByte(es, fr, fr'.region) + n
    else o == None && fr'.region == |es|
  }

  /** Up to 2^64 - 2^52 bytes, boot_alloc grants whatever fits. */
  lemma {:induction false} AllocGrants(es: seq<Entry>, fr: Frontier, n: nat)
    requires MapOk(es) && FrontierOk(es, fr) && n < TWO64 - PHYS_LIMIT
    ensures var (fr', o) := AllocFrom(es, fr, n); Granted(es, fr, n, fr', o)
    decreases |es| - fr.region
  {
    hide Fits, Bump;
    if fr.region < |es| {
      var e := es[fr.region];
      FitsExact(e, fr.next, n);
      if Fits(e, fr.next, n) {
        assert HasRoom(es, fr, n, fr.region);
      } else {
        var r := NextUsable(es, fr.region + 1);
        var fr1 := Frontier(r, if r < |es| then es[r].base else fr.next);
        AllocGrants(es, fr1, n);
        forall i: nat ensures HasRoom(es, fr1, n, i) <==> HasRoom(es, fr, n, i) {
          assert fr.region < i < r ==> !es[i].usable;
        }
      }
    }
  }

  /** A request that wraps is granted although it does not fit, and moves the frontier back. */
  lemma WrappedRequest(base: nat, length: nat, n: nat)
    requires 0 < base && base + length <= PHYS_LIMIT && TWO64 - base <= n < TWO64 && base + n - TWO64 <= base + length
    ensures var es, fr := [Entry(base, length, true)], Frontier(0, base);
            && MapOk(es) && FrontierOk(es, fr)
            && AllocFrom(es, fr, n) == (Frontier(0, base + n - TWO64), Some(base))
            && base + n > EntryEnd(es[0]) && !FrontierOk(es, AllocFrom(es, fr, n).0)
  {
    WrapsOnce(base + n);
  }

  /** Requests up to 2^64 - 2^52 keep all allocations apart and inside usable regions. */
  lemma {:induction false} AllocKeeps(es: seq<Entry>, fr: Frontier, n: nat, allocs: seq<Range>)
    requires MapOk(es) && FrontierOk(es, fr) && AllocsOk(es, fr, allocs) && n < TWO64 - PHYS_LIMIT
    ensures var (fr', o) := AllocFrom(es, fr, n);
            && FrontierOk(es, fr') && Advances(es, fr, fr')
            && AllocsOk(es, fr', if o.Some? then allocs + [Range(o.value, n)] else allocs)
            && (o.Some? ==> o.value > 0)
    decreases |es| - fr.region
  {
    hide Fits, Bump, Placed, Apart;
    if fr.region < |es| {
      var e := es[fr.region];
      FitsExact(e, fr.next, n);
      if fr.next + n <= EntryEnd(e) {
        TakeHere(es, fr, n, allocs);
      } else {
        var r := NextUsable(es, fr.region + 1);
        var fr1 := Frontier(r, if r < |es| then es[r].base else fr.next);
        forall i | 0 <= i < |allocs| ensures Placed(es, fr1, allocs[i]) {
          PlacedStays(es, fr, fr1, allocs[i]);
        }
        AllocKeeps(es, fr1, n, allocs);
      }
    }
  }

  /** A grant leaves everything in order exactly when the request is below 2^64 - 2^52: a larger
      one lies in no region. */
  lemma AllocOutcome(es: seq<Entry>, fr: Frontier, n: nat, allocs: seq<Range>)
    requires MapOk(es) && FrontierOk(es, fr) && AllocsOk(es, fr, allocs) && n < TWO64
    ensures var (fr', o) := AllocFrom(es, fr, n);
            && (FrontierOk(es, fr') && AllocsOk(es, fr', if o.Some? then allocs + [Range(o.value, n)] else allocs)
                <==> o.None? || n < TWO64 - PHYS_LIMIT)
            && (o.Some? ==> o.value > 0)
  {
    hide Fits, Bump, Apart;
    var (fr', o) := AllocFrom(es, fr, n);
    GrantStarts(es, fr, n);
    if n < TWO64 - PHYS_LIMIT {
      AllocKeeps(es, fr, n, allocs);
    } else if o.None? {
      NoGrantKeeps(es, fr, n, allocs);
    } else {
      var cs := allocs + [Range(o.value, n)];
      TooLarge(es, fr', Range(o.value, n));
      assert cs[|allocs|] == Range(o.value, n);
    }
  }

  lemma TooLarge(es: seq<Entry>, fr: Frontier, a: Range)
    requires MapOk(es) && a.size > PHYS_LIMIT
    ensures FrontierOk(es, fr) ==> !Placed(es, fr, a)
  {
  }

  lemma {:induction false} NoGrantKeeps(es: seq<Entry>, fr: Frontier, n: nat, allocs: seq<Range>)
    requires MapOk(es) && FrontierOk(es, fr) && AllocsOk(es, fr, allocs) && AllocFrom(es, fr, n).1.None?
    ensures FrontierOk(es, AllocFrom(es, fr, n).0) && AllocsOk(es, AllocFrom(es, fr, n).0, allocs)
    decreases |es| - fr.region
  {
    hide Fits, Bump, Apart, Placed;
    if fr.region < |es| {
      var r := NextUsable(es, fr.region + 1);
      var fr1 := Frontier(r, if r < |es| then es[r].base else fr.next);
      forall i | 0 <= i < |allocs| ensures Placed(es, fr1, allocs[i]) {
        PlacedStays(es, fr, fr1, allocs[i]);
      }
      NoGrantKeeps(es, fr1, n, allocs);
    }
  }

  lemma TakeHere(es: seq<Entry>, fr: Frontier, n: nat, allocs: seq<Range>)
    requires MapOk(es) && FrontierOk(es, fr) && AllocsOk(es, fr, allocs)
    requires fr.region < |es| && fr.next + n <= EntryEnd(es[fr.region])
    ensures AllocsOk(es, Frontier(fr.region, fr.next + n), allocs + [Range(fr.next, n)])
  {
    var fr', a := Frontier(fr.region, fr.next + n), Range(fr.next, n);
    assert PlacedIn(es, fr', a, fr.region);
    forall i | 0 <= i < |allocs| ensures Placed(es, fr', allocs[i]) && Apart(allocs[i], a) {
      PlacedStays(es, fr, fr', allocs[i]);
      FrontierApart(es, fr, allocs[i], n);
    }
  }

  // ----- frames

  function Roundup(x: nat): nat { (x + 4095) % TWO64 / PGSIZE * PGSIZE }

  lemma RoundingFacts(x: nat)
    requires x <= PHYS_LIMIT
    ensures Roundup(x) % PGSIZE == 0 && x <= Roundup(x) < x + PGSIZE
    ensures Rounddown(x) % PGSIZE == 0 && Rounddown(x) <= x < Rounddown(x) + PGSIZE
  {
  }

  /** First address listed from entry i, given where boot allocation stopped. */
  function StartOf(es: seq<Entry>, fr: Frontier, i: nat): nat
    requires i < |es|
  {
    if i == fr.region && Roundup(es[i].base) < fr.next then Roundup(fr.next) else Roundup(es[i].base)
  }

  /** What the listing loops take from entry i. */
  predicate ListedFrom(es: seq<Entry>, fr: Frontier, i: nat, f: nat)
    requires i < |es|
  {
    && es[i].usable && i >= fr.region
    && StartOf(es, fr, i) <= f * PGSIZE < Rounddown(EntryEnd(es[i]))
  }

  /** Frame f is usable memory of entry i from its first byte to its last, past the frontier. */
  predicate WholeFrame(es: seq<Entry>, fr: Frontier, i: nat, f: nat)
    requires i < |es|
  {
    && es[i].usable && i >= fr.region
    && es[i].base <= f * PGSIZE && f * PGSIZE + PGSIZE <= EntryEnd(es[i])
    && (i == fr.region ==> fr.next <= f * PGSIZE)
  }

  lemma PageStep(a: nat, f: nat)
    requires a % PGSIZE == 0
    ensures a < f * PGSIZE ==> a + PGSIZE <= f * PGSIZE
    ensures f * PGSIZE < a ==> f * PGSIZE + PGSIZE <= a
  {
    var q := a / PGSIZE;
    assert a == q * PGSIZE;
  }

  lemma ListedIsWhole(es: seq<Entry>, fr: Frontier, i: nat, f: nat)
    requires MapOk(es) && FrontierOk(es, fr) && i < |es|
    ensures ListedFrom(es, fr, i, f) <==> WholeFrame(es, fr, i, f)
  {
    if es[i].usable && i >= fr.region {
      RoundingFacts(es[i].base);
      RoundingFacts(EntryEnd(es[i]));
      hide Roundup, Rounddown;
      PageStep(Roundup(es[i].base), f);
      PageStep(Rounddown(EntryEnd(es[i])), f);
      if i == fr.region {
        RoundingFacts(fr.next);
        PageStep(Roundup(fr.next), f);
      }
    }
  }

  /** Frame f belongs on the free list. */
  ghost predicate Handed(es: seq<Entry>, fr: Frontier, f: nat) {
    exists i: nat {:trigger WholeFrame(es, fr, i, f)} :: i < |es| && WholeFrame(es, fr, i, f)
  }

  /** No frame handed to the allocator meets anything boot allocation gave away. */
  lemma HandedMeetsNoAllocation(es: seq<Entry>, fr: Frontier, allocs: seq<Range>, f: nat, a: nat)
    requires MapOk(es) && FrontierOk(es, fr) && AllocsOk(es, fr, allocs) && Handed(es, fr, f) && a < |allocs|
    ensures Apart(allocs[a], Range(f * PGSIZE, PGSIZE))
  {
    var i: nat :| i < |es| && WholeFrame(es, fr, i, f);
    assert Placed(es, fr, allocs[a]);
    var j: nat :| PlacedIn(es, fr, allocs[a], j);
    if j < i {
      var e, g := es[j], es[i];
      assert Apart(Range(e.base, e.length), Range(g.base, g.length));
    }
  }

  /** Different entries give different frames. */
  lemma OneEntryPerFrame(es: seq<Entry>, fr: Frontier, i: nat, j: nat, f: nat, g: nat)
    requires MapOk(es) && i < j < |es| && WholeFrame(es, fr, i, f) && WholeFrame(es, fr, j, g)
    ensures f != g
  {
    var d, e := es[i], es[j];
    assert Apart(Range(d.base, d.length), Range(e.base, e.length));
  }

  /** The end of the highest usable entry, or 0. */
  ghost predicate IsTop(es: seq<Entry>, top: nat) {
    && (forall i :: 0 <= i < |es| && es[i].usable ==> EntryEnd(es[i]) <= top)
    && (top == 0 || exists i :: 0 <= i < |es| && es[i].usable && EntryEnd(es[i]) == top)
  }

  class Boot {
    const memmap: seq<Entry>
    var region: nat
    var nextFree: nat
    var link: seq<int>
    var refs: seq<nat>
    var head: int
    ghost var allocs: seq<Range>

    ghost predicate Valid()
      reads this
    {
      && MapOk(memmap) && FrontierOk(memmap, Frontier(region, nextFree))
      && AllocsOk(memmap, Frontier(region, nextFree), allocs)
    }

    /** find_next_usable_region */
    method FindNextUsable(start: nat) returns (found: nat)
      requires start <= |memmap|
      ensures found == NextUsable(memmap, start)
    {
      found := |memmap|;
      for i := start to |memmap|
        invariant found == |memmap| && NextUsable(memmap, i) == NextUsable(memmap, start)
      {
        if memmap[i].usable {
          return i;
        }
      }
    }

    /** pmm_init */
    constructor (m: seq<Entry>)
      requires MapOk(m)
      ensures Valid() && memmap == m && allocs == [] && link == [] && refs == [] && head == NULL
      ensures region <= |m| && (forall i :: 0 <= i < region ==> !m[i].usable)
      ensures region < |m| ==> m[region].usable && nextFree == m[region].base
    {
      memmap := m;
      nextFree := 0;
      region := 0;
      link, refs, head, allocs := [], [], NULL, [];
      new;
      region := FindNextUsable(0);
      if region < |memmap| {
        nextFree := memmap[region].base;
      }
    }

    /** boot_alloc */
    method BootAlloc(n: nat) returns (addr: Option<nat>)
      requires Valid() && n < TWO64
      modifies this`region, this`nextFree, this`allocs
      ensures Valid() <==> addr.None? || n < TWO64 - PHYS_LIMIT
      ensures n < TWO64 - PHYS_LIMIT ==>
                Granted(memmap, old(Frontier(region, nextFree)), n, Frontier(region, nextFree), addr)
      ensures (Frontier(region, nextFree), addr) == AllocFrom(memmap, old(Frontier(region, nextFree)), n)
      ensures allocs == if addr.Some? then old(allocs) + [Range(addr.value, n)] else old(allocs)
      ensures addr.Some? ==> addr.value > 0
    {
      AllocOutcome(memmap, Frontier(region, nextFree), n, allocs);
      if n < TWO64 - PHYS_LIMIT { AllocGrants(memmap, Frontier(region, nextFree), n); }
      hide AllocsOk, MapOk, FrontierOk, Advances, Fits, Bump, Granted;
      while region < |memmap|
        invariant region <= |memmap|
        invariant AllocFrom(memmap, Frontier(region, nextFree), n) ==
                  AllocFrom(memmap, old(Frontier(region, nextFree)), n)
        invariant allocs == old(allocs)
        decreases |memmap| - region
      {
        var entry := memmap[region];
        if Fits(entry, nextFree, n) {
          var a := nextFree;
          nextFree := Bump(nextFree, n);
          allocs := allocs + [Range(a, n)];
          return Some(a);
        }
        region := FindNextUsable(region + 1);
        if region < |memmap| {
          nextFree := memmap[region].base;
        }
      }
      return None;
    }

    /** The highest address any usable entry reaches. */
    method MaxAddr() returns (top: nat)
      requires MapOk(memmap)
      ensures top <= PHYS_LIMIT
      ensures IsTop(memmap, top)
    {
      top := 0;
      for i := 0 to |memmap|
        invariant top <= PHYS_LIMIT && (top == 0 || exists j ::
                    0 <= j < i && memmap[j].usable && EntryEnd(memmap[j]) == top)
        invariant forall j :: 0 <= j < i && memmap[j].usable ==> EntryEnd(memmap[j]) <= top
      {
        if memmap[i].usable && memmap[i].base + memmap[i].length > top {
          top := memmap[i].base + memmap[i].length;
        }
      }
    }

    /** frame_alloc_init: unless the table itself cannot be placed, the list holds exactly the
        whole usable frames past the boot frontier, each once, all with table entries. */
    method FrameAllocInit() returns (ok: bool, ghost free: seq<nat>, ghost top: nat, ghost addr: Option<nat>)
      requires Valid() && head == NULL
      modifies this
      ensures Valid() && IsTop(memmap, top)
      ensures Granted(memmap, old(Frontier(region, nextFree)), top / 4096 * 16, Frontier(region, nextFree), addr)
      ensures allocs == if addr.Some? then old(allocs) + [Range(addr.value, top / 4096 * 16)] else old(allocs)
      ensures ok <==> addr.Some? || top < 4096
      ensures ok ==>
                && |link| == top / 4096 && Good(Table(link, refs, head), free, {}) && Distinct(free)
                && (forall s: Phys :: s.free == free && |s.mem| == |link| ==>
                      Represents(Table(link, refs, head), s, {}))
                && (forall f: nat :: f in free <==> Handed(memmap, Frontier(region, nextFree), f))
      ensures !ok ==> head == NULL && link == old(link)
    {
      hide MapOk, Good, Handed, Distinct, AllocsOk, FrontierOk, AllocFrom, Granted, IsTop;
      var last := MaxAddr();
      top := last;
      var npages := last / PGSIZE;
      TopBounds(memmap, last);
      TableSize(memmap, last);
      ghost var before := Frontier(region, nextFree);
      FrontierInside(memmap, before);
      var pages := BootAlloc(npages * PAGE_INFO_SIZE);
      addr := pages;
      free := [];
      if pages.None? && npages != 0 {
        ok := false;
        return;
      }
      link := seq(npages, i => NULL);
      refs := seq(npages, i => 0);
      head := NULL;
      ok := true;
      EmptyGood(Table(link, refs, head));
      free := ListFrames(npages);
      GoodBasics(Table(link, refs, head), free, {});
    }

    /** The listing loop over the memory map. */
    method ListFrames(npages: nat) returns (ghost free: seq<nat>)
      requires MapOk(memmap) && FrontierOk(memmap, Frontier(region, nextFree))
      requires |link| == npages && Good(Table(link, refs, head), [], {}) && forall f :: 0 <= f < |refs| ==> refs[f] == 0
      requires forall i :: 0 <= i < |memmap| && memmap[i].usable ==> EntryEnd(memmap[i]) / PGSIZE <= npages
      modifies this`link, this`head
      ensures |link| == npages && Good(Table(link, refs, head), free, {})
      ensures forall f: nat :: f in free <==> Handed(memmap, Frontier(region, nextFree), f)
    {
      hide MapOk, Good, WholeFrame, FrontierOk, HandedBelow, Handed;
      ghost var fr := Frontier(region, nextFree);
      free := [];
      HandedAll(memmap, fr);
      for i := 0 to |memmap|
        invariant |link| == npages && Good(Table(link, refs, head), free, {})
        invariant forall f: nat :: f in free <==> HandedBelow(memmap, fr, i, f)
      {
        HandedStep(memmap, fr, i);
        if memmap[i].usable && i >= region {
          var start := Roundup(memmap[i].base);
          var end := Rounddown(memmap[i].base + memmap[i].length);
          if i == region && start < nextFree {
            start := Roundup(nextFree);
          }
          ListedRange(memmap, fr, i, start, end);
          ghost var listed := free;
          free := ListRegion(npages, start, end, free);
          forall f: nat ensures f in free <==> HandedBelow(memmap, fr, i + 1, f) {
            assert f in free <==> f in listed || start <= f * PGSIZE < end;
            assert WholeFrame(memmap, fr, i, f) <==> start <= f * PGSIZE < end;
          }
        }
      }
    }

    /** The listing loop over one entry; its index guard never fires. */
    method ListRegion(npages: nat, start: nat, end: nat, ghost before: seq<nat>) returns (ghost free: seq<nat>)
      requires |link| == npages && Good(Table(link, refs, head), before, {}) && forall f :: 0 <= f < |refs| ==>
                 refs[f] == 0
      requires start % PGSIZE == 0 && end / PGSIZE <= npages && end % PGSIZE == 0
      requires forall f :: f in before ==> !(start <= f * PGSIZE < end)
      modifies this`link, this`head
      ensures |link| == npages && Good(Table(link, refs, head), free, {})
      ensures forall f: nat :: f in free <==> f in before || start <= f * PGSIZE < end
    {
      hide Good;
      free := before;
      var addr := start;
      while addr < end
        invariant start <= addr && addr % PGSIZE == 0
        invariant |link| == npages && Good(Table(link, refs, head), free, {})
        invariant forall f: nat :: f in free <==> f in before || (start <= f * PGSIZE < end && f * PGSIZE < addr)
      {
        var idx := addr / PGSIZE;
        IndexInTable(addr, end, npages);
        if idx < npages {
          GoodSized(Table(link, refs, head), free);
          GoodPush(Table(link, refs, head), free, idx);
          link := link[idx := head];
          head := idx;
          free := [idx] + free;
        }
        FramesBelow(addr);
        addr := addr + PGSIZE;
      }
    }
  }

  lemma IndexInTable(addr: nat, end: nat, npages: nat)
    requires addr % PGSIZE == 0 && end % PGSIZE == 0 && addr < end && end / PGSIZE <= npages
    ensures addr / PGSIZE < npages && addr / PGSIZE * PGSIZE == addr
  {
  }

  lemma FramesBelow(addr: nat)
    requires addr % PGSIZE == 0
    ensures forall f: nat :: f * PGSIZE < addr + PGSIZE <==> f * PGSIZE < addr || f == addr / PGSIZE
  {
    forall f: nat ensures f * PGSIZE < addr + PGSIZE <==> f * PGSIZE < addr || f == addr / PGSIZE {
      PageStep(addr, f);
    }
  }

  lemma GoodSized(s: Table, xs: seq<nat>)
    requires Good(s, xs, {})
    ensures |s.link| == |s.refs|
  {
  }

  lemma GoodPush(s: Table, xs: seq<nat>, f: nat)
    requires Good(s, xs, {}) && f < |s.link| && f !in xs && s.refs[f] == 0
    ensures Good(Table(s.link[f := s.head], s.refs, f), [f] + xs, {})
  {
    ListPush(s.link, s.head, xs, f);
  }

  lemma EmptyGood(s: Table)
    requires |s.link| == |s.refs| && s.head == NULL
    ensures Good(s, [], {})
  {
  }

  ghost predicate HandedBelow(es: seq<Entry>, fr: Frontier, n: nat, f: nat)
    requires n <= |es|
  {
    exists i: nat {:trigger WholeFrame(es, fr, i, f)} :: i < n && WholeFrame(es, fr, i, f)
  }

  lemma HandedStep(es: seq<Entry>, fr: Frontier, n: nat)
    requires MapOk(es) && n < |es|
    ensures forall f: nat :: HandedBelow(es, fr, n + 1, f) <==> HandedBelow(es, fr, n, f) || WholeFrame(es, fr, n, f)
    ensures forall f: nat :: HandedBelow(es, fr, n, f) ==> !WholeFrame(es, fr, n, f)
    ensures !(es[n].usable && n >= fr.region) ==> forall f: nat :: !WholeFrame(es, fr, n, f)
  {
    forall f: nat | HandedBelow(es, fr, n, f) ensures !WholeFrame(es, fr, n, f) {
      var i: nat :| i < n && WholeFrame(es, fr, i, f);
      forall g: nat | WholeFrame(es, fr, n, g) ensures g != f { OneEntryPerFrame(es, fr, i, n, f, g); }
    }
  }

  lemma HandedAll(es: seq<Entry>, fr: Frontier)
    ensures forall f: nat :: HandedBelow(es, fr, |es|, f) <==> Handed(es, fr, f)
    ensures forall f: nat :: !HandedBelow(es, fr, 0, f)
  {
  }

  lemma ListedRange(es: seq<Entry>, fr: Frontier, i: nat, start: nat, end: nat)
    requires MapOk(es) && FrontierOk(es, fr) && i < |es| && es[i].usable && i >= fr.region
    requires start == StartOf(es, fr, i) && end == Rounddown(EntryEnd(es[i]))
    ensures forall f: nat :: WholeFrame(es, fr, i, f) <==> start <= f * PGSIZE < end
    ensures start % PGSIZE == 0 && end % PGSIZE == 0 && end / PGSIZE == EntryEnd(es[i]) / PGSIZE
  {
    hide Roundup;
    forall f: nat ensures WholeFrame(es, fr, i, f) <==> start <= f * PGSIZE < end {
      ListedIsWhole(es, fr, i, f);
    }
    RoundingFacts(es[i].base);
    RoundingFacts(EntryEnd(es[i]));
    if i == fr.region { RoundingFacts(fr.next); }
  }

  lemma TableSize(es: seq<Entry>, top: nat)
    requires top <= PHYS_LIMIT
    ensures top / PGSIZE * PAGE_INFO_SIZE < TWO64 - PHYS_LIMIT
    ensures (forall i :: 0 <= i < |es| && es[i].usable ==> EntryEnd(es[i]) <= top) ==>
            forall i :: 0 <= i < |es| && es[i].usable ==> EntryEnd(es[i]) / PGSIZE <= top / PGSIZE
  {
  }

  lemma TopBounds(es: seq<Entry>, top: nat)
    requires IsTop(es, top)
    ensures forall i :: 0 <= i < |es| && es[i].usable ==> EntryEnd(es[i]) <= top
  {
  }

  lemma FrontierInside(es: seq<Entry>, fr: Frontier)
    requires FrontierOk(es, fr)
    ensures fr.region <= |es|
  {
  }
}

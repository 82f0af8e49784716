/** The kernel heap in memory (kernel/src/kheap.c): block headers linked in place inside the
    memory they manage. */
module KernelHeap {
  import opened Words
  import opened WordMemory
  import opened HeapLayout

  /** Requests from here on make the size arithmetic of kmalloc wrap around. */
  const MAX_REQUEST := 0xffff_ffff_ffff_efe1

  /** Requests that round up to a size which then wraps when the header is added. */
  predicate InBand(request: nat) { MAX_REQUEST <= request < TWO64 - 15 }

  /** roundup(size, 16) on a 64-bit word. */
  function Roundup16(size: nat): nat { (size + 15) % TWO64 / 16 * 16 }

  /** The size arithmetic of kmalloc is exact precisely below MAX_REQUEST. */
  lemma RequestBound(size: nat)
    requires 0 < size < TWO64
    ensures size < MAX_REQUEST <==> Roundup16(size) >= size && Roundup16(size) + HEADER + PGSIZE - 1 < TWO64
    ensures size < MAX_REQUEST ==> size <= Roundup16(size) < size + 16 && Roundup16(size) % 16 == 0
  {
    var q := (size + 15) / 16;
    assert size + 15 == q * 16 + (size + 15) % 16;
    if size + 15 < TWO64 {
      assert Roundup16(size) == q * 16;
    } else {
      assert (size + 15) % TWO64 < 16;
    }
  }

  // ----- the list in memory

  predicate HeaderAt(mem: WordMap, b: Block, next: nat) {
    At(mem, b.addr) == b.size && At(mem, b.addr + 8) == (if b.free then 1 else 0) && At(mem, b.addr + 16) == next
  }

  function Ptr(bs: seq<Block>, i: nat): nat { if i < |bs| then bs[i].addr else 0 }

  /** Node i of the list holds its block and points to the next. */
  ghost predicate NodeAt(mem: WordMap, bs: seq<Block>, i: nat)
    requires i < |bs|
  {
    HeaderAt(mem, bs[i], Ptr(bs, i + 1))
  }

  ghost predicate Linked(mem: WordMap, head: nat, bs: seq<Block>) {
    head == Ptr(bs, 0) && forall i {:trigger NodeAt(mem, bs, i)} :: 0 <= i < |bs| ==> NodeAt(mem, bs, i)
  }

  /** Blocks at nonzero addresses that do not overlap. */
  ghost predicate AllApart(bs: seq<Block>) {
    && (forall i :: 0 <= i < |bs| ==> bs[i].addr > 0)
    && (forall i, j :: 0 <= i < j < |bs| ==> Disjoint(bs[i], bs[j]))
  }

  lemma LayoutApart(exts: seq<Extent>, top: nat)
    requires Layout(exts, top)
    ensures AllApart(Flat(exts))
  {
    var bs := Flat(exts);
    forall i | 0 <= i < |bs| ensures bs[i].addr > 0 { LayoutBounds(exts, top, i); }
    forall i, j | 0 <= i < j < |bs| ensures Disjoint(bs[i], bs[j]) { LayoutDisjoint(exts, top, i, j); }
  }

  lemma HeaderElsewhere(mem: WordMap, mem': WordMap, lo: nat, hi: nat, c: Block, next: nat)
    requires ChangedWithin(mem, mem', lo, hi) && HeaderAt(mem, c, next) && (End(c) <= lo || hi <= c.addr)
    ensures HeaderAt(mem', c, next)
  {
  }

  /** Replacing block i by blocks in its place, once their headers are written and chained. */
  lemma LinkedReplace(mem: WordMap, mem': WordMap, head: nat, bs: seq<Block>, i: nat, rep: seq<Block>)
    requires Linked(mem, head, bs) && AllApart(bs) && i < |bs|
    requires ChangedWithin(mem, mem', bs[i].addr, End(bs[i]))
    requires |rep| > 0 && rep[0].addr == bs[i].addr
    requires |rep| <= 2 && HeaderAt(mem', rep[0], if |rep| == 2 then rep[1].addr else Ptr(bs, i + 1))
    requires |rep| == 2 ==> HeaderAt(mem', rep[1], Ptr(bs, i + 1))
    ensures Linked(mem', head, Replace(bs, i, rep))
  {
    hide HeaderAt, ChangedWithin, At;
    var cs, n := Replace(bs, i, rep), |rep|;
    forall j | 0 <= j < |cs| ensures NodeAt(mem', cs, j) {
      if j < i {
        assert NodeAt(mem, bs, j);
        assert cs[j] == bs[j] && Ptr(cs, j + 1) == Ptr(bs, j + 1);
        HeaderElsewhere(mem, mem', bs[i].addr, End(bs[i]), bs[j], Ptr(bs, j + 1));
      } else if j < i + n {
        assert cs[j] == rep[j - i];
        assert Ptr(cs, j + 1) == if j - i + 1 < n then rep[j - i + 1].addr else Ptr(bs, i + 1);
      } else {
        var k := j - n + 1;
        assert NodeAt(mem, bs, k);
        assert cs[j] == bs[k] && Ptr(cs, j + 1) == Ptr(bs, k + 1);
        HeaderElsewhere(mem, mem', bs[i].addr, End(bs[i]), bs[k], Ptr(bs, k + 1));
      }
    }
  }

  /** Payload words of live blocks. */
  ghost predicate PayloadKept(mem: WordMap, mem': WordMap, live: set<Block>) {
    forall b, a: nat {:trigger b in live, At(mem', a)} :: b in live && b.addr + HEADER <= a < End(b) ==>
        At(mem', a) == At(mem, a)
  }

  lemma KeptOutside(mem: WordMap, mem': WordMap, bs: seq<Block>, i: nat)
    requires AllApart(bs) && i < |bs| && bs[i].free && ChangedWithin(mem, mem', bs[i].addr, End(bs[i]))
    ensures PayloadKept(mem, mem', Live(bs))
  {
    forall b, a: nat | b in Live(bs) && b.addr + HEADER <= a < End(b) ensures At(mem', a) == At(mem, a) {
      var j :| 0 <= j < |bs| && !bs[j].free && bs[j] == b;
      assert Disjoint(bs[i], bs[j]) || Disjoint(bs[j], bs[i]);
    }
  }

  /** Memory after split_block wrote its two headers. */
  function Split(mem: WordMap, b: Block, size: nat): WordMap
    requires b.size >= size
  {
    if b.size >= size + MIN_SPLIT then
      var newb := b.addr + HEADER + size;
      var tail := mem[newb := b.size - size - HEADER][newb + 8 := 1][newb + 16 := At(mem, b.addr + 16)];
      tail[b.addr := size][b.addr + 16 := newb]
    else mem
  }

  lemma HeaderOf(mem: WordMap, head: nat, bs: seq<Block>, i: nat)
    requires Linked(mem, head, bs) && i < |bs|
    ensures HeaderAt(mem, bs[i], Ptr(bs, i + 1)) && At(mem, bs[i].addr) == bs[i].size
  {
    assert NodeAt(mem, bs, i);
  }

  lemma SplitWritten(mem: WordMap, b: Block, size: nat, next: nat)
    requires b.size >= size && HeaderAt(mem, b, next)
    ensures var mem', rep := Split(mem, b, size), SplitOf(b, size);
            && ChangedWithin(mem, mem', b.addr, End(b))
            && HeaderAt(mem', rep[0], if |rep| == 2 then rep[1].addr else next)
            && (|rep| == 2 ==> HeaderAt(mem', rep[1], next))
  {
  }

  /** Pages left in the heap window. */
  function Room(next: nat): nat
    requires next <= KHEAP_BASE + KHEAP_SIZE
  {
    (KHEAP_BASE + KHEAP_SIZE - next) / PGSIZE
  }

  /** Pages an extension gets to map: it stops at the end of the window or of free frames. */
  function Extension(npages: nat, granted: nat, next: nat): nat
    requires next <= KHEAP_BASE + KHEAP_SIZE
  {
    var most := if granted < Room(next) then granted else Room(next);
    if npages < most then npages else most
  }

  lemma RoomLeft(next: nat, i: nat)
    requires next <= KHEAP_BASE + KHEAP_SIZE && next % 4096 == 0
    ensures next + i * PGSIZE < KHEAP_BASE + KHEAP_SIZE <==> i < Room(next)
    ensures next + i * PGSIZE <= KHEAP_BASE + KHEAP_SIZE <==> i <= Room(next)
  {
    var left := KHEAP_BASE + KHEAP_SIZE - next;
    assert left % 4096 == 0;
    assert left == Room(next) * PGSIZE;
  }

  /** Pages that hold a header and a payload of `size` bytes. */
  function PagesNeeded(size: nat): nat { (size + HEADER + PGSIZE - 1) / PGSIZE }

  class Heap {
    var mem: WordMap
    var heapNext: nat
    var heapEnd: nat
    var freeList: nat
    ghost var exts: seq<Extent>

    ghost predicate Valid()
      reads this
    {
      && KHEAP_BASE <= heapNext <= KHEAP_BASE + KHEAP_SIZE && heapNext % 4096 == 0
      && Layout(exts, heapNext)
      && Coalesced(Flat(exts))
      && Linked(mem, freeList, Flat(exts))
    }

    /** kheap_init */
    constructor ()
      ensures Valid() && exts == [] && heapNext == KHEAP_BASE
    {
      mem := map[];
      heapNext := KHEAP_BASE;
      heapEnd := KHEAP_BASE;
      freeList := 0;
      exts := [];
    }

    /** heap_extend; `granted` is how many page allocations would succeed. */
    method HeapExtend(npages: nat, granted: nat) returns (ok: bool)
      requires Valid()
      modifies this`heapNext, this`heapEnd
      ensures Valid()
      ensures heapNext == old(heapNext) + Extension(npages, granted, old(heapNext)) * PGSIZE
      ensures ok <==> Extension(npages, granted, old(heapNext)) == npages
      ensures heapEnd == if ok then heapNext else old(heapEnd)
    {
      hide Room, Linked, Coalesced, Flat;
      for i := 0 to npages
        invariant heapNext == old(heapNext) + i * PGSIZE && i <= Extension(npages, granted, old(heapNext))
        invariant KHEAP_BASE <= heapNext <= KHEAP_BASE + KHEAP_SIZE && heapNext % 4096 == 0
        invariant heapEnd == old(heapEnd)
      {
        RoomLeft(old(heapNext), i);
        if heapNext >= KHEAP_BASE + KHEAP_SIZE || i >= granted {
          HigherTop(exts, old(heapNext), heapNext);
          return false;
        }
        heapNext := heapNext + PGSIZE;
      }
      HigherTop(exts, old(heapNext), heapNext);
      heapEnd := heapNext;
      return true;
    }

    /** find_free_block: the address of the first fit, or NULL. */
    method FindFreeBlock(size: nat) returns (cur: nat)
      requires Valid()
      ensures var bs := Flat(exts); cur == Ptr(bs, FirstFit(bs, size))
      ensures cur == 0 <==> FirstFit(Flat(exts), size) == |Flat(exts)|
    {
      ghost var bs := Flat(exts);
      LayoutApart(exts, heapNext);
      cur := freeList;
      ghost var k := 0;
      while cur != 0
        invariant 0 <= k <= |bs| && cur == Ptr(bs, k)
        invariant forall j :: 0 <= j < k ==> !(bs[j].free && bs[j].size >= size)
        decreases |bs| - k
      {
        assert NodeAt(mem, bs, k);
        if At(mem, cur + 8) != 0 && At(mem, cur) >= size {
          return;
        }
        cur := At(mem, cur + 16);
        k := k + 1;
      }
    }

    /** split_block on the block at b, which is bs[i]. */
    method SplitBlock(b: nat, size: nat, ghost bs: seq<Block>, ghost i: nat)
      requires Linked(mem, freeList, bs) && AllApart(bs) && i < |bs| && bs[i].addr == b && bs[i].size >= size
      modifies this`mem
      ensures Linked(mem, freeList, Replace(bs, i, SplitOf(bs[i], size)))
      ensures ChangedWithin(old(mem), mem, b, End(bs[i]))
    {
      hide HeaderAt, AllApart, ChangedWithin, Linked;
      HeaderOf(mem, freeList, bs, i);
      SplitWritten(mem, bs[i], size, Ptr(bs, i + 1));
      if At(mem, b) >= size + MIN_SPLIT {
        var newb := b + HEADER + size;
        mem := mem[newb := At(mem, b) - size - HEADER];
        mem := mem[newb + 8 := 1];
        mem := mem[newb + 16 := At(mem, b + 16)];
        mem := mem[b := size];
        mem := mem[b + 16 := newb];
      }
      assert mem == Split(old(mem), bs[i], size);
      LinkedReplace(old(mem), mem, freeList, bs, i, SplitOf(bs[i], size));
    }

    /** Writes the free flag of the block at b, which is bs[i]. */
    method SetFree(b: nat, free: bool, ghost bs: seq<Block>, ghost i: nat)
      requires Linked(mem, freeList, bs) && AllApart(bs) && i < |bs| && bs[i].addr == b
      modifies this`mem
      ensures Linked(mem, freeList, bs[i := bs[i].(free := free)])
      ensures ChangedWithin(old(mem), mem, b, b + HEADER)
    {
      assert NodeAt(mem, bs, i);
      mem := mem[b + 8 := if free then 1 else 0];
      LinkedReplace(old(mem), mem, freeList, bs, i, [bs[i].(free := free)]);
      assert Replace(bs, i, [bs[i].(free := free)]) == bs[i := bs[i].(free := free)];
    }

    /** kmalloc.  On success b is the block handed out: it was not live before, it is the only
        new live block, its payload is 8-aligned, large enough exactly for requests below
        MAX_REQUEST, and no payload word of any live block changed. */
    method Kmalloc(request: nat, granted: nat) returns (ptr: nat, ghost b: Block)
      requires Valid() && request < TWO64 && !InBand(request)
      modifies this
      ensures Valid()
      ensures ptr == 0 ==> exts == old(exts) && mem == old(mem)
      ensures ptr != 0 ==>
                && ptr == b.addr + HEADER && ptr % 8 == 0 && b in Flat(exts)
                && Roundup16(request) <= b.size < Roundup16(request) + 40
                && (b.size >= request <==> request < MAX_REQUEST)
                && b !in Live(old(Flat(exts))) && Live(Flat(exts)) == Live(old(Flat(exts))) + {b}
      ensures PayloadKept(old(mem), mem, Live(old(Flat(exts))))
      ensures var bs, size := old(Flat(exts)), Roundup16(request);
              var i := FirstFit(bs, size);
              if request > 0 && i < |bs| then
                && ptr != 0 && Flat(exts) == MallocAt(bs, i, size)
                && |exts| == |old(exts)| && heapNext == old(heapNext)
              else
                && (ptr != 0 <==>
                      request > 0 && Extension(PagesNeeded(size), granted, old(heapNext)) == PagesNeeded(size))
                && (ptr != 0 ==> |exts| == |old(exts)| + 1 && Flat(exts) == Grown(old(heapNext), size) + bs)
                && heapNext == old(heapNext) +
                     (if request > 0 then Extension(PagesNeeded(size), granted, old(heapNext)) * PGSIZE else 0)
    {
      hide *;
      b := Block(0, 0, true);
      NothingWritten(mem, Live(Flat(exts)));
      if request == 0 {
        return 0, b;
      }
      RoundedRequest(request);
      var size := Roundup16(request);
      ghost var i := FirstFit(Flat(exts), size);
      var p := FindFreeBlock(size);
      if p != 0 {
        PtrAt(Flat(exts), i);
        ptr, b := TakeBlock(p, size, i);
        HandedOut(b, request);
        return;
      }
      ptr, b := Grow(size, granted);
      if ptr != 0 {
        HandedOut(b, request);
      }
    }

    lemma HandedOut(b: Block, request: nat)
      requires Valid() && b in Flat(exts)
      ensures request >= MAX_REQUEST ==> b.size < request
    {
      if request >= MAX_REQUEST { BlockSize(exts, heapNext, b, request); }
    }

    /** kmalloc's second branch: extend the heap and hand out the front of the new extent. */
    method Grow(size: nat, granted: nat) returns (ptr: nat, ghost b: Block)
      requires Valid() && size % 16 == 0
      modifies this
      ensures Valid()
      ensures ptr == 0 ==> exts == old(exts) && mem == old(mem)
      ensures ptr != 0 ==>
                && ptr == b.addr + HEADER && ptr % 8 == 0 && size <= b.size < size + 40 && b in Flat(exts)
                && b !in Live(old(Flat(exts))) && Live(Flat(exts)) == Live(old(Flat(exts))) + {b}
                && |exts| == |old(exts)| + 1 && Flat(exts) == Grown(old(heapNext), size) + old(Flat(exts))
      ensures ptr != 0 <==> Extension(PagesNeeded(size), granted, old(heapNext)) == PagesNeeded(size)
      ensures heapNext == old(heapNext) + Extension(PagesNeeded(size), granted, old(heapNext)) * PGSIZE
      ensures PayloadKept(old(mem), mem, Live(old(Flat(exts))))
    {
      hide Layout, Coalesced, Linked, Live, PayloadKept, Flat, Carve, AllApart, Room;
      b := Block(0, 0, true);
      NothingWritten(mem, Live(Flat(exts)));
      PagesFor(size);
      var needed := size + HEADER;
      var npages := (needed + PGSIZE - 1) / PGSIZE;
      var nb := heapNext;
      var ok := HeapExtend(npages, granted);
      if !ok {
        return 0, b;
      }
      b := AddExtent(nb, npages, size);
      SumOfEights(nb, 0);
      return nb + HEADER, b;
    }

    /** kmalloc's first branch: split the block found, then mark it taken. */
    method TakeBlock(p: nat, size: nat, ghost i: nat) returns (ptr: nat, ghost b: Block)
      requires Valid() && i < |Flat(exts)| && Flat(exts)[i].addr == p
      requires Flat(exts)[i].free && Flat(exts)[i].size >= size && size % 8 == 0
      modifies this`mem, this`exts
      ensures Valid() && Flat(exts) == MallocAt(old(Flat(exts)), i, size) && |exts| == |old(exts)|
      ensures ptr != 0 && ptr == b.addr + HEADER && ptr % 8 == 0 && size <= b.size < size + 40
      ensures b in Flat(exts) && b !in Live(old(Flat(exts))) && Live(Flat(exts)) == Live(old(Flat(exts))) + {b}
      ensures PayloadKept(old(mem), mem, Live(old(Flat(exts))))
    {
      ghost var bs := Flat(exts);
      LayoutApart(exts, heapNext);
      LayoutBounds(exts, heapNext, i);
      SumOfEights(p, 0);
      b := Carve(bs[i], size)[0];
      ghost var cs := SplitLayout(exts, heapNext, i, size);
      SplitBlock(p, size, bs, i);
      SetFree(p, false, cs, i);
      KeptOutside(old(mem), mem, bs, i);
      MallocKeepsCoalesced(bs, i, size);
      MallocLive(bs, i, size);
      exts := TakeLayout(exts, heapNext, i, size);
      ptr := p + HEADER;
    }

    /** kmalloc's second branch: a fresh extent goes to the front of the list. */
    method AddExtent(nb: nat, npages: nat, size: nat) returns (ghost b: Block)
      requires KHEAP_BASE <= nb < heapNext <= KHEAP_BASE + KHEAP_SIZE && nb % 4096 == 0
      requires heapNext == nb + npages * PGSIZE
      requires Layout(exts, nb) && Coalesced(Flat(exts)) && Linked(mem, freeList, Flat(exts))
      requires npages * PGSIZE >= size + HEADER && size % 8 == 0
      modifies this`mem, this`freeList, this`exts
      ensures Valid() && |exts| == |old(exts)| + 1
      ensures Flat(exts) == Carve(Block(nb, npages * PGSIZE - HEADER, false), size) + old(Flat(exts))
      ensures b.addr == nb && size <= b.size < size + 40 && nb % 8 == 0
      ensures b in Flat(exts) && b !in Live(old(Flat(exts))) && Live(Flat(exts)) == Live(old(Flat(exts))) + {b}
      ensures PayloadKept(old(mem), mem, Live(old(Flat(exts))))
    {
      hide Layout, Coalesced, Linked, Live, PayloadKept, Flat, Carve, AllApart, ChangedWithin;
      MultipleOfEight(npages, nb);
      PageAligned(nb);
      ghost var bs := Flat(exts);
      ghost var whole := Block(nb, npages * PGSIZE - HEADER, false);
      WriteHeader(nb, npages * PGSIZE - HEADER);
      LinkedCons(old(mem), mem, freeList, bs, exts, nb, whole);
      freeList := nb;
      ReplaceFirst(whole, bs, size);
      label written:
      SplitBlock(nb, size, [whole] + bs, 0);
      ChangedTwice(old(mem), old@written(mem), mem, nb, End(whole));
      KeptBelow(old(mem), mem, exts, nb, End(whole));
      CarveFirst(whole, size);
      b := Carve(whole, size)[0];
      SplitTaken(whole, size);
      exts := ExtentAdded(exts, nb, heapNext, whole, size);
    }

    /** The header of a fresh extent: one taken block in front of the list. */
    method WriteHeader(nb: nat, size: nat)
      modifies this`mem
      ensures HeaderAt(mem, Block(nb, size, false), freeList)
      ensures ChangedWithin(old(mem), mem, nb, nb + HEADER + size)
    {
      mem := mem[nb := size];
      mem := mem[nb + 8 := 0];
      mem := mem[nb + 16 := freeList];
    }

    /** kfree of a live block, bs[i]: marks it free and merges every mergeable pair. */
    method Kfree(ptr: nat, ghost i: nat)
      requires Valid()
      requires ptr != 0 ==> i < |Flat(exts)| && !Flat(exts)[i].free && ptr == Flat(exts)[i].addr + HEADER
      modifies this`mem, this`exts
      ensures Valid() && |exts| == |old(exts)|
      ensures ptr == 0 ==> exts == old(exts) && mem == old(mem)
      ensures ptr != 0 ==>
                && Flat(exts) == FreeAt(old(Flat(exts)), i)
                && Live(Flat(exts)) == Live(old(Flat(exts))) - {old(Flat(exts))[i]}
      ensures PayloadKept(old(mem), mem, Live(Flat(exts)))
    {
      hide Layout, Coalesced, Live, PayloadKept, Flat, Coalesce, AllApart, ChangedWithin;
      NothingWritten(mem, Live(Flat(exts)));
      if ptr == 0 {
        return;
      }
      ghost var bs := Flat(exts);
      LayoutApart(exts, heapNext);
      SetFree(ptr - HEADER, true, bs, i);
      ghost var cs := bs[i := bs[i].(free := true)];
      ghost var freed := FreedLayout(exts, heapNext, i);
      label marked:
      MergeLoop(cs);
      exts := CoalesceKeepsLayout(freed, heapNext);
      CoalesceIsComplete(cs);
      CoalesceKeepsLive(cs);
      FreedLive(bs, i);
      HeaderOnly(old(mem), old@marked(mem), bs, i);
      KeptTwice(old(mem), old@marked(mem), mem, Live(cs));
    }

    /** The merge loop of kfree over the list bs. */
    method MergeLoop(ghost bs: seq<Block>)
      requires Linked(mem, freeList, bs) && AllApart(bs)
      modifies this`mem
      ensures Linked(mem, freeList, Coalesce(bs))
      ensures PayloadKept(old(mem), mem, Live(bs))
    {
      hide *;
      ghost var list, k := bs, 0;
      LoopStart(mem, freeList, bs);
      NothingWritten(mem, Live(bs));
      var cur := freeList;
      while cur != 0
        invariant Linked(mem, freeList, list) && AllApart(list) && k <= |list| && cur == Ptr(list, k)
        invariant MergedSoFar(list, k) == Coalesce(bs)
        invariant Live(list) == Live(bs) && PayloadKept(old(mem), mem, Live(bs))
        decreases |list| - k
      {
        PtrNonzero(list, k);
        SoFarStep(list, k);
        var merge, next := Inspect(cur, list, k);
        if merge {
          label beforeMerge:
          MergeNext(cur, list, k);
          MergeLive(list, k);
          MergedAtK(list, k);
          KeptTwice(old(mem), old@beforeMerge(mem), mem, Live(bs));
          list := MergedAt(list, k);
          continue;
        }
        k := k + 1;
        cur := next;
      }
      LoopEnd(list, k);
    }

    /** The tests of the merge loop at the block at cur, list[k]. */
    method Inspect(cur: nat, ghost list: seq<Block>, ghost k: nat) returns (merge: bool, next: nat)
      requires Linked(mem, freeList, list) && AllApart(list) && k < |list| && list[k].addr == cur
      ensures merge <==> k + 1 < |list| && Mergeable(list[k], list[k + 1])
      ensures next == Ptr(list, k + 1)
    {
      assert NodeAt(mem, list, k);
      ghost var last := k + 1 == |list|;
      assert !last ==> NodeAt(mem, list, k + 1);
      next := At(mem, cur + 16);
      merge := At(mem, cur + 8) != 0 && next != 0 && At(mem, next + 8) != 0 && cur + HEADER + At(mem, cur) == next;
    }

    /** Merging the block at cur, list[k], with its successor. */
    method MergeNext(cur: nat, ghost list: seq<Block>, ghost k: nat)
      requires Linked(mem, freeList, list) && AllApart(list) && k + 1 < |list| && list[k].addr == cur
      requires Mergeable(list[k], list[k + 1])
      modifies this`mem
      ensures Linked(mem, freeList, MergedAt(list, k)) && AllApart(MergedAt(list, k))
      ensures PayloadKept(old(mem), mem, Live(list))
    {
      assert NodeAt(mem, list, k) && NodeAt(mem, list, k + 1);
      var next := At(mem, cur + 16);
      mem := mem[cur := At(mem, cur) + HEADER + At(mem, next)];
      mem := mem[cur + 16 := At(mem, next + 16)];
      HeaderOnlyKept(old(mem), mem, list, k);
      MergedLinked(old(mem), mem, freeList, list, k);
    }
  }

  /** The size kmalloc works with. */
  lemma RoundedRequest(request: nat)
    requires 0 < request < TWO64 && !InBand(request)
    ensures Roundup16(request) % 16 == 0
    ensures request < MAX_REQUEST ==> Roundup16(request) >= request
    ensures request >= MAX_REQUEST ==> Roundup16(request) == 0
  {
    RequestBound(request);
    if request >= TWO64 - 15 {
      assert (request + 15) % TWO64 == request + 15 - TWO64;
    }
  }

  /** No block of the heap is as large as a request whose size arithmetic wraps. */
  lemma BlockSize(exts: seq<Extent>, top: nat, b: Block, request: nat)
    requires Layout(exts, top) && top <= KHEAP_BASE + KHEAP_SIZE && b in Flat(exts) && request >= MAX_REQUEST
    ensures b.size < request
  {
    var i :| 0 <= i < |Flat(exts)| && Flat(exts)[i] == b;
    LayoutBounds(exts, top, i);
  }

  /** Requests from MAX_REQUEST up to 2^64 - 16: no block fits, at most one page is asked for, and a
      header is written for a block that those pages cannot hold. */
  lemma BandRequest(exts: seq<Extent>, top: nat, request: nat)
    requires Layout(exts, top) && top <= KHEAP_BASE + KHEAP_SIZE && InBand(request)
    ensures var size := Roundup16(request);
            var npages := ((size + HEADER) % TWO64 + PGSIZE - 1) % TWO64 / PGSIZE;
            && size >= request && FirstFit(Flat(exts), size) == |Flat(exts)|
            && npages <= 1 && npages * PGSIZE < size + HEADER
  {
    hide Layout, Flat, FirstFit;
    var size, bs := Roundup16(request), Flat(exts);
    BandSizes(request);
    var i := FirstFit(bs, size);
    if i < |bs| {
      assert bs[i] in bs;
      BlockSize(exts, top, bs[i], request);
    }
  }

  lemma BandSizes(request: nat)
    requires InBand(request)
    ensures var size := Roundup16(request);
            var npages := ((size + HEADER) % TWO64 + PGSIZE - 1) % TWO64 / PGSIZE;
            request <= size < TWO64 && npages <= 1 && npages * PGSIZE < size + HEADER
  {
    var size := Roundup16(request);
    assert size == (request + 15) / 16 * 16;
    if size + HEADER < TWO64 {
      RequestBound(request);
      assert (size + HEADER) % TWO64 == size + HEADER;
      assert (size + HEADER + PGSIZE - 1) % TWO64 == size + HEADER + PGSIZE - 1 - TWO64;
    } else {
      assert (size + HEADER) % TWO64 == size + HEADER - TWO64;
    }
  }

  lemma PtrAt(bs: seq<Block>, i: nat)
    requires i < |bs|
    ensures Ptr(bs, i) == bs[i].addr
  {
  }

  lemma CarveFirst(b: Block, size: nat)
    requires b.size >= size
    ensures |Carve(b, size)| > 0 && Carve(b, size)[0].addr == b.addr && size <= Carve(b, size)[0].size < size + 40
  {
  }

  lemma SplitTaken(b: Block, size: nat)
    requires b.size >= size && !b.free
    ensures SplitOf(b, size) == Carve(b, size)
  {
  }

  lemma ReplaceFirst(b: Block, bs: seq<Block>, size: nat)
    requires b.size >= size
    ensures Replace([b] + bs, 0, SplitOf(b, size)) == SplitOf(b, size) + bs
  {
    assert ([b] + bs)[1..] == bs;
  }

  lemma ChangedTwice(mem0: WordMap, mem1: WordMap, mem2: WordMap, lo: nat, hi: nat)
    requires ChangedWithin(mem0, mem1, lo, hi) && ChangedWithin(mem1, mem2, lo, hi)
    ensures ChangedWithin(mem0, mem2, lo, hi)
  {
  }

  /** The list after merging blocks k and k + 1. */
  function MergedAt(list: seq<Block>, k: nat): seq<Block>
    requires k + 1 < |list|
  {
    list[..k] + [Merge(list[k], list[k + 1])] + list[k + 2..]
  }

  /** What the merge loop will leave, standing at block k. */
  function MergedSoFar(list: seq<Block>, k: nat): seq<Block>
    requires k <= |list|
  {
    list[..k] + Coalesce(list[k..])
  }

  lemma SoFarStep(list: seq<Block>, k: nat)
    requires k < |list|
    ensures if k + 1 < |list| && Mergeable(list[k], list[k + 1])
            then k < |MergedAt(list, k)| && MergedSoFar(MergedAt(list, k), k) == MergedSoFar(list, k)
            else MergedSoFar(list, k + 1) == MergedSoFar(list, k)
  {
    hide Coalesce, Mergeable, Merge;
    var x, t := list[k], list[k + 1..];
    assert list[k..] == [x] + t;
    CoalesceCons(x, t);
    if k + 1 < |list| && Mergeable(x, list[k + 1]) {
      var m := Merge(x, list[k + 1]);
      assert t[1..] == list[k + 2..];
      assert MergedAt(list, k)[k..] == [m] + t[1..] && MergedAt(list, k)[..k] == list[..k];
    } else {
      assert list[..k + 1] == list[..k] + [x];
    }
  }

  lemma LoopStart(mem: WordMap, head: nat, bs: seq<Block>)
    requires Linked(mem, head, bs)
    ensures head == Ptr(bs, 0) && MergedSoFar(bs, 0) == Coalesce(bs)
  {
    assert bs[0..] == bs;
  }

  lemma PtrNonzero(list: seq<Block>, k: nat)
    requires k <= |list| && Ptr(list, k) != 0
    ensures k < |list| && Ptr(list, k) == list[k].addr
  {
  }

  lemma MergedAtK(list: seq<Block>, k: nat)
    requires k + 1 < |list|
    ensures |MergedAt(list, k)| == |list| - 1 && Ptr(MergedAt(list, k), k) == list[k].addr
  {
  }

  lemma LoopEnd(list: seq<Block>, k: nat)
    requires AllApart(list) && k <= |list| && Ptr(list, k) == 0
    ensures MergedSoFar(list, k) == list
  {
    assert k == |list|;
  }

  lemma KeptTwice(mem0: WordMap, mem1: WordMap, mem2: WordMap, live: set<Block>)
    requires PayloadKept(mem0, mem1, live) && PayloadKept(mem1, mem2, live)
    ensures PayloadKept(mem0, mem2, live)
  {
  }

  /** A write to the header of one block of the list touches no live payload. */
  lemma HeaderOnlyKept(mem: WordMap, mem': WordMap, list: seq<Block>, k: nat)
    requires AllApart(list) && k < |list| && ChangedWithin(mem, mem', list[k].addr, list[k].addr + HEADER)
    ensures PayloadKept(mem, mem', Live(list))
  {
    forall b, a: nat | b in Live(list) && b.addr + HEADER <= a < End(b) ensures At(mem', a) == At(mem, a) {
      var j :| 0 <= j < |list| && !list[j].free && list[j] == b;
      assert j == k || Disjoint(list[k], list[j]) || Disjoint(list[j], list[k]);
    }
  }

  lemma HeaderOnly(mem: WordMap, mem': WordMap, bs: seq<Block>, i: nat)
    requires AllApart(bs) && i < |bs| && ChangedWithin(mem, mem', bs[i].addr, bs[i].addr + HEADER)
    ensures PayloadKept(mem, mem', Live(bs[i := bs[i].(free := true)]))
  {
    HeaderOnlyKept(mem, mem', bs, i);
    FreedLive(bs, i);
  }

  lemma FreedLive(bs: seq<Block>, i: nat)
    requires AllApart(bs) && i < |bs|
    ensures Live(bs[i := bs[i].(free := true)]) == Live(bs) - {bs[i]}
  {
    var cs := bs[i := bs[i].(free := true)];
    forall j | 0 <= j < |bs| && !bs[j].free && j != i ensures bs[j] in Live(cs) && bs[j] != bs[i] {
      assert cs[j] == bs[j];
      assert Disjoint(bs[if j < i then j else i], bs[if j < i then i else j]);
    }
    forall j | 0 <= j < |cs| && !cs[j].free ensures cs[j] in Live(bs) && cs[j] != bs[i] {
      assert j != i && cs[j] == bs[j];
    }
  }

  lemma FreedLayout(exts: seq<Extent>, top: nat, i: nat) returns (exts': seq<Extent>)
    requires Layout(exts, top) && i < |Flat(exts)|
    ensures var cs := Flat(exts)[i := Flat(exts)[i].(free := true)];
            Layout(exts', top) && Flat(exts') == cs && |exts'| == |exts| && AllApart(cs)
  {
    var b := Flat(exts)[i];
    LayoutBounds(exts, top, i);
    var rep := [b.(free := true)];
    assert Tiles(rep, b.addr, End(b)) by { assert rep[1..] == []; }
    exts' := ReplaceKeepsLayout(exts, top, i, rep);
    assert Replace(Flat(exts), i, rep) == Flat(exts)[i := b.(free := true)];
    LayoutApart(exts', top);
  }

  lemma MergedLinked(mem: WordMap, mem': WordMap, head: nat, list: seq<Block>, k: nat)
    requires Linked(mem, head, list) && AllApart(list) && k + 1 < |list| && Mergeable(list[k], list[k + 1])
    requires HeaderAt(mem', Merge(list[k], list[k + 1]), Ptr(list, k + 2))
    requires ChangedWithin(mem, mem', list[k].addr, list[k].addr + HEADER)
    ensures Linked(mem', head, MergedAt(list, k)) && AllApart(MergedAt(list, k))
  {
    var m := Merge(list[k], list[k + 1]);
    var cs := list[..k] + [m] + list[k + 2..];
    MergedApart(list, k);
    hide HeaderAt, ChangedWithin, At, Merge;
    forall j | 0 <= j < |cs| ensures NodeAt(mem', cs, j) {
      if j < k {
        assert NodeAt(mem, list, j);
        assert cs[j] == list[j] && Ptr(cs, j + 1) == Ptr(list, j + 1);
        HeaderElsewhere(mem, mem', list[k].addr, list[k].addr + HEADER, list[j], Ptr(list, j + 1));
      } else if j == k {
        assert cs[j] == m && Ptr(cs, j + 1) == Ptr(list, k + 2);
      } else {
        assert NodeAt(mem, list, j + 1);
        assert cs[j] == list[j + 1] && Ptr(cs, j + 1) == Ptr(list, j + 2);
        HeaderElsewhere(mem, mem', list[k].addr, list[k].addr + HEADER, list[j + 1], Ptr(list, j + 2));
      }
    }
  }

  lemma MergedApart(list: seq<Block>, k: nat)
    requires AllApart(list) && k + 1 < |list| && Mergeable(list[k], list[k + 1])
    ensures AllApart(MergedAt(list, k))
    ensures Merge(list[k], list[k + 1]).addr == list[k].addr
  {
    var cs := list[..k] + [Merge(list[k], list[k + 1])] + list[k + 2..];
    forall i, j | 0 <= i < j < |cs| ensures Disjoint(cs[i], cs[j]) {
      var i', j' := if i <= k then i else i + 1, if j <= k then j else j + 1;
      assert Disjoint(list[i'], list[j']);
      if i == k { assert Disjoint(list[k + 1], list[j']); }
      if j == k { assert Disjoint(list[i'], list[k + 1]); }
    }
  }

  lemma MergeLive(list: seq<Block>, k: nat)
    requires k + 1 < |list| && Mergeable(list[k], list[k + 1])
    ensures Live(MergedAt(list, k)) == Live(list)
  {
    var m := [Merge(list[k], list[k + 1])];
    LiveAppend(list[..k] + m, list[k + 2..]);
    LiveAppend(list[..k], m);
    LiveAppend(list[..k], list[k..]);
    LiveAppend(list[k..k + 2], list[k + 2..]);
    assert list == list[..k] + list[k..] && list[k..] == list[k..k + 2] + list[k + 2..];
    assert Live(m) == {} && Live(list[k..k + 2]) == {};
  }

  lemma NothingWritten(mem: WordMap, live: set<Block>)
    ensures PayloadKept(mem, mem, live)
  {
  }

  /** The number of pages kmalloc asks for holds a header and the payload. */
  lemma PagesFor(size: nat)
    requires size % 16 == 0
    ensures var npages := (size + HEADER + PGSIZE - 1) / PGSIZE; npages >= 1 && npages * PGSIZE >= size + HEADER
    ensures size % 8 == 0
  {
    assert size == 8 * (2 * (size / 16));
  }

  lemma MultipleOfEight(npages: nat, nb: nat)
    ensures (npages * PGSIZE - HEADER) % 8 == 0 || npages == 0
    ensures nb % 4096 == 0 ==> (nb + npages * PGSIZE) % 4096 == 0
  {
    assert npages * PGSIZE - HEADER == 8 * (npages * 512 - 3);
    if nb % 4096 == 0 {
      assert nb + npages * PGSIZE == 4096 * (nb / 4096 + npages);
    }
  }

  /** The layout between split_block and clearing the free flag. */
  lemma SplitLayout(exts: seq<Extent>, top: nat, i: nat, size: nat) returns (cs: seq<Block>)
    requires Layout(exts, top) && i < |Flat(exts)| && Flat(exts)[i].size >= size && size % 8 == 0
    ensures cs == Replace(Flat(exts), i, SplitOf(Flat(exts)[i], size)) && AllApart(cs)
    ensures i < |cs| && cs[i].addr == Flat(exts)[i].addr
    ensures cs[i := cs[i].(free := false)] == MallocAt(Flat(exts), i, size)
  {
    var b := Flat(exts)[i];
    LayoutBounds(exts, top, i);
    SplitTiles(b, size);
    var exts' := ReplaceKeepsLayout(exts, top, i, SplitOf(b, size));
    cs := Flat(exts');
    LayoutApart(exts', top);
  }

  lemma SplitTiles(b: Block, size: nat)
    requires b.size >= size && size % 8 == 0 && b.size % 8 == 0
    ensures Tiles(SplitOf(b, size), b.addr, End(b))
  {
    CarveTiles(b, size);
    var s, c := SplitOf(b, size), Carve(b, size);
    assert s[1..] == c[1..];
  }

  lemma TakeLayout(exts: seq<Extent>, top: nat, i: nat, size: nat) returns (exts': seq<Extent>)
    requires Layout(exts, top) && i < |Flat(exts)| && Flat(exts)[i].size >= size && size % 8 == 0
    ensures Layout(exts', top) && Flat(exts') == MallocAt(Flat(exts), i, size) && |exts'| == |exts|
  {
    LayoutBounds(exts, top, i);
    CarveTiles(Flat(exts)[i], size);
    exts' := ReplaceKeepsLayout(exts, top, i, Carve(Flat(exts)[i], size));
  }

  lemma MallocLive(bs: seq<Block>, i: nat, size: nat)
    requires AllApart(bs) && i < |bs| && bs[i].free && bs[i].size >= size
    ensures var b := Carve(bs[i], size)[0];
            b !in Live(bs) && b in MallocAt(bs, i, size) && Live(MallocAt(bs, i, size)) == Live(bs) + {b}
  {
    var b, cs, n := Carve(bs[i], size)[0], MallocAt(bs, i, size), |Carve(bs[i], size)|;
    assert cs[i] == b;
    forall j | 0 <= j < |bs| && !bs[j].free ensures bs[j] in Live(cs) && bs[j] != b {
      assert cs[if j < i then j else j - 1 + n] == bs[j];
      assert Disjoint(bs[if j < i then j else i], bs[if j < i then i else j]);
    }
    forall j | 0 <= j < |cs| && !cs[j].free ensures cs[j] in Live(bs) || cs[j] == b {
      if j < i {
        assert cs[j] == bs[j];
      } else if j >= i + n {
        assert cs[j] == bs[j - n + 1];
      } else {
        assert cs[j] == Carve(bs[i], size)[j - i];
      }
    }
  }

  /** A header written above everything else becomes the new head of the list. */
  lemma LinkedCons(mem: WordMap, mem': WordMap, head: nat, bs: seq<Block>, exts: seq<Extent>, nb: nat, whole: Block)
    requires Linked(mem, head, bs) && bs == Flat(exts) && Layout(exts, nb) && nb > 0
    requires whole.addr == nb && HeaderAt(mem', whole, head) && ChangedWithin(mem, mem', nb, End(whole))
    ensures Linked(mem', nb, [whole] + bs) && AllApart([whole] + bs)
  {
    var cs := [whole] + bs;
    LayoutApart(exts, nb);
    hide HeaderAt, ChangedWithin, At;
    forall j | 0 <= j < |cs| ensures NodeAt(mem', cs, j) {
      if j > 0 {
        LayoutBounds(exts, nb, j - 1);
        assert NodeAt(mem, bs, j - 1);
        assert Ptr(cs, j + 1) == Ptr(bs, j);
        HeaderElsewhere(mem, mem', nb, End(whole), bs[j - 1], Ptr(bs, j));
      }
    }
    forall i, j | 0 <= i < j < |cs| ensures Disjoint(cs[i], cs[j]) {
      LayoutBounds(exts, nb, j - 1);
      if i > 0 { assert cs[i] == bs[i - 1] && cs[j] == bs[j - 1]; }
    }
  }

  lemma KeptBelow(mem: WordMap, mem': WordMap, exts: seq<Extent>, nb: nat, hi: nat)
    requires Layout(exts, nb) && ChangedWithin(mem, mem', nb, hi)
    ensures PayloadKept(mem, mem', Live(Flat(exts)))
  {
    forall b, a: nat | b in Live(Flat(exts)) && b.addr + HEADER <= a < End(b) ensures At(mem', a) == At(mem, a) {
      var j :| 0 <= j < |Flat(exts)| && !Flat(exts)[j].free && Flat(exts)[j] == b;
      LayoutBounds(exts, nb, j);
    }
  }

  lemma ExtentAdded(exts: seq<Extent>, nb: nat, top: nat, whole: Block, size: nat) returns (exts': seq<Extent>)
    requires Layout(exts, nb) && Coalesced(Flat(exts)) && KHEAP_BASE <= nb < top && nb % 4096 == 0 && top % 4096 == 0
    requires whole.addr == nb && End(whole) == top && !whole.free
    requires whole.size >= size && size % 8 == 0 && whole.size % 8 == 0
    ensures Layout(exts', top) && Flat(exts') == SplitOf(whole, size) + Flat(exts) && |exts'| == |exts| + 1
    ensures Coalesced(Flat(exts'))
    ensures var b := Carve(whole, size)[0];
            b in Flat(exts') && b !in Live(Flat(exts)) && Live(Flat(exts')) == Live(Flat(exts)) + {b}
  {
    var c, bs := Carve(whole, size), Flat(exts);
    CarveTiles(whole, size);
    assert SplitOf(whole, size) == c;
    exts' := [Extent(nb, top, c)] + exts;
    assert exts'[1..] == exts;
    var cs := c + bs;
    forall j | 0 <= j < |cs| - 1 ensures !Mergeable(cs[j], cs[j + 1]) {
      if j == |c| - 1 {
        LayoutBounds(exts, nb, 0);
        TilesBounds(c, nb, top, j);
      } else if j >= |c| {
        assert !Mergeable(bs[j - |c|], bs[j - |c| + 1]);
      }
    }
    LiveAppend(c, bs);
    assert cs[0] == c[0];
    forall j | 0 <= j < |bs| ensures bs[j] != c[0] { LayoutBounds(exts, nb, j); }
    assert Live(c) == {c[0]} by { assert c[0] in Live(c); }
  }

  lemma LiveAppend(a: seq<Block>, b: seq<Block>)
    ensures Live(a + b) == Live(a) + Live(b)
  {
    var c := a + b;
    forall x | x in Live(a) ensures x in Live(c) {
      var i :| 0 <= i < |a| && !a[i].free && a[i] == x;
      assert c[i] == x;
    }
    forall x | x in Live(b) ensures x in Live(c) {
      var i :| 0 <= i < |b| && !b[i].free && b[i] == x;
      assert c[|a| + i] == x;
    }
  }

  lemma {:induction false} HigherTop(exts: seq<Extent>, top: nat, top': nat)
    requires Layout(exts, top) && top <= top'
    ensures Layout(exts, top')
  {
  }

  /** The blocks of a fresh extent at nb after serving `size` bytes from it. */
  function Grown(nb: nat, size: nat): seq<Block> {
    PagesHold(size);
    Carve(Block(nb, PagesNeeded(size) * PGSIZE - HEADER, false), size)
  }

  lemma PagesHold(size: nat)
    ensures PagesNeeded(size) >= 1 && PagesNeeded(size) * PGSIZE >= size + HEADER
  {
  }

  /** What split_block leaves: the free flag of the first part is untouched. */
  function SplitOf(b: Block, size: nat): seq<Block>
    requires b.size >= size
  {
    if b.size >= size + MIN_SPLIT
    then [Block(b.addr, size, b.free), Block(b.addr + HEADER + size, b.size - size - HEADER, true)]
    else [b]
  }
}

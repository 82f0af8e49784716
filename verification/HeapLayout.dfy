/** The kernel heap's block list as a value (kernel/src/kheap.c): first fit, splitting, and
    coalescing in list order over extents that grow upwards. */
module HeapLayout {
  const HEADER := 24
  const MIN_SPLIT := 40  // header + alignment
  const KHEAP_BASE := 0xffff_9000_0000_0000
  const KHEAP_SIZE := 0x2000_0000

  datatype Block = Block(addr: nat, size: nat, free: bool)

  function End(b: Block): nat { b.addr + HEADER + b.size }

  /** An extent is the memory one successful heap_extend mapped, with the blocks in it. */
  datatype Extent = Extent(lo: nat, hi: nat, blocks: seq<Block>)

  // ----- layout

  /** The blocks cover [lo, hi) exactly, in ascending order. */
  predicate Tiles(bs: seq<Block>, lo: nat, hi: nat)
    decreases |bs|
  {
    if bs == [] then lo == hi
    else bs[0].addr == lo && bs[0].size % 8 == 0 && Tiles(bs[1..], End(bs[0]), hi)
  }

  /** Extents in descending address order below top, inside the heap window, each tiled. */
  predicate Layout(exts: seq<Extent>, top: nat)
    decreases |exts|
  {
    exts == [] ||
    (var e := exts[0];
     && KHEAP_BASE <= e.lo < e.hi <= top && e.lo % 4096 == 0 && e.hi % 4096 == 0
     && Tiles(e.blocks, e.lo, e.hi)
     && Layout(exts[1..], e.lo))
  }

  function Flat(exts: seq<Extent>): seq<Block>
    decreases |exts|
  {
    if exts == [] then [] else exts[0].blocks + Flat(exts[1..])
  }

  predicate Disjoint(b: Block, c: Block) { End(b) <= c.addr || End(c) <= b.addr }

  lemma {:induction false} TilesBounds(bs: seq<Block>, lo: nat, hi: nat, i: nat)
    requires Tiles(bs, lo, hi) && i < |bs|
    ensures lo <= bs[i].addr && End(bs[i]) <= hi && bs[i].size % 8 == 0
    ensures lo % 8 == 0 ==> bs[i].addr % 8 == 0
    decreases |bs|
  {
    TilesNonempty(bs[1..], End(bs[0]), hi);
    if i > 0 {
      TilesBounds(bs[1..], End(bs[0]), hi, i - 1);
      SumOfEights(lo, bs[0].size);
    }
  }

  lemma SumOfEights(lo: nat, size: nat)
    requires size % 8 == 0
    ensures lo % 8 == 0 ==> (lo + HEADER + size) % 8 == 0
  {
  }

  lemma {:induction false} TilesNonempty(bs: seq<Block>, lo: nat, hi: nat)
    requires Tiles(bs, lo, hi)
    ensures lo <= hi
    decreases |bs|
  {
    if bs != [] { TilesNonempty(bs[1..], End(bs[0]), hi); }
  }

  lemma {:induction false} TilesDisjoint(bs: seq<Block>, lo: nat, hi: nat, i: nat, j: nat)
    requires Tiles(bs, lo, hi) && i < j < |bs|
    ensures End(bs[i]) <= bs[j].addr
    decreases |bs|
  {
    if i == 0 {
      TilesBounds(bs[1..], End(bs[0]), hi, j - 1);
    } else {
      TilesDisjoint(bs[1..], End(bs[0]), hi, i - 1, j - 1);
    }
  }

  lemma PageAligned(a: nat)
    requires a % 4096 == 0
    ensures a % 8 == 0
  {
    assert a == 8 * (512 * (a / 4096));
  }

  lemma {:induction false} LayoutBounds(exts: seq<Extent>, top: nat, i: nat)
    requires Layout(exts, top) && i < |Flat(exts)|
    ensures var b := Flat(exts)[i];
            && KHEAP_BASE <= b.addr && End(b) <= top && b.addr % 8 == 0 && b.size % 8 == 0
    decreases |exts|
  {
    var e := exts[0];
    PageAligned(e.lo);
    if i < |e.blocks| {
      TilesBounds(e.blocks, e.lo, e.hi, i);
    } else {
      LayoutBounds(exts[1..], e.lo, i - |e.blocks|);
    }
  }

  /** Distinct blocks never overlap: no payload meets another payload or any header. */
  lemma {:induction false} LayoutDisjoint(exts: seq<Extent>, top: nat, i: nat, j: nat)
    requires Layout(exts, top) && i < j < |Flat(exts)|
    ensures Disjoint(Flat(exts)[i], Flat(exts)[j])
    decreases |exts|
  {
    var e := exts[0];
    var n := |e.blocks|;
    if j < n {
      TilesDisjoint(e.blocks, e.lo, e.hi, i, j);
    } else if i >= n {
      LayoutDisjoint(exts[1..], e.lo, i - n, j - n);
    } else {
      TilesBounds(e.blocks, e.lo, e.hi, i);
      LayoutBounds(exts[1..], e.lo, j - n);
    }
  }

  lemma {:induction false} TilesSplit(bs: seq<Block>, i: nat, lo: nat, hi: nat)
    requires Tiles(bs, lo, hi) && i <= |bs|
    ensures exists mid :: Tiles(bs[..i], lo, mid) && Tiles(bs[i..], mid, hi)
    ensures i < |bs| ==> Tiles(bs[..i], lo, bs[i].addr) && Tiles(bs[i + 1..], End(bs[i]), hi)
    decreases |bs|
  {
    if i == 0 {
      assert Tiles(bs[..0], lo, lo) && bs[0..] == bs;
    } else {
      TilesSplit(bs[1..], i - 1, End(bs[0]), hi);
      assert bs[1..][..i - 1] == bs[..i][1..] && bs[1..][i - 1..] == bs[i..];
      if i < |bs| { assert bs[1..][i..] == bs[i + 1..]; }
    }
  }

  lemma {:induction false} TilesJoin(bs: seq<Block>, cs: seq<Block>, lo: nat, mid: nat, hi: nat)
    requires Tiles(bs, lo, mid) && Tiles(cs, mid, hi)
    ensures Tiles(bs + cs, lo, hi)
    decreases |bs|
  {
    if bs == [] {
      assert bs + cs == cs;
    } else {
      TilesJoin(bs[1..], cs, End(bs[0]), mid, hi);
      assert (bs + cs)[1..] == bs[1..] + cs;
    }
  }

  /** Replacing one block by blocks that tile the same bytes. */
  function Replace(bs: seq<Block>, i: nat, rep: seq<Block>): seq<Block>
    requires i < |bs|
  {
    bs[..i] + rep + bs[i + 1..]
  }

  lemma ReplaceConcat(a: seq<Block>, b: seq<Block>, i: nat, rep: seq<Block>)
    requires i < |a + b|
    ensures Replace(a + b, i, rep) == if i < |a| then Replace(a, i, rep) + b else a + Replace(b, i - |a|, rep)
  {
    if i < |a| {
      assert (a + b)[..i] == a[..i] && (a + b)[i + 1..] == a[i + 1..] + b;
    } else {
      assert (a + b)[..i] == a + b[..i - |a|] && (a + b)[i + 1..] == b[i - |a| + 1..];
    }
  }

  lemma ReplaceInTiles(bs: seq<Block>, lo: nat, hi: nat, i: nat, rep: seq<Block>)
    requires Tiles(bs, lo, hi) && i < |bs| && Tiles(rep, bs[i].addr, End(bs[i]))
    ensures Tiles(Replace(bs, i, rep), lo, hi)
  {
    var b := bs[i];
    TilesSplit(bs, i, lo, hi);
    TilesJoin(bs[..i], rep, lo, b.addr, End(b));
    TilesJoin(bs[..i] + rep, bs[i + 1..], lo, End(b), hi);
  }

  lemma {:induction false} ReplaceKeepsLayout(exts: seq<Extent>, top: nat, i: nat,
                                              rep: seq<Block>) returns (exts': seq<Extent>)
    requires Layout(exts, top) && i < |Flat(exts)|
    requires Tiles(rep, Flat(exts)[i].addr, End(Flat(exts)[i]))
    ensures Layout(exts', top) && Flat(exts') == Replace(Flat(exts), i, rep)
    ensures |exts'| == |exts|
    decreases |exts|
  {
    var e := exts[0];
    var n := |e.blocks|;
    ReplaceConcat(e.blocks, Flat(exts[1..]), i, rep);
    if i < n {
      ReplaceInTiles(e.blocks, e.lo, e.hi, i, rep);
      exts' := [e.(blocks := Replace(e.blocks, i, rep))] + exts[1..];
      assert exts'[1..] == exts[1..];
    } else {
      var rest := ReplaceKeepsLayout(exts[1..], e.lo, i - n, rep);
      exts' := [e] + rest;
      assert exts'[1..] == rest;
    }
  }

  // ----- coalescing

  predicate Mergeable(b: Block, c: Block) { b.free && c.free && End(b) == c.addr }

  function Merge(b: Block, c: Block): Block { Block(b.addr, b.size + HEADER + c.size, b.free) }

  /** The merge loop of kfree, from its current node on. */
  function Coalesce(bs: seq<Block>): (r: seq<Block>)
    ensures |r| <= |bs| && (bs != [] ==> r != [] && r[0].addr == bs[0].addr && r[0].free == bs[0].free)
    decreases |bs|
  {
    if |bs| < 2 then bs
    else if Mergeable(bs[0], bs[1]) then Coalesce([Merge(bs[0], bs[1])] + bs[2..])
    else [bs[0]] + Coalesce(bs[1..])
  }

  /** No two list neighbours could still be merged. */
  predicate Coalesced(bs: seq<Block>) {
    forall i :: 0 <= i < |bs| - 1 ==> !Mergeable(bs[i], bs[i + 1])
  }

  lemma {:induction false} CoalesceIsComplete(bs: seq<Block>)
    ensures Coalesced(Coalesce(bs))
    decreases |bs|
  {
    if |bs| >= 2 {
      if Mergeable(bs[0], bs[1]) {
        CoalesceIsComplete([Merge(bs[0], bs[1])] + bs[2..]);
      } else {
        CoalesceIsComplete(bs[1..]);
        var r := Coalesce(bs[1..]);
        assert r[0].addr == bs[1].addr && r[0].free == bs[1].free;
        assert Coalesce(bs) == [bs[0]] + r;
        forall i | 0 <= i < |r| ensures !Mergeable(([bs[0]] + r)[i], ([bs[0]] + r)[i + 1]) || i + 1 > |r| {
          if i > 0 { assert !Mergeable(r[i - 1], r[i]); }
        }
      }
    }
  }

  lemma {:induction false} CoalescedIsFixed(bs: seq<Block>)
    requires Coalesced(bs)
    ensures Coalesce(bs) == bs
    decreases |bs|
  {
    if |bs| >= 2 {
      assert Coalesced(bs[1..]) by {
        forall i | 0 <= i < |bs[1..]| - 1 ensures !Mergeable(bs[1..][i], bs[1..][i + 1]) {
          assert !Mergeable(bs[i + 1], bs[i + 2]);
        }
      }
      CoalescedIsFixed(bs[1..]);
      assert !Mergeable(bs[0], bs[0 + 1]);
    }
  }

  lemma {:induction false} CoalesceTiles(bs: seq<Block>, lo: nat, hi: nat)
    requires Tiles(bs, lo, hi)
    ensures Tiles(Coalesce(bs), lo, hi)
    decreases |bs|
  {
    if |bs| >= 2 {
      if Mergeable(bs[0], bs[1]) {
        TilesTail(bs, lo, hi);
        CoalesceTiles([Merge(bs[0], bs[1])] + bs[2..], lo, hi);
      } else {
        CoalesceTiles(bs[1..], End(bs[0]), hi);
        assert ([bs[0]] + Coalesce(bs[1..]))[1..] == Coalesce(bs[1..]);
      }
    }
  }

  lemma {:induction false} TilesTail(bs: seq<Block>, lo: nat, hi: nat)
    requires Tiles(bs, lo, hi) && |bs| >= 1
    ensures Tiles(bs[1..], End(bs[0]), hi) && (|bs| == 1 ==> End(bs[0]) == hi)
    ensures |bs| >= 2 ==> bs[1].addr == End(bs[0])
    ensures |bs| >= 2 && Mergeable(bs[0], bs[1]) ==> Tiles([Merge(bs[0], bs[1])] + bs[2..], lo, hi)
  {
    if |bs| >= 2 {
      assert bs[1..][1..] == bs[2..];
      if Mergeable(bs[0], bs[1]) { MergedTiles(bs[0], bs[1], bs[2..], hi); }
    }
  }

  lemma MergedTiles(b: Block, c: Block, rest: seq<Block>, hi: nat)
    requires End(b) == c.addr && b.size % 8 == 0 && c.size % 8 == 0 && Tiles(rest, End(c), hi)
    ensures Tiles([Merge(b, c)] + rest, b.addr, hi)
  {
    var ms := [Merge(b, c)] + rest;
    assert ms[1..] == rest && End(ms[0]) == End(c);
    SumOfEights(b.size, c.size);
  }

  lemma CoalesceCons(x: Block, bs: seq<Block>)
    ensures Coalesce([x] + bs) ==
            if bs != [] && Mergeable(x, bs[0]) then Coalesce([Merge(x, bs[0])] + bs[1..]) else [x] + Coalesce(bs)
    ensures Coalesce([]) == []
  {
    assert ([x] + bs)[1..] == bs && (bs != [] ==> ([x] + bs)[2..] == bs[1..]);
    hide Mergeable, Merge;
  }

  /** Coalescing never crosses from one extent into the next. */
  lemma {:induction false} CoalesceConcat(a: seq<Block>, b: seq<Block>, lo: nat, hi: nat)
    requires Tiles(a, lo, hi) && (b != [] ==> b[0].addr != hi)
    ensures Coalesce(a + b) == Coalesce(a) + Coalesce(b)
    decreases |a|
  {
    hide Coalesce, Tiles, Merge, Mergeable, End;
    if a == [] {
      CoalesceCons(Block(0, 0, false), []);
      assert a + b == b;
    } else {
      TilesTail(a, lo, hi);
      var x, t := a[0], a[1..];
      Unfold(a, b);
      CoalesceCons(x, t);
      CoalesceCons(x, t + b);
      if t == [] {
        LastApart(x, b, hi);
        assert t + b == b;
      } else if Mergeable(x, t[0]) {
        Regroup([Merge(x, t[0])], t[1..], b);
        CoalesceConcat([Merge(x, t[0])] + t[1..], b, lo, hi);
      } else {
        CoalesceConcat(t, b, End(x), hi);
        Regroup([x], Coalesce(t), Coalesce(b));
      }
    }
  }

  lemma Regroup(a: seq<Block>, b: seq<Block>, c: seq<Block>)
    ensures a + (b + c) == (a + b) + c
  {
  }

  lemma Unfold(a: seq<Block>, b: seq<Block>)
    requires a != []
    ensures a == [a[0]] + a[1..] && a + b == [a[0]] + (a[1..] + b)
    ensures |a| >= 2 ==> a[1..][1..] == a[2..] && a[1..][0] == a[1]
    ensures |a| >= 2 ==> (a[1..] + b)[0] == a[1] && (a[1..] + b)[1..] == a[2..] + b
  {
  }

  lemma LastApart(x: Block, b: seq<Block>, hi: nat)
    requires End(x) == hi && (b != [] ==> b[0].addr != hi)
    ensures b != [] ==> !Mergeable(x, b[0])
  {
  }

  lemma {:induction false} CoalesceKeepsLayout(exts: seq<Extent>, top: nat) returns (exts': seq<Extent>)
    requires Layout(exts, top)
    ensures Layout(exts', top) && Flat(exts') == Coalesce(Flat(exts)) && |exts'| == |exts|
    decreases |exts|
  {
    if exts == [] {
      exts' := [];
    } else {
      var e, fs := exts[0], Flat(exts[1..]);
      var rest := CoalesceKeepsLayout(exts[1..], e.lo);
      CoalesceTiles(e.blocks, e.lo, e.hi);
      if fs != [] { LayoutBounds(exts[1..], e.lo, 0); }
      CoalesceConcat(e.blocks, fs, e.lo, e.hi);
      exts' := [e.(blocks := Coalesce(e.blocks))] + rest;
      assert exts'[1..] == rest;
    }
  }

  // ----- live blocks

  ghost function Live(bs: seq<Block>): set<Block> {
    set i | 0 <= i < |bs| && !bs[i].free :: bs[i]
  }

  lemma LiveCons(b: Block, bs: seq<Block>)
    ensures Live([b] + bs) == (if b.free then {} else {b}) + Live(bs)
  {
    var cs := [b] + bs;
    assert forall i :: 0 <= i < |bs| ==> cs[i + 1] == bs[i];
    forall x | x in Live(bs) ensures x in Live(cs) {
      var i :| 0 <= i < |bs| && !bs[i].free && x == bs[i];
      assert cs[i + 1] == x;
    }
    if !b.free { assert cs[0] == b; }
  }

  lemma {:induction false} CoalesceKeepsLive(bs: seq<Block>)
    ensures Live(Coalesce(bs)) == Live(bs)
    decreases |bs|
  {
    if |bs| >= 2 {
      assert bs == [bs[0]] + bs[1..] && bs[1..] == [bs[1]] + bs[2..];
      LiveCons(bs[0], bs[1..]);
      if Mergeable(bs[0], bs[1]) {
        CoalesceKeepsLive([Merge(bs[0], bs[1])] + bs[2..]);
        LiveCons(Merge(bs[0], bs[1]), bs[2..]);
        LiveCons(bs[1], bs[2..]);
      } else {
        CoalesceKeepsLive(bs[1..]);
        LiveCons(bs[0], Coalesce(bs[1..]));
      }
    }
  }

  // ----- kmalloc and kfree on the list

  /** First fit: index of the first free block that is large enough. */
  function FirstFit(bs: seq<Block>, size: nat): (i: nat)
    ensures i <= |bs|
    ensures i < |bs| ==> bs[i].free && bs[i].size >= size
    ensures forall j :: 0 <= j < i ==> !(bs[j].free && bs[j].size >= size)
    decreases |bs|
  {
    if bs == [] then 0
    else if bs[0].free && bs[0].size >= size then 0
    else
      var i := FirstFit(bs[1..], size);
      assert forall j :: 0 < j < |bs| ==> bs[j] == bs[1..][j - 1];
      1 + i
  }

  /** A block handed out, with the remainder split off when it is worth a header. */
  function Carve(b: Block, size: nat): seq<Block>
    requires b.size >= size
  {
    if b.size >= size + MIN_SPLIT
    then [Block(b.addr, size, false), Block(b.addr + HEADER + size, b.size - size - HEADER, true)]
    else [Block(b.addr, b.size, false)]
  }

  /** What is handed out starts where the block did and is at most 39 bytes more than asked for; a
      block larger than that gives the rest back as a free block right behind. */
  lemma CarveOutcome(b: Block, size: nat)
    requires b.size >= size
    ensures var c := Carve(b, size);
            if b.size < size + 40 then c == [Block(b.addr, b.size, false)]
            else c == [Block(b.addr, size, false), Block(b.addr + 24 + size, b.size - size - 24, true)]
  {
  }

  function MallocAt(bs: seq<Block>, i: nat, size: nat): seq<Block>
    requires i < |bs| && bs[i].size >= size
  {
    Replace(bs, i, Carve(bs[i], size))
  }

  function FreeAt(bs: seq<Block>, i: nat): seq<Block>
    requires i < |bs|
  {
    Coalesce(bs[i := bs[i].(free := true)])
  }

  lemma CarveTiles(b: Block, size: nat)
    requires b.size >= size && size % 8 == 0 && b.size % 8 == 0
    ensures Tiles(Carve(b, size), b.addr, End(b))
  {
    if b.size >= size + MIN_SPLIT {
      var rest := Block(b.addr + HEADER + size, b.size - size - HEADER, true);
      assert (b.size - size - HEADER) % 8 == 0;
      assert Tiles([rest], rest.addr, End(b)) by { assert [rest][1..] == []; }
      assert Carve(b, size)[1..] == [rest];
    } else {
      assert Carve(b, size)[1..] == [];
    }
  }

  lemma MallocKeepsCoalesced(bs: seq<Block>, i: nat, size: nat)
    requires Coalesced(bs) && i < |bs| && bs[i].free && bs[i].size >= size
    ensures Coalesced(MallocAt(bs, i, size))
  {
    var cs, k := MallocAt(bs, i, size), |Carve(bs[i], size)|;
    assert |cs| == |bs| - 1 + k;
    forall j | 0 <= j < |cs| - 1 ensures !Mergeable(cs[j], cs[j + 1]) {
      if j + 1 < i {
        assert cs[j] == bs[j] && cs[j + 1] == bs[j + 1];
      } else if j + 1 == i {
        assert cs[j + 1] == Carve(bs[i], size)[0];
      } else if j == i {
        assert cs[j] == Carve(bs[i], size)[0];
      } else if j == i + k - 1 {
        assert cs[j] == Carve(bs[i], size)[k - 1] && cs[j + 1] == bs[i + 1];
        assert !Mergeable(bs[i], bs[i + 1]);
      } else {
        assert cs[j] == bs[j - k + 1] && cs[j + 1] == bs[j - k + 2];
      }
    }
  }

  lemma {:induction false} MergePair(pre: seq<Block>, b: Block, c: Block, post: seq<Block>)
    requires Mergeable(b, c) && Coalesced(pre + [Merge(b, c)] + post)
    ensures Coalesce(pre + [b, c] + post) == pre + [Merge(b, c)] + post
    decreases |pre|
  {
    var m := Merge(b, c);
    var bs, ms := pre + [b, c] + post, pre + [m] + post;
    if pre == [] {
      assert [m] + bs[2..] == ms;
      CoalescedIsFixed(ms);
    } else {
      var rest := pre[1..] + [m] + post;
      assert ms == [pre[0]] + rest && bs[1..] == pre[1..] + [b, c] + post;
      forall i | 0 <= i < |rest| - 1 ensures !Mergeable(rest[i], rest[i + 1]) {
        assert !Mergeable(ms[i + 1], ms[i + 2]);
      }
      MergePair(pre[1..], b, c, post);
      assert !Mergeable(ms[0], ms[0 + 1]);
      assert bs[1].addr == ms[1].addr && bs[1].free == ms[1].free;
    }
  }

  /** A kmalloc served from the list followed by its kfree restores the block list exactly. */
  lemma MallocFreeRoundTrip(bs: seq<Block>, i: nat, size: nat)
    requires Coalesced(bs) && i < |bs| && bs[i].free && bs[i].size >= size
    ensures i < |MallocAt(bs, i, size)| && FreeAt(MallocAt(bs, i, size), i) == bs
  {
    var cs := MallocAt(bs, i, size);
    var ds := cs[i := cs[i].(free := true)];
    var pre, post := bs[..i], bs[i + 1..];
    assert bs == pre + [bs[i]] + post;
    if bs[i].size >= size + MIN_SPLIT {
      var b, c := Block(bs[i].addr, size, true), Carve(bs[i], size)[1];
      assert ds == pre + [b, c] + post;
      assert Merge(b, c) == bs[i];
      MergePair(pre, b, c, post);
    } else {
      assert ds == bs;
      CoalescedIsFixed(bs);
    }
  }

  lemma TilesAllFree(bs: seq<Block>, lo: nat, hi: nat)
    requires Tiles(bs, lo, hi) && lo < hi && Coalesced(bs) && forall i :: 0 <= i < |bs| ==> bs[i].free
    ensures |bs| == 1
  {
  }

  /** When everything is freed, exactly one block per extent remains. */
  lemma {:induction false} AllFreeIsOneBlockPerExtent(exts: seq<Extent>, top: nat)
    requires Layout(exts, top) && Coalesced(Flat(exts)) && forall i :: 0 <= i < |Flat(exts)| ==> Flat(exts)[i].free
    ensures |Flat(exts)| == |exts|
    decreases |exts|
  {
    if exts != [] {
      var e, fs := exts[0], Flat(exts);
      var n := |e.blocks|;
      forall i | 0 <= i < n ensures e.blocks[i].free { assert fs[i] == e.blocks[i]; }
      forall i | 0 <= i < n - 1 ensures !Mergeable(e.blocks[i], e.blocks[i + 1]) {
        assert fs[i] == e.blocks[i] && fs[i + 1] == e.blocks[i + 1];
      }
      TilesAllFree(e.blocks, e.lo, e.hi);
      var gs := Flat(exts[1..]);
      forall i | 0 <= i < |gs| ensures gs[i].free { assert fs[n + i] == gs[i]; }
      forall i | 0 <= i < |gs| - 1 ensures !Mergeable(gs[i], gs[i + 1]) {
        assert fs[n + i] == gs[i] && fs[n + i + 1] == gs[i + 1];
      }
      AllFreeIsOneBlockPerExtent(exts[1..], e.lo);
    }
  }
}

/** Page-table entries and virtual addresses: the bit loops of kernel/src/paging.c.

    Addresses and entries are words.  A virtual page is named by its 36-bit number `Vpn`;
    the four table indices are its base-512 digits. */
module PageTableEntries {
  import opened Words

  const KERNEL_PML4_START := 256
  const PAGES := 0x10_0000_0000       // pages in a 48-bit address space
  const USER_PAGES: nat := 0x8_0000_0000   // pages whose PML4 index is below KERNEL_PML4_START
  const MAX_FRAMES := 0x100_0000_0000 // frames addressable by bits 12..51
  const TABLE_FLAGS := 7              // present | writable | user-accessible

  // ----- entries

  function Present(pte: nat): bool { pte % 2 == 1 }
  function Writable(pte: nat): bool { pte / 2 % 2 == 1 }
  function UserAccessible(pte: nat): bool { pte / 4 % 2 == 1 }

  /** Number of the frame an entry points to. */
  function FrameOf(pte: nat): (f: nat)
    ensures f < MAX_FRAMES
  {
    pte / 4096 % MAX_FRAMES
  }

  /** Physical address an entry points to: bits 12..51. */
  function AddrOf(pte: nat): nat { FrameOf(pte) * 4096 }

  lemma AddrFrame(pte: nat)
    ensures AddrOf(pte) / 4096 == FrameOf(pte)
  {
  }

  function MakePte(phys: Word, flags: Word): (pte: Word)
    ensures Present(pte) == Present(flags)
  {
    OrWord(flags, phys);
    Or(flags, AddrOf(phys))
  }

  lemma OrWord(flags: Word, phys: Word)
    ensures Or(flags, AddrOf(phys)) < TWO64
    ensures Present(Or(flags, AddrOf(phys))) == Present(flags)
  {
    hide Or;
    Pow64();
    OrBound(flags, AddrOf(phys), 64);
    OrEven(flags, FrameOf(phys) * 2048);
  }

  lemma OrEven(a: nat, b: nat)
    ensures Or(a, 2 * b) % 2 == a % 2
  {
    hide Or;
    OrDouble(a / 2, a % 2, b, 0);
  }

  lemma OrFields(hi: nat, lo: nat, m: nat)
    requires lo < 4096 && m < MAX_FRAMES
    ensures Or(hi * MAX_FRAMES * 4096 + lo, m * 4096) == (hi * MAX_FRAMES + m) * 4096 + lo
  {
    var h := hi * MAX_FRAMES;
    assert Or(h, m) == h + m by {
      UpMax(hi);
      OrIsPlus(hi, m, 40);
    }
    Up12(h);
    Up12(m);
    Up12(h + m);
    OrSplit(h, lo, m, 0, 12);
  }

  lemma Up12(v: nat)
    ensures Up(v, 12) == v * 4096 && Pow2(12) == 4096
  {
    UpIsMul(v, 12);
  }

  lemma UpMax(v: nat)
    ensures Up(v, 40) == v * MAX_FRAMES && Pow2(40) == MAX_FRAMES
  {
    Pow2Values();
    UpIsMul(v, 40);
  }

  /** Flags that stay out of the address field are kept, and the frame is the one given. */
  lemma MakePteFields(phys: Word, flags: Word)
    requires FrameOf(flags) == 0
    ensures MakePte(phys, flags) == flags + AddrOf(phys)
    ensures FrameOf(MakePte(phys, flags)) == FrameOf(phys)
  {
    var hi, lo := FlagParts(flags);
    OrFields(hi, lo, FrameOf(phys));
    FieldsApart(hi, lo, FrameOf(phys));
  }

  /** Flags without a frame are bits above the address field and bits below it. */
  lemma FlagParts(flags: nat) returns (hi: nat, lo: nat)
    requires FrameOf(flags) == 0
    ensures lo < 4096 && flags == hi * MAX_FRAMES * 4096 + lo
  {
    var q := flags / 4096;
    hi, lo := q / MAX_FRAMES, flags % 4096;
    assert q == hi * MAX_FRAMES;
  }

  lemma FieldsApart(hi: nat, lo: nat, m: nat)
    requires lo < 4096 && m < MAX_FRAMES
    ensures (hi * MAX_FRAMES + m) * 4096 + lo == (hi * MAX_FRAMES * 4096 + lo) + m * 4096
    ensures FrameOf((hi * MAX_FRAMES + m) * 4096 + lo) == m
  {
    var h := hi * MAX_FRAMES + m;
    assert (h * 4096 + lo) / 4096 == h;
    assert h % MAX_FRAMES == m;
  }

  /** An entry made from a frame number and twelve flag bits. */
  lemma SmallFlags(g: nat, flags: nat)
    requires g < MAX_FRAMES && flags < 4096
    ensures MakePte(g * 4096, flags) == g * 4096 + flags
    ensures FrameOf(g * 4096 + flags) == g && Present(g * 4096 + flags) == Present(flags)
  {
    assert (g * 4096 + flags) / 4096 == g;
    assert FrameOf(g * 4096) == g && FrameOf(flags) == 0;
    MakePteFields(g * 4096, flags);
  }

  lemma Halve(a: nat, f: nat)
    ensures (2 * a + f) / 2 == a + f / 2 && (2 * a + f) % 2 == f % 2
  {
  }

  lemma LowFlags(o: nat)
    ensures Present(o % 4096) == Present(o) && Writable(o % 4096) == Writable(o)
    ensures UserAccessible(o % 4096) == UserAccessible(o)
  {
    var q, f := o / 4096, o % 4096;
    Halve(2048 * q, f);
    Halve(1024 * q, f / 2);
    Halve(512 * q, f / 4);
    assert o == 2 * (2048 * q) + f;
    assert o / 2 == 2 * (1024 * q) + f / 2 && o / 4 == o / 2 / 2 && f / 4 == f / 2 / 2;
  }

  /** Sum of the bits lo..hi-1 of v, each at its own weight. */
  ghost function Field(v: nat, lo: nat, hi: nat): (r: nat)
    ensures r < Pow2(hi)
    decreases hi, v
  {
    if hi <= lo then 0 else Field(v, lo, hi - 1) + (if Bit(v, hi - 1) then Pow2(hi - 1) else 0)
  }

  lemma {:induction false} UpStep(x: nat, b: nat, k: nat)
    requires b < 2
    ensures Up(2 * x + b, k) == Up(x, k + 1) + (if b == 1 then Pow2(k) else 0)
  {
    if k > 0 { UpStep(x, b, k - 1); }
  }

  lemma {:induction false} FieldSpan(v: nat, lo: nat, hi: nat)
    requires lo <= hi
    ensures Field(v, lo, hi) + Up(Shr(v, hi), hi) == Up(Shr(v, lo), lo)
    decreases hi
  {
    if lo < hi {
      FieldSpan(v, lo, hi - 1);
      UpStep(Shr(v, hi), Shr(v, hi - 1) % 2, hi - 1);
    }
  }

  lemma {:induction false} ShrSum(v: nat, j: nat, k: nat)
    ensures Shr(v, j + k) == Shr(Shr(v, j), k)
  {
    if k > 0 { ShrSum(v, j, k - 1); }
  }

  lemma {:induction false} UpSum(v: nat, j: nat, k: nat)
    ensures Up(v, j + k) == Up(Up(v, j), k)
  {
    if k > 0 { UpSum(v, j, k - 1); }
  }

  lemma AddrIsField(pte: nat)
    ensures AddrOf(pte) == Field(pte, 12, 52)
  {
    var q := pte / 4096;
    Shr12(pte);
    ShrMax(q);
    ShrSum(pte, 12, 40);
    UpSum(q / MAX_FRAMES, 40, 12);
    UpMax(q / MAX_FRAMES);
    Up12(q);
    Up12(q / MAX_FRAMES * MAX_FRAMES);
    FieldSpan(pte, 12, 52);
  }

  lemma Shr12(v: nat)
    ensures Shr(v, 12) == v / 4096
  {
    ShrIsDiv(v, 12);
  }

  lemma ShrMax(v: nat)
    ensures Shr(v, 40) == v / MAX_FRAMES
  {
    Pow2Values();
    ShrIsDiv(v, 40);
  }

  lemma OrNextBit(a: nat, k: nat)
    requires a < Pow2(k)
    ensures Or(a, Pow2(k)) == a + Pow2(k)
  {
    UpIsMul(1, k);
    OrIsPlus(1, a, k);
    OrCommutative(a, Pow2(k));
  }

  method PteGetAddr(pte: Word) returns (addr: nat)
    ensures addr == AddrOf(pte)
  {
    addr := 0;
    for pos := 12 to 52
      invariant addr == Field(pte, 12, pos)
    {
      ShlOne(pos);
      AndPow2(pte, pos);
      if And(Shl(1, pos), pte) != 0 {
        OrNextBit(addr, pos);
        addr := Or(addr, Shl(1, pos));
      }
    }
    AddrIsField(pte);
  }

  lemma OrNextField(flags: nat, phys: nat, pos: nat)
    requires pos >= 12
    ensures Or(flags, Field(phys, 12, pos + 1)) ==
            if Bit(phys, pos) then Or(Or(flags, Field(phys, 12, pos)), Pow2(pos)) else Or(flags, Field(phys, 12, pos))
  {
    OrNextBit(Field(phys, 12, pos), pos);
    OrAssociative(flags, Field(phys, 12, pos), Pow2(pos));
    hide Or, Bit;
  }

  method PteMake(phys: Word, flags: Word) returns (entry: Word)
    ensures entry == MakePte(phys, flags)
  {
    var e: nat := flags;
    assert Or(flags, Field(phys, 12, 12)) == flags;
    hide Or, Field, Bit, And, Shl, Pow2;
    for pos := 12 to 52
      invariant e == Or(flags, Field(phys, 12, pos))
    {
      BitTest(phys, pos);
      OrNextField(flags, phys, pos);
      if And(Shl(1, pos), phys) != 0 {
        e := Or(e, Shl(1, pos));
      }
    }
    AddrIsField(phys);
    OrWord(flags, phys);
    entry := e;
  }

  // ----- virtual addresses

  /** Bits 12..47 of an address: the page the four tables translate. */
  function Vpn(va: nat): (n: nat)
    ensures n < PAGES
  {
    va / 4096 % PAGES
  }

  /** Bits 48..63 all equal bit 47. */
  predicate Canonical(va: Word) {
    va < 0x8000_0000_0000 || va >= TWO64 - 0x8000_0000_0000
  }

  lemma {:induction false} HighBits(v: nat, k: nat)
    requires 47 <= k <= 64 && v < TWO64
    ensures v < 0x8000_0000_0000 ==> Shr(v, k) == 0
    ensures v >= TWO64 - 0x8000_0000_0000 ==> Shr(v, k) == Pow2(64 - k) - 1
    decreases k
  {
    if k == 47 {
      Pow2Values();
      ShrIsDiv(v, 47);
      assert Pow2(17) == 2 * 2 * 2 * 2 * 2 * Pow2(12);
    } else {
      HighBits(v, k - 1);
    }
  }

  lemma {:induction false} ConstantField(v: nat, hi: nat)
    requires 47 <= hi
    ensures (forall k :: 47 <= k < hi ==> !Bit(v, k)) ==> Field(v, 47, hi) == 0
    ensures (forall k :: 47 <= k < hi ==> Bit(v, k)) ==> Field(v, 47, hi) == Pow2(hi) - Pow2(47)
  {
    if hi > 47 { ConstantField(v, hi - 1); }
  }

  lemma EqualBitsAreCanonical(va: Word)
    requires forall k :: 47 <= k < 64 ==> Bit(va, k) == Bit(va, 47)
    ensures Canonical(va)
  {
    Pow2Values();
    ConstantField(va, 64);
    FieldSpan(va, 47, 64);
    ShrIsDiv(va, 64);
    ShrIsDiv(va, 47);
    UpZero(64);
    UpIsMul(va / 0x8000_0000_0000, 47);
  }

  lemma CanonicalBits(va: Word, k: nat)
    requires Canonical(va) && 47 <= k < 64
    ensures Bit(va, k) == (va >= 0x8000_0000_0000)
  {
    HighBits(va, k);
    assert Pow2(64 - k) == 2 * Pow2(63 - k);
  }

  /** `v & (1 << k)` tests bit k. */
  lemma BitTest(v: nat, k: nat)
    requires k < 64
    ensures And(Shl(1, k), v) != 0 <==> Bit(v, k)
    ensures And(v, Shl(1, k)) != 0 <==> Bit(v, k)
    ensures Shl(1, k) == Pow2(k)
  {
    ShlOne(k);
    AndPow2(v, k);
    AndCommutes(v, Pow2(k));
  }

  method IsCanonical(va: Word) returns (ok: bool)
    ensures ok == Canonical(va)
  {
    hide Canonical, And, Shl, Bit;
    BitTest(va, 47);
    var first := if And(va, Shl(1, 47)) != 0 then 1 else 0;
    for pos := 47 to 64
      invariant forall k :: 47 <= k < pos ==> Bit(va, k) == Bit(va, 47)
    {
      BitTest(va, pos);
      var this_bit := if And(va, Shl(1, pos)) != 0 then 1 else 0;
      if this_bit != first {
        if Canonical(va) {
          CanonicalBits(va, pos);
          CanonicalBits(va, 47);
        }
        return false;
      }
    }
    EqualBitsAreCanonical(va);
    return true;
  }

  lemma AndCommutes(a: nat, b: nat)
    ensures And(a, b) == And(b, a)
    decreases a + b
  {
  }

  /** `index` holds the bits top..pos of va. */
  ghost predicate Collected(va: nat, top: nat, pos: nat, index: nat)
    requires pos <= top + 1
  {
    && index + Up(Shr(va, top + 1), top + 1 - pos) == Shr(va, pos)
    && index < Pow2(top + 1 - pos)
  }

  lemma CollectOne(va: nat, top: nat, pos: nat, index: nat)
    requires pos <= top && Collected(va, top, pos + 1, index)
    ensures Collected(va, top, pos, 2 * index + (if Bit(va, pos) then 1 else 0))
  {
    assert Up(Shr(va, top + 1), top + 1 - pos) == 2 * Up(Shr(va, top + 1), top - pos);
    assert Shr(va, pos + 1) == Shr(va, pos) / 2;
  }

  /** `index << 1`, and the same with the low bit set. */
  lemma ShiftInBit(index: nat)
    ensures Up(index, 1) == 2 * index && Or(Up(index, 1), 1) == 2 * index + 1
  {
    assert Up(index, 1) == 2 * Up(index, 0);
    OrIsPlus(index, 1, 1);
  }

  /** The nine bits top-8..top of an address, read from the high end: pml4_index is top 47,
      pdpt_index 38, pd_index 29, pt_index 20. */
  method IndexBits(va: Word, top: nat) returns (index: nat)
    requires 8 <= top < 63
    ensures index == Shr(va, top - 8) % 512
  {
    index := 0;
    var pos := top;
    while true
      invariant top - 8 <= pos <= top && Collected(va, top, pos + 1, index)
      decreases pos
    {
      BitTest(va, pos);
      ShiftInBit(index);
      CollectOne(va, top, pos, index);
      index := Up(index, 1);
      if And(Shl(1, pos), va) != 0 {
        index := Or(index, 1);
      }
      if pos == top - 8 {
        break;
      }
      pos := pos - 1;
    }
    NineBits(va, top, index);
  }

  lemma NineBits(va: nat, top: nat, index: nat)
    requires top >= 8 && Collected(va, top, top - 8, index)
    ensures index == Shr(va, top - 8) % 512
  {
    assert Pow2(9) == 512;
    UpIsMul(Shr(va, top + 1), 9);
    Mod512(Shr(va, top - 8), Shr(va, top + 1), index);
  }

  lemma Mod512(x: nat, h: nat, i: nat)
    requires x == 512 * h + i && i < 512
    ensures x % 512 == i
  {
  }

  function Index4(n: nat): nat { n / 512 / 512 / 512 }
  function Index3(n: nat): nat { n / 512 / 512 % 512 }
  function Index2(n: nat): nat { n / 512 % 512 }
  function Index1(n: nat): nat { n % 512 }

  lemma Shr9(v: nat)
    ensures Shr(v, 9) == v / 512
  {
    ShrIsDiv(v, 9);
  }

  method Indices(va: Word) returns (i4: nat, i3: nat, i2: nat, i1: nat)
    ensures i4 == Index4(Vpn(va)) && i3 == Index3(Vpn(va))
    ensures i2 == Index2(Vpn(va)) && i1 == Index1(Vpn(va))
    ensures i4 < 512
  {
    i4 := IndexBits(va, 47);
    i3 := IndexBits(va, 38);
    i2 := IndexBits(va, 29);
    i1 := IndexBits(va, 20);
    IndexShifts(va);
  }

  lemma IndexShifts(va: Word)
    ensures Shr(va, 39) % 512 == Index4(Vpn(va)) && Shr(va, 30) % 512 == Index3(Vpn(va))
    ensures Shr(va, 21) % 512 == Index2(Vpn(va)) && Shr(va, 12) % 512 == Index1(Vpn(va))
  {
    var q := va / 4096;
    Shr12(va);
    ShrSum(va, 12, 9);
    ShrSum(va, 21, 9);
    ShrSum(va, 30, 9);
    Shr9(q);
    Shr9(q / 512);
    Shr9(q / 512 / 512);
    Digits(q);
  }

  /** Dropping the bits above the page number does not change its four digits. */
  lemma Digits(q: nat)
    ensures q / 512 / 512 / 512 % 512 == Index4(q % PAGES)
    ensures q / 512 / 512 % 512 == Index3(q % PAGES)
    ensures q / 512 % 512 == Index2(q % PAGES)
    ensures q % 512 == Index1(q % PAGES)
  {
    var n, t := q % PAGES, q / PAGES;
    assert q == t * PAGES + n;
    assert q / 512 == t * 0x800_0000 + n / 512;
    assert q / 512 / 512 == t * 0x4_0000 + n / 512 / 512;
    assert q / 512 / 512 / 512 == t * 512 + n / 512 / 512 / 512;
  }

  /** Page with the given four indices. */
  function PageAt(i4: nat, i3: nat, i2: nat, i1: nat): nat {
    ((i4 * 512 + i3) * 512 + i2) * 512 + i1
  }

  /** Running a loop counter to the end is a carry into the next one. */
  lemma PageAtCarry(i4: nat, i3: nat, i2: nat)
    ensures PageAt(i4, i3, i2, 512) == PageAt(i4, i3, i2 + 1, 0)
    ensures PageAt(i4, i3, 512, 0) == PageAt(i4, i3 + 1, 0, 0)
    ensures PageAt(i4, 512, 0, 0) == PageAt(i4 + 1, 0, 0, 0)
  {
    var a := i4 * 512 + i3;
    assert (a * 512 + i2) * 512 + 512 == (a * 512 + (i2 + 1)) * 512;
    assert a * 512 + 512 == (i4 * 512 + (i3 + 1)) * 512;
    assert i4 * 512 + 512 == (i4 + 1) * 512;
  }

  lemma PageAtUserEnd()
    ensures PageAt(KERNEL_PML4_START, 0, 0, 0) == USER_PAGES
  {
  }

  /** The address the fork copy reassembles from its loop counters is the one whose four index
      loops give those counters back. */
  lemma ReassemblyInvertsIndices(i4: nat, i3: nat, i2: nat, i1: nat)
    requires i4 < 512 && i3 < 512 && i2 < 512 && i1 < 512
    ensures var va := Or(Or(Or(Shl(i4, 39), Shl(i3, 30)), Shl(i2, 21)), Shl(i1, 12));
            && va == PageAt(i4, i3, i2, i1) * 4096 < TWO64
            && Vpn(va) == PageAt(i4, i3, i2, i1)
            && Index4(Vpn(va)) == i4 && Index3(Vpn(va)) == i3
            && Index2(Vpn(va)) == i2 && Index1(Vpn(va)) == i1
  {
    hide Or, Up, Shl, Index4, Index3, Index2, Index1, Vpn;
    Shifts(i4, i3, i2, i1);
    var a := i4 * 512 + i3;
    var b := a * 512 + i2;
    var n := b * 512 + i1;
    OrShifted(i4, i3, 30);
    OrShifted(a, i2, 21);
    OrShifted(b, i1, 12);
    Up12(n);
    assert Or(Or(Or(Shl(i4, 39), Shl(i3, 30)), Shl(i2, 21)), Shl(i1, 12)) == n * 4096;
    IndicesOfPageAt(i4, i3, i2, i1);
  }

  lemma IndicesOfPageAt(i4: nat, i3: nat, i2: nat, i1: nat)
    requires i4 < 512 && i3 < 512 && i2 < 512 && i1 < 512
    ensures var n := PageAt(i4, i3, i2, i1);
            && n < PAGES && Vpn(n * 4096) == n
            && Index4(n) == i4 && Index3(n) == i3 && Index2(n) == i2 && Index1(n) == i1
  {
    var b := i4 * 512 + i3;
    var c := b * 512 + i2;
    var n := c * 512 + i1;
    assert n / 512 == c && n % 512 == i1;
    assert c / 512 == b && c % 512 == i2;
    assert b / 512 == i4 && b % 512 == i3;
  }

  lemma Shifts(i4: nat, i3: nat, i2: nat, i1: nat)
    requires i4 < 512 && i3 < 512 && i2 < 512 && i1 < 512
    ensures Shl(i4, 39) == Up(i4, 39) && Shl(i3, 30) == Up(i3, 30)
    ensures Shl(i2, 21) == Up(i2, 21) && Shl(i1, 12) == Up(i1, 12)
  {
    hide Up, Pow2;
    Pow2Values();
    UpIsMul(i4, 39);
    UpIsMul(i3, 30);
    UpIsMul(i2, 21);
    UpIsMul(i1, 12);
  }

  /** Or-ing a nine-bit digit below a number appends the digit. */
  lemma OrShifted(a: nat, d: nat, k: nat)
    requires d < 512
    ensures Or(Up(a, k + 9), Up(d, k)) == Up(a * 512 + d, k)
  {
    UpSum(a, 9, k);
    UpIsMul(a, 9);
    assert Pow2(9) == 512;
    OrIsPlus(a, d, 9);
    UpZero(k);
    OrSplit(a * 512, 0, d, 0, k);
  }

  lemma PageAtIndices(n: nat)
    requires n < PAGES
    ensures Index4(n) < 512 && PageAt(Index4(n), Index3(n), Index2(n), Index1(n)) == n
  {
    var c := n / 512;
    var b := c / 512;
    assert n == c * 512 + n % 512 && c == b * 512 + c % 512 && b == b / 512 * 512 + b % 512;
  }
}

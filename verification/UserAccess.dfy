/** Checking a user buffer before the kernel touches it (kernel/src/uaccess.c). */
module UserAccess {
  import opened Words
  import opened PageTableEntries
  import opened PhysicalMemory
  import opened PageTables

  const USER_TOP := 0x8000_0000_0000  // first address above the user half

  /** Entry pte lets user code read, and write when asked. */
  predicate Allows(pte: nat, write: bool) {
    Present(pte) && UserAccessible(pte) && (write ==> Writable(pte))
  }

  predicate ByteOk(m: Memory, root: nat, x: nat, write: bool) {
    x < USER_TOP && Allows(PteOf(m, root, Vpn(x)), write)
  }

  /** Every byte of the range is an accessible user byte. */
  ghost predicate RangeOk(m: Memory, root: nat, uva: nat, len: nat, write: bool) {
    forall x: nat {:trigger ByteOk(m, root, x, write)} :: uva <= x < uva + len ==> ByteOk(m, root, x, write)
  }

  lemma SamePageBytes(va: nat, x: nat)
    requires va % 4096 == 0 && va <= x < va + 4096
    ensures Vpn(x) == Vpn(va)
  {
    assert x / 4096 == va / 4096;
  }

  lemma UserHalfAddress(va: Word)
    ensures Canonical(va) && Index4(Vpn(va)) < KERNEL_PML4_START <==> va < USER_TOP
  {
    var q := va / 4096;
    var n := q % PAGES;
    if va < USER_TOP {
      assert q < 0x8_0000_0000 && n == q;
      assert n / 512 < 0x400_0000 && n / 512 / 512 < 0x2_0000 && n / 512 / 512 / 512 < 256;
    } else if Canonical(va) {
      HighHalf(va);
    }
  }

  lemma HighHalf(va: Word)
    requires va >= TWO64 - USER_TOP
    ensures Index4(Vpn(va)) >= KERNEL_PML4_START
  {
    var q := va / 4096;
    assert 0xF_FFF8_0000_0000 <= q < 0x10_0000_0000_0000;
    var n := q % PAGES;
    assert q == q / PAGES * PAGES + n;
    assert q / PAGES == 0xFFFF;
    assert n >= 0x8_0000_0000;
    assert n / 512 >= 0x400_0000 && n / 512 / 512 >= 0x2_0000 && n / 512 / 512 / 512 >= 256;
  }

  /** Whether an endpoint passes the shape and zone tests. */
  method InUserHalf(va: Word) returns (ok: bool)
    ensures ok <==> va < USER_TOP
  {
    UserHalfAddress(va);
    ok := IsCanonical(va);
    if ok {
      var i := IndexBits(va, 47);
      IndexShifts(va);
      ok := i < KERNEL_PML4_START;
    }
  }

  lemma PageBytes(m: Memory, root: nat, va: nat, write: bool)
    requires va % 4096 == 0
    ensures forall x: nat {:trigger ByteOk(m, root, x, write)} :: va <= x < va + 4096 && x < USER_TOP ==>
              (ByteOk(m, root, x, write) <==> Allows(PteOf(m, root, Vpn(va)), write))
  {
    forall x: nat | va <= x < va + 4096 ensures Vpn(x) == Vpn(va) {
      SamePageBytes(va, x);
    }
  }

  lemma Rounding(v: nat)
    ensures Rounddown(v) % 4096 == 0 && Rounddown(v) <= v < Rounddown(v) + 4096
  {
  }

  /** The loop over the pages a range touches. */
  method CheckPages(m: Memory, root: nat, uva: nat, last: nat, needWrite: bool) returns (ok: bool)
    requires uva <= last < USER_TOP
    ensures ok <==> RangeOk(m, root, uva, last + 1 - uva, needWrite)
  {
    hide PteOf, Allows, Vpn, ByteOk, Rounddown;
    Rounding(uva);
    Rounding(last);
    var va := Rounddown(uva);
    var stop := Rounddown(last) + 4096;
    while va < stop
      invariant va % 4096 == 0 && stop % 4096 == 0 && Rounddown(uva) <= va <= stop
      invariant forall x: nat {:trigger ByteOk(m, root, x, needWrite)} :: uva <= x <= last && x < va ==>
                  ByteOk(m, root, x, needWrite)
    {
      PageBytes(m, root, va, needWrite);
      var pte := PteOf(m, root, Vpn(va));
      if !Allows(pte, needWrite) {
        var x := if uva < va then va else uva;
        assert !ByteOk(m, root, x, needWrite);
        return false;
      }
      va := va + 4096;
    }
    return true;
  }

  /** The range check is exact, although only the endpoints are tested for zone. */
  method UvaCheckRange(m: Memory, root: nat, uva: Word, len: Word, needWrite: bool) returns (ok: bool)
    ensures ok <==> len == 0 || (uva + len < TWO64 && RangeOk(m, root, uva, len, needWrite))
  {
    if len == 0 {
      return true;
    }
    var end := (uva + len) % TWO64;
    if end < uva {
      return false;
    }
    var last := end - 1;
    var lo := InUserHalf(uva);
    var hi := InUserHalf(last);
    if !lo || !hi {
      assert !ByteOk(m, root, uva, needWrite) || !ByteOk(m, root, last, needWrite);
      return false;
    }
    ok := CheckPages(m, root, uva, last, needWrite);
  }

  /** A valid buffer has valid prefixes. */
  lemma RangePrefix(m: Memory, root: nat, uva: nat, len: nat, shorter: nat, write: bool)
    requires RangeOk(m, root, uva, len, write) && shorter <= len
    ensures RangeOk(m, root, uva, shorter, write)
  {
  }

  /** A valid buffer stays valid while the user mappings of its space only grow. */
  lemma RangeStaysOk(m: Memory, m': Memory, root: nat, uva: nat, len: nat, write: bool)
    requires RangeOk(m, root, uva, len, write)
    requires forall n: nat {:trigger PteOf(m', root, n)} :: n < USER_PAGES && Present(PteOf(m, root, n)) ==>
               PteOf(m', root, n) == PteOf(m, root, n)
    ensures RangeOk(m', root, uva, len, write)
  {
    forall x: nat | uva <= x < uva + len ensures ByteOk(m', root, x, write) {
      assert ByteOk(m, root, x, write);
      assert Vpn(x) < USER_PAGES;
    }
  }
}

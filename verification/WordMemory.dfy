/** Memory seen as 8-byte words at 8-aligned addresses, as the kernel's own data structures and
    stacks use it; words never written read as zero. */
module WordMemory {
  type WordMap = map<nat, nat>

  function At(mem: WordMap, a: nat): nat { if a in mem then mem[a] else 0 }

  /** Memory is the same outside [lo, hi). */
  ghost predicate ChangedWithin(mem: WordMap, mem': WordMap, lo: nat, hi: nat) {
    forall a: nat {:trigger At(mem', a)} :: !(lo <= a < hi) ==> At(mem', a) == At(mem, a)
  }
}

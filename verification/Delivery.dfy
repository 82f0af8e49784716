/** Message delivery in memory: the copy loops of sys_send and sys_recv (kernel/src/syscall.c),
    which move bytes between two address spaces through a kernel buffer. */
module Delivery {
  import opened PageTableEntries
  import opened PhysicalMemory
  import opened PageTables
  import opened ForkCopy
  import opened UserAccess
  import opened UserMemory
  import opened Tasks

  /** Virtual address x of space r is a mapped user byte. */
  predicate Readable(m: Memory, r: nat, x: nat) {
    x < USER_TOP && Mapped(m, r, Vpn(x)) && LeafFrame(m, r, Vpn(x)) < |m|
  }

  function ByteAt(m: Memory, r: nat, x: nat): Byte
    requires Readable(m, r, x)
  {
    m[LeafFrame(m, r, Vpn(x))][x % 4096]
  }

  function PutByte(m: Memory, r: nat, x: nat, b: Byte): (m': Memory)
    requires Readable(m, r, x)
    ensures |m'| == |m|
  {
    var f := LeafFrame(m, r, Vpn(x));
    m[f := m[f][x % 4096 := b]]
  }

  ghost predicate AllReadable(m: Memory, r: nat, x: nat, n: nat) {
    forall y: nat {:trigger Readable(m, r, y)} :: x <= y < x + n ==> Readable(m, r, y)
  }

  function GetBytes(m: Memory, r: nat, x: nat, n: nat): (bs: seq<Byte>)
    requires AllReadable(m, r, x, n)
    ensures |bs| == n && forall i: nat {:trigger bs[i]} :: i < n ==>
              Readable(m, r, x + i) && bs[i] == ByteAt(m, r, x + i)
  {
    if n == 0 then []
    else
      assert Readable(m, r, x + (n - 1));
      GetBytes(m, r, x, n - 1) + [ByteAt(m, r, x + (n - 1))]
  }

  lemma SameOffset(x: nat, y: nat)
    requires x < USER_TOP && y < USER_TOP && Vpn(x) == Vpn(y) && x % 4096 == y % 4096
    ensures x == y
  {
    assert x / 4096 < PAGES && y / 4096 < PAGES;
  }

  lemma UserVpn(x: nat)
    requires x < USER_TOP
    ensures Vpn(x) < USER_PAGES
  {
  }

  /** Every mapped user byte of every space is m's, except those that `new` redefines. */
  ghost predicate BytesAre(m: Memory, m': Memory, roots: set<nat>, r: nat, x: nat, bs: seq<Byte>) {
    forall r2, y: nat {:trigger Readable(m', r2, y)} :: r2 in roots && Readable(m, r2, y) ==>
      && Readable(m', r2, y)
      && ByteAt(m', r2, y) == if r2 == r && x <= y < x + |bs| then bs[y - x] else ByteAt(m, r2, y)
  }

  lemma PutByteEffect(s: Phys, roots: set<nat>, slots: set<nat>, r: nat, x: nat, b: Byte)
    requires Private(s, roots, slots) && r in roots && Readable(s.mem, r, x)
    ensures var s' := Phys(PutByte(s.mem, r, x, b), s.free);
            && Private(s', roots, slots) && SamePtes(s.mem, s'.mem, roots, slots)
            && BytesAre(s.mem, s'.mem, roots, r, x, [b])
  {
    hide Private, UserView, PteOf, FrameOf, Present, Separated;
    var f := LeafFrame(s.mem, r, Vpn(x));
    var c := s.mem[f][x % 4096 := b];
    PageWrite(s, roots, slots, r, Vpn(x), c);
    var s' := Phys(s.mem[f := c], s.free);
    forall r2, y: nat | r2 in roots && Readable(s.mem, r2, y)
      ensures Readable(s'.mem, r2, y)
      ensures ByteAt(s'.mem, r2, y) == if r2 == r && x <= y < x + 1 then [b][y - x] else ByteAt(s.mem, r2, y)
    {
      UserVpn(y);
      PrivateSlots(s, roots, slots);
      SamePte(s.mem, s'.mem, roots, slots, r2, Vpn(y));
      PrivateLeaves(s, roots, slots, r, Vpn(x), r2, Vpn(y));
      if r2 == r && Vpn(y) == Vpn(x) && y % 4096 == x % 4096 { SameOffset(x, y); }
    }
  }

  lemma PrivateLeaves(s: Phys, roots: set<nat>, slots: set<nat>, r: nat, n: nat, r2: nat, k: nat)
    requires Private(s, roots, slots) && r in roots && r2 in roots && Mapped(s.mem, r, n) && Mapped(s.mem, r2, k)
    ensures LeafFrame(s.mem, r, n) == LeafFrame(s.mem, r2, k) ==> r == r2 && n == k
  {
  }

  /** Byte after byte; a byte that is not mapped would fault and is left out. */
  function PutBytes(m: Memory, r: nat, x: nat, bs: seq<Byte>): (m': Memory)
    ensures |m'| == |m|
    decreases |bs|
  {
    if bs == [] then m
    else
      var m1 := PutBytes(m, r, x, bs[..|bs| - 1]);
      if Readable(m1, r, x + |bs| - 1) then PutByte(m1, r, x + |bs| - 1, bs[|bs| - 1]) else m1
  }

  lemma {:induction false} PutBytesEffect(s: Phys, roots: set<nat>, slots: set<nat>, r: nat, x: nat, bs: seq<Byte>)
    requires Private(s, roots, slots) && r in roots && AllReadable(s.mem, r, x, |bs|)
    ensures var s' := Phys(PutBytes(s.mem, r, x, bs), s.free);
            && Private(s', roots, slots) && SamePtes(s.mem, s'.mem, roots, slots)
            && BytesAre(s.mem, s'.mem, roots, r, x, bs)
    decreases |bs|
  {
    hide Private, ByteAt, PutByte, Readable, SamePtes;
    if bs == [] {
      SamePtesRefl(s.mem, roots, slots);
    } else {
      var k := |bs| - 1;
      var cs := bs[..k];
      PutBytesEffect(s, roots, slots, r, x, cs);
      var s1 := Phys(PutBytes(s.mem, r, x, cs), s.free);
      assert Readable(s.mem, r, x + k);
      assert Readable(s1.mem, r, x + k);
      PutByteEffect(s1, roots, slots, r, x + k, bs[k]);
      var s' := Phys(PutBytes(s.mem, r, x, bs), s.free);
      SamePtesTrans(s.mem, s1.mem, s'.mem, roots, slots);
      forall r2, y: nat | r2 in roots && Readable(s.mem, r2, y)
        ensures Readable(s'.mem, r2, y)
        ensures ByteAt(s'.mem, r2, y) == if r2 == r && x <= y < x + |bs| then bs[y - x] else ByteAt(s.mem, r2, y)
      {
        assert Readable(s1.mem, r2, y);
      }
    }
  }

  lemma SamePtesTrans(m: Memory, m1: Memory, m2: Memory, roots: set<nat>, slots: set<nat>)
    requires SamePtes(m, m1, roots, slots) && SamePtes(m1, m2, roots, slots)
    ensures SamePtes(m, m2, roots, slots)
  {
    hide PteOf;
    forall r, n | r in roots && TrackedPage(slots, n) ensures PteOf(m2, r, n) == PteOf(m, r, n) {
      assert PteOf(m1, r, n) == PteOf(m, r, n);
    }
  }

  /** The bytes at src in space `from` are read first, then written at dst in space `to`. */
  function Deliver(m: Memory, from: nat, src: nat, to: nat, dst: nat, count: nat): (m': Memory)
    requires AllReadable(m, from, src, count)
    ensures |m'| == |m|
  {
    PutBytes(m, to, dst, GetBytes(m, from, src, count))
  }

  /** A buffer the range check passed is readable throughout. */
  lemma CheckedIsReadable(s: Phys, roots: set<nat>, slots: set<nat>, r: nat, x: nat, n: nat, write: bool)
    requires Private(s, roots, slots) && r in roots && RangeOk(s.mem, r, x, n, write)
    ensures AllReadable(s.mem, r, x, n)
  {
    hide PteOf, Separated;
    assert LeavesHeld(s, r);
    forall y: nat | x <= y < x + n ensures Readable(s.mem, r, y) {
      assert ByteOk(s.mem, r, y, write);
      UserVpn(y);
    }
  }

  /** From memory m to memory m', the bytes at dst in space `to` have become those that were at
      src in space `from`, and no other user byte of any space has changed. */
  ghost predicate BytesMoved(m: Memory, m': Memory, roots: set<nat>, from: nat, src: nat, to: nat, dst: nat,
                             count: nat) {
    forall r, y: nat {:trigger Readable(m', r, y)} :: r in roots && Readable(m, r, y) ==>
      && Readable(m', r, y)
      && (if r == to && dst <= y < dst + count
          then Readable(m, from, src + (y - dst)) && ByteAt(m', r, y) == ByteAt(m, from, src + (y - dst))
          else ByteAt(m', r, y) == ByteAt(m, r, y))
  }

  /** A transfer writes exactly the sender's bytes, and changes no other user byte of any space. */
  lemma DeliveryExact(s: Phys, roots: set<nat>, slots: set<nat>, from: nat, src: nat, to: nat, dst: nat, count: nat)
    requires Private(s, roots, slots) && from in roots && to in roots
    requires RangeOk(s.mem, from, src, count, false) && RangeOk(s.mem, to, dst, count, true)
    ensures AllReadable(s.mem, from, src, count)
    ensures var m' := Deliver(s.mem, from, src, to, dst, count);
            && Private(Phys(m', s.free), roots, slots) && SamePtes(s.mem, m', roots, slots)
            && BytesMoved(s.mem, m', roots, from, src, to, dst, count)
  {
    hide Private, ByteAt, PutBytes, Readable, SamePtes, RangeOk;
    CheckedIsReadable(s, roots, slots, from, src, count, false);
    CheckedIsReadable(s, roots, slots, to, dst, count, true);
    var bs := GetBytes(s.mem, from, src, count);
    PutBytesEffect(s, roots, slots, to, dst, bs);
    var m' := Deliver(s.mem, from, src, to, dst, count);
    forall r, y: nat | r in roots && Readable(s.mem, r, y)
      ensures Readable(m', r, y)
      ensures if r == to && dst <= y < dst + count
              then Readable(s.mem, from, src + (y - dst)) && ByteAt(m', r, y) == ByteAt(s.mem, from, src + (y - dst))
              else ByteAt(m', r, y) == ByteAt(s.mem, r, y)
    {
      if r == to && dst <= y < dst + count {
        assert bs[y - dst] == bs[y - dst];
      }
    }
  }

  /** Task i runs in space spaces[i], and its view is the translation of that space. */
  ghost predicate ViewsMatch(s: Phys, k: Kernel, spaces: seq<nat>, roots: set<nat>) {
    && |spaces| == |k.tasks|
    && forall i :: 0 <= i < |spaces| && k.tasks[i].state != Unused ==>
         spaces[i] in roots && ViewMatches(s.mem, spaces[i], k.tasks[i].view)
  }

  /** Both ends of a completed transfer were validated for the bytes it moves. */
  ghost predicate EndsChecked(s: Phys, spaces: seq<nat>, t: Transfer) {
    && t.sender < |spaces| && t.receiver < |spaces|
    && RangeOk(s.mem, spaces[t.sender], t.src, t.count, false)
    && RangeOk(s.mem, spaces[t.receiver], t.dst, t.count, true)
  }

  lemma BufferIsRange(s: Phys, root: nat, view: View, uva: nat, len: nat, write: bool)
    requires BufferOk(view, uva, len, write) && ViewMatches(s.mem, root, view)
    ensures RangeOk(s.mem, root, uva, len, write)
  {
    ViewRange(s.mem, root, view, uva, len, write);
  }

  /** A send that completes moves min(256, its length, the receiver's length) bytes, from a
      buffer and to a buffer that are both valid in their own address space. */
  lemma SendDelivers(s: Phys, k: Kernel, spaces: seq<nat>, roots: set<nat>, target: nat, buf: nat, len: nat)
    requires Inv(k) && ViewsMatch(s, k, spaces, roots) && Send(k, target, buf, len).1.Delivered?
    ensures var t := Send(k, target, buf, len).1.message;
            && EndsChecked(s, spaces, t) && t.sender == k.current.value && t.receiver == target && t.src == buf
            && spaces[t.sender] in roots && spaces[t.receiver] in roots
            && t.count == Min(256, Min(len, k.tasks[target].len))
  {
    hide BufferOk, RangeOk, ViewMatches, NoMissedRendezvous, NoLostWakeup, BuffersOk, Find;
    FindIsSlot(k, target);
    var t := Send(k, target, buf, len).1.message;
    var c := k.tasks[t.sender];
    BufferPrefix(c.view, buf, Min(len, MAX_MESSAGE), t.count, false);
    BufferIsRange(s, spaces[t.sender], c.view, buf, t.count, false);
    BufferIsRange(s, spaces[t.receiver], k.tasks[t.receiver].view, t.dst, t.count, true);
  }

  lemma RecvDelivers(s: Phys, k: Kernel, spaces: seq<nat>, roots: set<nat>, from: nat, buf: nat, len: nat)
    requires Inv(k) && ViewsMatch(s, k, spaces, roots) && Recv(k, from, buf, len).1.Delivered?
    ensures var t := Recv(k, from, buf, len).1.message;
            && EndsChecked(s, spaces, t) && t.receiver == k.current.value && t.dst == buf
            && spaces[t.sender] in roots && spaces[t.receiver] in roots
            && t.count == Min(256, Min(len, k.tasks[t.sender].len))
  {
    hide BufferOk, RangeOk, ViewMatches, NoMissedRendezvous, NoLostWakeup, BuffersOk, FindSender;
    var t := Recv(k, from, buf, len).1.message;
    var c := k.tasks[t.receiver];
    BufferPrefix(c.view, buf, Min(len, MAX_MESSAGE), t.count, true);
    BufferIsRange(s, spaces[t.receiver], c.view, buf, t.count, true);
    BufferIsRange(s, spaces[t.sender], k.tasks[t.sender].view, t.src, t.count, false);
  }

  /** Memory and the address space currently loaded. */
  class Copier {
    var mem: Memory
    var space: nat

    constructor (m: Memory, root: nat)
      ensures mem == m && space == root
    {
      mem := m;
      space := root;
    }

    method ReadInto(tmp: array<Byte>, src: nat, count: nat)
      requires count <= tmp.Length && AllReadable(mem, space, src, count)
      modifies tmp
      ensures tmp[..count] == GetBytes(mem, space, src, count)
    {
      hide Readable, ByteAt;
      for i := 0 to count
        invariant forall j: nat {:trigger tmp[j]} :: j < i ==>
                    Readable(mem, space, src + j) && tmp[j] == ByteAt(mem, space, src + j)
      {
        assert Readable(mem, space, src + i);
        tmp[i] := ByteAt(mem, space, src + i);
      }
      var bs := GetBytes(mem, space, src, count);
      assert forall j :: 0 <= j < count ==> tmp[..count][j] == bs[j];
    }

    method WriteFrom(tmp: array<Byte>, dst: nat, count: nat)
      requires count <= tmp.Length && AllReadable(mem, space, dst, count)
      modifies this`mem
      ensures mem == PutBytes(old(mem), space, dst, tmp[..count])
    {
      for i := 0 to count
        invariant mem == PutBytes(old(mem), space, dst, tmp[..i])
      {
        assert tmp[..i + 1][..i] == tmp[..i];
        if Readable(mem, space, dst + i) {
          mem := PutByte(mem, space, dst + i, tmp[i]);
        }
      }
    }

    /** The copy of sys_send: the caller is the sender. */
    method CopyToTarget(target: nat, src: nat, dst: nat, count: nat)
      requires count <= 256 && AllReadable(mem, space, src, count) && AllReadable(mem, target, dst, count)
      modifies this
      ensures mem == Deliver(old(mem), old(space), src, target, dst, count) && space == old(space)
    {
      var tmp := new Byte[256];
      ReadInto(tmp, src, count);
      var sender := space;
      space := target;
      WriteFrom(tmp, dst, count);
      space := sender;
    }

    /** The copy of sys_recv: the caller is the receiver. */
    method CopyFromSender(sender: nat, src: nat, dst: nat, count: nat)
      requires count <= 256 && AllReadable(mem, sender, src, count) && AllReadable(mem, space, dst, count)
      modifies this
      ensures mem == Deliver(old(mem), sender, src, old(space), dst, count) && space == old(space)
    {
      var receiver := space;
      space := sender;
      var tmp := new Byte[256];
      ReadInto(tmp, src, count);
      space := receiver;
      WriteFrom(tmp, dst, count);
    }
  }
}

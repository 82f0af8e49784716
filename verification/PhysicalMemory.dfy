/** Physical memory as frames of 4096 bytes, with page-table entries stored in it as
    little-endian words.  Page tables and page contents live in the same memory. */
module PhysicalMemory {
  import opened Words

  type Byte = b: nat | b < 256
  type Frame = f: seq<Byte> | |f| == 4096 witness seq(4096, _ => 0)
  type Memory = seq<Frame>

  function LeNat(s: seq<Byte>): nat {
    if s == [] then 0 else s[0] + 256 * LeNat(s[1..])
  }

  function LeBytes(w: nat, k: nat): (s: seq<Byte>)
    ensures |s| == k
    decreases k, w
  {
    if k == 0 then [] else [w % 256] + LeBytes(w / 256, k - 1)
  }

  lemma {:induction false} LeRoundTrip(w: nat, k: nat)
    requires w < Pow2(8 * k)
    ensures LeNat(LeBytes(w, k)) == w
    decreases k
  {
    if k > 0 {
      assert Pow2(8 * k) == 256 * Pow2(8 * (k - 1)) by { Pow2Byte(8 * (k - 1)); }
      LeRoundTrip(w / 256, k - 1);
      assert LeBytes(w, k)[1..] == LeBytes(w / 256, k - 1);
    }
  }

  lemma Pow2Byte(k: nat)
    ensures Pow2(k + 8) == 256 * Pow2(k)
  {
    assert Pow2(k + 8) == 2 * Pow2(k + 7) == 4 * Pow2(k + 6);
    assert Pow2(k + 6) == 2 * Pow2(k + 5) == 4 * Pow2(k + 4);
    assert Pow2(k + 4) == 2 * Pow2(k + 3) == 4 * Pow2(k + 2);
    assert Pow2(k + 2) == 2 * Pow2(k + 1) == 4 * Pow2(k);
  }

  lemma {:induction false} LeBound(s: seq<Byte>)
    ensures LeNat(s) < Pow2(8 * |s|)
  {
    if s != [] {
      LeBound(s[1..]);
      Pow2Byte(8 * |s[1..]|);
    }
  }

  lemma {:induction false} LeZero(s: seq<Byte>)
    requires forall k :: 0 <= k < |s| ==> s[k] == 0
    ensures LeNat(s) == 0
  {
    if s != [] { LeZero(s[1..]); }
  }

  function ZeroFrame(): Frame { seq(4096, _ => 0) }

  /** Entry i of the page table held in frame f. */
  function Ent(m: Memory, f: nat, i: nat): Word
    requires f < |m| && i < 512
  {
    var s := m[f][8 * i..8 * i + 8];
    LeBound(s);
    Pow2Values();
    LeNat(s)
  }

  function PutEnt(m: Memory, f: nat, i: nat, w: Word): (m': Memory)
    requires f < |m| && i < 512
    ensures |m'| == |m|
  {
    m[f := m[f][..8 * i] + LeBytes(w, 8) + m[f][8 * i + 8..]]
  }

  /** Storing an entry is seen there and nowhere else. */
  lemma EntPut(m: Memory, f: nat, i: nat, w: Word, g: nat, j: nat)
    requires f < |m| && i < 512 && g < |m| && j < 512
    ensures Ent(PutEnt(m, f, i, w), g, j) == if f == g && i == j then w else Ent(m, g, j)
  {
    var m' := PutEnt(m, f, i, w);
    var s := m'[g][8 * j..8 * j + 8];
    if f == g && i == j {
      assert s == LeBytes(w, 8);
      Pow2Values();
      LeRoundTrip(w, 8);
    } else {
      assert s == m[g][8 * j..8 * j + 8];
    }
  }

  lemma EntZero(m: Memory, g: nat, j: nat)
    requires g < |m| && j < 512 && m[g] == ZeroFrame()
    ensures Ent(m, g, j) == 0
  {
    LeZero(m[g][8 * j..8 * j + 8]);
  }

  lemma EntFrame(m: Memory, m': Memory, f: nat, j: nat)
    requires f < |m| && f < |m'| && j < 512 && m[f] == m'[f]
    ensures Ent(m, f, j) == Ent(m', f, j)
  {
  }
}

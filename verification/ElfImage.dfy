/** Program images and what loading them means (kernel/src/elf.c; PT_LOAD segments of chapter 5 of
    the System V gABI). */
module ElfImage {
  import opened PageTableEntries
  import opened PhysicalMemory
  import UserAccess

  const PT_LOAD: nat := 1
  const ELF_MAGIC: nat := 0x464C_457F
  const ELF_CLASS_64: nat := 2

  /** A program header; an image with its file header decoded.  `file` is the memory from the
      image's first byte on, as far as any segment reaches: elf_load does not know its end. */
  datatype Segment = Segment(kind: nat, vaddr: nat, offset: nat, filesz: nat, memsz: nat)
  datatype Image = Image(magic: nat, class_: nat, entry: nat, segments: seq<Segment>, file: seq<Byte>)

  predicate SegmentOk(file: seq<Byte>, seg: Segment) {
    seg.offset + seg.filesz <= |file| && seg.vaddr + seg.memsz <= UserAccess.USER_TOP
  }

  predicate BothLoadable(a: Segment, b: Segment) { a.kind == PT_LOAD && b.kind == PT_LOAD }

  predicate Disjoint(a: Segment, b: Segment) {
    a.vaddr + a.memsz <= b.vaddr || b.vaddr + b.memsz <= a.vaddr
  }

  predicate SegmentsOk(img: Image) {
    forall i :: 0 <= i < |img.segments| && img.segments[i].kind == PT_LOAD ==> SegmentOk(img.file, img.segments[i])
  }

  /** Loadable segments lie in the user half, have no more file than memory, and do not overlap;
      they may share pages. */
  predicate WellFormed(img: Image) {
    && SegmentsOk(img)
    && (forall i :: 0 <= i < |img.segments| && img.segments[i].kind == PT_LOAD ==>
          img.segments[i].filesz <= img.segments[i].memsz)
    && forall i, j :: 0 <= i < j < |img.segments| && BothLoadable(img.segments[i], img.segments[j]) ==>
         Disjoint(img.segments[i], img.segments[j])
  }

  // ----- pages of a segment

  function FirstPage(seg: Segment): nat { seg.vaddr / 4096 }
  function EndPage(seg: Segment): nat { (seg.vaddr + seg.memsz + 4095) / 4096 }

  predicate Touches(seg: Segment, n: nat) { seg.kind == PT_LOAD && FirstPage(seg) <= n < EndPage(seg) }

  /** A loadable segment takes the pages it has a byte in (and, when it is empty and starts inside a
      page, that page). */
  lemma TouchesIff(seg: Segment, n: nat)
    ensures Touches(seg, n) <==> seg.kind == 1 && n * 4096 < seg.vaddr + seg.memsz && seg.vaddr < n * 4096 + 4096
  {
    var a, e := seg.vaddr, seg.vaddr + seg.memsz;
    assert a / 4096 <= n <==> a < n * 4096 + 4096;
    assert n < (e + 4095) / 4096 <==> n * 4096 < e;
  }

  lemma PagesInUserHalf(file: seq<Byte>, seg: Segment)
    requires SegmentOk(file, seg)
    ensures FirstPage(seg) <= EndPage(seg) <= USER_PAGES
  {
  }

  /** Address x holds a byte that comes from the file; file bytes past the last page are not
      loaded. */
  predicate InFile(seg: Segment, x: nat) {
    seg.kind == PT_LOAD && seg.vaddr <= x < seg.vaddr + seg.filesz && x < EndPage(seg) * 4096
  }

  lemma FileBytesTouch(file: seq<Byte>, seg: Segment, n: nat, j: nat)
    requires SegmentOk(file, seg) && j < 4096 && InFile(seg, n * 4096 + j)
    ensures Touches(seg, n)
  {
  }

  function FileByte(file: seq<Byte>, seg: Segment, x: nat): Byte
    requires SegmentOk(file, seg) && InFile(seg, x)
  {
    file[seg.offset + (x - seg.vaddr)]
  }

  // ----- the image in memory

  /** The byte at x once the first i program headers are loaded. */
  function ByteOf(img: Image, i: nat, x: nat): Byte
    requires SegmentsOk(img) && i <= |img.segments|
  {
    if i == 0 then 0
    else if InFile(img.segments[i - 1], x) then FileByte(img.file, img.segments[i - 1], x)
    else ByteOf(img, i - 1, x)
  }

  /** Address x lies in segment seg: in the part the file fills, or in the part after it. */
  predicate InFilePart(seg: Segment, x: nat) {
    seg.kind == PT_LOAD && seg.vaddr <= x < seg.vaddr + seg.filesz
  }

  predicate InZeroPart(seg: Segment, x: nat) {
    seg.kind == PT_LOAD && seg.vaddr + seg.filesz <= x < seg.vaddr + seg.memsz
  }

  lemma FilePartLoaded(seg: Segment, x: nat)
    requires seg.filesz <= seg.memsz
    ensures InFilePart(seg, x) <==> InFile(seg, x)
  {
  }

  /** Loader meaning: a segment's byte is its file byte up to filesz, zero from there to memsz, and
      every byte outside all segments is zero. */
  lemma {:induction false} LoadedBytes(img: Image, i: nat, x: nat)
    requires WellFormed(img) && i <= |img.segments|
    ensures forall k: nat {:trigger img.segments[k]} :: k < i && InFilePart(img.segments[k], x) ==>
              ByteOf(img, i, x) == img.file[img.segments[k].offset + (x - img.segments[k].vaddr)]
    ensures forall k: nat {:trigger img.segments[k]} :: k < i && InZeroPart(img.segments[k], x) ==>
              ByteOf(img, i, x) == 0
    ensures (forall k: nat {:trigger img.segments[k]} :: k < i ==> !InFilePart(img.segments[k], x)) ==>
              ByteOf(img, i, x) == 0
  {
    hide InFile;
    if i > 0 {
      LoadedBytes(img, i - 1, x);
      var last := img.segments[i - 1];
      if last.kind == PT_LOAD { FilePartLoaded(last, x); } else { NotLoadable(last, x); }
      forall k: nat | k < i - 1 && img.segments[k].kind == PT_LOAD && last.kind == PT_LOAD
        ensures Disjoint(img.segments[k], last)
      {
      }
    }
  }

  lemma NotLoadable(seg: Segment, x: nat)
    requires seg.kind != PT_LOAD
    ensures !InFile(seg, x)
  {
  }

  /** One page of the image. */
  function PageOf(img: Image, i: nat, n: nat): (f: Frame)
    requires SegmentsOk(img) && i <= |img.segments|
    ensures forall j :: 0 <= j < 4096 ==> f[j] == ByteOf(img, i, n * 4096 + j)
  {
    var f := seq(4096, j requires 0 <= j < 4096 => ByteOf(img, i, n * 4096 + j) as int);
    assert forall j :: 0 <= j < 4096 ==> f[j] == ByteOf(img, i, n * 4096 + j);
    f
  }

  function OverlayByte(c: Frame, file: seq<Byte>, seg: Segment, n: nat, j: nat): Byte
    requires SegmentOk(file, seg) && j < 4096
  {
    if InFile(seg, n * 4096 + j) then FileByte(file, seg, n * 4096 + j) else c[j]
  }

  /** A page with the segment's file bytes copied over it. */
  function Overlay(c: Frame, file: seq<Byte>, seg: Segment, n: nat): (f: Frame)
    requires SegmentOk(file, seg)
    ensures forall j :: 0 <= j < 4096 ==> f[j] == OverlayByte(c, file, seg, n, j)
  {
    var f := seq(4096, j requires 0 <= j < 4096 => OverlayByte(c, file, seg, n, j) as int);
    assert forall j :: 0 <= j < 4096 ==> f[j] == OverlayByte(c, file, seg, n, j);
    f
  }

  lemma OverlayNext(img: Image, i: nat, n: nat)
    requires SegmentsOk(img) && i < |img.segments| && img.segments[i].kind == PT_LOAD
    ensures Overlay(PageOf(img, i, n), img.file, img.segments[i], n) == PageOf(img, i + 1, n)
  {
  }

  lemma UntouchedNext(img: Image, i: nat, n: nat)
    requires SegmentsOk(img) && i < |img.segments| && !Touches(img.segments[i], n)
    ensures PageOf(img, i + 1, n) == PageOf(img, i, n)
  {
    var seg := img.segments[i];
    forall j | 0 <= j < 4096 ensures PageOf(img, i + 1, n)[j] == PageOf(img, i, n)[j] {
      if seg.kind == PT_LOAD && InFile(seg, n * 4096 + j) { FileBytesTouch(img.file, seg, n, j); }
    }
  }

  /** A page no header touches is still all zero. */
  lemma {:induction false} UntouchedZero(img: Image, i: nat, n: nat)
    requires SegmentsOk(img) && i <= |img.segments|
    requires forall k: nat {:trigger img.segments[k]} :: k < i ==> !Touches(img.segments[k], n)
    ensures PageOf(img, i, n) == ZeroFrame()
  {
    if i > 0 {
      UntouchedZero(img, i - 1, n);
      UntouchedNext(img, i - 1, n);
    }
  }

  // ----- copying into a page

  function Memcpy(c: Frame, at: nat, bytes: seq<Byte>): (f: Frame)
    requires at + |bytes| <= 4096
  {
    c[..at] + bytes + c[at + |bytes|..]
  }

  /** The part of the file that elf_load copies into page n. */
  function CopyLo(seg: Segment, n: nat): nat { if seg.vaddr > n * 4096 then seg.vaddr else n * 4096 }
  function CopyHi(seg: Segment, n: nat): nat {
    if seg.vaddr + seg.filesz < n * 4096 + 4096 then seg.vaddr + seg.filesz else n * 4096 + 4096
  }

  lemma MemcpyIsOverlay(c: Frame, file: seq<Byte>, seg: Segment, n: nat)
    requires SegmentOk(file, seg) && Touches(seg, n)
    ensures var lo, hi := CopyLo(seg, n), CopyHi(seg, n);
            if lo < hi then
              var src := seg.offset + (lo - seg.vaddr);
              && src + (hi - lo) <= |file| && lo - n * 4096 + (hi - lo) <= 4096
              && Memcpy(c, lo - n * 4096, file[src..src + (hi - lo)]) == Overlay(c, file, seg, n)
            else Overlay(c, file, seg, n) == c
  {
  }
}

/** Physical page frames (kernel/src/page_alloc.c): the free list threaded through the PageInfo
    table. */
module Frames {
  import opened LinkedLists
  import opened PageTables

  /** The PageInfo table and the head of the free list; frame f is entry f. */
  datatype Table = Table(link: seq<int>, refs: seq<nat>, head: int)

  predicate Sized(s: Table) { |s.link| == |s.refs| && (s.head == NULL || 0 <= s.head < |s.link|) }

  function Alloc(s: Table): (Table, Option<nat>)
    requires Sized(s)
  {
    if s.head == NULL then (s, None)
    else (Table(s.link[s.head := NULL], s.refs, s.link[s.head]), Some(s.head))
  }

  function Free(s: Table, f: nat): Table
    requires Sized(s) && f < |s.link|
  {
    if s.refs[f] != 0 || s.link[f] != NULL then s
    else Table(s.link[f := s.head], s.refs, f)
  }

  /** The list holds xs; the frames in `held` are out, unlinked and unreferenced. */
  ghost predicate Good(s: Table, xs: seq<nat>, held: set<nat>) {
    && Sized(s) && IsList(s.link, s.head, xs)
    && (forall f :: f in held ==> f < |s.link| && s.link[f] == NULL && s.refs[f] == 0 && f !in xs)
    && (forall f :: f in xs ==> f < |s.link| && s.refs[f] == 0)
  }

  predicate Chain(s: Table, ys: seq<nat>) { IsList(s.link, s.head, ys) }

  lemma AllocTakes(s: Table, xs: seq<nat>, held: set<nat>)
    requires Good(s, xs, held)
    ensures var (s', o) := Alloc(s);
            if xs == [] then o == None && s' == s
            else o == Some(xs[0]) && xs[0] !in held && Good(s', xs[1..], held + {xs[0]})
  {
    if xs != [] {
      ListPop(s.link, s.head, xs);
      var s' := Alloc(s).0;
      if xs[1..] != [] { assert xs[1..][0] in xs[1..]; }
      assert forall f :: f in xs[1..] ==> f in xs;
      assert xs[0] in xs;
    }
  }

  lemma FreeReturns(s: Table, xs: seq<nat>, held: set<nat>, f: nat)
    requires Good(s, xs, held) && f in held
    ensures Good(Free(s, f), [f] + xs, held - {f})
  {
    ListPush(s.link, s.head, xs, f);
  }

  /** Freeing a frame that is already listed is refused without change, unless it is the last of
      the list: its null link hides it, and the list becomes a cycle. */
  lemma DoubleFreeRefusedIff(s: Table, xs: seq<nat>, held: set<nat>, f: nat)
    requires Good(s, xs, held) && f in xs
    ensures f != xs[|xs| - 1] ==> Free(s, f) == s
    ensures (exists ys :: Chain(Free(s, f), ys)) <==> f != xs[|xs| - 1]
  {
    NullLinkIsLast(s.link, s.head, xs, f);
    if f == xs[|xs| - 1] {
      var s' := Free(s, f);
      forall ys ensures !Chain(s', ys) {
        LastToHeadIsCyclic(s.link, s.head, xs, ys);
      }
    } else {
      assert Chain(Free(s, f), xs);
    }
  }

  // ----- the free list the virtual memory manager works with

  /** The PageInfo list and the frame list of s are the same free frames, in the same order. */
  ghost predicate Represents(t: Table, s: Phys, held: set<nat>) {
    Good(t, s.free, held) && |s.mem| == |t.link|
  }

  lemma RepresentsFreeList(t: Table, s: Phys, held: set<nat>)
    requires Represents(t, s, held)
    ensures FreeListOk(s)
  {
    ListDistinct(t.link, t.head, s.free);
  }

  /** Taking the head of the linked list is taking the first frame of the list of s, whatever is
      then written to memory. */
  lemma AllocRefines(t: Table, s: Phys, held: set<nat>, s': Phys)
    requires Represents(t, s, held) && |s'.mem| == |s.mem| && s'.free == if s.free == [] then [] else s.free[1..]
    ensures Sized(t)
    ensures var (t', o) := Alloc(t);
            && o == (if s.free == [] then None else Some(s.free[0]))
            && Represents(t', s', if o.Some? then held + {o.value} else held)
  {
    AllocTakes(t, s.free, held);
  }

  // ----- runs

  /** Returns(f) gives back a frame that is held at that point. */
  datatype FrameOp = Take | Return(frame: nat)

  ghost predicate FrameRuns(s: Table, held: set<nat>, ops: seq<FrameOp>)
    requires Sized(s)
    decreases |ops|
  {
    ops == [] ||
    match ops[0]
    case Take =>
      var (s', o) := Alloc(s);
      Sized(s') && FrameRuns(s', if o.Some? then held + {o.value} else held, ops[1..])
    case Return(f) =>
      f in held && f < |s.link| && Sized(Free(s, f)) && FrameRuns(Free(s, f), held - {f}, ops[1..])
  }

  ghost function FramesAfter(s: Table, held: set<nat>, ops: seq<FrameOp>): (Table, set<nat>)
    requires Sized(s) && FrameRuns(s, held, ops)
    decreases |ops|
  {
    if ops == [] then (s, held)
    else
      match ops[0]
      case Take =>
        var (s', o) := Alloc(s);
        FramesAfter(s', if o.Some? then held + {o.value} else held, ops[1..])
      case Return(f) => FramesAfter(Free(s, f), held - {f}, ops[1..])
  }

  ghost function Elements(xs: seq<nat>): set<nat> { set x | x in xs }

  /** Over any run that frees only held frames, the list stays a chain without repeats, no frame
      is both listed and held, and listed plus held frames stay the same frames, so their number
      is constant. */
  lemma {:induction false} Conservation(s: Table, xs: seq<nat>, held: set<nat>,
                                        ops: seq<FrameOp>) returns (xs': seq<nat>)
    requires Good(s, xs, held) && FrameRuns(s, held, ops)
    ensures var (s', held') := FramesAfter(s, held, ops);
            && Good(s', xs', held') && Distinct(xs')
            && Elements(xs') + held' == Elements(xs) + held
            && |xs'| + |held'| == |xs| + |held|
    decreases |ops|
  {
    hide Good, Alloc, Free, Elements, Distinct;
    GoodBasics(s, xs, held);
    if ops == [] {
      xs' := xs;
    } else {
      match ops[0]
      case Take =>
        AllocTakes(s, xs, held);
        var (s', o) := Alloc(s);
        if xs == [] {
          xs' := Conservation(s', xs, held, ops[1..]);
        } else {
          xs' := Conservation(s', xs[1..], held + {xs[0]}, ops[1..]);
          Moved(xs[0], xs[1..], held);
          assert xs == [xs[0]] + xs[1..];
        }
      case Return(f) =>
        FreeReturns(s, xs, held, f);
        xs' := Conservation(Free(s, f), [f] + xs, held - {f}, ops[1..]);
        Moved(f, xs, held - {f});
        assert held == held - {f} + {f};
    }
  }

  lemma Moved(f: nat, xs: seq<nat>, held: set<nat>)
    requires f !in held
    ensures Elements([f] + xs) + held == Elements(xs) + (held + {f})
    ensures |[f] + xs| + |held| == |xs| + |held + {f}|
  {
  }

  lemma GoodBasics(s: Table, xs: seq<nat>, held: set<nat>)
    requires Good(s, xs, held)
    ensures Sized(s) && Distinct(xs) && forall f :: f in held ==> f < |s.link|
  {
    ListDistinct(s.link, s.head, xs);
  }

  /** The allocator in place. */
  class Allocator {
    var link: seq<int>
    var refs: seq<nat>
    var head: int

    function State(): Table
      reads this
    {
      Table(link, refs, head)
    }

    /** The table as frame_alloc_init leaves it before listing frames. */
    constructor (npages: nat)
      ensures State() == Table(seq(npages, i => NULL), seq(npages, i => 0), NULL)
    {
      link := seq(npages, i => NULL);
      refs := seq(npages, i => 0);
      head := NULL;
    }

    method PageAlloc() returns (frame: Option<nat>)
      requires Sized(State())
      modifies this
      ensures (State(), frame) == Alloc(old(State()))
    {
      if head == NULL {
        return None;
      }
      var f := head;
      head := link[f];
      link := link[f := NULL];
      return Some(f);
    }

    method PageFree(f: nat)
      requires Sized(State()) && f < |link|
      modifies this
      ensures State() == Free(old(State()), f)
    {
      if refs[f] != 0 || link[f] != NULL {
        return;
      }
      link := link[f := head];
      head := f;
    }

    method CountFree(ghost xs: seq<nat>) returns (count: nat)
      requires IsList(link, head, xs)
      ensures count == |xs|
    {
      count := 0;
      var p := head;
      ghost var rest := xs;
      while p != NULL
        invariant IsList(link, p, rest) && count + |rest| == |xs|
        decreases |rest|
      {
        p := link[p];
        rest := rest[1..];
        count := count + 1;
      }
    }
  }
}

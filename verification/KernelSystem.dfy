/** Tasks and memory together: the task machine with the address spaces its tasks run in.  A fork
    copies the caller's space and takes a kernel stack, a delivery copies bytes, a load maps pages;
    in every reachable state each task's view is what its page tables say. */
module KernelSystem {
  import opened PageTableEntries
  import opened PhysicalMemory
  import opened PageTables
  import opened AddressSpaces
  import opened ForkCopy
  import opened UserAccess
  import opened UserMemory
  import opened ElfImage
  import opened ElfLoader
  import opened Tasks
  import opened Delivery
  import TaskRuns

  /** Task i runs in space spaces[i]; roots are all spaces in use. */
  datatype System = System(k: Kernel, s: Phys, spaces: seq<nat>, roots: set<nat>)

  /** The view a space gives: the low flag bits of every mapped user page. */
  ghost function ViewOf(s: Phys, r: nat): View {
    map n | n in UserView(s, r) :: UserView(s, r)[n].0
  }

  ghost predicate InUse(x: System, i: nat) { i < |x.k.tasks| && x.k.tasks[i].state != Unused }

  ghost predicate ViewsAgree(x: System) {
    && |x.spaces| == |x.k.tasks|
    && forall i: nat {:trigger InUse(x, i)} :: InUse(x, i) ==>
         x.spaces[i] in x.roots && x.k.tasks[i].view == ViewOf(x.s, x.spaces[i])
  }

  ghost predicate SystemOk(x: System, slots: set<nat>) {
    Inv(x.k) && Private(x.s, x.roots, slots) && ViewsAgree(x)
  }

  // ----- steps

  datatype Event =
    | Tick
    | Send(target: nat, buf: nat, len: nat)
    | Recv(from: nat, buf: nat, len: nat)
    | Exit(code: nat)
    | Wait(child: nat)
    | Fork
    | Create(template: nat)
    | Start(t: nat)
    | LoadOnePage(t: nat, file: seq<Byte>, seg: Segment, n: nat)

  /** task_kstack_alloc: one zeroed frame. */
  function StackPage(s: Phys): (Phys, bool)
    requires FreeListOk(s)
  {
    if s.free == [] then (s, false) else (Phys(s.mem[s.free[0] := ZeroFrame()], s.free[1..]), true)
  }

  /** The memory half of task_fork and task_create, once they have a slot: a space, then a stack. */
  function WithStack(o: (Phys, Option<nat>)): (Phys, Option<nat>)
    requires FreeListOk(o.0)
  {
    if o.1.None? then o
    else
      var (s', ok) := StackPage(o.0);
      (s', if ok then o.1 else None)
  }

  ghost predicate Sized(x: System) {
    && Shape(x.k) && FreeListOk(x.s) && |x.s.mem| <= MAX_FRAMES && |x.spaces| == |x.k.tasks|
    && (forall r :: r in x.roots ==> r < |x.s.mem|)
    && (forall i: nat {:trigger InUse(x, i)} :: InUse(x, i) ==> x.spaces[i] in x.roots)
    && (x.k.current.Some? ==> InUse(x, x.k.current.value))
  }

  ghost predicate Possible(x: System, e: Event) {
    match e
    case Tick => true
    case Create(template) => template in x.roots
    case Start(t) => x.k.current.None? && t < |x.k.tasks| && x.k.tasks[t].state == Runnable
    case LoadOnePage(t, file, seg, n) =>
      && InUse(x, t) && SegmentOk(file, seg) && n < USER_PAGES
      && forall i: nat {:trigger InUse(x, i)} :: InUse(x, i) && i != t && i < |x.spaces| && t < |x.spaces| ==>
           x.spaces[i] != x.spaces[t]
    case _ => x.k.current.Some? && x.k.current.value < |x.k.tasks| ==> x.k.tasks[x.k.current.value].state != Dead
  }

  /** A new task in space o.1, or none; the slot is the first free one. */
  ghost function Spawned(x: System, o: (Phys, Option<nat>), parent: nat): System
    requires Sized(x) && x.k.free != []
  {
    if o.1.None? then x.(k := Spawn(x.k, false, parent, map[]).0, s := o.0)
    else
      System(Spawn(x.k, true, parent, ViewOf(o.0, o.1.value)).0, o.0,
             x.spaces[x.k.free[0] := o.1.value], x.roots + {o.1.value})
  }

  /** The memory after a completed transfer. */
  ghost function AfterTransfer(x: System, o: Outcome): Phys {
    if o.Delivered? && o.message.sender < |x.spaces| && o.message.receiver < |x.spaces|
       && AllReadable(x.s.mem, x.spaces[o.message.sender], o.message.src, o.message.count)
    then
      var t := o.message;
      Phys(Deliver(x.s.mem, x.spaces[t.sender], t.src, x.spaces[t.receiver], t.dst, t.count), x.s.free)
    else x.s
  }

  ghost function Next(x: System, e: Event): System
    requires Sized(x) && Possible(x, e)
  {
    match e
    case Tick => x.(k := Tasks.Tick(x.k))
    case Send(target, buf, len) =>
      var (k', o) := Tasks.Send(x.k, target, buf, len); x.(k := k', s := AfterTransfer(x, o))
    case Recv(from, buf, len) =>
      var (k', o) := Tasks.Recv(x.k, from, buf, len); x.(k := k', s := AfterTransfer(x, o))
    case Exit(code) => x.(k := Tasks.Exit(x.k, code))
    case Wait(child) => x.(k := Tasks.Wait(x.k, child).0)
    case Fork =>
      if x.k.current.None? || x.k.free == [] then x
      else
        var c := x.k.current.value;
        var o := CopySpace(x.s, x.spaces[c]);
        Spawned(x, WithStack(o), x.k.tasks[c].id)
    case Create(template) =>
      if x.k.free == [] then x else Spawned(x, WithStack(NewSpace(x.s, template)), NO_PARENT)
    case Start(t) => x.(k := Step(x.k, OpStart(t)))
    case LoadOnePage(t, file, seg, n) =>
      var s' := LoadPage(x.s, x.spaces[t], file, seg, n).0;
      x.(k := SetTask(x.k, t, x.k.tasks[t].(view := ViewOf(s', x.spaces[t]))), s := s')
  }

  lemma OkSized(x: System, slots: set<nat>)
    requires SystemOk(x, slots)
    ensures Sized(x)
  {
    hide PteOf, TableAt, NoMissedRendezvous, NoLostWakeup, BuffersOk;
  }

  // ----- views

  /** Whoever is in use was in use, with the same view. */
  ghost predicate SameViews(k: Kernel, k': Kernel) {
    && |k'.tasks| == |k.tasks|
    && forall i: nat {:trigger k'.tasks[i]} :: i < |k.tasks| && k'.tasks[i].state != Unused ==>
         k.tasks[i].state != Unused && k'.tasks[i].view == k.tasks[i].view
  }

  lemma DispatchViews(k: Kernel)
    requires Shape(k) && k.current.Some? && k.tasks[k.current.value].state != Unused
    ensures SameViews(k, Dispatch(k))
  {
    hide PickNext;
    PickRunnable(k.tasks, k.current.value);
  }

  lemma BlockViews(k: Kernel, reason: Reason, peer: nat, buf: nat, len: nat)
    requires Shape(k) && k.current.Some? && k.tasks[k.current.value].state != Unused
    ensures SameViews(k, Block(k, reason, peer, buf, len))
  {
    hide Dispatch;
    var c := k.current.value;
    DispatchViews(SetTask(k, c, BlockedTask(k.tasks[c], reason, peer, buf, len)));
  }

  lemma SendViews(k: Kernel, target: nat, buf: nat, len: nat)
    requires Inv(k)
    ensures SameViews(k, Tasks.Send(k, target, buf, len).0)
  {
    hide Block, Find, BufferOk, NoMissedRendezvous, NoLostWakeup, BuffersOk;
    if k.current.Some? { BlockViews(k, OnSend, target, buf, Min(len, MAX_MESSAGE)); }
  }

  lemma RecvViews(k: Kernel, from: nat, buf: nat, len: nat)
    requires Inv(k)
    ensures SameViews(k, Tasks.Recv(k, from, buf, len).0)
  {
    hide Block, FindSender, BufferOk, NoMissedRendezvous, NoLostWakeup, BuffersOk;
    if k.current.Some? { BlockViews(k, OnRecv, from, buf, Min(len, MAX_MESSAGE)); }
  }

  lemma WaitViews(k: Kernel, child: nat)
    requires Inv(k)
    ensures SameViews(k, Tasks.Wait(k, child).0)
  {
    hide Block, FindChild, NoMissedRendezvous, NoLostWakeup, BuffersOk;
    if k.current.Some? { BlockViews(k, OnWait, child, 0, 0); }
  }

  lemma ExitViews(k: Kernel, code: nat)
    requires Inv(k)
    ensures SameViews(k, Tasks.Exit(k, code))
  {
    hide FindWaiter, NoMissedRendezvous, NoLostWakeup, BuffersOk;
  }

  lemma TickViews(k: Kernel)
    requires Inv(k)
    ensures SameViews(k, Tasks.Tick(k))
  {
    hide Dispatch, NoMissedRendezvous, NoLostWakeup, BuffersOk;
    if k.current.Some? { DispatchViews(k.(ticks := (k.ticks + 1) % Words.TWO64)); }
  }

  /** Views agree still, when memory changed no flags of any space in use. */
  lemma AgreeStill(x: System, x': System)
    requires ViewsAgree(x) && SameViews(x.k, x'.k) && x'.spaces == x.spaces && x'.roots == x.roots
    requires forall r :: r in x.roots ==> ViewOf(x'.s, r) == ViewOf(x.s, r)
    ensures ViewsAgree(x')
  {
    hide ViewOf;
    forall i: nat | InUse(x', i) ensures x'.spaces[i] in x'.roots && x'.k.tasks[i].view == ViewOf(x'.s, x'.spaces[i]) {
      assert InUse(x, i);
    }
  }

  lemma SameFlags(s: Phys, s': Phys, roots: set<nat>, slots: set<nat>, r: nat)
    requires SamePtes(s.mem, s'.mem, roots, slots) && UserSlots(slots) && r in roots && |s'.mem| == |s.mem|
    ensures ViewOf(s', r) == ViewOf(s, r)
  {
    hide PteOf, FrameOf, Present;
    forall n: nat | n < USER_PAGES ensures PteOf(s'.mem, r, n) == PteOf(s.mem, r, n) {
      SamePte(s.mem, s'.mem, roots, slots, r, n);
    }
  }

  /** A task's view says of every page what its tables say. */
  lemma ViewTruthful(x: System, slots: set<nat>, i: nat)
    requires SystemOk(x, slots) && InUse(x, i)
    ensures x.spaces[i] in x.roots && ViewMatches(x.s.mem, x.spaces[i], x.k.tasks[i].view)
  {
    hide PteOf, NoMissedRendezvous, NoLostWakeup, BuffersOk, Separated;
    var r, view := x.spaces[i], x.k.tasks[i].view;
    assert LeavesHeld(x.s, r);
    forall n: nat, w: bool | n < USER_PAGES ensures Allowed(view, n, w) <==> Allows(PteOf(x.s.mem, r, n), w) {
      LowFlags(PteOf(x.s.mem, r, n));
    }
  }

  lemma AllTruthful(x: System, slots: set<nat>)
    requires SystemOk(x, slots)
    ensures ViewsMatch(x.s, x.k, x.spaces, x.roots)
  {
    hide ViewMatches, Inv, Private;
    forall i | 0 <= i < |x.spaces| && x.k.tasks[i].state != Unused
      ensures x.spaces[i] in x.roots && ViewMatches(x.s.mem, x.spaces[i], x.k.tasks[i].view)
    {
      assert InUse(x, i);
      ViewTruthful(x, slots, i);
    }
  }

  // ----- transfers

  /** Every byte of every space after a transfer: the receiver's buffer holds the sender's bytes,
      and nothing else changed. */
  ghost predicate TransferExact(x: System, x': System, t: Transfer) {
    && t.sender < |x.spaces| && t.receiver < |x.spaces|
    && BytesMoved(x.s.mem, x'.s.mem, x.roots, x.spaces[t.sender], t.src, x.spaces[t.receiver], t.dst, t.count)
  }

  lemma TransferStep(x: System, slots: set<nat>, o: Outcome)
    requires SystemOk(x, slots) && o.Delivered? && EndsChecked(x.s, x.spaces, o.message)
    requires x.spaces[o.message.sender] in x.roots && x.spaces[o.message.receiver] in x.roots
    ensures var s' := AfterTransfer(x, o);
            && Private(s', x.roots, slots) && (forall r :: r in x.roots ==> ViewOf(s', r) == ViewOf(x.s, r))
            && TransferExact(x, x.(s := s'), o.message)
  {
    hide Private, BytesMoved, Deliver, RangeOk, ViewOf, SamePtes, Inv, ViewsAgree;
    var t := o.message;
    DeliveryExact(x.s, x.roots, slots, x.spaces[t.sender], t.src, x.spaces[t.receiver], t.dst, t.count);
    var s' := AfterTransfer(x, o);
    var m' := Deliver(x.s.mem, x.spaces[t.sender], t.src, x.spaces[t.receiver], t.dst, t.count);
    assert s' == Phys(m', x.s.free);
    PrivateSlots(x.s, x.roots, slots);
    forall r | r in x.roots ensures ViewOf(s', r) == ViewOf(x.s, r) {
      SameFlags(x.s, s', x.roots, slots, r);
    }
  }

  lemma SendStep(x: System, slots: set<nat>, target: nat, buf: nat, len: nat)
    requires SystemOk(x, slots) && Possible(x, Send(target, buf, len))
    ensures Sized(x)
    ensures var x' := Next(x, Send(target, buf, len)); var o := Tasks.Send(x.k, target, buf, len).1;
            SystemOk(x', slots) && (o.Delivered? ==> TransferExact(x, x', o.message))
  {
    hide Inv, Private, Tasks.Send, ViewOf, AfterTransfer, EndsChecked, TransferExact, ViewsMatch;
    OkSized(x, slots);
    SendKeeps(x.k, target, buf, len);
    SendViews(x.k, target, buf, len);
    var x', o := Next(x, Send(target, buf, len)), Tasks.Send(x.k, target, buf, len).1;
    if o.Delivered? {
      AllTruthful(x, slots);
      SendDelivers(x.s, x.k, x.spaces, x.roots, target, buf, len);
      TransferStep(x, slots, o);
      SameTransfer(x, x.(s := AfterTransfer(x, o)), x', o.message);
    } else {
      NoTransfer(x, o);
    }
    AgreeStill(x, x');
  }

  lemma RecvStep(x: System, slots: set<nat>, from: nat, buf: nat, len: nat)
    requires SystemOk(x, slots) && Possible(x, Recv(from, buf, len))
    ensures Sized(x)
    ensures var x' := Next(x, Recv(from, buf, len)); var o := Tasks.Recv(x.k, from, buf, len).1;
            SystemOk(x', slots) && (o.Delivered? ==> TransferExact(x, x', o.message))
  {
    hide Inv, Private, Tasks.Recv, ViewOf, AfterTransfer, EndsChecked, TransferExact, ViewsMatch;
    OkSized(x, slots);
    RecvKeeps(x.k, from, buf, len);
    RecvViews(x.k, from, buf, len);
    var x', o := Next(x, Recv(from, buf, len)), Tasks.Recv(x.k, from, buf, len).1;
    if o.Delivered? {
      AllTruthful(x, slots);
      RecvDelivers(x.s, x.k, x.spaces, x.roots, from, buf, len);
      TransferStep(x, slots, o);
      SameTransfer(x, x.(s := AfterTransfer(x, o)), x', o.message);
    } else {
      NoTransfer(x, o);
    }
    AgreeStill(x, x');
  }

  lemma SameTransfer(x: System, x1: System, x2: System, t: Transfer)
    requires TransferExact(x, x1, t) && x2.s == x1.s
    ensures TransferExact(x, x2, t)
  {
    hide BytesMoved;
  }

  lemma NoTransfer(x: System, o: Outcome)
    requires !o.Delivered?
    ensures AfterTransfer(x, o) == x.s
  {
  }

  // ----- new tasks

  /** A space made or copied, then a stack: all user pages stay private, and no other space's
      memory changes. */
  ghost predicate SpaceMade(s: Phys, o: (Phys, Option<nat>), roots: set<nat>, slots: set<nat>) {
    && |o.0.mem| == |s.mem| && FreeListOk(o.0) && (o.1.Some? ==> o.1.value !in roots)
    && Private(o.0, if o.1.Some? then roots + {o.1.value} else roots, slots)
    && forall r :: r in roots ==> UserView(o.0, r) == UserView(s, r)
  }

  lemma StackMade(s: Phys, o: (Phys, Option<nat>), roots: set<nat>, slots: set<nat>)
    requires SpaceMade(s, o, roots, slots)
    ensures SpaceMade(s, WithStack(o), roots, slots)
    ensures WithStack(o).1.Some? ==> o.1.Some? && UserView(WithStack(o).0, o.1.value) == UserView(o.0, o.1.value)
  {
    hide Private, UserView;
    if o.1.Some? {
      var roots' := roots + {o.1.value};
      FewerPrivate(o.0, roots', slots, roots);
      if o.0.free != [] {
        TakeFramePrivate(o.0, roots', slots);
        FewerPrivate(WithStack(o).0, roots', slots, roots);
      }
    }
  }

  lemma CopyMade(s: Phys, roots: set<nat>, slots: set<nat>, parent: nat)
    requires Private(s, roots, slots) && parent in roots
    ensures parent < |s.mem| <= MAX_FRAMES && FreeListOk(s) && SpaceMade(s, CopySpace(s, parent), roots, slots)
  {
    hide Private, UserView, CopySpace;
    ForkKeepsPrivate(s, roots, slots, parent);
  }

  lemma NewMade(s: Phys, roots: set<nat>, slots: set<nat>, c: nat)
    requires Private(s, roots, slots) && c in roots
    ensures c < |s.mem| <= MAX_FRAMES && FreeListOk(s) && SpaceMade(s, NewSpace(s, c), roots, slots)
  {
    hide Private, UserView, NewSpace;
    PrivateSize(s, roots, slots, c);
    if s.free == [] { NoNewSpace(s, c); } else { NewSpaceKeepsPrivate(s, roots, slots, c); }
  }

  lemma SameView(s: Phys, s': Phys, r: nat)
    requires UserView(s', r) == UserView(s, r)
    ensures ViewOf(s', r) == ViewOf(s, r)
  {
  }

  lemma SpawnedOk(x: System, slots: set<nat>, o: (Phys, Option<nat>), parent: nat)
    requires SystemOk(x, slots) && Sized(x) && x.k.free != [] && SpaceMade(x.s, o, x.roots, slots)
    requires parent == NO_PARENT || (parent < |x.k.tasks| && x.k.tasks[parent].state != Unused)
    ensures SystemOk(Spawned(x, o, parent), slots)
  {
    hide Inv, Private, UserView, ViewOf, SpaceMade, Spawn;
    var x' := Spawned(x, o, parent);
    SpawnKeeps(x.k, o.1.Some?, parent, if o.1.Some? then ViewOf(o.0, o.1.value) else map[]);
    MadePrivate(x.s, o, x.roots, slots);
    SpawnViews(x.k, o.1.Some?, parent, if o.1.Some? then ViewOf(o.0, o.1.value) else map[]);
    forall i: nat | InUse(x', i) ensures x'.spaces[i] in x'.roots && x'.k.tasks[i].view == ViewOf(x'.s, x'.spaces[i]) {
      if !(o.1.Some? && i == x.k.free[0]) {
        assert InUse(x, i);
        SameView(x.s, x'.s, x.spaces[i]);
      }
    }
  }

  lemma MadePrivate(s: Phys, o: (Phys, Option<nat>), roots: set<nat>, slots: set<nat>)
    requires SpaceMade(s, o, roots, slots)
    ensures Private(o.0, if o.1.Some? then roots + {o.1.value} else roots, slots)
    ensures forall r :: r in roots ==> UserView(o.0, r) == UserView(s, r)
  {
  }

  lemma SpawnViews(k: Kernel, ok: bool, parent: nat, view: View)
    requires Shape(k) && k.free != []
    ensures var k' := Spawn(k, ok, parent, view).0;
            && |k'.tasks| == |k.tasks|
            && (forall i: nat {:trigger k'.tasks[i]} ::
                  i < |k.tasks| && !(ok && i == k.free[0]) && k'.tasks[i].state != Unused ==>
                  k.tasks[i].state != Unused && k'.tasks[i].view == k.tasks[i].view)
            && (ok ==> k'.tasks[k.free[0]].view == view)
  {
  }

  lemma ForkStep(x: System, slots: set<nat>)
    requires SystemOk(x, slots) && Sized(x) && Possible(x, Fork)
    ensures SystemOk(Next(x, Fork), slots)
  {
    hide Inv, Private, CopySpace, WithStack, Spawned, ViewOf, SpaceMade;
    if x.k.current.Some? && x.k.free != [] {
      var c := x.k.current.value;
      CallerInUse(x, slots);
      CopyMade(x.s, x.roots, slots, x.spaces[c]);
      StackMade(x.s, CopySpace(x.s, x.spaces[c]), x.roots, slots);
      SpawnedOk(x, slots, WithStack(CopySpace(x.s, x.spaces[c])), c);
    }
  }

  lemma CallerInUse(x: System, slots: set<nat>)
    requires SystemOk(x, slots) && x.k.current.Some?
    ensures var c := x.k.current.value;
            InUse(x, c) && x.k.tasks[c].id == c && x.spaces[c] in x.roots
  {
    hide PteOf, TableAt, NoMissedRendezvous, NoLostWakeup, BuffersOk;
    assert InUse(x, x.k.current.value);
  }

  lemma CreateStep(x: System, slots: set<nat>, template: nat)
    requires SystemOk(x, slots) && Sized(x) && template in x.roots
    ensures SystemOk(Next(x, Create(template)), slots)
  {
    hide Inv, Private, NewSpace, WithStack, Spawned, ViewOf, SpaceMade;
    if x.k.free != [] {
      NewMade(x.s, x.roots, slots, template);
      StackMade(x.s, NewSpace(x.s, template), x.roots, slots);
      SpawnedOk(x, slots, WithStack(NewSpace(x.s, template)), NO_PARENT);
    }
  }

  // ----- loading

  lemma LoadStep(x: System, slots: set<nat>, t: nat, file: seq<Byte>, seg: Segment, n: nat)
    requires SystemOk(x, slots) && Sized(x) && Possible(x, LoadOnePage(t, file, seg, n))
    ensures SystemOk(Next(x, LoadOnePage(t, file, seg, n)), slots)
  {
    hide Inv, Private, UserView, LoadPage, Grows, ViewOf;
    var r, x' := x.spaces[t], Next(x, LoadOnePage(t, file, seg, n));
    LoadPagePrivate(x.s, x.roots, slots, r, file, seg, n);
    LoadGrows(x.s, x.roots, slots, r, file, seg, n);
    GrowKeeps(x.k, t, ViewOf(x'.s, r));
    forall i: nat | InUse(x', i) ensures x'.spaces[i] in x'.roots && x'.k.tasks[i].view == ViewOf(x'.s, x'.spaces[i]) {
      assert InUse(x, i);
      if i != t { SameView(x.s, x'.s, x.spaces[i]); }
    }
  }

  /** Loading a page takes no access away. */
  lemma LoadGrows(s: Phys, roots: set<nat>, slots: set<nat>, r: nat, file: seq<Byte>, seg: Segment, n: nat)
    requires Private(s, roots, slots) && r in roots && n < USER_PAGES && SegmentOk(file, seg)
    requires r < |s.mem| <= MAX_FRAMES && FreeListOk(s)
    ensures Grows(ViewOf(s, r), ViewOf(LoadPage(s, r, file, seg, n).0, r))
  {
    hide Private, UserView, Allows;
    var s' := LoadPage(s, r, file, seg, n).0;
    LoadKeepsFlags(s, roots, slots, r, file, seg, n);
    forall k: nat, w: bool ensures StillAllowed(ViewOf(s, r), ViewOf(s', r), k, w) {
      if k in UserView(s, r) { assert k in UserView(s', r); }
    }
  }

  lemma LoadKeepsFlags(s: Phys, roots: set<nat>, slots: set<nat>, r: nat, file: seq<Byte>, seg: Segment, n: nat)
    requires Private(s, roots, slots) && r in roots && n < USER_PAGES && SegmentOk(file, seg)
    requires r < |s.mem| <= MAX_FRAMES && FreeListOk(s)
    ensures var s' := LoadPage(s, r, file, seg, n).0;
            forall k {:trigger k in UserView(s', r)} :: k in UserView(s, r) ==>
              k in UserView(s', r) && UserView(s', r)[k].0 == UserView(s, r)[k].0
  {
    hide Private, PteOf, TableAt, FrameOf, Present, UserView, Missing, FreshMap, Overlay, Spare, SamePtes;
    ViewEntry(s, roots, slots, r, n);
    FlagsPresent();
    if UserMemory.Mapped(s.mem, r, n) {
      PageWrite(s, roots, slots, r, n, Overlay(Contents(s, r, n), file, seg, n));
    } else if s.free != [] {
      var s1, g := FreshMap(s, r, n, USER_FLAGS, ZeroFrame()), s.free[0];
      if |s.free| < 1 + Missing(s.mem, r, PathOf(n)) {
        FreshMapFails(s, roots, slots, r, n, USER_FLAGS, ZeroFrame());
        SpareWrite(s1, roots, slots, g, Overlay(s1.mem[g], file, seg, n));
      } else {
        FreshMapRefines(s, roots, slots, r, n, USER_FLAGS, ZeroFrame());
        ViewEntry(s1, roots, slots, r, n);
        PageWrite(s1, roots, slots, r, n, Overlay(s1.mem[g], file, seg, n));
      }
    }
  }

  // ----- every step, every run

  lemma QuietStep(x: System, slots: set<nat>, k': Kernel)
    requires SystemOk(x, slots) && Inv(k') && SameViews(x.k, k')
    ensures SystemOk(x.(k := k'), slots)
  {
    hide Inv, Private, ViewOf;
    AgreeStill(x, x.(k := k'));
  }

  lemma SystemStepKeeps(x: System, slots: set<nat>, e: Event)
    requires SystemOk(x, slots) && Possible(x, e)
    ensures Sized(x) && SystemOk(Next(x, e), slots)
  {
    OkSized(x, slots);
    hide SystemOk, Inv, Private, Tasks.Tick, Tasks.Exit, Tasks.Wait, Tasks.Send, Tasks.Recv, Step, Spawned,
      AfterTransfer, LoadPage, ViewOf,
      NewSpace, CopySpace, WithStack, SameViews;
    InvOf(x, slots);
    match e
    case Tick => TickKeeps(x.k); TickViews(x.k); QuietStep(x, slots, Tasks.Tick(x.k));
    case Send(target, buf, len) => SendStep(x, slots, target, buf, len);
    case Recv(from, buf, len) => RecvStep(x, slots, from, buf, len);
    case Exit(code) => ExitKeeps(x.k, code); ExitViews(x.k, code); QuietStep(x, slots, Tasks.Exit(x.k, code));
    case Wait(child) => WaitKeeps(x.k, child); WaitViews(x.k, child); QuietStep(x, slots, Tasks.Wait(x.k, child).0);
    case Fork => ForkStep(x, slots);
    case Create(template) => CreateStep(x, slots, template);
    case Start(t) => StartKeeps(x.k, t); StartViews(x.k, t); QuietStep(x, slots, Step(x.k, OpStart(t)));
    case LoadOnePage(t, file, seg, n) => LoadStep(x, slots, t, file, seg, n);
  }

  lemma InvOf(x: System, slots: set<nat>)
    requires SystemOk(x, slots)
    ensures Inv(x.k)
  {
  }

  lemma StartViews(k: Kernel, t: nat)
    requires Inv(k) && Enabled(k, OpStart(t))
    ensures SameViews(k, Step(k, OpStart(t)))
  {
  }

  ghost predicate Runs(x: System, es: seq<Event>)
    decreases |es|
  {
    es == [] || (Sized(x) && Possible(x, es[0]) && Runs(Next(x, es[0]), es[1..]))
  }

  ghost function Run(x: System, es: seq<Event>): System
    requires Runs(x, es)
    decreases |es|
  {
    if es == [] then x else Run(Next(x, es[0]), es[1..])
  }

  lemma {:induction false} RunKeeps(x: System, slots: set<nat>, es: seq<Event>)
    requires SystemOk(x, slots) && Runs(x, es)
    ensures SystemOk(Run(x, es), slots)
    decreases |es|
  {
    hide SystemOk, Next, Possible, Sized;
    if es != [] {
      SystemStepKeeps(x, slots, es[0]);
      RunKeeps(Next(x, es[0]), slots, es[1..]);
    }
  }

  /** The system at boot: no task yet, one space. */
  ghost function Boot(tasks: nat, s: Phys, root: nat): System
    requires tasks > 0
  {
    System(Init(tasks, 0), s, seq(tasks, i => root), {root})
  }

  /** In every reachable state of tasks and memory together: the task invariant holds, every user
      page of every space has a frame of its own, and each task's view is what its tables say. */
  lemma ReachableSystems(tasks: nat, s: Phys, root: nat, slots: set<nat>, es: seq<Event>)
    requires 0 < tasks < ANY && Private(s, {root}, slots) && Runs(Boot(tasks, s, root), es)
    ensures var x := Run(Boot(tasks, s, root), es);
            Inv(x.k) && Private(x.s, x.roots, slots) && ViewsMatch(x.s, x.k, x.spaces, x.roots)
  {
    hide Inv, Private, ViewOf, ViewMatches, Runs, Run, Init;
    InitInv(tasks, 0);
    var x0 := Boot(tasks, s, root);
    NobodyYet(tasks);
    RunKeeps(x0, slots, es);
    AllTruthful(Run(x0, es), slots);
  }

  lemma NobodyYet(tasks: nat)
    requires tasks > 0
    ensures |Init(tasks, 0).tasks| == tasks
    ensures forall i: nat {:trigger Init(tasks, 0).tasks[i]} :: i < tasks ==> Init(tasks, 0).tasks[i].state == Unused
  {
  }

  /** In every reachable state, a send or a receive that completes moves exactly the sender's bytes
      and changes no other user byte of any space. */
  lemma EveryTransferExact(x: System, slots: set<nat>, e: Event, o: Outcome)
    requires SystemOk(x, slots) && Possible(x, e) && o.Delivered?
    requires e.Send? || e.Recv?
    requires o == if e.Send? then Tasks.Send(x.k, e.target, e.buf, e.len).1
                  else Tasks.Recv(x.k, e.from, e.buf, e.len).1
    ensures Sized(x) && TransferExact(x, Next(x, e), o.message)
  {
    hide SystemOk, Tasks.Send, Tasks.Recv, TransferExact, Next;
    if e.Send? { SendStep(x, slots, e.target, e.buf, e.len); } else { RecvStep(x, slots, e.from, e.buf, e.len); }
  }

  // ----- fork, all of it

  /** A copy with a stack is made and complete exactly when there are frames for all of it. */
  lemma ForkCost(s: Phys, roots: set<nat>, slots: set<nat>, r: nat)
    requires Private(s, roots, slots) && r in roots
    ensures r < |s.mem| <= MAX_FRAMES && FreeListOk(s)
    ensures var o := WithStack(CopySpace(s, r));
            o.1.Some? && UserView(o.0, o.1.value) == UserView(s, r) <==> 2 + Needed(s.mem, r, USER_PAGES) <= |s.free|
  {
    hide CopySpace, UserView, Needed, PteOf, TableAt, SpaceMade, ForkFramed, ChildFresh, SameKernelHalf, Separated;
    CopyMade(s, roots, slots, r);
    StackMade(s, CopySpace(s, r), roots, slots);
    assert LeavesHeld(s, r);
    hide LeavesHeld;
    ForkCompleteIffEnough(s, roots, slots, r);
    if 1 + Needed(s.mem, r, USER_PAGES) <= |s.free| {
      ForkPreservesMeaning(s, roots, slots, r);
    }
  }

  /** Which slots are newly in use after a fork: the one taken, if the child's memory was made. */
  lemma ForkSlots(x: System, i: nat)
    requires Sized(x) && Inv(x.k) && Possible(x, Fork) && x.k.current.Some? && x.spaces[x.k.current.value] in x.roots
    ensures var x', c := Next(x, Fork), x.k.current.value; var o := WithStack(CopySpace(x.s, x.spaces[c]));
            InUse(x', i) && !InUse(x, i) <==> x.k.free != [] && o.1.Some? && i == x.k.free[0]
    ensures var x', c := Next(x, Fork), x.k.current.value; var o := WithStack(CopySpace(x.s, x.spaces[c]));
            |x'.spaces| == |x.spaces| && (x.k.free != [] ==> x'.s == o.0 && (o.1.Some? && i == x.k.free[0] ==>
                x'.spaces[i] == o.1.value))
  {
    hide CopySpace, WithStack, ViewOf, NoMissedRendezvous, NoLostWakeup, BuffersOk;
    if x.k.free != [] {
      assert x.k.free[0] in x.k.free;
      assert x.k.tasks[x.k.free[0]].state == Unused;
    }
  }

  /** Fork gives a child with all of its parent's memory exactly when a slot is free and there are
      frames for a root, a stack, and a copy of every page and of every table above one. */
  lemma ForkSucceedsIff(x: System, slots: set<nat>)
    requires SystemOk(x, slots) && Possible(x, Fork) && x.k.current.Some?
    ensures Sized(x)
    ensures var x', c := Next(x, Fork), x.k.current.value;
            x.k.free != [] && 2 + Needed(x.s.mem, x.spaces[c], USER_PAGES) <= |x.s.free| <==>
              exists i: nat :: NewTwin(x, x', i, c)
  {
    hide Inv, Private, UserView, CopySpace, WithStack, Next, Needed, InUse, ViewsAgree;
    OkSized(x, slots);
    CallerInUse(x, slots);
    var x', c := Next(x, Fork), x.k.current.value;
    ForkCost(x.s, x.roots, slots, x.spaces[c]);
    if x.k.free != [] {
      ForkSlots(x, x.k.free[0]);
      if 2 + Needed(x.s.mem, x.spaces[c], USER_PAGES) <= |x.s.free| {
        assert NewTwin(x, x', x.k.free[0], c);
      }
    }
    forall i: nat | NewTwin(x, x', i, c)
      ensures x.k.free != [] && 2 + Needed(x.s.mem, x.spaces[c], USER_PAGES) <= |x.s.free|
    {
      ForkSlots(x, i);
    }
  }

  /** Slot i came into use, with the memory of task c. */
  ghost predicate NewTwin(x: System, x': System, i: nat, c: nat) {
    && InUse(x', i) && !InUse(x, i) && i < |x'.spaces| && c < |x.spaces|
    && UserView(x'.s, x'.spaces[i]) == UserView(x.s, x.spaces[c])
  }

  /** Creating a task brings a slot into use exactly when a slot is free and there are two frames,
      for a root and a stack; its space has no user page. */
  lemma CreateSucceedsIff(x: System, slots: set<nat>, template: nat)
    requires SystemOk(x, slots) && template in x.roots
    ensures Sized(x)
    ensures var x' := Next(x, Create(template));
            && (x.k.free != [] && 2 <= |x.s.free| <==> exists i: nat :: InUse(x', i) && !InUse(x, i))
            && (forall i: nat :: InUse(x', i) && !InUse(x, i) ==>
                  i < |x'.spaces| && i < |x'.k.tasks| && x'.k.tasks[i].view == map[] && x'.spaces[i] !in x.roots)
  {
    hide Inv, Private, UserView, NewSpace, WithStack, InUse, Next, Spawned;
    OkSized(x, slots);
    if x.k.free == [] {
      CreateNowhere(x, template);
    } else {
      CreateMemory(x.s, x.roots, slots, template);
      var x' := Next(x, Create(template));
      forall i: nat
        ensures InUse(x', i) && !InUse(x, i) <==> 2 <= |x.s.free| && i == x.k.free[0]
        ensures InUse(x', i) && !InUse(x, i) ==>
                  i < |x'.spaces| && i < |x'.k.tasks| && x'.k.tasks[i].view == map[] && x'.spaces[i] !in x.roots
      {
        InvOf(x, slots);
        CreateSlots(x, template, i);
      }
      if 2 <= |x.s.free| { assert InUse(x', x.k.free[0]) && !InUse(x, x.k.free[0]); }
    }
  }

  lemma CreateNowhere(x: System, template: nat)
    requires Sized(x) && template in x.roots && x.k.free == []
    ensures Next(x, Create(template)) == x
  {
  }

  lemma CreateMemory(s: Phys, roots: set<nat>, slots: set<nat>, c: nat)
    requires Private(s, roots, slots) && c in roots
    ensures c < |s.mem| <= MAX_FRAMES && FreeListOk(s)
    ensures var o := WithStack(NewSpace(s, c));
            && (o.1.Some? <==> 2 <= |s.free|)
            && (o.1.Some? ==> o.1.value !in roots && ViewOf(o.0, o.1.value) == map[])
  {
    hide Private, PteOf, TableAt;
    NewMade(s, roots, slots, c);
    StackMade(s, NewSpace(s, c), roots, slots);
    if s.free != [] {
      NewSpaceIsEmpty(s, roots, slots, c);
      hide UserView, TablesAre, SpaceMade;
      OneFrameLess(s, c);
      var o := WithStack(NewSpace(s, c));
      if o.1.Some? { EmptyView(o.0, o.1.value); }
    } else {
      NoNewSpace(s, c);
    }
  }

  lemma OneFrameLess(s: Phys, c: nat)
    requires c < |s.mem| && FreeListOk(s) && s.free != []
    ensures NewSpace(s, c).0.free == s.free[1..] && NewSpace(s, c).1 == Some(s.free[0])
  {
  }

  lemma EmptyView(s: Phys, r: nat)
    requires UserView(s, r) == map[]
    ensures ViewOf(s, r) == map[]
  {
  }

  lemma CreateSlots(x: System, template: nat, i: nat)
    requires Sized(x) && Inv(x.k) && template in x.roots && x.k.free != []
    ensures var x' := Next(x, Create(template)); var o := WithStack(NewSpace(x.s, template));
            && (InUse(x', i) && !InUse(x, i) <==> o.1.Some? && i == x.k.free[0])
            && |x'.spaces| == |x.spaces|
            && (o.1.Some? && i == x.k.free[0] ==>
                  i < |x'.spaces| && i < |x'.k.tasks| && x'.spaces[i] == o.1.value
                  && x'.k.tasks[i].view == ViewOf(o.0, o.1.value))
  {
    hide NewSpace, WithStack, ViewOf, NoMissedRendezvous, NoLostWakeup, BuffersOk;
    assert x.k.free[0] in x.k.free;
    assert x.k.tasks[x.k.free[0]].state == Unused;
  }

  // ----- the task machine inside the system

  /** The step of the task machine that event e is. */
  ghost function OpOf(x: System, e: Event): Op
    requires Sized(x) && Possible(x, e)
  {
    match e
    case Tick => OpTick
    case Send(target, buf, len) => OpSend(target, buf, len)
    case Recv(from, buf, len) => OpRecv(from, buf, len)
    case Exit(code) => OpExit(code)
    case Wait(child) => OpWait(child)
    case Fork =>
      if x.k.current.None? || x.k.free == [] then OpFork(false, map[])
      else
        var o := WithStack(CopySpace(x.s, x.spaces[x.k.current.value]));
        if o.1.None? then OpFork(false, map[]) else OpFork(true, ViewOf(o.0, o.1.value))
    case Create(template) =>
      var o := WithStack(NewSpace(x.s, template));
      if o.1.None? then OpCreate(false, map[]) else OpCreate(true, ViewOf(o.0, o.1.value))
    case Start(t) => OpStart(t)
    case LoadOnePage(t, file, seg, n) => OpGrow(t, ViewOf(LoadPage(x.s, x.spaces[t], file, seg, n).0, x.spaces[t]))
  }

  lemma StepProjects(x: System, slots: set<nat>, e: Event)
    requires SystemOk(x, slots) && Possible(x, e)
    ensures Sized(x) && Enabled(x.k, OpOf(x, e)) && Next(x, e).k == Step(x.k, OpOf(x, e))
  {
    OkSized(x, slots);
    if e.LoadOnePage? { LoadEnabled(x, slots, e.t, e.file, e.seg, e.n); }
    if x.k.current.Some? { CallerInUse(x, slots); }
    hide SystemOk, Inv, Private, CopySpace, NewSpace, WithStack, ViewOf, LoadPage, Tasks.Send, Tasks.Recv, Tasks.Wait,
      Tasks.Exit, Tasks.Tick, Grows, UserView, Sized, AfterTransfer;
    if e.Fork? {
      ForkProjects(x);
    }
  }

  lemma ForkProjects(x: System)
    requires Sized(x) && Possible(x, Fork)
    ensures Next(x, Fork).k == Step(x.k, OpOf(x, Fork))
  {
    hide CopySpace, WithStack, ViewOf;
  }

  lemma LoadEnabled(x: System, slots: set<nat>, t: nat, file: seq<Byte>, seg: Segment, n: nat)
    requires SystemOk(x, slots) && Sized(x) && Possible(x, LoadOnePage(t, file, seg, n))
    ensures Grows(x.k.tasks[t].view, ViewOf(LoadPage(x.s, x.spaces[t], file, seg, n).0, x.spaces[t]))
  {
    hide Inv, Private, LoadPage, ViewOf, Grows;
    PrivateSize(x.s, x.roots, slots, x.spaces[t]);
    LoadGrows(x.s, x.roots, slots, x.spaces[t], file, seg, n);
  }

  /** Every run of the system is a run of the task machine, so all that holds over runs of tasks
      (who may wake a task, how long a runnable task waits) holds over runs of the system. */
  lemma {:induction false} RunProjects(x: System, slots: set<nat>, es: seq<Event>) returns (ops: seq<Op>)
    requires SystemOk(x, slots) && Runs(x, es)
    ensures |ops| == |es| && TaskRuns.Runs(x.k, ops) && TaskRuns.After(x.k, ops, |ops|) == Run(x, es).k
    decreases |es|
  {
    hide SystemOk, Next, Possible, OpOf, Step, Enabled;
    if es == [] {
      ops := [];
    } else {
      StepProjects(x, slots, es[0]);
      SystemStepKeeps(x, slots, es[0]);
      var rest := RunProjects(Next(x, es[0]), slots, es[1..]);
      ops := [OpOf(x, es[0])] + rest;
      assert ops[1..] == rest;
    }
  }
}

/** The processor's view of tasks and memory together: in every reachable state a user-mode access
    to a page of a task is allowed exactly when the task's view says so. */
module SystemAccess {
  import opened PageTableEntries
  import opened PhysicalMemory
  import opened PageTables
  import opened AddressSpaces
  import opened ForkCopy
  import opened UserAccess
  import opened UserMemory
  import opened ElfLoader
  import opened Tasks
  import opened Delivery
  import opened KernelSystem
  import opened ProcessorAccess

  lemma PutByteOpen(s: Phys, roots: set<nat>, slots: set<nat>, r: nat, x: nat, b: Byte)
    requires Private(s, roots, slots) && r in roots && Readable(s.mem, r, x) && OpenTables(s.mem, roots)
    ensures OpenTables(PutByte(s.mem, r, x, b), roots)
  {
    hide OpenTables, Private, PteOf;
    LeafWriteOpen(s, roots, slots, r, Vpn(x), s.mem[LeafFrame(s.mem, r, Vpn(x))][x % 4096 := b]);
  }

  lemma {:induction false} PutBytesOpen(s: Phys, roots: set<nat>, slots: set<nat>, r: nat, x: nat, bs: seq<Byte>)
    requires Private(s, roots, slots) && r in roots && AllReadable(s.mem, r, x, |bs|) && OpenTables(s.mem, roots)
    ensures OpenTables(PutBytes(s.mem, r, x, bs), roots)
    decreases |bs|
  {
    hide OpenTables, Private, PutByte, Readable, SamePtes, BytesAre;
    if bs != [] {
      var k := |bs| - 1;
      var cs := bs[..k];
      forall y: nat | x <= y < x + |cs| ensures Readable(s.mem, r, y) {}
      PutBytesOpen(s, roots, slots, r, x, cs);
      PutBytesEffect(s, roots, slots, r, x, cs);
      var s1 := Phys(PutBytes(s.mem, r, x, cs), s.free);
      if Readable(s1.mem, r, x + k) { PutByteOpen(s1, roots, slots, r, x + k, bs[k]); }
    }
  }

  lemma TransferOpen(x: System, slots: set<nat>, o: Outcome)
    requires SystemOk(x, slots) && OpenTables(x.s.mem, x.roots)
    requires o.Delivered? ==> EndsChecked(x.s, x.spaces, o.message)
    requires o.Delivered? ==> x.spaces[o.message.sender] in x.roots && x.spaces[o.message.receiver] in x.roots
    ensures OpenTables(AfterTransfer(x, o).mem, x.roots)
  {
    hide OpenTables, Private, PutBytes, RangeOk, Inv, ViewsAgree, AllReadable;
    if o.Delivered? {
      var t := o.message;
      CheckedIsReadable(x.s, x.roots, slots, x.spaces[t.sender], t.src, t.count, false);
      CheckedIsReadable(x.s, x.roots, slots, x.spaces[t.receiver], t.dst, t.count, true);
      var bs := GetBytes(x.s.mem, x.spaces[t.sender], t.src, t.count);
      PutBytesOpen(x.s, x.roots, slots, x.spaces[t.receiver], t.dst, bs);
    }
  }

  lemma StackOpen(s: Phys, o: (Phys, Option<nat>), roots: set<nat>, slots: set<nat>)
    requires SpaceMade(s, o, roots, slots)
    requires OpenTables(o.0.mem, if o.1.Some? then roots + {o.1.value} else roots)
    ensures var w := WithStack(o); OpenTables(w.0.mem, if w.1.Some? then roots + {w.1.value} else roots)
  {
    hide OpenTables, UserView, PteOf, TableAt, Separated, LeavesHeld, LeavesNoTable, LeavesApart;
    if o.1.Some? {
      var roots' := roots + {o.1.value};
      FewerOpen(o.0.mem, roots', roots);
      if o.0.free != [] {
        FreeFrame(o.0, roots', slots);
        DataOpen(o.0, roots', slots, o.0.free[0], ZeroFrame());
      }
    }
  }

  lemma NewSpaceAnyOpen(s: Phys, roots: set<nat>, slots: set<nat>, c: nat)
    requires Private(s, roots, slots) && c in roots && OpenTables(s.mem, roots)
    ensures c < |s.mem| <= MAX_FRAMES && FreeListOk(s)
    ensures var o := NewSpace(s, c); OpenTables(o.0.mem, if o.1.Some? then roots + {o.1.value} else roots)
  {
    hide OpenTables, NewSpace, PteOf, TableAt, Separated;
    PrivateSize(s, roots, slots, c);
    if s.free == [] {
      NoNewSpace(s, c);
    } else {
      NewSpaceKeepsPrivate(s, roots, slots, c);
      NewSpaceOpen(s, roots, slots, c);
    }
  }

  lemma CopyAnyOpen(s: Phys, roots: set<nat>, slots: set<nat>, parent: nat)
    requires Private(s, roots, slots) && parent in roots && OpenTables(s.mem, roots)
    ensures parent < |s.mem| <= MAX_FRAMES && FreeListOk(s)
    ensures var o := CopySpace(s, parent); OpenTables(o.0.mem, if o.1.Some? then roots + {o.1.value} else roots)
  {
    hide OpenTables, CopySpace, PteOf, TableAt, Separated, LeavesHeld;
    CopySpaceOpen(s, roots, slots, parent);
  }

  lemma SendOpen(x: System, slots: set<nat>, target: nat, buf: nat, len: nat)
    requires SystemOk(x, slots) && OpenTables(x.s.mem, x.roots)
    ensures (x.k.current.Some? ==> x.k.current.value < |x.k.tasks|)
    ensures OpenTables(AfterTransfer(x, Tasks.Send(x.k, target, buf, len).1).mem, x.roots)
  {
    hide OpenTables, Private, Inv, Tasks.Send, EndsChecked, ViewsMatch, AfterTransfer;
    ShapeOf(x.k);
    var o := Tasks.Send(x.k, target, buf, len).1;
    if o.Delivered? {
      AllTruthful(x, slots);
      SendDelivers(x.s, x.k, x.spaces, x.roots, target, buf, len);
    }
    TransferOpen(x, slots, o);
  }

  lemma RecvOpen(x: System, slots: set<nat>, from: nat, buf: nat, len: nat)
    requires SystemOk(x, slots) && OpenTables(x.s.mem, x.roots)
    ensures (x.k.current.Some? ==> x.k.current.value < |x.k.tasks|)
    ensures OpenTables(AfterTransfer(x, Tasks.Recv(x.k, from, buf, len).1).mem, x.roots)
  {
    hide OpenTables, Private, Inv, Tasks.Recv, EndsChecked, ViewsMatch, AfterTransfer;
    ShapeOf(x.k);
    var o := Tasks.Recv(x.k, from, buf, len).1;
    if o.Delivered? {
      AllTruthful(x, slots);
      RecvDelivers(x.s, x.k, x.spaces, x.roots, from, buf, len);
    }
    TransferOpen(x, slots, o);
  }

  lemma ForkOpen(x: System, slots: set<nat>)
    requires SystemOk(x, slots) && Sized(x) && Possible(x, Fork) && OpenTables(x.s.mem, x.roots)
    ensures var x' := Next(x, Fork); OpenTables(x'.s.mem, x'.roots)
  {
    hide OpenTables, Inv, Private, CopySpace, WithStack, ViewOf, SpaceMade;
    if x.k.current.Some? && x.k.free != [] {
      CallerInUse(x, slots);
      var r := x.spaces[x.k.current.value];
      CopyMade(x.s, x.roots, slots, r);
      CopyAnyOpen(x.s, x.roots, slots, r);
      StackOpen(x.s, CopySpace(x.s, r), x.roots, slots);
    }
  }

  lemma CreateOpen(x: System, slots: set<nat>, template: nat)
    requires SystemOk(x, slots) && Sized(x) && template in x.roots && OpenTables(x.s.mem, x.roots)
    ensures var x' := Next(x, Create(template)); OpenTables(x'.s.mem, x'.roots)
  {
    hide OpenTables, Inv, Private, NewSpace, WithStack, ViewOf, SpaceMade;
    if x.k.free != [] {
      NewMade(x.s, x.roots, slots, template);
      NewSpaceAnyOpen(x.s, x.roots, slots, template);
      StackOpen(x.s, NewSpace(x.s, template), x.roots, slots);
    }
  }

  lemma SystemStepOpen(x: System, slots: set<nat>, e: Event)
    requires SystemOk(x, slots) && Possible(x, e) && OpenTables(x.s.mem, x.roots)
    ensures Sized(x) && var x' := Next(x, e); OpenTables(x'.s.mem, x'.roots)
  {
    OkSized(x, slots);
    hide OpenTables, Inv, Private, AfterTransfer, LoadPage, Tasks.Send, Tasks.Recv, Tasks.Wait, Tasks.Exit,
      Tasks.Tick, ViewOf, Spawned;
    match e
    case Send(target, buf, len) => SendOpen(x, slots, target, buf, len);
    case Recv(from, buf, len) => RecvOpen(x, slots, from, buf, len);
    case Fork => ForkOpen(x, slots);
    case Create(template) => CreateOpen(x, slots, template);
    case LoadOnePage(t, file, seg, n) => LoadPageOpen(x.s, x.roots, slots, x.spaces[t], file, seg, n);
    case _ =>
  }

  lemma {:induction false} SystemRunOpen(x: System, slots: set<nat>, es: seq<Event>)
    requires SystemOk(x, slots) && Runs(x, es) && OpenTables(x.s.mem, x.roots)
    ensures SystemOk(Run(x, es), slots) && OpenTables(Run(x, es).s.mem, Run(x, es).roots)
    decreases |es|
  {
    hide SystemOk, Next, Possible, Sized, OpenTables;
    if es != [] {
      SystemStepKeeps(x, slots, es[0]);
      SystemStepOpen(x, slots, es[0]);
      SystemRunOpen(Next(x, es[0]), slots, es[1..]);
    }
  }

  /** In every reachable state, what a task's view allows is what the processor allows the task. */
  lemma ViewIsProcessor(x: System, slots: set<nat>, es: seq<Event>, i: nat, n: nat, write: bool)
    requires SystemOk(x, slots) && Runs(x, es) && OpenTables(x.s.mem, x.roots)
    requires InUse(Run(x, es), i) && n < USER_PAGES
    ensures var x' := Run(x, es);
            && i < |x'.spaces|
            && (ProcessorAllows(x'.s.mem, x'.spaces[i], n, write) <==>
                  n in x'.k.tasks[i].view && LetsThrough(x'.k.tasks[i].view[n], write))
  {
    hide Runs, Run, OpenTables, ProcessorAllows, Private, Inv, PteOf, ViewOf;
    SystemRunOpen(x, slots, es);
    var x' := Run(x, es);
    ViewTruthful(x', slots, i);
    PrivateSlots(x'.s, x'.roots, slots);
    LeafDecides(x'.s.mem, x'.roots, slots, x'.spaces[i], n, write);
    assert Allowed(x'.k.tasks[i].view, n, write) <==> Allows(PteOf(x'.s.mem, x'.spaces[i], n), write);
  }
}

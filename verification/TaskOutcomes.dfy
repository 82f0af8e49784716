/** What each system call and each scheduling decision does, stated without the search loops that
    find it out: when it succeeds, whom it touches, and that it touches nobody else. */
module TaskOutcomes {
  import opened Words
  import opened PageTables
  import opened Tasks
  import opened TaskRuns

  /** Every slot except those in `changed` is as it was. */
  ghost predicate OnlyChanged(k: Kernel, k': Kernel, changed: set<nat>) {
    && |k'.tasks| == |k.tasks|
    && forall i: nat {:trigger k'.tasks[i]} :: i < |k.tasks| && i !in changed ==> k'.tasks[i] == k.tasks[i]
  }

  /** Nobody but c could run. */
  ghost predicate NobodyElse(ts: seq<Task>, c: nat) {
    forall i: nat {:trigger ts[i]} :: i < |ts| && i != c ==> ts[i].state != Runnable
  }

  /** Task p is the RUNNABLE task at the least cyclic distance after c. */
  ghost predicate Nearest(ts: seq<Task>, c: nat, p: nat) {
    && c < |ts| && p < |ts| && p != c && ts[p].state == Runnable
    && forall i: nat {:trigger Distance(|ts|, c, i)} :: i < |ts| && i != c && ts[i].state == Runnable ==>
         Distance(|ts|, c, p) <= Distance(|ts|, c, i)
  }

  /** What a scheduling decision of task c makes of table ts: the nearest other RUNNABLE task is
      RUNNING and current, c is RUNNABLE if it was RUNNING and as it was if not, and no other record
      changes; nothing changes when nobody else could run. */
  ghost predicate Decided(ts: seq<Task>, c: nat, k': Kernel)
    requires c < |ts|
  {
    if NobodyElse(ts, c) then k'.tasks == ts && k'.current == Some(c)
    else
      && k'.current.Some? && Nearest(ts, c, k'.current.value) && |k'.tasks| == |ts|
      && var p := k'.current.value;
      && k'.tasks[p] == ts[p].(state := Running)
      && k'.tasks[c] == ts[c].(state := if ts[c].state == Running then Runnable else ts[c].state)
      && forall i: nat {:trigger k'.tasks[i]} :: i < |ts| && i != c && i != p ==> k'.tasks[i] == ts[i]
  }

  lemma DispatchOutcome(k: Kernel)
    requires SlotsOk(k) && k.current.Some?
    ensures var k' := Dispatch(k);
            Decided(k.tasks, k.current.value, k') && k'.free == k.free && k'.ticks == k.ticks
  {
    hide PickNext, Distance;
    var c := k.current.value;
    PickRunnable(k.tasks, c);
    forall i: nat | i < |k.tasks| && i != c && k.tasks[i].state == Runnable
      ensures var p := PickNext(k.tasks, c);
              p != c && k.tasks[p].state == Runnable && Distance(|k.tasks|, c, p) <= Distance(|k.tasks|, c, i)
    {
      PickIsNearest(k.tasks, c, i);
    }
  }

  /** A tick advances the counter, modulo 2^64; on a multiple of 20, with a task current, it takes a
      scheduling decision, and otherwise it changes nothing. */
  lemma TickOutcome(k: Kernel)
    requires SlotsOk(k)
    ensures var k' := Tick(k);
            && k'.ticks == (k.ticks + 1) % 0x1_0000_0000_0000_0000 && k'.free == k.free
            && (if k'.ticks % 20 != 0 || k.current.None? then k'.tasks == k.tasks && k'.current == k.current
                else Decided(k.tasks, k.current.value, k'))
  {
    hide Dispatch, Decided;
    if k.current.Some? {
      var k1 := k.(ticks := (k.ticks + 1) % TWO64);
      assert SlotsOk(k1);
      DispatchOutcome(k1);
    }
  }

  /** A running task that a tick preempts is picked again within MAX_TASKS - 1 further decisions,
      and within (MAX_TASKS - 1) * 20 further ticks. */
  lemma PreemptedRunsAgain(k: Kernel, ops: seq<Op>)
    requires Inv(k) && k.current.Some? && k.tasks[k.current.value].state == Running && k.ticks < TWO64
    requires Tick(k).current != k.current && Runs(Tick(k), ops)
    requires Decisions(Tick(k), ops) >= |k.tasks| - 1 || Ticks(ops) >= (|k.tasks| - 1) * 20
    ensures exists j: nat :: j <= |ops| && After(Tick(k), ops, j).current == k.current
  {
    hide Runs, After, Decisions, Ticks, Tick, NoMissedRendezvous, NoLostWakeup, BuffersOk;
    TickOutcome(k);
    TickKeeps(k);
    BoundedWaiting(Tick(k), ops, k.current.value);
  }

  /** A caller that blocks is left BLOCKED with what it waits for, and a decision is taken. */
  lemma BlockOutcome(k: Kernel, reason: Reason, peer: nat, buf: nat, len: nat)
    requires SlotsOk(k) && k.current.Some?
    ensures var k', c := Block(k, reason, peer, buf, len), k.current.value;
            var t := k.tasks[c].(state := Blocked, reason := reason, peer := peer, buf := buf, len := len);
            Decided(k.tasks[c := t], c, k') && k'.free == k.free && k'.ticks == k.ticks
  {
    hide Dispatch, Decided;
    var c := k.current.value;
    var t := BlockedTask(k.tasks[c], reason, peer, buf, len);
    SlotKept(k, c, t);
    DispatchOutcome(SetTask(k, c, t));
  }

  /** Caller c of k has gone to sleep in k': its record says for what, and a decision was taken. */
  ghost predicate Asleep(k: Kernel, k': Kernel, c: nat, reason: Reason, peer: nat, buf: nat, len: nat) {
    && c < |k.tasks| == |k'.tasks|
    && var t := k'.tasks[c];
    && t.state == Blocked && t.reason == reason && t.peer == peer && t.buf == buf && t.len == len
    && t.id == k.tasks[c].id && t.parent == k.tasks[c].parent && t.code == k.tasks[c].code && t.view == k.tasks[c].view
    && Decided(k.tasks[c := t], c, k') && k'.free == k.free && k'.ticks == k.ticks
  }

  lemma BlockSleeps(k: Kernel, reason: Reason, peer: nat, buf: nat, len: nat)
    requires SlotsOk(k) && k.current.Some?
    ensures Asleep(k, Block(k, reason, peer, buf, len), k.current.value, reason, peer, buf, len)
  {
    hide Block, Nearest, NobodyElse;
    BlockOutcome(k, reason, peer, buf, len);
  }

  /** The length a message call works with. */
  function Clipped(length: nat): nat { if length > 256 then 256 else length }

  /** Task t waits for a message it would take from task c. */
  predicate Expects(t: Task, c: nat) {
    t.state == Blocked && t.reason == OnRecv && (t.peer == ANY || t.peer == c)
  }

  /** A send fails exactly for a bad buffer or an unknown target, completes exactly when the target
      waits for it, and otherwise blocks. */
  lemma SendOutcome(k: Kernel, target: nat, buf: nat, length: nat)
    requires Inv(k) && k.current.Some?
    ensures var (k', o) := Send(k, target, buf, length); var c, len := k.current.value, Clipped(length);
            var valid := BufferOk(k.tasks[c].view, buf, len, false)
                         && target < |k.tasks| && k.tasks[target].state != Unused;
            && (o.Failed? <==> !valid) && (o.Failed? ==> k' == k)
            && (o.Delivered? <==> valid && Expects(k.tasks[target], c))
            && (o.Delivered? ==>
                 && OnlyChanged(k, k', {target}) && k'.current == k.current && k'.free == k.free && k'.ticks == k.ticks
                 && k'.tasks[target] == k.tasks[target].(state := Runnable, reason := NoReason)
                 && o.message.sender == c && o.message.receiver == target
                 && o.message.src == buf && o.message.dst == k.tasks[target].buf
                 && o.message.count == if len < k.tasks[target].len then len else k.tasks[target].len)
            && (o.Waits? ==> Asleep(k, k', c, OnSend, target, buf, len))
            && !o.Returned?
  {
    hide BufferOk, Find, Block, NoMissedRendezvous, NoLostWakeup, BuffersOk, Asleep;
    var c, len := k.current.value, Min(length, MAX_MESSAGE);
    FindIsSlot(k, target);
    BlockSleeps(k, OnSend, target, buf, len);
    if target < |k.tasks| && AcceptsFrom(k.tasks[target], c) {
      ReceiverStillValid(k, target, c, len);
    }
  }

  /** A blocked sender that this receive accepts. */
  predicate Sends(t: Task, to: nat, from: nat) {
    t.state == Blocked && t.reason == OnSend && t.peer == to && (from == ANY || t.id == from)
  }

  /** A receive fails exactly for a bad buffer, completes exactly when some accepted sender is
      blocked on it, taking the lowest slot, and otherwise blocks. */
  lemma RecvOutcome(k: Kernel, from: nat, buf: nat, length: nat)
    requires Inv(k) && k.current.Some?
    ensures var (k', o) := Recv(k, from, buf, length); var c, len := k.current.value, Clipped(length);
            && (o.Failed? <==> !BufferOk(k.tasks[c].view, buf, len, true)) && (o.Failed? ==> k' == k)
            && (!o.Failed? ==> (o.Delivered? <==> exists s: nat {:trigger k.tasks[s]} ::
                  s < |k.tasks| && Sends(k.tasks[s], c, from)))
            && (o.Delivered? ==>
                 && var s := o.message.sender;
                 && s < |k.tasks| && Sends(k.tasks[s], c, from)
                 && (forall j: nat {:trigger k.tasks[j]} :: j < s ==> !Sends(k.tasks[j], c, from))
                 && o.message.receiver == c && o.message.src == k.tasks[s].buf && o.message.dst == buf
                 && o.message.count == (if len < k.tasks[s].len then len else k.tasks[s].len)
                 && OnlyChanged(k, k', {s}) && k'.current == k.current && k'.free == k.free && k'.ticks == k.ticks
                 && k'.tasks[s] == k.tasks[s].(state := Runnable, reason := NoReason, len := o.message.count))
            && (o.Waits? ==> Asleep(k, k', c, OnRecv, from, buf, len))
            && !o.Returned?
  {
    hide BufferOk, FindSender, Block, NoMissedRendezvous, NoLostWakeup, BuffersOk, Asleep;
    var c, len := k.current.value, Min(length, MAX_MESSAGE);
    BlockSleeps(k, OnRecv, from, buf, len);
    forall s: nat | s < |k.tasks| ensures Offers(k.tasks[s], c, from, len) <==> Sends(k.tasks[s], c, from) {
      if k.tasks[s].state == Blocked && k.tasks[s].reason == OnSend { SenderStillOffers(k, s, c, from, len); }
    }
  }

  /** Task t sleeps until child c, or any child, exits. */
  predicate WaitsFor(t: Task, c: nat) {
    t.state == Blocked && t.reason == OnWait && (t.peer == ANY || t.peer == c)
  }

  /** An exit marks the caller DEAD with its code and wakes its parent exactly when the parent is
      waiting for it. */
  lemma ExitOutcome(k: Kernel, code: nat)
    requires Inv(k) && k.current.Some?
    ensures var k', c := Exit(k, code), k.current.value; var p := k.tasks[c].parent;
            && k'.current == k.current && k'.free == k.free && k'.ticks == k.ticks
            && OnlyChanged(k, k', {c, p}) && k'.tasks[c] == k.tasks[c].(state := Dead, code := code)
            && (p < |k.tasks| ==>
                  k'.tasks[p] == if WaitsFor(k.tasks[p], c)
                                 then k.tasks[p].(state := Runnable, reason := NoReason) else k.tasks[p])
  {
    hide BufferOk, FindWaiter, NoMissedRendezvous, NoLostWakeup, BuffersOk;
  }

  /** Task t is a child of c that wait(child) asks for. */
  predicate AskedFor(t: Task, c: nat, child: nat) {
    t.state != Unused && t.parent == c && (child == ANY || t.id == child)
  }

  /** A round of wait reaps exactly when a matching child has exited, fails exactly when there is
      no matching child, and otherwise blocks. */
  lemma WaitOutcome(k: Kernel, child: nat)
    requires Inv(k) && k.current.Some? && k.tasks[k.current.value].state != Dead
    ensures var (k', o) := Wait(k, child); var c := k.current.value;
            && (o.Returned? <==> exists d: nat {:trigger k.tasks[d]} ::
                  d < |k.tasks| && AskedFor(k.tasks[d], c, child) && k.tasks[d].state == Dead)
            && (o.Returned? ==>
                 && var d := o.value;
                 && d < |k.tasks| && AskedFor(k.tasks[d], c, child) && k.tasks[d].state == Dead
                 && (forall j: nat {:trigger k.tasks[j]} :: j < d ==>
                       !(AskedFor(k.tasks[j], c, child) && k.tasks[j].state == Dead))
                 && k'.tasks[d].state == Unused && k'.free == [d] + k.free
                 && OnlyChanged(k, k', {d}) && k'.current == k.current && k'.ticks == k.ticks)
            && (o.Failed? <==> forall d: nat {:trigger k.tasks[d]} :: d < |k.tasks| ==> !AskedFor(k.tasks[d], c, child))
            && (o.Failed? ==> k' == k)
            && (o.Waits? ==> Asleep(k, k', c, OnWait, child, 0, 0))
            && !o.Delivered?
  {
    hide FindChild, Block, NoMissedRendezvous, NoLostWakeup, BuffersOk, Asleep;
    BlockSleeps(k, OnWait, child, 0, 0);
  }

  /** A created task takes the first free slot, runnable and without a parent, when a slot is free
      and the frames could be had; otherwise nothing changes. */
  lemma CreateOutcome(k: Kernel, ok: bool, view: View)
    requires Inv(k)
    ensures var (k', o) := Spawn(k, ok, NO_PARENT, view);
            && (o.Some? <==> ok && exists i: nat {:trigger k.tasks[i]} ::
                  0 < i < |k.tasks| && k.tasks[i].state == Unused)
            && (o.Some? ==>
                 && var i := o.value;
                 && 0 < i < |k.tasks| && k.tasks[i].state == Unused && k.free == [i] + k'.free && i !in k'.free
                 && k'.tasks[i].state == Runnable && k'.tasks[i].reason == NoReason && k'.tasks[i].id == i
                 && k'.tasks[i].parent == 0xFFFF_FFFF_FFFF_FFFF && k'.tasks[i].code == 0 && k'.tasks[i].view == view
                 && OnlyChanged(k, k', {i}) && k'.current == k.current && k'.ticks == k.ticks)
            && (o.None? ==> k' == k)
  {
    hide NoMissedRendezvous, NoLostWakeup, BuffersOk;
    FirstFree(k);
  }

  lemma FirstFree(k: Kernel)
    requires SlotsOk(k)
    ensures k.free == [] <==> forall i: nat {:trigger k.tasks[i]} :: 0 < i < |k.tasks| ==> k.tasks[i].state != Unused
    ensures k.free != [] ==>
              && 0 < k.free[0] < |k.tasks| && k.free[0] !in k.free[1..] && k.free == [k.free[0]] + k.free[1..]
              && k.tasks[k.free[0]].state == Unused && k.tasks[k.free[0]] == FreedTask(k.tasks[k.free[0]])
              && k.tasks[k.free[0] := k.tasks[k.free[0]]] == k.tasks
  {
    if k.free != [] {
      assert k.free[0] in k.free;
    }
  }

  /** A fork succeeds exactly when a slot is free and the frames could be had; the child takes an
      unused slot, runnable, with the caller as parent.  A fork that fails changes nothing. */
  lemma ForkOutcome(k: Kernel, ok: bool, view: View)
    requires Inv(k) && k.current.Some?
    ensures var (k', o) := Fork(k, ok, view); var c := k.current.value;
            && (o.Returned? <==>
                  ok && exists i: nat {:trigger k.tasks[i]} :: 0 < i < |k.tasks| && k.tasks[i].state == Unused)
            && (o.Returned? ==>
                 && var i := o.value;
                 && 0 < i < |k.tasks| && k.tasks[i].state == Unused && i != c && k.free == [i] + k'.free &&
                      i !in k'.free
                 && k'.tasks[i].state == Runnable && k'.tasks[i].reason == NoReason && k'.tasks[i].id == i
                 && k'.tasks[i].parent == c && k'.tasks[i].code == 0 && k'.tasks[i].view == view
                 && OnlyChanged(k, k', {i}) && k'.current == k.current && k'.ticks == k.ticks)
            && (!o.Returned? ==> o.Failed? && k' == k)
  {
    hide NoMissedRendezvous, NoLostWakeup, BuffersOk;
    FirstFree(k);
  }

  /** The boot code enters a task: it is RUNNING and current, and nothing else changes. */
  lemma StartOutcome(k: Kernel, t: nat)
    requires Inv(k) && Enabled(k, OpStart(t))
    ensures var k' := Step(k, OpStart(t));
            && k'.current == Some(t) && OnlyChanged(k, k', {t}) && k'.tasks[t] == k.tasks[t].(state := Running)
            && k'.free == k.free && k'.ticks == k.ticks
  {
  }
}

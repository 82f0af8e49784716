/** The task table as the kernel keeps it: records updated in place, unused slots chained through
    next_free, and the search loops of kernel/src/task.c, syscall.c, scheduler.c and timer.c.  Each
    method carries out one function of the step machine. */
module TaskTable {
  import opened Words
  import opened PageTables
  import opened LinkedLists
  import opened Tasks

  class Machine {
    var table: seq<Task>
    var nextFree: seq<int>
    var freeHead: int
    var current: Option<nat>
    var ticks: nat
    ghost var free: seq<nat>

    ghost function Abs(): Kernel
      reads this
    {
      Kernel(table, current, free, ticks)
    }

    ghost predicate Chained()
      reads this
    {
      IsList(nextFree, freeHead, free) && |nextFree| == |table|
    }

    ghost predicate Valid()
      reads this
    {
      Inv(Abs()) && Chained()
    }

    /** task_table_init: slots are chained from the last down, so the chain ascends. */
    constructor (n: nat)
      requires 0 < n < ANY
      ensures Valid() && Abs() == Init(n, 0)
    {
      table := FreshTable(n);
      nextFree := seq(n, i => NULL);
      freeHead := NULL;
      current := None;
      ticks := 0;
      free := [];
      new;
      hide Inv, FreshTable, SlotsFrom, IsList;
      ChainSlots();
      InitInv(n, 0);
    }

    /** The loop of task_table_init. */
    method ChainSlots()
      requires |table| > 0 && |nextFree| == |table| && freeHead == NULL && free == []
      modifies this`nextFree, this`freeHead, this`free
      ensures Chained() && free == SlotsFrom(1, |table|)
    {
      hide IsList;
      var i: nat := |table| - 1;
      EmptyList(nextFree);
      while i >= 1
        invariant 0 <= i < |table| && Chained() && free == SlotsFrom(i + 1, |table|)
        decreases i
      {
        ListPush(nextFree, freeHead, free, i);
        nextFree := nextFree[i := freeHead];
        freeHead := i;
        free := [i] + free;
        i := i - 1;
      }
    }

    method SlotAlloc() returns (slot: Option<nat>)
      requires Chained()
      modifies this`nextFree, this`freeHead, this`free
      ensures Chained()
      ensures old(free) == [] ==> slot == None && free == []
      ensures old(free) != [] ==>
                && slot == Some(old(free)[0]) && free == old(free)[1..]
                && old(free)[0] !in free && old(free)[0] < |table|
    {
      if freeHead == NULL {
        return None;
      }
      ListPop(nextFree, freeHead, free);
      var t := freeHead;
      freeHead := nextFree[t];
      nextFree := nextFree[t := NULL];
      free := free[1..];
      return Some(t);
    }

    method SlotFree(i: nat)
      requires Chained() && i < |table| && i !in free
      modifies this`table, this`nextFree, this`freeHead, this`free
      ensures Chained() && free == [i] + old(free) && table == old(table)[i := FreedTask(old(table)[i])]
    {
      table := table[i := table[i].(state := Unused, reason := NoReason, parent := NO_PARENT, code := 0)];
      ListPush(nextFree, freeHead, free, i);
      nextFree := nextFree[i := freeHead];
      freeHead := i;
      free := [i] + free;
    }

    /** The shared part of task_create and task_fork. */
    method NewTask(ok: bool, parent: nat, view: View) returns (slot: Option<nat>)
      requires Chained() && Shape(Abs())
      modifies this`table, this`nextFree, this`freeHead, this`free
      ensures Chained() && (Abs(), slot) == Spawn(old(Abs()), ok, parent, view)
    {
      slot := SlotAlloc();
      if slot.None? {
        return;
      }
      var i := slot.value;
      if !ok {
        SlotFree(i);
        assert old(free) == [i] + old(free)[1..];
        return None;
      }
      table := table[i := table[i].(view := view, state := Runnable, parent := parent, code := 0)];
    }

    /** scheduler_pick_next */
    method PickTask(start: nat) returns (found: nat)
      requires start < |table|
      ensures found == PickNext(table, start)
    {
      var n := |table|;
      var offset := 1;
      while offset <= n
        invariant 1 <= offset <= n + 1 && Search(table, start, offset) == Search(table, start, 1)
      {
        var idx := (start + offset) % n;
        assert idx == SlotAfter(n, start, offset);
        if table[idx].state == Runnable {
          return idx;
        }
        offset := offset + 1;
      }
      return start;
    }

    /** Makes `next` current, as both the tick handler and task_block_and_switch do. */
    method Switch()
      requires Shape(Abs()) && current.Some?
      modifies this`table, this`current
      ensures Abs() == Dispatch(old(Abs())) && |table| == old(|table|)
    {
      hide PickNext;
      var prev := current.value;
      var next := PickTask(prev);
      if next == prev {
        return;
      }
      if table[prev].state == Running {
        table := table[prev := table[prev].(state := Runnable)];
      }
      table := table[next := table[next].(state := Running)];
      current := Some(next);
    }

    /** timer_tick_handler */
    method TimerTick()
      requires Valid()
      modifies this`table, this`current, this`ticks
      ensures Valid() && Abs() == Tick(old(Abs()))
    {
      hide Inv, IsList, Dispatch;
      ShapeOf(Abs());
      StepKeeps(Abs(), OpTick);
      ticks := (ticks + 1) % TWO64;
      if ticks % TIME_SLICE_TICKS != 0 {
        return;
      }
      if current.None? {
        return;
      }
      Switch();
    }

    /** task_block_and_switch */
    method BlockAndSwitch(reason: Reason, peer: nat, buf: nat, len: nat)
      requires Shape(Abs()) && current.Some?
      modifies this`table, this`current
      ensures Abs() == Block(old(Abs()), reason, peer, buf, len) && |table| == old(|table|)
    {
      hide Dispatch;
      var self := current.value;
      table := table[self := table[self].(state := Blocked, reason := reason, peer := peer, buf := buf, len := len)];
      Switch();
    }

    /** task_wake */
    method Wake(i: nat)
      requires i < |table|
      modifies this`table
      ensures table == old(table)[i := Woken(old(table)[i])]
    {
      table := table[i := table[i].(state := Runnable, reason := NoReason)];
    }

    /** task_find_by_id */
    method FindById(id: nat) returns (r: Option<nat>)
      ensures var i := Find(table, id, 0); r == if i < |table| then Some(i) else None
    {
      for i := 0 to |table|
        invariant Find(table, id, i) == Find(table, id, 0)
      {
        if table[i].state != Unused && table[i].id == id {
          return Some(i);
        }
      }
      return None;
    }

    method SysSend(target: nat, buf: nat, length: nat) returns (outcome: Outcome)
      requires Valid() && Enabled(Abs(), OpSend(target, buf, length))
      modifies this`table, this`current
      ensures Valid() && (Abs(), outcome) == Send(old(Abs()), target, buf, length)
    {
      hide Inv, IsList, Block, BufferOk, Find;
      ShapeOf(Abs());
      StepKeeps(Abs(), OpSend(target, buf, length));
      if current.None? {
        return Failed;
      }
      var c, len := current.value, length;
      if len > MAX_MESSAGE {
        len := MAX_MESSAGE;
      }
      if !BufferOk(table[c].view, buf, len, false) {
        return Failed;
      }
      var found := FindById(target);
      if found.None? {
        return Failed;
      }
      var r := found.value;
      var peer := table[r];
      if peer.state == Blocked && peer.reason == OnRecv && (peer.peer == ANY || peer.peer == table[c].id) {
        var count := if len < peer.len then len else peer.len;
        if !BufferOk(peer.view, peer.buf, count, true) {
          return Failed;
        }
        Wake(r);
        return Delivered(Transfer(c, r, buf, peer.buf, count));
      }
      BlockAndSwitch(OnSend, target, buf, len);
      return Waits;
    }

    /** The search loop of sys_recv. */
    method FindOffer(id: nat, from: nat, len: nat) returns (s: nat)
      ensures s == FindSender(table, id, from, len, 0)
    {
      hide BufferOk;
      s := 0;
      while s < |table|
        invariant 0 <= s <= |table| && FindSender(table, id, from, len, s) == FindSender(table, id, from, len, 0)
      {
        var t := table[s];
        if t.state == Blocked && t.reason == OnSend && t.peer == id && (from == ANY || t.id == from) {
          var count := if len < t.len then len else t.len;
          if BufferOk(t.view, t.buf, count, false) {
            return;
          }
        }
        s := s + 1;
      }
    }

    method SysRecv(from: nat, buf: nat, length: nat) returns (outcome: Outcome)
      requires Valid() && Enabled(Abs(), OpRecv(from, buf, length))
      modifies this`table, this`current
      ensures Valid() && (Abs(), outcome) == Recv(old(Abs()), from, buf, length)
    {
      hide Inv, IsList, Block, BufferOk, FindSender;
      ShapeOf(Abs());
      StepKeeps(Abs(), OpRecv(from, buf, length));
      if current.None? {
        return Failed;
      }
      var c, len := current.value, length;
      if len > MAX_MESSAGE {
        len := MAX_MESSAGE;
      }
      if !BufferOk(table[c].view, buf, len, true) {
        return Failed;
      }
      var s := FindOffer(table[c].id, from, len);
      if s == |table| {
        BlockAndSwitch(OnRecv, from, buf, len);
        return Waits;
      }
      var peer := table[s];
      var count := if len < peer.len then len else peer.len;
      table := table[s := peer.(len := count)];
      Wake(s);
      assert table == old(table)[s := Woken(peer.(len := count))];
      return Delivered(Transfer(s, c, peer.buf, buf, count));
    }

    method SysExit(code: nat)
      requires Valid() && Enabled(Abs(), OpExit(code))
      modifies this`table
      ensures Valid() && Abs() == Exit(old(Abs()), code)
    {
      hide Inv, IsList, FindWaiter;
      ShapeOf(Abs());
      StepKeeps(Abs(), OpExit(code));
      if current.None? {
        return;
      }
      var c := current.value;
      table := table[c := table[c].(code := code, state := Dead)];
      var w := FindParent(table[c].parent, table[c].id);
      if w < |table| {
        Wake(w);
      }
    }

    /** The search loop of sys_exit. */
    method FindParent(parent: nat, id: nat) returns (w: nat)
      ensures w == FindWaiter(table, parent, id, 0)
    {
      w := 0;
      while w < |table|
        invariant 0 <= w <= |table| && FindWaiter(table, parent, id, w) == FindWaiter(table, parent, id, 0)
      {
        var t := table[w];
        if t.state == Blocked && t.reason == OnWait && t.id == parent && (t.peer == ANY || t.peer == id) {
          return;
        }
        w := w + 1;
      }
    }

    /** The two search loops of sys_wait. */
    method FindChildSlot(id: nat, child: nat, dead: bool) returns (w: nat)
      ensures w == FindChild(table, id, child, dead, 0)
    {
      w := 0;
      while w < |table|
        invariant 0 <= w <= |table| && FindChild(table, id, child, dead, w) == FindChild(table, id, child, dead, 0)
      {
        var t := table[w];
        if t.state != Unused && t.parent == id && (child == ANY || t.id == child) && (!dead || t.state == Dead) {
          return;
        }
        w := w + 1;
      }
    }

    /** task_destroy */
    method Destroy(i: nat)
      requires Chained() && i < |table| && (table[i].state != Unused ==> i !in free)
      modifies this`table, this`nextFree, this`freeHead, this`free
      ensures Chained()
      ensures Abs() == if old(table)[i].state == Unused then old(Abs()) else Reap(old(Abs()), i)
    {
      if table[i].state == Unused {
        return;
      }
      table := table[i := table[i].(view := map[])];
      SlotFree(i);
    }

    /** One round of sys_wait. */
    method SysWait(child: nat) returns (outcome: Outcome)
      requires Valid() && Enabled(Abs(), OpWait(child))
      modifies this`table, this`current, this`nextFree, this`freeHead, this`free
      ensures Valid() && (Abs(), outcome) == Wait(old(Abs()), child)
    {
      hide Inv, IsList, FindChild, Block;
      ShapeOf(Abs());
      StepKeeps(Abs(), OpWait(child));
      if current.None? {
        return Failed;
      }
      var id := table[current.value].id;
      var d := FindChildSlot(id, child, true);
      if d < |table| {
        var reaped := table[d].id;
        InUse(Abs(), d);
        Destroy(d);
        return Returned(reaped);
      }
      var any := FindChildSlot(id, child, false);
      if any == |table| {
        return Failed;
      }
      BlockAndSwitch(OnWait, child, 0, 0);
      return Waits;
    }

    method SysFork(ok: bool, view: View) returns (outcome: Outcome)
      requires Valid() && Enabled(Abs(), OpFork(ok, view))
      modifies this`table, this`nextFree, this`freeHead, this`free
      ensures Valid() && (Abs(), outcome) == Fork(old(Abs()), ok, view)
    {
      hide Inv, IsList, Spawn;
      ShapeOf(Abs());
      StepKeeps(Abs(), OpFork(ok, view));
      if current.None? {
        return Failed;
      }
      var child := NewTask(ok, table[current.value].id, view);
      SpawnIds(old(Abs()), ok, old(table)[current.value].id, view);
      if child.None? {
        return Failed;
      }
      return Returned(table[child.value].id);
    }

    /** task_create and task_create_kernel */
    method CreateTask(ok: bool, view: View) returns (slot: Option<nat>)
      requires Valid()
      modifies this`table, this`nextFree, this`freeHead, this`free
      ensures Valid() && (Abs(), slot) == Spawn(old(Abs()), ok, NO_PARENT, view)
    {
      hide Inv, IsList, Spawn;
      ShapeOf(Abs());
      StepKeeps(Abs(), OpCreate(ok, view));
      slot := NewTask(ok, NO_PARENT, view);
    }
  }

  lemma EmptyList(next: seq<int>)
    ensures IsList(next, NULL, [])
  {
  }

  lemma InUse(k: Kernel, i: nat)
    requires Inv(k) && i < |k.tasks| && k.tasks[i].state != Unused
    ensures i !in k.free
  {
  }

  lemma SpawnIds(k: Kernel, ok: bool, parent: nat, view: View)
    requires Shape(k)
    ensures var (k', o) := Spawn(k, ok, parent, view);
            |k'.tasks| == |k.tasks| && (o.Some? ==> o.value < |k.tasks| && k'.tasks[o.value].id == k.tasks[o.value].id)
  {
  }
}

/** The task table, the round-robin scheduler, blocking message passing, and exit/wait
    (kernel/src/task.c, syscall.c, scheduler.c, timer.c) as a machine of atomic steps: system
    calls enter with interrupts off, so each runs undisturbed up to the point where it blocks. */
module Tasks {
  import opened Words
  import opened PageTableEntries
  import opened PageTables
  import opened UserAccess

  /** IPC_ANY_SENDER; the same word marks a task without a parent. */
  const ANY: nat := 0xFFFF_FFFF_FFFF_FFFF
  const NO_PARENT: nat := ANY
  const MAX_MESSAGE: nat := 256
  const TIME_SLICE_TICKS: nat := 20

  /** The user-half translation of a task's address space: page number to entry. */
  type View = map<nat, nat>

  datatype State = Unused | Runnable | Running | Blocked | Dead
  datatype Reason = NoReason | OnRecv | OnSend | OnWait

  datatype Task = Task(
    id: nat, state: State, reason: Reason, peer: nat, buf: nat, len: nat,
    parent: nat, code: nat, view: View)

  /** `free` is the chain of unused slots hanging off task_free_list. */
  datatype Kernel = Kernel(tasks: seq<Task>, current: Option<nat>, free: seq<nat>, ticks: nat)

  // ----- user buffers, on views

  predicate ByteIn(view: View, x: nat, write: bool) {
    x < USER_TOP && Vpn(x) in view && Allows(view[Vpn(x)], write)
  }

  /** What uva_check_range accepts. */
  predicate BufferOk(view: View, uva: nat, len: nat, write: bool) {
    len == 0 || (uva + len < TWO64 && forall x: nat {:trigger ByteIn(view, x, write)} :: uva <= x < uva + len ==>
        ByteIn(view, x, write))
  }

  predicate StillAllowed(view: View, view': View, n: nat, write: bool) {
    n in view && Allows(view[n], write) ==> n in view' && Allows(view'[n], write)
  }

  /** User mappings only grow: what was accessible stays accessible. */
  ghost predicate Grows(view: View, view': View) {
    forall n: nat, w: bool {:trigger StillAllowed(view, view', n, w)} :: StillAllowed(view, view', n, w)
  }

  function Min(a: nat, b: nat): (m: nat)
    ensures m <= a && m <= b && (m == a || m == b)
  {
    if a < b then a else b
  }

  // ----- scheduling

  /** The slot `offset` places after `start`, cyclically. */
  function SlotAfter(n: nat, start: nat, offset: nat): (i: nat)
    requires n > 0
    ensures i < n
  {
    (start + offset) % n
  }

  /** Offset of the first RUNNABLE task, searching cyclically after slot `start`; n + 1 when none. */
  function Search(tasks: seq<Task>, start: nat, offset: nat): (o: nat)
    requires start < |tasks| && 1 <= offset <= |tasks| + 1
    ensures offset <= o <= |tasks| + 1
    decreases |tasks| + 1 - offset
  {
    if offset == |tasks| + 1 then offset
    else if tasks[SlotAfter(|tasks|, start, offset)].state == Runnable then offset
    else Search(tasks, start, offset + 1)
  }

  /** scheduler_pick_next; no idle task is ever set. */
  function PickNext(tasks: seq<Task>, start: nat): (t: nat)
    requires start < |tasks|
    ensures t < |tasks|
  {
    var o := Search(tasks, start, 1);
    if o <= |tasks| then SlotAfter(|tasks|, start, o) else start
  }

  /** The common tail of the timer tick and of task_block_and_switch. */
  function Dispatch(k: Kernel): Kernel
    requires k.current.Some? && k.current.value < |k.tasks|
  {
    var prev := k.current.value;
    var next := PickNext(k.tasks, prev);
    if next == prev then k
    else
      var p := k.tasks[prev];
      var tasks := if p.state == Running then k.tasks[prev := p.(state := Runnable)] else k.tasks;
      k.(tasks := tasks[next := tasks[next].(state := Running)], current := Some(next))
  }

  function Tick(k: Kernel): Kernel
    requires k.current.Some? ==> k.current.value < |k.tasks|
  {
    var k' := k.(ticks := (k.ticks + 1) % TWO64);
    if k'.ticks % TIME_SLICE_TICKS != 0 || k.current.None? then k' else Dispatch(k')
  }

  function SetTask(k: Kernel, i: nat, t: Task): Kernel
    requires i < |k.tasks|
  {
    k.(tasks := k.tasks[i := t])
  }

  function BlockedTask(t: Task, reason: Reason, peer: nat, buf: nat, len: nat): Task {
    t.(state := Blocked, reason := reason, peer := peer, buf := buf, len := len)
  }

  /** task_block_and_switch: returns with the caller still current when nothing else can run. */
  function Block(k: Kernel, reason: Reason, peer: nat, buf: nat, len: nat): Kernel
    requires k.current.Some? && k.current.value < |k.tasks|
  {
    var c := k.current.value;
    Dispatch(SetTask(k, c, BlockedTask(k.tasks[c], reason, peer, buf, len)))
  }

  function Woken(t: Task): Task { t.(state := Runnable, reason := NoReason) }

  // ----- slots

  function FreedTask(t: Task): Task {
    t.(state := Unused, reason := NoReason, parent := NO_PARENT, code := 0)
  }

  /** task_slot_alloc, the allocations, and on failure task_slot_free: a new task, or nothing. */
  function Spawn(k: Kernel, ok: bool, parent: nat, view: View): (Kernel, Option<nat>)
    requires k.free != [] ==> k.free[0] < |k.tasks|
  {
    if k.free == [] then (k, None)
    else
      var i := k.free[0];
      if !ok then (SetTask(k, i, FreedTask(k.tasks[i])), None)
      else
        var t := k.tasks[i].(state := Runnable, parent := parent, code := 0, view := view);
        (SetTask(k, i, t).(free := k.free[1..]), Some(i))
  }

  // ----- system calls

  datatype Transfer = Transfer(sender: nat, receiver: nat, src: nat, dst: nat, count: nat)

  /** What a call did: it failed with -1, it returned a value, or it blocked its caller. */
  datatype Outcome = Failed | Returned(value: nat) | Delivered(message: Transfer) | Waits

  predicate AcceptsFrom(receiver: Task, id: nat) {
    receiver.state == Blocked && receiver.reason == OnRecv && (receiver.peer == ANY || receiver.peer == id)
  }

  /** task_find_by_id */
  function Find(tasks: seq<Task>, id: nat, from: nat): (i: nat)
    requires from <= |tasks|
    ensures from <= i <= |tasks|
    ensures i < |tasks| ==> tasks[i].state != Unused && tasks[i].id == id
    ensures forall j :: from <= j < i ==> tasks[j].state == Unused || tasks[j].id != id
    decreases |tasks| - from
  {
    if from == |tasks| then from
    else if tasks[from].state != Unused && tasks[from].id == id then from
    else Find(tasks, id, from + 1)
  }

  function Send(k: Kernel, target: nat, buf: nat, length: nat): (Kernel, Outcome)
    requires k.current.Some? ==> k.current.value < |k.tasks|
  {
    if k.current.None? then (k, Failed)
    else
      var c, len := k.current.value, Min(length, MAX_MESSAGE);
      if !BufferOk(k.tasks[c].view, buf, len, false) then (k, Failed)
      else
        var r := Find(k.tasks, target, 0);
        if r == |k.tasks| then (k, Failed)
        else
          var peer := k.tasks[r];
          if AcceptsFrom(peer, k.tasks[c].id) then
            var count := Min(len, peer.len);
            if !BufferOk(peer.view, peer.buf, count, true) then (k, Failed)
            else (SetTask(k, r, Woken(peer)), Delivered(Transfer(c, r, buf, peer.buf, count)))
          else (Block(k, OnSend, target, buf, len), Waits)
  }

  /** A blocked sender that the receive call (id, from, len) takes a message from. */
  predicate Offers(t: Task, id: nat, from: nat, len: nat) {
    && t.state == Blocked && t.reason == OnSend && t.peer == id && (from == ANY || t.id == from)
    && BufferOk(t.view, t.buf, Min(len, t.len), false)
  }

  function FindSender(tasks: seq<Task>, id: nat, from: nat, len: nat, i: nat): (s: nat)
    requires i <= |tasks|
    ensures i <= s <= |tasks|
    ensures s < |tasks| ==> Offers(tasks[s], id, from, len)
    ensures forall j :: i <= j < s ==> !Offers(tasks[j], id, from, len)
    decreases |tasks| - i
  {
    if i == |tasks| then i
    else if Offers(tasks[i], id, from, len) then i
    else FindSender(tasks, id, from, len, i + 1)
  }

  function Recv(k: Kernel, from: nat, buf: nat, length: nat): (Kernel, Outcome)
    requires k.current.Some? ==> k.current.value < |k.tasks|
  {
    if k.current.None? then (k, Failed)
    else
      var c, len := k.current.value, Min(length, MAX_MESSAGE);
      if !BufferOk(k.tasks[c].view, buf, len, true) then (k, Failed)
      else
        var s := FindSender(k.tasks, k.tasks[c].id, from, len, 0);
        if s == |k.tasks| then (Block(k, OnRecv, from, buf, len), Waits)
        else
          var peer := k.tasks[s];
          var count := Min(len, peer.len);
          (SetTask(k, s, Woken(peer.(len := count))), Delivered(Transfer(s, c, peer.buf, buf, count)))
  }

  /** A task blocked in wait that the exit of task `id`, child of `parent`, wakes. */
  predicate Awaits(t: Task, parent: nat, id: nat) {
    t.state == Blocked && t.reason == OnWait && t.id == parent && (t.peer == ANY || t.peer == id)
  }

  function FindWaiter(tasks: seq<Task>, parent: nat, id: nat, i: nat): (w: nat)
    requires i <= |tasks|
    ensures i <= w <= |tasks|
    ensures w < |tasks| ==> Awaits(tasks[w], parent, id)
    ensures forall j :: i <= j < w ==> !Awaits(tasks[j], parent, id)
    decreases |tasks| - i
  {
    if i == |tasks| then i
    else if Awaits(tasks[i], parent, id) then i
    else FindWaiter(tasks, parent, id, i + 1)
  }

  function Exit(k: Kernel, code: nat): Kernel
    requires k.current.Some? ==> k.current.value < |k.tasks|
  {
    if k.current.None? then k
    else
      var c := k.current.value;
      var t := k.tasks[c].(code := code, state := Dead);
      var k1 := SetTask(k, c, t);
      var w := FindWaiter(k1.tasks, t.parent, t.id, 0);
      if w == |k1.tasks| then k1 else SetTask(k1, w, Woken(k1.tasks[w]))
  }

  predicate IsChild(t: Task, id: nat, child: nat) {
    t.state != Unused && t.parent == id && (child == ANY || t.id == child)
  }

  /** First child matching `child`; with `dead`, the first that has exited. */
  function FindChild(tasks: seq<Task>, id: nat, child: nat, dead: bool, i: nat): (w: nat)
    requires i <= |tasks|
    ensures i <= w <= |tasks|
    ensures w < |tasks| ==> IsChild(tasks[w], id, child) && (dead ==> tasks[w].state == Dead)
    ensures forall j :: i <= j < w ==> !(IsChild(tasks[j], id, child) && (dead ==> tasks[j].state == Dead))
    decreases |tasks| - i
  {
    if i == |tasks| then i
    else if IsChild(tasks[i], id, child) && (dead ==> tasks[i].state == Dead) then i
    else FindChild(tasks, id, child, dead, i + 1)
  }

  /** task_destroy of a task that is in use. */
  function Reap(k: Kernel, i: nat): Kernel
    requires i < |k.tasks|
  {
    SetTask(k, i, FreedTask(k.tasks[i].(view := map[]))).(free := [i] + k.free)
  }

  /** One round of sys_wait. */
  function Wait(k: Kernel, child: nat): (Kernel, Outcome)
    requires k.current.Some? ==> k.current.value < |k.tasks|
  {
    if k.current.None? then (k, Failed)
    else
      var id := k.tasks[k.current.value].id;
      var d := FindChild(k.tasks, id, child, true, 0);
      if d < |k.tasks| then (Reap(k, d), Returned(k.tasks[d].id))
      else if FindChild(k.tasks, id, child, false, 0) == |k.tasks| then (k, Failed)
      else (Block(k, OnWait, child, 0, 0), Waits)
  }

  function Fork(k: Kernel, ok: bool, view: View): (Kernel, Outcome)
    requires k.current.Some? ==> k.current.value < |k.tasks|
    requires k.free != [] ==> k.free[0] < |k.tasks|
  {
    if k.current.None? then (k, Failed)
    else
      var (k', child) := Spawn(k, ok, k.tasks[k.current.value].id, view);
      if child.None? then (k', Failed) else (k', Returned(k.tasks[child.value].id))
  }

  // ----- the machine

  /** Steps. `ok` says whether the frames a new task needs could be had, `view` is its new
      address space; Start is the boot code entering the first task; Grow maps further pages. */
  datatype Op =
    | OpTick
    | OpSend(target: nat, buf: nat, len: nat)
    | OpRecv(from: nat, buf: nat, len: nat)
    | OpExit(code: nat)
    | OpWait(child: nat)
    | OpFork(ok: bool, view: View)
    | OpCreate(ok: bool, view: View)
    | OpStart(t: nat)
    | OpGrow(t: nat, view: View)

  /** The table's shape, enough for every step to be defined. */
  predicate Shape(k: Kernel) {
    && 0 < |k.tasks| < ANY
    && (k.current.Some? ==> k.current.value < |k.tasks|)
    && (forall i :: 0 <= i < |k.free| ==> k.free[i] < |k.tasks|)
  }

  /** A system call comes from a current task that has not exited: after exit a task only halts. */
  ghost predicate Enabled(k: Kernel, op: Op) {
    match op
    case OpTick => true
    case OpCreate(_, _) => true
    case OpStart(t) => k.current.None? && t < |k.tasks| && k.tasks[t].state == Runnable
    case OpGrow(t, view) => t < |k.tasks| && Grows(k.tasks[t].view, view)
    case _ => k.current.Some? && k.current.value < |k.tasks| ==> k.tasks[k.current.value].state != Dead
  }

  ghost function Step(k: Kernel, op: Op): Kernel
    requires Shape(k) && Enabled(k, op)
  {
    match op
    case OpTick => Tick(k)
    case OpSend(target, buf, len) => Send(k, target, buf, len).0
    case OpRecv(from, buf, len) => Recv(k, from, buf, len).0
    case OpExit(code) => Exit(k, code)
    case OpWait(child) => Wait(k, child).0
    case OpFork(ok, view) => Fork(k, ok, view).0
    case OpCreate(ok, view) => Spawn(k, ok, NO_PARENT, view).0
    case OpStart(t) => SetTask(k, t, k.tasks[t].(state := Running)).(current := Some(t))
    case OpGrow(t, view) => SetTask(k, t, k.tasks[t].(view := view))
  }

  /** task_table_init: slot 0 is never handed out. */
  function FreshTask(i: nat): Task {
    Task(i, Unused, NoReason, 0, 0, 0, NO_PARENT, 0, map[])
  }

  function FreshTable(n: nat): (ts: seq<Task>)
    ensures |ts| == n && forall i :: 0 <= i < n ==> ts[i] == FreshTask(i)
  {
    seq(n, i requires 0 <= i => FreshTask(i))
  }

  /** Slots from, from + 1, ..., n - 1. */
  function SlotsFrom(from: nat, n: nat): (xs: seq<nat>)
    requires from <= n
    ensures |xs| == n - from && forall i :: 0 <= i < |xs| ==> xs[i] == from + i
    decreases n - from
  {
    if from == n then [] else [from] + SlotsFrom(from + 1, n)
  }

  function Init(n: nat, ticks: nat): Kernel
    requires n > 0
  {
    Kernel(FreshTable(n), None, SlotsFrom(1, n), ticks)
  }

  // ----- invariants

  /** Slots: ids are slot numbers, RUNNING means current, the free chain holds exactly the
      unused slots other than slot 0, once each, nobody is its own parent, and an unused slot
      keeps no trace of its last task's parent, exit code or reason to block. */
  ghost predicate SlotsOk(k: Kernel) {
    && Shape(k)
    && (forall i :: 0 <= i < |k.tasks| ==> k.tasks[i].id == i)
    && (forall i :: 0 <= i < |k.tasks| && k.tasks[i].state == Running ==> k.current == Some(i))
    && (k.current.Some? ==> k.tasks[k.current.value].state != Unused)
    && k.tasks[0].state == Unused
    && (forall i, j :: 0 <= i < j < |k.free| ==> k.free[i] != k.free[j])
    && (forall i :: 0 < i < |k.tasks| ==> (i in k.free <==> k.tasks[i].state == Unused))
    && 0 !in k.free
    && (forall i :: 0 <= i < |k.tasks| ==> k.tasks[i].parent != i)
    && (forall i :: 0 <= i < |k.tasks| && k.tasks[i].state == Unused ==>
          k.tasks[i].reason == NoReason && k.tasks[i].parent == NO_PARENT && k.tasks[i].code == 0)
  }

  /** A blocked task's buffer still validates. */
  ghost predicate BlockedBufferOk(t: Task) {
    t.state == Blocked ==>
      && (t.reason == OnRecv ==> t.len <= MAX_MESSAGE && BufferOk(t.view, t.buf, t.len, true))
      && (t.reason == OnSend ==> t.len <= MAX_MESSAGE && BufferOk(t.view, t.buf, t.len, false))
  }

  ghost predicate BuffersOk(tasks: seq<Task>) {
    forall i :: 0 <= i < |tasks| ==> BlockedBufferOk(tasks[i])
  }

  /** s waits to send to r, and r waits for a message it would take from s. */
  ghost predicate Rendezvous(tasks: seq<Task>, s: nat, r: nat)
    requires s < |tasks| && r < |tasks|
  {
    && s != r
    && tasks[s].state == Blocked && tasks[s].reason == OnSend && tasks[s].peer == tasks[r].id
    && tasks[r].state == Blocked && tasks[r].reason == OnRecv
    && (tasks[r].peer == ANY || tasks[r].peer == tasks[s].id)
  }

  ghost predicate NoMissedRendezvous(tasks: seq<Task>) {
    forall s: nat, r: nat {:trigger Rendezvous(tasks, s, r)} :: s < |tasks| && r < |tasks| ==> !Rendezvous(tasks, s, r)
  }

  /** d has exited, and its parent w is asleep waiting for it. */
  ghost predicate LostWakeup(tasks: seq<Task>, w: nat, d: nat)
    requires w < |tasks| && d < |tasks|
  {
    && tasks[d].state == Dead && tasks[d].parent == tasks[w].id
    && tasks[w].state == Blocked && tasks[w].reason == OnWait
    && (tasks[w].peer == ANY || tasks[w].peer == tasks[d].id)
  }

  ghost predicate NoLostWakeup(tasks: seq<Task>) {
    forall w: nat, d: nat {:trigger LostWakeup(tasks, w, d)} :: w < |tasks| && d < |tasks| ==> !LostWakeup(tasks, w, d)
  }

  ghost predicate Inv(k: Kernel) {
    SlotsOk(k) && BuffersOk(k.tasks) && NoMissedRendezvous(k.tasks) && NoLostWakeup(k.tasks)
  }

  lemma ShapeOf(k: Kernel)
    requires Inv(k)
    ensures Shape(k)
  {
  }

  lemma InitInv(n: nat, ticks: nat)
    requires 0 < n < ANY
    ensures Inv(Init(n, ticks))
  {
    var k := Init(n, ticks);
    forall i | 0 < i < n ensures i in k.free { assert k.free[i - 1] == i; }
  }

  // ----- buffers

  lemma BufferPrefix(view: View, uva: nat, len: nat, shorter: nat, write: bool)
    requires BufferOk(view, uva, len, write) && shorter <= len
    ensures BufferOk(view, uva, shorter, write)
  {
  }

  lemma BufferGrows(view: View, view': View, uva: nat, len: nat, write: bool)
    requires BufferOk(view, uva, len, write) && Grows(view, view')
    ensures BufferOk(view', uva, len, write)
  {
    if len > 0 {
      forall x: nat | uva <= x < uva + len ensures ByteIn(view', x, write) {
        assert ByteIn(view, x, write);
        assert StillAllowed(view, view', Vpn(x), write);
      }
    }
  }

  predicate Allowed(view: View, n: nat, write: bool) { n in view && Allows(view[n], write) }

  /** The view says of every user page what the tables of the space say. */
  ghost predicate ViewMatches(m: PhysicalMemory.Memory, root: nat, view: View) {
    forall n: nat, w: bool {:trigger Allowed(view, n, w)} :: n < USER_PAGES ==>
      (Allowed(view, n, w) <==> Allows(PteOf(m, root, n), w))
  }

  /** On a view that matches its address space, BufferOk is what the range check decides. */
  lemma ViewRange(m: PhysicalMemory.Memory, root: nat, view: View, uva: nat, len: nat, write: bool)
    requires ViewMatches(m, root, view)
    ensures BufferOk(view, uva, len, write) <==> len == 0 || (uva + len < TWO64 && RangeOk(m, root, uva, len, write))
  {
    hide PteOf, Allows;
    forall x: nat ensures ByteIn(view, x, write) == ByteOk(m, root, x, write) {
      if x < USER_TOP {
        assert Vpn(x) < USER_PAGES;
        assert Allowed(view, Vpn(x), write) <==> Allows(PteOf(m, root, Vpn(x)), write);
      }
    }
    if forall x: nat {:trigger ByteIn(view, x, write)} :: uva <= x < uva + len ==> ByteIn(view, x, write) {
      forall x: nat | uva <= x < uva + len ensures ByteOk(m, root, x, write) {
        assert ByteIn(view, x, write);
      }
    }
  }

  // ----- steps that block nobody and kill nobody

  /** Whoever is blocked was blocked the same way, and whoever is dead was dead. */
  ghost predicate Calm(tasks: seq<Task>, tasks': seq<Task>) {
    && |tasks'| == |tasks|
    && forall i :: 0 <= i < |tasks| ==> CalmTask(tasks[i], tasks'[i])
  }

  ghost predicate CalmTask(t: Task, t': Task) {
    && t'.id == t.id
    && (t'.state == Blocked ==>
         && t.state == Blocked && t'.reason == t.reason && t'.peer == t.peer
         && t'.buf == t.buf && t'.len == t.len && Grows(t.view, t'.view))
    && (t'.state == Dead ==> t.state == Dead && t'.parent == t.parent)
  }

  lemma SelfGrows(view: View)
    ensures Grows(view, view)
  {
  }

  lemma CalmKeeps(tasks: seq<Task>, tasks': seq<Task>)
    requires Calm(tasks, tasks') && BuffersOk(tasks) && NoMissedRendezvous(tasks) && NoLostWakeup(tasks)
    ensures BuffersOk(tasks') && NoMissedRendezvous(tasks') && NoLostWakeup(tasks')
  {
    hide BufferOk, Grows;
    forall i | 0 <= i < |tasks'| ensures BlockedBufferOk(tasks'[i]) {
      var t, t' := tasks[i], tasks'[i];
      assert BlockedBufferOk(t) && CalmTask(t, t');
      if t'.state == Blocked {
        if t.reason == OnRecv { BufferGrows(t.view, t'.view, t.buf, t.len, true); }
        if t.reason == OnSend { BufferGrows(t.view, t'.view, t.buf, t.len, false); }
      }
    }
    forall s: nat, r: nat | s < |tasks'| && r < |tasks'| ensures !Rendezvous(tasks', s, r) {
      assert !Rendezvous(tasks, s, r) && CalmTask(tasks[s], tasks'[s]) && CalmTask(tasks[r], tasks'[r]);
    }
    forall w: nat, d: nat | w < |tasks'| && d < |tasks'| ensures !LostWakeup(tasks', w, d) {
      assert !LostWakeup(tasks, w, d) && CalmTask(tasks[w], tasks'[w]) && CalmTask(tasks[d], tasks'[d]);
    }
  }

  // ----- one step keeps the invariant

  /** Changes of one slot that leave the free chain alone. */
  lemma SlotKept(k: Kernel, i: nat, t: Task)
    requires SlotsOk(k) && i < |k.tasks| && k.tasks[i].state != Unused && t.state != Unused
    requires t.id == i && t.parent == k.tasks[i].parent && (t.state == Running ==> k.current == Some(i))
    ensures SlotsOk(SetTask(k, i, t))
  {
  }

  lemma WakeKeeps(k: Kernel, i: nat, len: nat)
    requires Inv(k) && i < |k.tasks| && k.tasks[i].state == Blocked
    ensures Inv(SetTask(k, i, Woken(k.tasks[i].(len := len))))
    ensures Inv(SetTask(k, i, Woken(k.tasks[i])))
  {
    hide NoMissedRendezvous, NoLostWakeup, BuffersOk, BufferOk, Grows;
    var t, u := Woken(k.tasks[i].(len := len)), Woken(k.tasks[i]);
    SlotKept(k, i, t);
    SlotKept(k, i, u);
    OneCalm(k.tasks, i, t);
    OneCalm(k.tasks, i, u);
    CalmKeeps(k.tasks, k.tasks[i := t]);
    CalmKeeps(k.tasks, k.tasks[i := u]);
  }

  lemma OneCalm(tasks: seq<Task>, i: nat, t: Task)
    requires i < |tasks| && CalmTask(tasks[i], t)
    ensures Calm(tasks, tasks[i := t])
  {
    forall j | 0 <= j < |tasks| ensures CalmTask(tasks[j], tasks[i := t][j]) {
      SelfGrows(tasks[j].view);
    }
  }

  lemma {:induction false} SearchFinds(tasks: seq<Task>, start: nat, offset: nat)
    requires start < |tasks| && 1 <= offset <= |tasks| + 1
    ensures var o := Search(tasks, start, offset);
            && (o <= |tasks| ==> tasks[SlotAfter(|tasks|, start, o)].state == Runnable)
            && (forall j: nat {:trigger SlotAfter(|tasks|, start, j)} :: offset <= j < o ==>
                  tasks[SlotAfter(|tasks|, start, j)].state != Runnable)
    decreases |tasks| + 1 - offset
  {
    hide SlotAfter;
    if offset <= |tasks| && tasks[SlotAfter(|tasks|, start, offset)].state != Runnable {
      SearchFinds(tasks, start, offset + 1);
    }
  }

  lemma PickRunnable(tasks: seq<Task>, start: nat)
    requires start < |tasks|
    ensures PickNext(tasks, start) != start ==> tasks[PickNext(tasks, start)].state == Runnable
  {
    SearchFinds(tasks, start, 1);
  }

  lemma DispatchKeeps(k: Kernel)
    requires Inv(k) && k.current.Some?
    ensures Inv(Dispatch(k))
  {
    hide NoMissedRendezvous, NoLostWakeup, BuffersOk, BufferOk, Grows, PickNext;
    var prev := k.current.value;
    var next := PickNext(k.tasks, prev);
    PickRunnable(k.tasks, prev);
    if next != prev {
      var k' := Dispatch(k);
      forall i | 0 <= i < |k.tasks| ensures CalmTask(k.tasks[i], k'.tasks[i]) {
        SelfGrows(k.tasks[i].view);
      }
      CalmKeeps(k.tasks, k'.tasks);
    }
  }

  lemma BlockKeeps(k: Kernel, reason: Reason, peer: nat, buf: nat, len: nat)
    requires Inv(k) && k.current.Some?
    requires BlockedBufferOk(BlockedTask(k.tasks[k.current.value], reason, peer, buf, len))
    requires var c := k.current.value; var ts := k.tasks[c := BlockedTask(k.tasks[c], reason, peer, buf, len)];
             forall i: nat {:trigger ts[i]} :: i < |ts| ==>
                 !Rendezvous(ts, c, i) && !Rendezvous(ts, i, c) && !LostWakeup(ts, c, i)
    ensures Inv(Block(k, reason, peer, buf, len))
  {
    hide BufferOk, Dispatch;
    var c := k.current.value;
    var t := BlockedTask(k.tasks[c], reason, peer, buf, len);
    var ts := k.tasks[c := t];
    SlotKept(k, c, t);
    forall s: nat, r: nat | s < |ts| && r < |ts| ensures !Rendezvous(ts, s, r) {
      assert !Rendezvous(k.tasks, s, r);
      assert s == c || ts[s] == k.tasks[s];
      assert r == c || ts[r] == k.tasks[r];
    }
    forall w: nat, d: nat | w < |ts| && d < |ts| ensures !LostWakeup(ts, w, d) {
      assert !LostWakeup(k.tasks, w, d);
      assert w == c || ts[w] == k.tasks[w];
      assert d == c || ts[d] == k.tasks[d];
    }
    DispatchKeeps(SetTask(k, c, t));
  }

  /** A peer waiting to receive never fails its second validation. */
  lemma ReceiverStillValid(k: Kernel, r: nat, id: nat, len: nat)
    requires Inv(k) && r < |k.tasks| && AcceptsFrom(k.tasks[r], id)
    ensures BufferOk(k.tasks[r].view, k.tasks[r].buf, Min(len, k.tasks[r].len), true)
  {
    var t := k.tasks[r];
    assert BlockedBufferOk(t);
    BufferPrefix(t.view, t.buf, t.len, Min(len, t.len), true);
  }

  /** A blocked sender never fails its second validation: it offers its message. */
  lemma SenderStillOffers(k: Kernel, s: nat, id: nat, from: nat, len: nat)
    requires Inv(k) && s < |k.tasks| && k.tasks[s].state == Blocked && k.tasks[s].reason == OnSend
    ensures Offers(k.tasks[s], id, from, len) <==> k.tasks[s].peer == id && (from == ANY || k.tasks[s].id == from)
  {
    var t := k.tasks[s];
    assert BlockedBufferOk(t);
    BufferPrefix(t.view, t.buf, t.len, Min(len, t.len), false);
  }

  lemma FindIsSlot(k: Kernel, id: nat)
    requires SlotsOk(k)
    ensures var r := Find(k.tasks, id, 0);
            if id < |k.tasks| && k.tasks[id].state != Unused then r == id else r == |k.tasks|
  {
  }

  lemma SendKeeps(k: Kernel, target: nat, buf: nat, length: nat)
    requires Inv(k)
    ensures Inv(Send(k, target, buf, length).0)
  {
    hide BufferOk, Find, Block, NoMissedRendezvous, NoLostWakeup, BuffersOk;
    if k.current.Some? {
      var c, len := k.current.value, Min(length, MAX_MESSAGE);
      if BufferOk(k.tasks[c].view, buf, len, false) {
        var r := Find(k.tasks, target, 0);
        FindIsSlot(k, target);
        if r < |k.tasks| {
          if AcceptsFrom(k.tasks[r], k.tasks[c].id) {
            WakeKeeps(k, r, 0);
          } else {
            SendBlocks(k, target, buf, len);
          }
        }
      }
    }
  }

  lemma SendBlocks(k: Kernel, target: nat, buf: nat, len: nat)
    requires Inv(k) && k.current.Some? && len <= MAX_MESSAGE
    requires BufferOk(k.tasks[k.current.value].view, buf, len, false)
    requires target < |k.tasks| && !AcceptsFrom(k.tasks[target], k.current.value)
    ensures Inv(Block(k, OnSend, target, buf, len))
  {
    hide BufferOk, Block;
    var c := k.current.value;
    var ts := k.tasks[c := BlockedTask(k.tasks[c], OnSend, target, buf, len)];
    forall i: nat | i < |ts| ensures !Rendezvous(ts, c, i) && !Rendezvous(ts, i, c) && !LostWakeup(ts, c, i) {
      assert ts[c].reason == OnSend;
      if i != c { assert ts[i] == k.tasks[i]; }
    }
    BlockKeeps(k, OnSend, target, buf, len);
  }

  lemma RecvKeeps(k: Kernel, from: nat, buf: nat, length: nat)
    requires Inv(k)
    ensures Inv(Recv(k, from, buf, length).0)
  {
    hide BufferOk, FindSender, Block, NoMissedRendezvous, NoLostWakeup, BuffersOk;
    if k.current.Some? {
      var c, len := k.current.value, Min(length, MAX_MESSAGE);
      if BufferOk(k.tasks[c].view, buf, len, true) {
        var s := FindSender(k.tasks, k.tasks[c].id, from, len, 0);
        if s < |k.tasks| {
          WakeKeeps(k, s, Min(len, k.tasks[s].len));
        } else {
          RecvBlocks(k, from, buf, len);
        }
      }
    }
  }

  lemma RecvBlocks(k: Kernel, from: nat, buf: nat, len: nat)
    requires Inv(k) && k.current.Some? && len <= MAX_MESSAGE
    requires BufferOk(k.tasks[k.current.value].view, buf, len, true)
    requires forall i :: 0 <= i < |k.tasks| ==> !Offers(k.tasks[i], k.current.value, from, len)
    ensures Inv(Block(k, OnRecv, from, buf, len))
  {
    hide BufferOk, Block;
    var c := k.current.value;
    var ts := k.tasks[c := BlockedTask(k.tasks[c], OnRecv, from, buf, len)];
    forall i: nat | i < |ts| ensures !Rendezvous(ts, c, i) && !Rendezvous(ts, i, c) && !LostWakeup(ts, c, i) {
      assert ts[c].reason == OnRecv;
      if i != c {
        assert ts[i] == k.tasks[i];
        if ts[i].state == Blocked && ts[i].reason == OnSend {
          SenderStillOffers(k, i, c, from, len);
          assert !Offers(k.tasks[i], c, from, len);
        }
      }
    }
    BlockKeeps(k, OnRecv, from, buf, len);
  }

  lemma ExitKeeps(k: Kernel, code: nat)
    requires Inv(k)
    ensures Inv(Exit(k, code))
  {
    hide BufferOk, Grows, FindWaiter;
    if k.current.Some? {
      var c := k.current.value;
      var t := k.tasks[c].(code := code, state := Dead);
      var k1, k' := SetTask(k, c, t), Exit(k, code);
      SlotKept(k, c, t);
      var w := FindWaiter(k1.tasks, t.parent, t.id, 0);
      if w < |k1.tasks| { SlotKept(k1, w, Woken(k1.tasks[w])); }
      forall i | 0 <= i < |k'.tasks| && i != c ensures CalmTask(k.tasks[i], k'.tasks[i]) {
        SelfGrows(k.tasks[i].view);
      }
      ExitCalm(k, k', c, w);
    }
  }

  /** After an exit: everyone else is calm, and the one possible waiter has been woken. */
  lemma ExitCalm(k: Kernel, k': Kernel, c: nat, w: nat)
    requires Inv(k) && c < |k.tasks| == |k'.tasks| && SlotsOk(k')
    requires forall i :: 0 <= i < |k'.tasks| && i != c ==> CalmTask(k.tasks[i], k'.tasks[i])
    requires k'.tasks[c].state == Dead
    requires forall i :: 0 <= i < |k.tasks| ==> !Awaits(k'.tasks[i], k'.tasks[c].parent, c)
    ensures Inv(k')
  {
    hide BufferOk, Grows;
    var ts, ts' := k.tasks, k'.tasks;
    forall i | 0 <= i < |ts'| ensures BlockedBufferOk(ts'[i]) {
      if i != c {
        var t, t' := ts[i], ts'[i];
        assert BlockedBufferOk(t) && CalmTask(t, t');
        if t'.state == Blocked {
          if t.reason == OnRecv { BufferGrows(t.view, t'.view, t.buf, t.len, true); }
          if t.reason == OnSend { BufferGrows(t.view, t'.view, t.buf, t.len, false); }
        }
      }
    }
    forall s: nat, r: nat | s < |ts'| && r < |ts'| ensures !Rendezvous(ts', s, r) {
      if s != c && r != c {
        assert !Rendezvous(ts, s, r) && CalmTask(ts[s], ts'[s]) && CalmTask(ts[r], ts'[r]);
      }
    }
    forall u: nat, d: nat | u < |ts'| && d < |ts'| ensures !LostWakeup(ts', u, d) {
      if d != c && u != c {
        assert !LostWakeup(ts, u, d) && CalmTask(ts[u], ts'[u]) && CalmTask(ts[d], ts'[d]);
      }
    }
  }

  lemma ReapKeeps(k: Kernel, i: nat)
    requires Inv(k) && i < |k.tasks| && k.tasks[i].state == Dead && k.current != Some(i)
    ensures Inv(Reap(k, i))
  {
    hide NoMissedRendezvous, NoLostWakeup, BuffersOk, BufferOk, Grows;
    var k' := Reap(k, i);
    OneCalm(k.tasks, i, k'.tasks[i]);
    CalmKeeps(k.tasks, k'.tasks);
    ReapSlots(k, i);
  }

  lemma ReapSlots(k: Kernel, i: nat)
    requires SlotsOk(k) && i < |k.tasks| && k.tasks[i].state == Dead && k.current != Some(i)
    ensures SlotsOk(Reap(k, i))
  {
    var k' := Reap(k, i);
    assert i != 0 && i !in k.free;
    assert forall j :: 0 < j < |k'.free| ==> k'.free[j] == k.free[j - 1];
    forall j | 0 < j < |k.tasks| ensures j in k'.free <==> k'.tasks[j].state == Unused {
      assert j in k'.free <==> j == i || j in k.free;
    }
  }

  lemma SpawnKeeps(k: Kernel, ok: bool, parent: nat, view: View)
    requires Inv(k) && (parent == NO_PARENT || (parent < |k.tasks| && k.tasks[parent].state != Unused))
    ensures Inv(Spawn(k, ok, parent, view).0)
  {
    hide NoMissedRendezvous, NoLostWakeup, BuffersOk, BufferOk, Grows;
    if k.free != [] {
      var i, k' := k.free[0], Spawn(k, ok, parent, view).0;
      assert i in k.free;
      OneCalm(k.tasks, i, k'.tasks[i]);
      CalmKeeps(k.tasks, k'.tasks);
      if ok { TakeSlot(k, k'.tasks[i]); }
    }
  }

  lemma TakeSlot(k: Kernel, t: Task)
    requires SlotsOk(k) && k.free != [] && t.id == k.free[0] && t.state == Runnable && t.parent != t.id
    ensures SlotsOk(SetTask(k, k.free[0], t).(free := k.free[1..]))
  {
    var i, free' := k.free[0], k.free[1..];
    assert i in k.free;
    assert forall j :: 0 <= j < |free'| ==> free'[j] == k.free[j + 1];
    assert i !in free';
    assert k.free == [i] + free';
    forall j | j != i ensures j in free' <==> j in k.free {}
  }

  lemma WaitKeeps(k: Kernel, child: nat)
    requires Inv(k) && (k.current.Some? ==> k.tasks[k.current.value].state != Dead)
    ensures Inv(Wait(k, child).0)
  {
    hide BufferOk, FindChild, Block, NoMissedRendezvous, NoLostWakeup, BuffersOk;
    if k.current.Some? {
      var c := k.current.value;
      var d := FindChild(k.tasks, c, child, true, 0);
      if d < |k.tasks| {
        ReapKeeps(k, d);
      } else if FindChild(k.tasks, c, child, false, 0) < |k.tasks| {
        WaitBlocks(k, child);
      }
    }
  }

  lemma WaitBlocks(k: Kernel, child: nat)
    requires Inv(k) && k.current.Some?
    requires forall i :: 0 <= i < |k.tasks| ==>
               !(IsChild(k.tasks[i], k.current.value, child) && k.tasks[i].state == Dead)
    ensures Inv(Block(k, OnWait, child, 0, 0))
  {
    hide BufferOk, Block;
    var c := k.current.value;
    var ts := k.tasks[c := BlockedTask(k.tasks[c], OnWait, child, 0, 0)];
    forall i: nat | i < |ts| ensures !Rendezvous(ts, c, i) && !Rendezvous(ts, i, c) && !LostWakeup(ts, c, i) {
      assert ts[c].reason == OnWait;
      if i != c {
        assert ts[i] == k.tasks[i];
        assert !(IsChild(k.tasks[i], c, child) && k.tasks[i].state == Dead);
      }
    }
    BlockKeeps(k, OnWait, child, 0, 0);
  }

  lemma StartKeeps(k: Kernel, t: nat)
    requires Inv(k) && k.current.None? && t < |k.tasks| && k.tasks[t].state == Runnable
    ensures Inv(Step(k, OpStart(t)))
  {
    hide NoMissedRendezvous, NoLostWakeup, BuffersOk, BufferOk, Grows;
    OneCalm(k.tasks, t, k.tasks[t].(state := Running));
    CalmKeeps(k.tasks, k.tasks[t := k.tasks[t].(state := Running)]);
  }

  lemma GrowKeeps(k: Kernel, t: nat, view: View)
    requires Inv(k) && t < |k.tasks| && Grows(k.tasks[t].view, view)
    ensures Inv(Step(k, OpGrow(t, view)))
  {
    hide NoMissedRendezvous, NoLostWakeup, BuffersOk, BufferOk, Grows;
    OneCalm(k.tasks, t, k.tasks[t].(view := view));
    CalmKeeps(k.tasks, k.tasks[t := k.tasks[t].(view := view)]);
  }

  lemma StepKeeps(k: Kernel, op: Op)
    requires Inv(k) && Enabled(k, op)
    ensures Inv(Step(k, op))
  {
    hide SlotsOk, NoMissedRendezvous, NoLostWakeup, BuffersOk, Dispatch, Send, Recv, Exit, Wait, Spawn, Grows;
    SlotsBasics(k);
    match op
    case OpTick => TickKeeps(k);
    case OpSend(target, buf, len) => SendKeeps(k, target, buf, len);
    case OpRecv(from, buf, len) => RecvKeeps(k, from, buf, len);
    case OpExit(code) => ExitKeeps(k, code);
    case OpWait(child) => WaitKeeps(k, child);
    case OpFork(ok, view) => if k.current.Some? { SpawnKeeps(k, ok, k.current.value, view); }
    case OpCreate(ok, view) => SpawnKeeps(k, ok, NO_PARENT, view);
    case OpStart(t) => StartKeeps(k, t);
    case OpGrow(t, view) => GrowKeeps(k, t, view);
  }

  lemma SlotsBasics(k: Kernel)
    requires SlotsOk(k)
    ensures Shape(k)
    ensures k.current.Some? ==>
              k.tasks[k.current.value].id == k.current.value && k.tasks[k.current.value].state != Unused
  {
  }

  lemma TickKeeps(k: Kernel)
    requires Inv(k)
    ensures Inv(Tick(k))
  {
    hide NoMissedRendezvous, NoLostWakeup, BuffersOk, Dispatch;
    var k' := k.(ticks := (k.ticks + 1) % TWO64);
    assert SlotsOk(k');
    if k.current.Some? { DispatchKeeps(k'); }
  }
}

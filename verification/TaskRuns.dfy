/** What holds over every run of the task machine: reachable states, who may wake a blocked
    task, how long a runnable task waits, and what message counts the two ends report. */
module TaskRuns {
  import opened Words
  import opened PageTables
  import opened Tasks

  // ----- runs

  ghost predicate Runs(k: Kernel, ops: seq<Op>)
    decreases |ops|
  {
    ops == [] || (Shape(k) && Enabled(k, ops[0]) && Runs(Step(k, ops[0]), ops[1..]))
  }

  /** The state after the first j steps. */
  ghost function After(k: Kernel, ops: seq<Op>, j: nat): Kernel
    requires Runs(k, ops) && j <= |ops|
    decreases j
  {
    if j == 0 then k else After(Step(k, ops[0]), ops[1..], j - 1)
  }

  lemma {:induction false} RunKeeps(k: Kernel, ops: seq<Op>, j: nat)
    requires Inv(k) && Runs(k, ops) && j <= |ops|
    ensures Inv(After(k, ops, j))
    decreases j
  {
    hide Inv, Enabled, Step;
    if j > 0 {
      StepKeeps(k, ops[0]);
      RunKeeps(Step(k, ops[0]), ops[1..], j - 1);
    }
  }

  /** In every reachable state: no missed rendezvous, no lost wakeup, and an orderly table. */
  lemma ReachableStates(n: nat, ticks: nat, ops: seq<Op>, j: nat)
    requires 0 < n < ANY && Runs(Init(n, ticks), ops) && j <= |ops|
    ensures var k := After(Init(n, ticks), ops, j);
            SlotsOk(k) && BuffersOk(k.tasks) && NoMissedRendezvous(k.tasks) && NoLostWakeup(k.tasks)
  {
    hide SlotsOk, BuffersOk, NoMissedRendezvous, NoLostWakeup, Step, Init;
    InitInv(n, ticks);
    RunKeeps(Init(n, ticks), ops, j);
  }

  // ----- what one step does to one task

  /** The only step that ends i's sleep: a send it accepts, a receive that accepts it, or the
      exit of a child it awaits. */
  ghost predicate Partner(k: Kernel, op: Op, i: nat)
    requires i < |k.tasks| && k.current.Some? && k.current.value < |k.tasks|
  {
    var t, c := k.tasks[i], k.current.value;
    && t.state == Blocked
    && match t.reason
       case OnRecv => op.OpSend? && op.target == i && (t.peer == ANY || t.peer == c)
       case OnSend => op.OpRecv? && t.peer == c && (op.from == ANY || op.from == i)
       case OnWait => op.OpExit? && k.tasks[c].parent == i && (t.peer == ANY || t.peer == c)
       case NoReason => false
  }

  /** Same task record, up to further pages in its address space. */
  ghost predicate SameTask(t: Task, t': Task) {
    t' == t.(view := t'.view)
  }

  /** Task i is as it was and not current, or it was runnable and now runs. */
  ghost predicate LeftOrPicked(k: Kernel, k': Kernel, i: nat)
    requires i < |k.tasks| == |k'.tasks|
  {
    if k'.current == Some(i)
    then k.tasks[i].state == Runnable && k'.tasks[i] == k.tasks[i].(state := Running)
    else k'.tasks[i] == k.tasks[i]
  }

  lemma DispatchOther(k: Kernel, i: nat)
    requires SlotsOk(k) && k.current.Some? && i < |k.tasks| && k.current != Some(i)
    ensures var k' := Dispatch(k);
            |k'.tasks| == |k.tasks| && k'.current.Some? && LeftOrPicked(k, k', i)
  {
    hide PickNext;
    PickRunnable(k.tasks, k.current.value);
  }

  lemma BlockOther(k: Kernel, reason: Reason, peer: nat, buf: nat, len: nat, i: nat)
    requires SlotsOk(k) && k.current.Some? && i < |k.tasks| && k.current != Some(i)
    ensures var k' := Block(k, reason, peer, buf, len);
            |k'.tasks| == |k.tasks| && k'.current.Some? && LeftOrPicked(k, k', i)
  {
    hide Dispatch;
    var c := k.current.value;
    var t := BlockedTask(k.tasks[c], reason, peer, buf, len);
    SlotKept(k, c, t);
    DispatchOther(SetTask(k, c, t), i);
  }

  /** A task that is not current is left alone by every step, except that a runnable one may be
      picked, a blocked one woken by its partner, an exited one reaped by its parent, and an
      unused slot filled. */
  lemma OtherTask(k: Kernel, op: Op, i: nat)
    requires Inv(k) && Enabled(k, op) && k.current.Some? && i < |k.tasks| && k.current != Some(i)
    ensures var k' := Step(k, op); var t, t' := k.tasks[i], k'.tasks[i];
            && |k'.tasks| == |k.tasks| && k'.current.Some?
            && ((SameTask(t, t') && k'.current != Some(i))
                || (t.state == Runnable && k'.current == Some(i) && t' == t.(state := Running))
                || (k'.current != Some(i) && t'.state == Runnable && Partner(k, op, i))
                || (k'.current != Some(i) && t.state == Dead && t'.state == Unused && op.OpWait? &&
                      t.parent == k.current.value)
                || (k'.current != Some(i) && t.state == Unused))
  {
    hide BufferOk, Dispatch, Block, Grows, BuffersOk, NoMissedRendezvous, NoLostWakeup, Find, FindSender, FindWaiter,
      FindChild;
    match op
    case OpTick => OtherTick(k, i);
    case OpSend(target, buf, len) =>
      BlockOther(k, OnSend, target, buf, Min(len, MAX_MESSAGE), i);
      FindIsSlot(k, target);
    case OpRecv(from, buf, len) => BlockOther(k, OnRecv, from, buf, Min(len, MAX_MESSAGE), i);
    case OpExit(code) =>
    case OpWait(child) => BlockOther(k, OnWait, child, 0, 0, i);
    case OpFork(ok, view) => assert k.free != [] ==> k.free[0] in k.free;
    case OpCreate(ok, view) => assert k.free != [] ==> k.free[0] in k.free;
    case OpStart(t) =>
    case OpGrow(t, view) =>
  }

  lemma OtherTick(k: Kernel, i: nat)
    requires SlotsOk(k) && k.current.Some? && i < |k.tasks| && k.current != Some(i)
    ensures var k' := Tick(k);
            |k'.tasks| == |k.tasks| && k'.current.Some? && LeftOrPicked(k, k', i)
  {
    hide Dispatch;
    var k1 := k.(ticks := (k.ticks + 1) % TWO64);
    assert SlotsOk(k1);
    DispatchOther(k1, i);
  }

  /** A task that has exited changes state only by being reaped. */
  lemma DeadOnlyReaped(k: Kernel, op: Op, i: nat)
    requires Inv(k) && Enabled(k, op) && i < |k.tasks| && k.tasks[i].state == Dead
    ensures var k' := Step(k, op);
            && |k'.tasks| == |k.tasks|
            && (SameTask(k.tasks[i], k'.tasks[i]) || (k'.tasks[i].state == Unused && op.OpWait? &&
                  k.current == Some(k.tasks[i].parent)))
  {
    hide BufferOk, Dispatch, Block, Grows, BuffersOk, NoMissedRendezvous, NoLostWakeup;
    if k.current.None? {
      assert k.free != [] ==> k.free[0] in k.free;
    } else if k.current == Some(i) {
      if op.OpTick? { DeadTick(k, i); }
      assert k.free != [] ==> k.free[0] in k.free;
    } else {
      OtherTask(k, op, i);
    }
  }

  lemma DeadTick(k: Kernel, i: nat)
    requires SlotsOk(k) && k.current == Some(i) && i < |k.tasks| && k.tasks[i].state == Dead
    ensures |Tick(k).tasks| == |k.tasks| && Tick(k).tasks[i] == k.tasks[i]
  {
    hide PickNext;
  }

  // ----- a blocked task runs again only after its partner's step

  lemma {:induction false} OnlyPartnerWakes(k: Kernel, ops: seq<Op>, i: nat)
    requires Inv(k) && Runs(k, ops) && k.current.Some?
    requires i < |k.tasks| && k.tasks[i].state == Blocked && k.current != Some(i)
    requires |After(k, ops, |ops|).tasks| == |k.tasks|
    requires After(k, ops, |ops|).current == Some(i) || After(k, ops, |ops|).tasks[i].state != Blocked
    ensures exists j: nat :: j < |ops| && WokenAt(k, ops, i, j)
    decreases |ops|
  {
    hide Inv, Enabled, Step, Partner;
    if ops != [] {
      var k' := Step(k, ops[0]);
      StepKeeps(k, ops[0]);
      ShapeOf(k);
      OtherTask(k, ops[0], i);
      if Partner(k, ops[0], i) {
        assert WokenAt(k, ops, i, 0);
      } else {
        OnlyPartnerWakes(k', ops[1..], i);
        var j: nat :| j < |ops[1..]| && WokenAt(k', ops[1..], i, j);
        assert WokenAt(k, ops, i, j + 1);
      }
    }
  }

  /** At step j of the run, task i is still asleep as it was at the start, and its partner acts. */
  ghost predicate WokenAt(k: Kernel, ops: seq<Op>, i: nat, j: nat)
    requires Runs(k, ops) && j < |ops| && i < |k.tasks|
  {
    var m := After(k, ops, j);
    && i < |m.tasks| && m.current.Some? && m.current.value < |m.tasks|
    && m.current != Some(i) && SameTask(k.tasks[i], m.tasks[i]) && Partner(m, ops[j], i)
  }

  // ----- round robin

  /** scheduler_pick_next chooses the nearest RUNNABLE slot after the current one, cyclically. */
  lemma PickIsNearest(tasks: seq<Task>, c: nat, i: nat)
    requires c < |tasks| && i < |tasks| && i != c && tasks[i].state == Runnable
    ensures var p := PickNext(tasks, c);
            && tasks[p].state == Runnable && p != c && Distance(|tasks|, c, p) <= Distance(|tasks|, c, i)
  {
    SearchFinds(tasks, c, 1);
    var n, d := |tasks|, Distance(|tasks|, c, i);
    var o := Search(tasks, c, 1);
    DistanceOffset(n, c, d);
    SlotAtDistance(n, c, i);
    DistanceOffset(n, c, o);
  }

  /** Cyclic distance from slot c to slot i. */
  function Distance(n: nat, c: nat, i: nat): nat
    requires c < n && i < n
  {
    if i >= c then i - c else i + n - c
  }

  lemma WrapOnce(x: nat, n: nat)
    requires x < n
    ensures x % n == x && (x + n) % n == x
  {
  }

  lemma SlotAtDistance(n: nat, c: nat, i: nat)
    requires c < n && i < n
    ensures SlotAfter(n, c, Distance(n, c, i)) == i
  {
    var d := Distance(n, c, i);
    assert c + d == if i >= c then i else i + n;
    WrapOnce(i, n);
  }

  lemma DistanceOffset(n: nat, c: nat, o: nat)
    requires c < n && o < n
    ensures Distance(n, c, SlotAfter(n, c, o)) == o && (o > 0 ==> SlotAfter(n, c, o) != c)
  {
    if c + o >= n {
      WrapOnce(c + o - n, n);
    } else {
      WrapOnce(c + o, n);
    }
  }

  lemma DistanceFalls(n: nat, c: nat, p: nat, i: nat)
    requires c < n && p < n && i < n && p != c && p != i && Distance(n, c, p) <= Distance(n, c, i)
    ensures Distance(n, p, i) < Distance(n, c, i)
  {
  }

  /** The step asks the scheduler for a decision. */
  ghost predicate Decides(k: Kernel, op: Op)
    requires Shape(k)
  {
    k.current.Some? &&
    match op
    case OpTick => (k.ticks + 1) % TWO64 % TIME_SLICE_TICKS == 0
    case OpSend(target, buf, len) => Send(k, target, buf, len).1.Waits?
    case OpRecv(from, buf, len) => Recv(k, from, buf, len).1.Waits?
    case OpWait(child) => Wait(k, child).1.Waits?
    case _ => false
  }

  lemma DispatchNearer(k: Kernel, i: nat)
    requires SlotsOk(k) && k.current.Some? && i < |k.tasks| && k.current != Some(i) && k.tasks[i].state == Runnable
    ensures var k' := Dispatch(k);
            && |k'.tasks| == |k.tasks| && k'.ticks == k.ticks && k'.current.Some? && k'.current.value < |k.tasks|
            && (k'.current == Some(i) ||
                  Distance(|k.tasks|, k'.current.value, i) < Distance(|k.tasks|, k.current.value, i))
  {
    hide PickNext, Distance;
    var c := k.current.value;
    PickIsNearest(k.tasks, c, i);
    var p := PickNext(k.tasks, c);
    if p != i { DistanceFalls(|k.tasks|, c, p, i); }
  }

  lemma BlockNearer(k: Kernel, reason: Reason, peer: nat, buf: nat, len: nat, i: nat)
    requires SlotsOk(k) && k.current.Some? && i < |k.tasks| && k.current != Some(i) && k.tasks[i].state == Runnable
    ensures var k' := Block(k, reason, peer, buf, len);
            && |k'.tasks| == |k.tasks| && k'.ticks == k.ticks && k'.current.Some? && k'.current.value < |k.tasks|
            && (k'.current == Some(i) ||
                  Distance(|k.tasks|, k'.current.value, i) < Distance(|k.tasks|, k.current.value, i))
  {
    hide Dispatch, Distance;
    var c := k.current.value;
    var t := BlockedTask(k.tasks[c], reason, peer, buf, len);
    SlotKept(k, c, t);
    DispatchNearer(SetTask(k, c, t), i);
  }

  /** Every decision brings the search closer to a waiting task; no other step moves it. */
  lemma StepNearer(k: Kernel, op: Op, i: nat)
    requires Inv(k) && Enabled(k, op) && k.current.Some?
    requires i < |k.tasks| && k.current != Some(i) && k.tasks[i].state == Runnable
    ensures var k' := Step(k, op); var n := |k.tasks|;
            && |k'.tasks| == n && k'.current.Some? && k'.current.value < n
            && (k'.current == Some(i)
                || (if Decides(k, op) then Distance(n, k'.current.value, i) < Distance(n, k.current.value, i)
                    else k'.current == k.current))
            && k'.ticks == if op.OpTick? then (k.ticks + 1) % TWO64 else k.ticks
  {
    hide BufferOk, Dispatch, Block, Grows, BuffersOk, NoMissedRendezvous, NoLostWakeup, Distance;
    match op
    case OpTick => TickNearer(k, i);
    case OpSend(target, buf, len) => BlockNearer(k, OnSend, target, buf, Min(len, MAX_MESSAGE), i);
    case OpRecv(from, buf, len) => BlockNearer(k, OnRecv, from, buf, Min(len, MAX_MESSAGE), i);
    case OpWait(child) => BlockNearer(k, OnWait, child, 0, 0, i);
    case _ =>
  }

  lemma TickNearer(k: Kernel, i: nat)
    requires SlotsOk(k) && k.current.Some? && i < |k.tasks| && k.current != Some(i) && k.tasks[i].state == Runnable
    ensures var k' := Tick(k); var n := |k.tasks|;
            && |k'.tasks| == n && k'.current.Some? && k'.current.value < n && k'.ticks == (k.ticks + 1) % TWO64
            && (k'.current == Some(i)
                || (if (k.ticks + 1) % TWO64 % TIME_SLICE_TICKS == 0
                    then Distance(n, k'.current.value, i) < Distance(n, k.current.value, i)
                    else k'.current == k.current))
  {
    hide Dispatch, Distance;
    var k1 := k.(ticks := (k.ticks + 1) % TWO64);
    assert SlotsOk(k1);
    DispatchNearer(k1, i);
  }

  // ----- the tick counter

  /** Ticks until the next slice boundary; the counter wraps at 2^64, which is 16 past one. */
  function TicksLeft(g: nat): nat
    requires g < TWO64
  {
    if g >= TWO64 - 16 then TWO64 - g else 20 - g % 20
  }

  lemma TicksLeftStep(g: nat)
    requires g < TWO64
    ensures 1 <= TicksLeft(g) <= 20
    ensures var g' := (g + 1) % TWO64;
            && (g' % TIME_SLICE_TICKS == 0 <==> TicksLeft(g) == 1)
            && (TicksLeft(g) > 1 ==> TicksLeft(g') == TicksLeft(g) - 1)
  {
    if g + 1 == TWO64 {
      assert (g + 1) % TWO64 == 0;
    } else {
      assert (g + 1) % TWO64 == g + 1;
      NextMod(g);
      assert (TWO64 - 16) % 20 == 0;
      if g >= TWO64 - 16 { NearWrap(g + 1 - (TWO64 - 16)); }
    }
  }

  lemma NextMod(g: nat)
    ensures (g + 1) % 20 == if g % 20 == 19 then 0 else g % 20 + 1
  {
  }

  lemma NearWrap(r: nat)
    requires 0 < r < 16
    ensures (TWO64 - 16 + r) % 20 == r
  {
    assert TWO64 - 16 == 20 * 0xCCC_CCCC_CCCC_CCCC;
  }

  // ----- bounded waiting

  ghost function Decisions(k: Kernel, ops: seq<Op>): nat
    requires Runs(k, ops)
    decreases |ops|
  {
    if ops == [] then 0 else (if Decides(k, ops[0]) then 1 else 0) + Decisions(Step(k, ops[0]), ops[1..])
  }

  function Ticks(ops: seq<Op>): nat
    decreases |ops|
  {
    if ops == [] then 0 else (if ops[0].OpTick? then 1 else 0) + Ticks(ops[1..])
  }

  /** Ticks that can still pass before task i runs. */
  ghost function Budget(k: Kernel, i: nat): int
    requires Shape(k) && k.current.Some? && i < |k.tasks| && k.ticks < TWO64
  {
    (Distance(|k.tasks|, k.current.value, i) - 1) * TIME_SLICE_TICKS + TicksLeft(k.ticks)
  }

  lemma StepBudget(k: Kernel, op: Op, i: nat)
    requires Inv(k) && Enabled(k, op) && k.current.Some? && k.ticks < TWO64
    requires i < |k.tasks| && k.current != Some(i) && k.tasks[i].state == Runnable
    ensures var k' := Step(k, op);
            && Shape(k') && |k'.tasks| == |k.tasks| && k'.current.Some? && k'.ticks < TWO64
            && (k'.current != Some(i) ==>
                 && k'.tasks[i].state == Runnable
                 && Distance(|k.tasks|, k'.current.value, i) + (if Decides(k, op) then
                      1 else 0) <= Distance(|k.tasks|, k.current.value, i)
                 && Budget(k', i) + (if op.OpTick? then 1 else 0) <= Budget(k, i))
  {
    hide Inv, Enabled, Step, Distance, TicksLeft, Partner;
    StepKeeps(k, op);
    ShapeOf(k);
    ShapeOf(Step(k, op));
    StepNearer(k, op, i);
    OtherTask(k, op, i);
    TicksLeftStep(k.ticks);
    TicksLeftStep(Step(k, op).ticks);
    hide Decides;
    PartnerBlocked(k, op, i);
    TickDecides(k);
  }

  lemma PartnerBlocked(k: Kernel, op: Op, i: nat)
    requires i < |k.tasks| && k.current.Some? && k.current.value < |k.tasks|
    ensures Partner(k, op, i) ==> k.tasks[i].state == Blocked
  {
  }

  lemma TickDecides(k: Kernel)
    requires Shape(k) && k.current.Some?
    ensures Decides(k, OpTick) <==> (k.ticks + 1) % TWO64 % TIME_SLICE_TICKS == 0
  {
  }

  /** As long as a RUNNABLE task is not picked it stays RUNNABLE, and both the decisions taken and
      the ticks delivered stay below what it started with. */
  lemma {:induction false} WaitingIsBounded(k: Kernel, ops: seq<Op>, i: nat)
    requires Inv(k) && Runs(k, ops) && k.current.Some? && k.ticks < TWO64
    requires i < |k.tasks| && k.tasks[i].state == Runnable
    requires forall j: nat {:trigger After(k, ops, j)} :: j <= |ops| ==> After(k, ops, j).current != Some(i)
    ensures Decisions(k, ops) < Distance(|k.tasks|, k.current.value, i)
    ensures Ticks(ops) < Budget(k, i)
    ensures var k' := After(k, ops, |ops|); i < |k'.tasks| && k'.tasks[i].state == Runnable
    decreases |ops|
  {
    hide Inv, Enabled, Step, Decides;
    ShapeOf(k);
    TicksLeftStep(k.ticks);
    assert After(k, ops, 0) == k;
    if ops != [] {
      var k' := Step(k, ops[0]);
      StepBudget(k, ops[0], i);
      StepKeeps(k, ops[0]);
      forall j: nat | j <= |ops[1..]| ensures After(k', ops[1..], j).current != Some(i) {
        assert After(k, ops, j + 1) == After(k', ops[1..], j);
      }
      assert After(k', ops[1..], 0) == k';
      WaitingIsBounded(k', ops[1..], i);
    }
  }

  /** A RUNNABLE task is picked within MAX_TASKS - 1 decisions, hence within
      (MAX_TASKS - 1) * 20 delivered ticks, whatever the other steps are. */
  lemma BoundedWaiting(k: Kernel, ops: seq<Op>, i: nat)
    requires Inv(k) && Runs(k, ops) && k.current.Some? && k.ticks < TWO64
    requires i < |k.tasks| && k.tasks[i].state == Runnable
    requires Decisions(k, ops) >= |k.tasks| - 1 || Ticks(ops) >= (|k.tasks| - 1) * 20
    ensures exists j: nat :: j <= |ops| && After(k, ops, j).current == Some(i)
  {
    if forall j: nat {:trigger After(k, ops, j)} :: j <= |ops| ==> After(k, ops, j).current != Some(i) {
      hide Inv, Runs, After, Decisions, Ticks;
      WaitingIsBounded(k, ops, i);
      BudgetBound(k, i);
    }
  }

  lemma BudgetBound(k: Kernel, i: nat)
    requires Shape(k) && k.current.Some? && i < |k.tasks| && k.ticks < TWO64
    ensures Distance(|k.tasks|, k.current.value, i) <= |k.tasks| - 1
    ensures Budget(k, i) <= (|k.tasks| - 1) * 20
  {
    TicksLeftStep(k.ticks);
  }

  // ----- blocking without another runnable task

  /** A call that would block returns at once, with its caller still current and BLOCKED, exactly
      when no other task is RUNNABLE. */
  lemma BlockReturnsAtOnceIff(k: Kernel, reason: Reason, peer: nat, buf: nat, len: nat)
    requires SlotsOk(k) && k.current.Some?
    ensures Block(k, reason, peer, buf, len).current == k.current <==>
            forall i :: 0 <= i < |k.tasks| && i != k.current.value ==> k.tasks[i].state != Runnable
  {
    hide PickNext;
    var c := k.current.value;
    var ts := k.tasks[c := BlockedTask(k.tasks[c], reason, peer, buf, len)];
    PickRunnable(ts, c);
    var p := PickNext(ts, c);
    if p == c {
      forall i | 0 <= i < |k.tasks| && i != c ensures k.tasks[i].state != Runnable {
        if ts[i].state == Runnable { PickIsNearest(ts, c, i); }
      }
    }
  }

  // ----- counts

  /** A woken task keeps the length it will report until it runs. */
  lemma {:induction false} LengthKept(k: Kernel, ops: seq<Op>, i: nat)
    requires Inv(k) && Runs(k, ops) && k.current.Some? && i < |k.tasks| && k.tasks[i].state == Runnable
    requires forall j: nat {:trigger After(k, ops, j)} :: j < |ops| ==> After(k, ops, j).current != Some(i)
    ensures var k' := After(k, ops, |ops|); i < |k'.tasks| && k'.tasks[i].len == k.tasks[i].len
    decreases |ops|
  {
    hide Inv, Enabled, Step;
    if ops != [] {
      assert After(k, ops, 0) == k;
      var k' := Step(k, ops[0]);
      ShapeOf(k);
      StepKeeps(k, ops[0]);
      OtherTask(k, ops[0], i);
      if ops[1..] != [] {
        forall j: nat | j < |ops[1..]| ensures After(k', ops[1..], j).current != Some(i) {
          assert After(k, ops, j + 1) == After(k', ops[1..], j);
        }
        assert After(k', ops[1..], 0) == k';
        LengthKept(k', ops[1..], i);
      }
    }
  }

  /** The receiver arrives second: it reports the bytes moved, and so will the sender whenever it
      first runs again. */
  lemma CountsAgree(k: Kernel, from: nat, buf: nat, len: nat, ops: seq<Op>)
    requires Inv(k) && Recv(k, from, buf, len).1.Delivered?
    requires var k1, m := Recv(k, from, buf, len).0, Recv(k, from, buf, len).1.message;
             m.sender != m.receiver && Runs(k1, ops)
             && forall j: nat {:trigger After(k1, ops, j)} :: j < |ops| ==> After(k1, ops, j).current != Some(m.sender)
    ensures var k1, m := Recv(k, from, buf, len).0, Recv(k, from, buf, len).1.message;
            var k' := After(k1, ops, |ops|);
            && m.receiver == k.current.value && m.sender < |k'.tasks| && k'.tasks[m.sender].len == m.count
            && m.count == Min(256, Min(len, k.tasks[m.sender].len))
  {
    hide After, Runs, Inv, FindSender, BufferOk;
    RecvKeeps(k, from, buf, len);
    ShapeOf(k);
    var k1, m := Recv(k, from, buf, len).0, Recv(k, from, buf, len).1.message;
    LengthKept(k1, ops, m.sender);
  }

  /** The sender arrives second: the receiver will report its own capacity, which is the number of
      bytes moved exactly when the message fills it. */
  lemma ReceiverReportsCapacity(k: Kernel, target: nat, buf: nat, len: nat, ops: seq<Op>)
    requires Inv(k) && Send(k, target, buf, len).1.Delivered?
    requires var k1, m := Send(k, target, buf, len).0, Send(k, target, buf, len).1.message;
             m.sender != m.receiver && Runs(k1, ops)
             && forall j: nat {:trigger After(k1, ops, j)} :: j < |ops| ==>
                  After(k1, ops, j).current != Some(m.receiver)
    ensures var k1, m := Send(k, target, buf, len).0, Send(k, target, buf, len).1.message;
            var k' := After(k1, ops, |ops|); var capacity := k.tasks[m.receiver].len;
            && m.sender == k.current.value && m.receiver < |k'.tasks| && k'.tasks[m.receiver].len == capacity
            && m.count == Min(256, Min(len, capacity))
            && (k'.tasks[m.receiver].len == m.count <==> len >= capacity)
  {
    hide After, Runs, BufferOk, Find, NoMissedRendezvous, NoLostWakeup;
    SendKeeps(k, target, buf, len);
    FindIsSlot(k, target);
    var k1, m := Send(k, target, buf, len).0, Send(k, target, buf, len).1.message;
    assert BlockedBufferOk(k.tasks[m.receiver]);
    LengthKept(k1, ops, m.receiver);
  }

  /** A send that finds its receiver waiting is never turned away for the receiver's buffer. */
  lemma DeliveryNeverRefused(k: Kernel, target: nat, buf: nat, len: nat)
    requires Inv(k) && k.current.Some? && target < |k.tasks|
    requires BufferOk(k.tasks[k.current.value].view, buf, Min(len, MAX_MESSAGE), false)
    requires k.tasks[target].state == Blocked && k.tasks[target].reason == OnRecv
    requires k.tasks[target].peer == ANY || k.tasks[target].peer == k.current.value
    ensures Send(k, target, buf, len).1.Delivered?
  {
    hide BufferOk, Find, NoMissedRendezvous, NoLostWakeup, BuffersOk;
    FindIsSlot(k, target);
    ReceiverStillValid(k, target, k.current.value, Min(len, MAX_MESSAGE));
  }

  /** A receive never passes over a waiting sender it accepts: it takes the first in slot order. */
  lemma ReceiveTakesFirst(k: Kernel, from: nat, buf: nat, len: nat, s: nat)
    requires Inv(k) && k.current.Some? && s < |k.tasks|
    requires BufferOk(k.tasks[k.current.value].view, buf, Min(len, MAX_MESSAGE), true)
    requires k.tasks[s].state == Blocked && k.tasks[s].reason == OnSend && k.tasks[s].peer == k.current.value
    requires from == ANY || from == s
    ensures Recv(k, from, buf, len).1.Delivered? && Recv(k, from, buf, len).1.message.sender <= s
  {
    hide BufferOk, NoMissedRendezvous, NoLostWakeup, BuffersOk;
    SenderStillOffers(k, s, k.current.value, from, Min(len, MAX_MESSAGE));
  }
}

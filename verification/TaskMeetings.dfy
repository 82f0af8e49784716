/** Two calls that meet: a task asleep in receive, send or wait is found by its partner, however
    long it has slept and whatever ran in between. */
module TaskMeetings {
  import opened PageTables
  import opened Tasks
  import opened TaskRuns
  import opened TaskOutcomes

  /** Task i is not current at any time of the run. */
  ghost predicate NeverCurrent(k: Kernel, ops: seq<Op>, i: nat)
    requires Runs(k, ops)
  {
    forall j: nat {:trigger After(k, ops, j)} :: j <= |ops| ==> After(k, ops, j).current != Some(i)
  }

  lemma NeverCurrentTail(k: Kernel, ops: seq<Op>, i: nat)
    requires Runs(k, ops) && ops != [] && NeverCurrent(k, ops, i)
    ensures Runs(Step(k, ops[0]), ops[1..]) && NeverCurrent(Step(k, ops[0]), ops[1..], i)
    ensures k.current != Some(i)
  {
    hide Step;
    assert After(k, ops, 0) == k;
    forall j: nat | j <= |ops[1..]| ensures After(Step(k, ops[0]), ops[1..], j).current != Some(i) {
      assert After(k, ops, j + 1) == After(Step(k, ops[0]), ops[1..], j);
    }
  }

  /** A woken task that is not picked stays RUNNABLE. */
  lemma {:induction false} StaysRunnable(k: Kernel, ops: seq<Op>, i: nat)
    requires Inv(k) && Runs(k, ops) && k.current.Some? && i < |k.tasks| && k.tasks[i].state == Runnable
    requires NeverCurrent(k, ops, i)
    ensures var k' := After(k, ops, |ops|); i < |k'.tasks| && k'.tasks[i].state == Runnable
    decreases |ops|
  {
    hide Inv, Enabled, Step, Partner, NeverCurrent;
    if ops != [] {
      NeverCurrentTail(k, ops, i);
      ShapeOf(k);
      StepKeeps(k, ops[0]);
      OtherTask(k, ops[0], i);
      StartsUncurrent(Step(k, ops[0]), ops[1..], i);
      PartnerBlocked(k, ops[0], i);
      StaysRunnable(Step(k, ops[0]), ops[1..], i);
    }
  }

  lemma StartsUncurrent(k: Kernel, ops: seq<Op>, i: nat)
    requires Runs(k, ops) && NeverCurrent(k, ops, i)
    ensures k.current != Some(i)
  {
    assert After(k, ops, 0) == k;
  }

  /** A task that is asleep at the end of a run in which it was never current has slept through it:
      it still asks for what it asked for. */
  lemma {:induction false} SleptThrough(k: Kernel, ops: seq<Op>, i: nat)
    requires Inv(k) && Runs(k, ops) && k.current.Some? && i < |k.tasks| && k.tasks[i].state == Blocked
    requires NeverCurrent(k, ops, i)
    requires var k' := After(k, ops, |ops|); i < |k'.tasks| && k'.tasks[i].state == Blocked
    ensures var k' := After(k, ops, |ops|); Inv(k') && SameTask(k.tasks[i], k'.tasks[i])
    decreases |ops|
  {
    hide Inv, Enabled, Step, Partner, NeverCurrent;
    if ops != [] {
      var k1 := Step(k, ops[0]);
      NeverCurrentTail(k, ops, i);
      ShapeOf(k);
      StepKeeps(k, ops[0]);
      OtherTask(k, ops[0], i);
      StartsUncurrent(k1, ops[1..], i);
      if k1.tasks[i].state == Runnable {
        StaysRunnable(k1, ops[1..], i);
      } else {
        SleptThrough(k1, ops[1..], i);
      }
    }
  }

  /** A receive that blocked is met by every send it accepts: after any run it slept through, a
      send to it by task c with a valid buffer delivers, into the buffer it named. */
  lemma ReceiveThenSend(k: Kernel, from: nat, buf: nat, len: nat, ops: seq<Op>, sbuf: nat, slen: nat)
    requires Inv(k) && k.current.Some? && Recv(k, from, buf, len).1.Waits?
    requires var k1, r := Recv(k, from, buf, len).0, k.current.value;
             && Runs(k1, ops) && NeverCurrent(k1, ops, r)
             && var k2 := After(k1, ops, |ops|);
             && r < |k2.tasks| && k2.tasks[r].state == Blocked
             && k2.current.Some? && k2.current.value < |k2.tasks| && (from == ANY || from == k2.current.value)
             && BufferOk(k2.tasks[k2.current.value].view, sbuf, Clipped(slen), false)
    ensures var k1, r := Recv(k, from, buf, len).0, k.current.value; var k2 := After(k1, ops, |ops|);
            && var o := Send(k2, r, sbuf, slen).1;
            && o.Delivered? && o.message.sender == k2.current.value && o.message.receiver == r
            && o.message.src == sbuf && o.message.dst == buf
            && o.message.count == Min(256, Min(slen, len))
  {
    hide Inv, Recv, Send, Runs, After, NeverCurrent, BufferOk, Decided, OnlyChanged;
    ShapeOf(k);
    var k1, r := Recv(k, from, buf, len).0, k.current.value;
    RecvOutcome(k, from, buf, len);
    RecvKeeps(k, from, buf, len);
    SomebodyRuns(k, k1, r, OnRecv, from, buf, Clipped(len));
    SleptThrough(k1, ops, r);
    SendOutcome(After(k1, ops, |ops|), r, sbuf, slen);
  }

  lemma SomebodyRuns(k: Kernel, k': Kernel, c: nat, reason: Reason, peer: nat, buf: nat, len: nat)
    requires Asleep(k, k', c, reason, peer, buf, len)
    ensures k'.current.Some? && k'.tasks[c].state == Blocked && k'.tasks[c].reason == reason
    ensures k'.tasks[c].peer == peer && k'.tasks[c].buf == buf && k'.tasks[c].len == len
    ensures |k'.tasks| == |k.tasks| && k'.tasks[c].id == k.tasks[c].id
  {
  }

  /** A send that blocked is met by every receive of its target that accepts it: after any run it
      slept through, the receive delivers, from the lowest accepted sender, which is this one unless
      another is blocked on the same receiver in a lower slot. */
  lemma SendThenReceive(k: Kernel, target: nat, buf: nat, len: nat, ops: seq<Op>, from: nat, rbuf: nat, rlen: nat)
    requires Inv(k) && k.current.Some? && Send(k, target, buf, len).1.Waits?
    requires var k1, s := Send(k, target, buf, len).0, k.current.value;
             && Runs(k1, ops) && NeverCurrent(k1, ops, s)
             && var k2 := After(k1, ops, |ops|);
             && s < |k2.tasks| && k2.tasks[s].state == Blocked
             && k2.current == Some(target) && target < |k2.tasks| && (from == ANY || from == s)
             && BufferOk(k2.tasks[target].view, rbuf, Clipped(rlen), true)
    ensures var k1, s := Send(k, target, buf, len).0, k.current.value; var k2 := After(k1, ops, |ops|);
            && var o := Recv(k2, from, rbuf, rlen).1;
            && o.Delivered? && o.message.receiver == target && o.message.dst == rbuf && o.message.sender <= s
            && ((forall j: nat {:trigger k2.tasks[j]} :: j < s ==> !Sends(k2.tasks[j], target, from)) ==>
                  o.message.sender == s && o.message.src == buf && o.message.count == Min(256, Min(rlen, len)))
  {
    hide Inv, Recv, Send, Runs, After, NeverCurrent, BufferOk, Decided, OnlyChanged;
    ShapeOf(k);
    var k1, s := Send(k, target, buf, len).0, k.current.value;
    SendOutcome(k, target, buf, len);
    SendKeeps(k, target, buf, len);
    SomebodyRuns(k, k1, s, OnSend, target, buf, Clipped(len));
    SleptThrough(k1, ops, s);
    var k2 := After(k1, ops, |ops|);
    OwnId(k, s);
    RecvOutcome(k2, from, rbuf, rlen);
    assert Sends(k2.tasks[s], target, from);
  }

  lemma OwnId(k: Kernel, i: nat)
    requires Inv(k) && i < |k.tasks|
    ensures k.tasks[i].id == i
  {
  }

  /** A wait that blocked is ended by the exit of every child it asked for: after any run it slept
      through, the exit of such a child makes the waiter RUNNABLE. */
  lemma WaitThenExit(k: Kernel, child: nat, ops: seq<Op>, code: nat)
    requires Inv(k) && k.current.Some? && k.tasks[k.current.value].state != Dead && Wait(k, child).1.Waits?
    requires var k1, p := Wait(k, child).0, k.current.value;
             && Runs(k1, ops) && NeverCurrent(k1, ops, p)
             && var k2 := After(k1, ops, |ops|);
             && p < |k2.tasks| && k2.tasks[p].state == Blocked
             && k2.current.Some? && k2.current.value < |k2.tasks|
             && k2.tasks[k2.current.value].parent == p && (child == ANY || child == k2.current.value)
    ensures var k1, p := Wait(k, child).0, k.current.value; var k2 := After(k1, ops, |ops|);
            && var k3 := Exit(k2, code);
            && p < |k3.tasks| && k3.tasks[p].state == Runnable
            && k2.current.value < |k3.tasks| && k3.tasks[k2.current.value].state == Dead
            && k3.tasks[k2.current.value].code == code
  {
    hide Inv, Wait, Exit, Runs, After, NeverCurrent, Decided;
    ShapeOf(k);
    var k1, p := Wait(k, child).0, k.current.value;
    WaitOutcome(k, child);
    WaitKeeps(k, child);
    SomebodyRuns(k, k1, p, OnWait, child, 0, 0);
    SleptThrough(k1, ops, p);
    ExitOutcome(After(k1, ops, |ops|), code);
  }

  /** The woken parent then reaps: the next round of its wait returns a child that has exited. */
  lemma ExitThenWait(k: Kernel, code: nat, ops: seq<Op>, child: nat)
    requires Inv(k) && k.current.Some? && k.tasks[k.current.value].state != Dead
    requires var d := k.current.value; var p := k.tasks[d].parent;
             && p < |k.tasks| && (child == ANY || child == d) && Runs(Exit(k, code), ops)
             && var k2 := After(Exit(k, code), ops, |ops|);
             && |k2.tasks| == |k.tasks| && k2.tasks[d].state == Dead && k2.tasks[d].parent == p
             && k2.current == Some(p) && k2.tasks[p].state != Dead
    ensures var k2 := After(Exit(k, code), ops, |ops|);
            Wait(k2, child).1.Returned? && Wait(k2, child).1.value <= k.current.value
  {
    hide Inv, Wait, Exit, Runs, After;
    ShapeOf(k);
    var d := k.current.value;
    ExitKeeps(k, code);
    RunKeeps(Exit(k, code), ops, |ops|);
    var k2 := After(Exit(k, code), ops, |ops|);
    OwnId(k2, d);
    WaitOutcome(k2, child);
    assert AskedFor(k2.tasks[d], k2.current.value, child);
  }
}

/** Kernel stacks as the assembly uses them (kernel/src/context_switch.S, syscall_entry.S) and the
    initial frames kernel/src/task.c builds for tasks that have never run. */
module ContextSwitch {
  import opened PageTables
  import opened WordMemory
  import opened LinkedLists

  // Register numbers, in the order of struct syscall_regs.
  const RAX: nat := 0
  const RBX: nat := 1
  const RCX: nat := 2
  const RDX: nat := 3
  const RSI: nat := 4
  const RDI: nat := 5
  const RBP: nat := 6
  const R8: nat := 7
  const R9: nat := 8
  const R10: nat := 9
  const R11: nat := 10
  const R12: nat := 11
  const R13: nat := 12
  const R14: nat := 13
  const R15: nat := 14
  const REGS: nat := 15

  const USER_CS: nat := 0x23
  const USER_DS: nat := 0x1B
  const STACK_SIZE: nat := 4096
  /** Size of struct syscall_regs: fifteen registers and the five words of an interrupt frame. */
  const REGS_SIZE: nat := 160

  datatype Cpu = Cpu(regs: seq<nat>, rsp: nat, mem: WordMap)

  predicate CpuOk(m: Cpu) { |m.regs| == REGS }

  predicate RegList(rs: seq<nat>) { forall i :: 0 <= i < |rs| ==> rs[i] < REGS }

  // ----- pushing and popping

  function Push(m: Cpu, v: nat): Cpu
    requires m.rsp >= 8
  {
    m.(rsp := m.rsp - 8, mem := m.mem[m.rsp - 8 := v])
  }

  function PushAll(m: Cpu, rs: seq<nat>): Cpu
    requires CpuOk(m) && RegList(rs) && m.rsp >= 8 * |rs|
    decreases |rs|
  {
    if rs == [] then m else PushAll(Push(m, m.regs[rs[0]]), rs[1..])
  }

  function PopAll(m: Cpu, rs: seq<nat>): Cpu
    requires CpuOk(m) && RegList(rs)
    decreases |rs|
  {
    if rs == [] then m
    else PopAll(m.(rsp := m.rsp + 8, regs := m.regs[rs[0] := At(m.mem, m.rsp)]), rs[1..])
  }

  /** The registers land in memory one below the other. */
  lemma {:induction false} PushAllWrites(m: Cpu, rs: seq<nat>)
    requires CpuOk(m) && RegList(rs) && m.rsp >= 8 * |rs|
    ensures var m' := PushAll(m, rs);
            && m'.regs == m.regs && m'.rsp == m.rsp - 8 * |rs|
            && (forall k: nat {:trigger rs[k]} :: k < |rs| ==> At(m'.mem, m.rsp - 8 * (k + 1)) == m.regs[rs[k]])
            && ChangedWithin(m.mem, m'.mem, m.rsp - 8 * |rs|, m.rsp)
    decreases |rs|
  {
    if rs != [] {
      var m1 := Push(m, m.regs[rs[0]]);
      PushAllWrites(m1, rs[1..]);
      var m' := PushAll(m, rs);
      forall k: nat | k < |rs| ensures At(m'.mem, m.rsp - 8 * (k + 1)) == m.regs[rs[k]] {
        if k > 0 { assert rs[1..][k - 1] == rs[k]; }
      }
    }
  }

  /** Popping reads them back, one above the other, and touches no other register. */
  lemma {:induction false} PopAllReads(m: Cpu, rs: seq<nat>)
    requires CpuOk(m) && RegList(rs) && Distinct(rs)
    ensures var m' := PopAll(m, rs);
            && CpuOk(m') && m'.rsp == m.rsp + 8 * |rs| && m'.mem == m.mem
            && (forall k: nat {:trigger rs[k]} :: k < |rs| ==> m'.regs[rs[k]] == At(m.mem, m.rsp + 8 * k))
            && (forall r: nat :: r < REGS && r !in rs ==> m'.regs[r] == m.regs[r])
    decreases |rs|
  {
    if rs != [] {
      var m1 := m.(rsp := m.rsp + 8, regs := m.regs[rs[0] := At(m.mem, m.rsp)]);
      PopAllReads(m1, rs[1..]);
      var m' := PopAll(m, rs);
      forall k: nat | k < |rs| ensures m'.regs[rs[k]] == At(m.mem, m.rsp + 8 * k) {
        if k > 0 { assert rs[1..][k - 1] == rs[k]; }
      }
      assert forall r :: r in rs[1..] ==> r in rs;
    }
  }

  // ----- system call entry and return

  /** What user code can see of the processor. */
  datatype User = User(regs: seq<nat>, rip: nat, cs: nat, rflags: nat, rsp: nat, ss: nat)

  const ENTRY_PUSHES: seq<nat> := [R15, R14, R13, R12, R11, R10, R9, R8, RBP, RDI, RSI, RDX, RCX, RBX, RAX]
  const RETURN_POPS: seq<nat> := [RAX, RBX, RCX, RDX, RSI, RDI, RBP, R8, R9, R10, R11, R12, R13, R14, R15]

  /** The interrupt frame the processor pushes on the kernel stack. */
  function HardwareFrame(u: User, top: nat, mem: WordMap): Cpu
    requires |u.regs| == REGS && top >= REGS_SIZE
  {
    Push(Push(Push(Push(Push(Cpu(u.regs, top, mem), u.ss), u.rsp), u.rflags), u.cs), u.rip)
  }

  /** The interrupt, then syscall_entry_asm. */
  function SyscallEntry(u: User, top: nat, mem: WordMap): Cpu
    requires |u.regs| == REGS && top >= REGS_SIZE
  {
    assert RegList(ENTRY_PUSHES);
    PushAll(HardwareFrame(u, top, mem), ENTRY_PUSHES)
  }

  /** The low 16 bits of rax are overwritten by a segment selector. */
  function MovAx(m: Cpu, v: nat): Cpu
    requires CpuOk(m)
  {
    m.(regs := m.regs[RAX := m.regs[RAX] / 0x1_0000 * 0x1_0000 + v % 0x1_0000])
  }

  /** syscall_entry_return, ending in iretq. */
  function SyscallReturn(m: Cpu): User
    requires CpuOk(m)
  {
    assert RegList(RETURN_POPS);
    var r := PopAll(MovAx(m, USER_DS), RETURN_POPS);
    User(r.regs, At(r.mem, r.rsp), At(r.mem, r.rsp + 8), At(r.mem, r.rsp + 16), At(r.mem, r.rsp + 24), At(r.mem,
        r.rsp + 32))
  }

  /** Word i of the struct syscall_regs that describes user state u. */
  function RegsWord(u: User, i: nat): nat
    requires |u.regs| == REGS && i < 20
  {
    if i < 15 then u.regs[i]
    else if i == 15 then u.rip
    else if i == 16 then u.cs
    else if i == 17 then u.rflags
    else if i == 18 then u.rsp
    else u.ss
  }

  /** Address of field i of a struct syscall_regs at p. */
  function Field(p: nat, i: nat): nat { p + 8 * i }

  /** The struct at address p describes u. */
  ghost predicate RegsAt(mem: WordMap, p: nat, u: User) {
    |u.regs| == REGS && forall i: nat {:trigger Field(p, i)} :: i < 20 ==> At(mem, Field(p, i)) == RegsWord(u, i)
  }

  lemma EntryOrder(i: nat)
    requires i < 15
    ensures ENTRY_PUSHES[14 - i] == i && RETURN_POPS[i] == i
  {
  }

  lemma ReturnOrder()
    ensures |RETURN_POPS| == 15 && RegList(RETURN_POPS) && Distinct(RETURN_POPS)
    ensures |ENTRY_PUSHES| == 15 && RegList(ENTRY_PUSHES)
  {
  }

  /** The push order matches the layout of struct syscall_regs, at the top of the kernel stack. */
  lemma EntryLayout(u: User, top: nat, mem: WordMap)
    requires |u.regs| == REGS && top >= REGS_SIZE
    ensures var m := SyscallEntry(u, top, mem);
            && CpuOk(m) && m.rsp == top - REGS_SIZE && RegsAt(m.mem, top - REGS_SIZE, u)
            && ChangedWithin(mem, m.mem, top - REGS_SIZE, top)
  {
    hide PushAll, ChangedWithin;
    var m0 := HardwareFrame(u, top, mem);
    ReturnOrder();
    HardwareWords(u, top, mem);
    PushAllWrites(m0, ENTRY_PUSHES);
    var m, p := SyscallEntry(u, top, mem), top - REGS_SIZE;
    OutsideTwice(mem, m0.mem, m.mem, p, top - 40, top);
    hide HardwareFrame, SyscallEntry;
    forall i: nat | i < 20 ensures At(m.mem, Field(p, i)) == RegsWord(u, i) {
      if i < 15 {
        EntryOrder(i);
        assert m0.rsp - 8 * (14 - i + 1) == Field(p, i);
      } else {
        OutsideAt(m0.mem, m.mem, p, top - 40, Field(p, i));
      }
    }
  }

  lemma OutsideAt(mem: WordMap, mem': WordMap, lo: nat, hi: nat, a: nat)
    requires ChangedWithin(mem, mem', lo, hi) && !(lo <= a < hi)
    ensures At(mem', a) == At(mem, a)
  {
  }

  lemma OutsideTwice(mem0: WordMap, mem1: WordMap, mem2: WordMap, lo: nat, mid: nat, hi: nat)
    requires ChangedWithin(mem0, mem1, mid, hi) && ChangedWithin(mem1, mem2, lo, mid) && lo <= mid <= hi
    ensures ChangedWithin(mem0, mem2, lo, hi)
  {
    forall a: nat | !(lo <= a < hi) ensures At(mem2, a) == At(mem0, a) {
      assert At(mem1, a) == At(mem0, a);
    }
  }

  lemma HardwareWords(u: User, top: nat, mem: WordMap)
    requires |u.regs| == REGS && top >= REGS_SIZE
    ensures var m := HardwareFrame(u, top, mem);
            && CpuOk(m) && m.rsp == top - 40 && m.regs == u.regs && ChangedWithin(mem, m.mem, top - 40, top)
            && forall i: nat {:trigger Field(top - REGS_SIZE, i)} :: 15 <= i < 20 ==>
                 At(m.mem, Field(top - REGS_SIZE, i)) == RegsWord(u, i)
  {
  }

  lemma MovAxKeeps(m: Cpu, v: nat)
    requires CpuOk(m)
    ensures CpuOk(MovAx(m, v)) && MovAx(m, v).rsp == m.rsp && MovAx(m, v).mem == m.mem
  {
  }

  /** Returning from a struct syscall_regs gives exactly the user state it describes. */
  lemma ReturnReads(m: Cpu, u: User)
    requires CpuOk(m) && RegsAt(m.mem, m.rsp, u)
    ensures SyscallReturn(m) == u
  {
    hide MovAx, PopAll;
    ReturnOrder();
    MovAxKeeps(m, USER_DS);
    var m0 := MovAx(m, USER_DS);
    PopAllReads(m0, RETURN_POPS);
    var r, p := SyscallReturn(m), m.rsp;
    forall i: nat | i < 15 ensures r.regs[i] == u.regs[i] {
      EntryOrder(i);
      assert Field(p, i) == p + 8 * i;
    }
    assert Field(p, 15) == p + 120 && Field(p, 16) == p + 128 && Field(p, 17) == p + 136
      && Field(p, 18) == p + 144 && Field(p, 19) == p + 152;
    assert r.regs == u.regs;
  }

  lemma SetRax(mem: WordMap, p: nat, u: User, v: nat)
    requires RegsAt(mem, p, u)
    ensures RegsAt(mem[p := v], p, u.(regs := u.regs[RAX := v]))
  {
    var u' := u.(regs := u.regs[RAX := v]);
    forall i: nat | i < 20 ensures At(mem[p := v], Field(p, i)) == RegsWord(u', i) {
      assert At(mem, Field(p, i)) == RegsWord(u, i);
    }
  }

  lemma RegsMoved(mem: WordMap, mem': WordMap, p: nat, u: User)
    requires RegsAt(mem, p, u)
    requires forall a: nat {:trigger At(mem', a)} :: p <= a < p + REGS_SIZE ==> At(mem', a) == At(mem, a)
    ensures RegsAt(mem', p, u)
  {
    forall i: nat | i < 20 ensures At(mem', Field(p, i)) == RegsWord(u, i) {
      assert At(mem, Field(p, i)) == RegsWord(u, i);
    }
  }

  /** A system call that leaves its struct syscall_regs alone except for the result in rax returns
      to the caller with only rax changed. */
  lemma SyscallRoundTrip(u: User, top: nat, mem: WordMap, m: Cpu, result: nat)
    requires |u.regs| == REGS && top >= REGS_SIZE
    requires var entered := SyscallEntry(u, top, mem);
             && CpuOk(m) && m.rsp == entered.rsp
             && forall a: nat {:trigger At(m.mem, a)} :: top - REGS_SIZE <= a < top ==>
                  At(m.mem, a) == At(entered.mem[entered.rsp := result], a)
    ensures SyscallReturn(m) == u.(regs := u.regs[RAX := result])
  {
    hide SyscallReturn, SyscallEntry, RegsAt;
    EntryLayout(u, top, mem);
    var entered, p := SyscallEntry(u, top, mem), top - REGS_SIZE;
    SetRax(entered.mem, p, u, result);
    RegsMoved(entered.mem[p := result], m.mem, p, u.(regs := u.regs[RAX := result]));
    ReturnReads(m, u.(regs := u.regs[RAX := result]));
  }

  // ----- context_switch

  const SAVE_PUSHES: seq<nat> := [RBX, RBP, R12, R13, R14, R15]
  const LOAD_POPS: seq<nat> := [R15, R14, R13, R12, RBP, RBX]

  /** Callee-saved registers and return address of a suspended task, and its stack pointer once it
      has returned from context_switch. */
  datatype Frame = Frame(rbx: nat, rbp: nat, r12: nat, r13: nat, r14: nat, r15: nat, ret: nat, rsp: nat)

  /** A frame saved at p. */
  ghost predicate FrameAt(mem: WordMap, p: nat, f: Frame) {
    && At(mem, p) == f.r15 && At(mem, p + 8) == f.r14 && At(mem, p + 16) == f.r13 && At(mem, p + 24) == f.r12
    && At(mem, p + 32) == f.rbp && At(mem, p + 40) == f.rbx && At(mem, p + 48) == f.ret && f.rsp == p + 56
  }

  /** What the processor holds when a task continues after context_switch. */
  predicate Resumes(m: Cpu, rip: nat, f: Frame) {
    && CpuOk(m)
    && m.regs[RBX] == f.rbx && m.regs[RBP] == f.rbp && m.regs[R12] == f.r12 && m.regs[R13] == f.r13
    && m.regs[R14] == f.r14 && m.regs[R15] == f.r15 && rip == f.ret && m.rsp == f.rsp
  }

  /** The call pushes its return address, then the saving half runs. */
  function SaveContext(m: Cpu, ret: nat): Cpu
    requires CpuOk(m) && m.rsp >= 56
  {
    assert RegList(SAVE_PUSHES);
    PushAll(Push(m, ret), SAVE_PUSHES)
  }

  /** The loading half, ending in ret. */
  function LoadContext(m: Cpu, ctx: nat): (Cpu, nat)
    requires CpuOk(m)
  {
    assert RegList(LOAD_POPS);
    var r := PopAll(m.(rsp := ctx), LOAD_POPS);
    (r.(rsp := r.rsp + 8), At(r.mem, r.rsp))
  }

  function FrameOf(m: Cpu, ret: nat): Frame
    requires CpuOk(m)
  {
    Frame(m.regs[RBX], m.regs[RBP], m.regs[R12], m.regs[R13], m.regs[R14], m.regs[R15], ret, m.rsp)
  }

  lemma SaveWrites(m: Cpu, ret: nat)
    requires CpuOk(m) && m.rsp >= 56
    ensures var m' := SaveContext(m, ret);
            && CpuOk(m') && m'.rsp == m.rsp - 56 && FrameAt(m'.mem, m'.rsp, FrameOf(m, ret))
            && ChangedWithin(m.mem, m'.mem, m.rsp - 56, m.rsp)
  {
    var m0 := Push(m, ret);
    assert RegList(SAVE_PUSHES);
    PushAllWrites(m0, SAVE_PUSHES);
    assert SAVE_PUSHES[0] == RBX && SAVE_PUSHES[1] == RBP && SAVE_PUSHES[2] == R12
      && SAVE_PUSHES[3] == R13 && SAVE_PUSHES[4] == R14 && SAVE_PUSHES[5] == R15;
    assert At(m0.mem, m.rsp - 8) == ret;
  }

  lemma LoadReads(m: Cpu, ctx: nat, f: Frame)
    requires CpuOk(m) && FrameAt(m.mem, ctx, f)
    ensures var (m', rip) := LoadContext(m, ctx); Resumes(m', rip, f) && m'.mem == m.mem
  {
    assert RegList(LOAD_POPS) && Distinct(LOAD_POPS);
    PopAllReads(m.(rsp := ctx), LOAD_POPS);
    assert LOAD_POPS[0] == R15 && LOAD_POPS[1] == R14 && LOAD_POPS[2] == R13
      && LOAD_POPS[3] == R12 && LOAD_POPS[4] == RBP && LOAD_POPS[5] == RBX;
  }

  // ----- many tasks, one kernel stack each

  /** `current` is None only while the boot code runs; ctx holds the context_rsp fields. */
  datatype World = World(cpu: Cpu, rip: nat, ctx: seq<nat>, current: Option<nat>)

  /** Work: the running task computes and uses its own stack. Switch: it calls context_switch,
      to continue at ret. Build: an initial frame is laid out on a stack that is not in use. */
  datatype Event =
    | Work(cpu: Cpu, rip: nat)
    | Switch(to: nat, ret: nat)
    | Build(task: nat, mem: WordMap, ctx: nat)

  predicate InStack(top: nat, a: nat) { a < top <= a + STACK_SIZE }

  ghost predicate StackKept(mem: WordMap, mem': WordMap, top: nat) {
    forall a: nat {:trigger At(mem', a)} :: InStack(top, a) ==> At(mem', a) == At(mem, a)
  }

  /** Kernel stacks do not overlap. */
  ghost predicate StacksOk(tops: seq<nat>) {
    && (forall t :: 0 <= t < |tops| ==> tops[t] >= STACK_SIZE)
    && (forall t, u :: 0 <= t < u < |tops| ==> tops[t] + STACK_SIZE <= tops[u] || tops[u] + STACK_SIZE <= tops[t])
  }

  /** The stack pointer leaves room for the call and the six saved registers. */
  predicate RoomAt(top: nat, rsp: nat) { rsp <= top && top + 56 <= rsp + STACK_SIZE }

  ghost predicate Legal(tops: seq<nat>, w: World, e: Event) {
    && CpuOk(w.cpu) && |w.ctx| == |tops| && StacksOk(tops) && (w.current.Some? ==> w.current.value < |tops|)
    && match e
       case Work(cpu, _) =>
         CpuOk(cpu) && forall t :: 0 <= t < |tops| && w.current != Some(t) ==> StackKept(w.cpu.mem, cpu.mem, tops[t])
       case Switch(to, _) =>
         to < |tops| && w.current != Some(to) && (w.current.Some? ==> RoomAt(tops[w.current.value], w.cpu.rsp))
       case Build(task, mem, ctx) =>
         && task < |tops| && w.current != Some(task)
         && forall t :: 0 <= t < |tops| && t != task ==> StackKept(w.cpu.mem, mem, tops[t])
  }

  ghost function Next(tops: seq<nat>, w: World, e: Event): World
    requires Legal(tops, w, e)
  {
    match e
    case Work(cpu, rip) => w.(cpu := cpu, rip := rip)
    case Switch(to, ret) =>
      if w.current.None? then
        var (m, rip) := LoadContext(w.cpu, w.ctx[to]);
        World(m, rip, w.ctx, Some(to))
      else
        var s := (assert w.cpu.rsp >= 56; SaveWrites(w.cpu, ret); SaveContext(w.cpu, ret));
        var ctx := w.ctx[w.current.value := s.rsp];
        var (m, rip) := LoadContext(s, ctx[to]);
        World(m, rip, ctx, Some(to))
    case Build(task, mem, ctx) => w.(cpu := w.cpu.(mem := mem), ctx := w.ctx[task := ctx])
  }

  /** Task c is suspended with frame f on its own stack. */
  ghost predicate Suspended(tops: seq<nat>, w: World, c: nat, f: Frame) {
    && CpuOk(w.cpu) && c < |tops| == |w.ctx| && w.current != Some(c)
    && FrameAt(w.cpu.mem, w.ctx[c], f)
    && tops[c] <= w.ctx[c] + STACK_SIZE && w.ctx[c] + 56 <= tops[c]
  }

  lemma StackKeepsFrame(mem: WordMap, mem': WordMap, top: nat, p: nat, f: Frame)
    requires StackKept(mem, mem', top) && FrameAt(mem, p, f) && top <= p + STACK_SIZE && p + 56 <= top
    ensures FrameAt(mem', p, f)
  {
  }

  lemma OtherStack(tops: seq<nat>, mem: WordMap, mem': WordMap, x: nat, t: nat, lo: nat, hi: nat)
    requires StacksOk(tops) && x < |tops| && t < |tops| && t != x
    requires ChangedWithin(mem, mem', lo, hi) && hi <= tops[x] <= lo + STACK_SIZE
    ensures StackKept(mem, mem', tops[t])
  {
  }

  lemma SwitchMemory(tops: seq<nat>, w: World, to: nat, ret: nat)
    requires Legal(tops, w, Switch(to, ret))
    ensures var w' := Next(tops, w, Switch(to, ret));
            && |w'.ctx| == |w.ctx| && CpuOk(w'.cpu) && w'.current == Some(to)
            && (forall t :: 0 <= t < |tops| && w.current != Some(t) ==>
                  StackKept(w.cpu.mem, w'.cpu.mem, tops[t]) && w'.ctx[t] == w.ctx[t])
  {
    assert RegList(LOAD_POPS) && Distinct(LOAD_POPS);
    if w.current.Some? {
      var c := w.current.value;
      SaveWrites(w.cpu, ret);
      var s := SaveContext(w.cpu, ret);
      PopAllReads(s.(rsp := w.ctx[c := s.rsp][to]), LOAD_POPS);
      forall t | 0 <= t < |tops| && t != c ensures StackKept(w.cpu.mem, s.mem, tops[t]) {
        OtherStack(tops, w.cpu.mem, s.mem, c, t, w.cpu.rsp - 56, w.cpu.rsp);
      }
    } else {
      PopAllReads(w.cpu.(rsp := w.ctx[to]), LOAD_POPS);
    }
  }

  /** A suspended task stays suspended with its frame, whatever the others do. */
  lemma SuspendedStays(tops: seq<nat>, w: World, e: Event, c: nat, f: Frame)
    requires Legal(tops, w, e) && Suspended(tops, w, c, f)
    requires e.Switch? ==> e.to != c
    requires e.Build? ==> e.task != c
    ensures Suspended(tops, Next(tops, w, e), c, f)
  {
    hide LoadContext, SaveContext;
    match e
    case Work(cpu, rip) => StackKeepsFrame(w.cpu.mem, cpu.mem, tops[c], w.ctx[c], f);
    case Switch(to, ret) =>
      SwitchMemory(tops, w, to, ret);
      StackKeepsFrame(w.cpu.mem, Next(tops, w, e).cpu.mem, tops[c], w.ctx[c], f);
    case Build(task, mem, ctx) => StackKeepsFrame(w.cpu.mem, mem, tops[c], w.ctx[c], f);
  }

  lemma SwitchResumes(tops: seq<nat>, w: World, to: nat, ret: nat, f: Frame)
    requires Legal(tops, w, Switch(to, ret)) && Suspended(tops, w, to, f)
    ensures var w' := Next(tops, w, Switch(to, ret)); Resumes(w'.cpu, w'.rip, f) && w'.current == Some(to)
  {
    hide LoadContext, SaveContext, Resumes, FrameAt;
    if w.current.Some? {
      var c := w.current.value;
      SaveWrites(w.cpu, ret);
      var s := SaveContext(w.cpu, ret);
      OtherStack(tops, w.cpu.mem, s.mem, c, to, w.cpu.rsp - 56, w.cpu.rsp);
      StackKeepsFrame(w.cpu.mem, s.mem, tops[to], w.ctx[to], f);
      LoadReads(s, w.ctx[to], f);
    } else {
      LoadReads(w.cpu, w.ctx[to], f);
    }
  }

  lemma SwitchSuspends(tops: seq<nat>, w: World, to: nat, ret: nat)
    requires Legal(tops, w, Switch(to, ret)) && w.current.Some?
    ensures Suspended(tops, Next(tops, w, Switch(to, ret)), w.current.value, FrameOf(w.cpu, ret))
  {
    hide LoadContext, SaveContext, FrameAt;
    SwitchMemory(tops, w, to, ret);
    SaveWrites(w.cpu, ret);
    LoadKeepsMemory(SaveContext(w.cpu, ret), w.ctx[w.current.value := SaveContext(w.cpu, ret).rsp][to]);
  }

  lemma LoadKeepsMemory(m: Cpu, ctx: nat)
    requires CpuOk(m)
    ensures LoadContext(m, ctx).0.mem == m.mem
  {
    assert RegList(LOAD_POPS) && Distinct(LOAD_POPS);
    PopAllReads(m.(rsp := ctx), LOAD_POPS);
  }

  /** A run during which task c is neither switched to nor rebuilt. */
  ghost predicate Without(tops: seq<nat>, w: World, es: seq<Event>, c: nat)
    decreases |es|
  {
    es == [] ||
    (&& Legal(tops, w, es[0]) && (es[0].Switch? ==> es[0].to != c) && (es[0].Build? ==> es[0].task != c)
     && Without(tops, Next(tops, w, es[0]), es[1..], c))
  }

  ghost function Run(tops: seq<nat>, w: World, es: seq<Event>, c: nat): World
    requires Without(tops, w, es, c)
    decreases |es|
  {
    if es == [] then w else Run(tops, Next(tops, w, es[0]), es[1..], c)
  }

  lemma {:induction false} RunKeepsSuspended(tops: seq<nat>, w: World, es: seq<Event>, c: nat, f: Frame)
    requires Without(tops, w, es, c) && Suspended(tops, w, c, f)
    ensures Suspended(tops, Run(tops, w, es, c), c, f)
    decreases |es|
  {
    hide Suspended, Legal, Next;
    if es != [] {
      SuspendedStays(tops, w, es[0], c, f);
      RunKeepsSuspended(tops, Next(tops, w, es[0]), es[1..], c, f);
    }
  }

  /** Over any sequence of switches: when a task that switched away is switched to again, it has
      the callee-saved registers, return address and stack pointer it left with. */
  lemma SwitchRoundTrip(tops: seq<nat>, w: World, to: nat, ret: nat, es: seq<Event>, ret': nat)
    requires Legal(tops, w, Switch(to, ret)) && w.current.Some?
    requires var c, w1 := w.current.value, Next(tops, w, Switch(to, ret));
             Without(tops, w1, es, c) && Legal(tops, Run(tops, w1, es, c), Switch(c, ret'))
    ensures var c, w1 := w.current.value, Next(tops, w, Switch(to, ret));
            var w2 := Next(tops, Run(tops, w1, es, c), Switch(c, ret'));
            Resumes(w2.cpu, w2.rip, FrameOf(w.cpu, ret)) && w2.current == w.current
  {
    hide Suspended, Next, Resumes, Without, Run;
    var c, w1 := w.current.value, Next(tops, w, Switch(to, ret));
    SwitchSuspends(tops, w, to, ret);
    RunKeepsSuspended(tops, w1, es, c, FrameOf(w.cpu, ret));
    SwitchResumes(tops, Run(tops, w1, es, c), c, ret', FrameOf(w.cpu, ret));
  }

  // ----- initial frames

  /** The seven words task.c lays below p: return address, then rbx, rbp, r12 to r15. */
  function InitialFrame(mem: WordMap, p: nat, ret: nat, r12: nat): WordMap
    requires p >= 56
  {
    mem[p - 8 := ret][p - 56 := 0][p - 48 := 0][p - 40 := 0][p - 32 := r12][p - 24 := 0][p - 16 := 0]
  }

  lemma InitialFrameResumes(mem: WordMap, p: nat, ret: nat, r12: nat)
    requires p >= 56
    ensures var mem' := InitialFrame(mem, p, ret, r12);
            FrameAt(mem', p - 56, Frame(0, 0, r12, 0, 0, 0, ret, p)) && ChangedWithin(mem, mem', p - 56, p)
  {
  }

  /** Copies the struct syscall_regs at p to q. */
  function CopyRegs(mem: WordMap, p: nat, q: nat, n: nat): WordMap {
    if n == 0 then mem
    else
      var m := CopyRegs(mem, p, q, n - 1);
      m[q + 8 * (n - 1) := At(m, p + 8 * (n - 1))]
  }

  lemma {:induction false} CopyRegsCopies(mem: WordMap, p: nat, q: nat, n: nat)
    requires n <= 20 && (p + REGS_SIZE <= q || q + REGS_SIZE <= p)
    ensures var m := CopyRegs(mem, p, q, n);
            && ChangedWithin(mem, m, q, q + 8 * n)
            && forall i: nat {:trigger Field(q, i)} :: i < n ==> At(m, Field(q, i)) == At(mem, Field(p, i))
  {
    if n > 0 {
      CopyRegsCopies(mem, p, q, n - 1);
      var m0 := CopyRegs(mem, p, q, n - 1);
      assert At(m0, p + 8 * (n - 1)) == At(mem, Field(p, n - 1));
      WordSet(mem, m0, q, n - 1, At(m0, p + 8 * (n - 1)));
    }
  }

  lemma WordSet(mem: WordMap, m0: WordMap, q: nat, k: nat, v: nat)
    requires ChangedWithin(mem, m0, q, q + 8 * k)
    ensures ChangedWithin(mem, m0[q + 8 * k := v], q, q + 8 * (k + 1))
    ensures forall i: nat {:trigger Field(q, i)} :: i <= k ==>
              At(m0[q + 8 * k := v], Field(q, i)) == if i == k then v else At(m0, Field(q, i))
  {
    var m := m0[q + 8 * k := v];
    forall a: nat | !(q <= a < q + 8 * (k + 1)) ensures At(m, a) == At(mem, a) {
      assert At(m0, a) == At(mem, a);
    }
  }

  /** task_fork's frame on the child's stack, from the struct syscall_regs of the parent. */
  function ForkFrame(mem: WordMap, regs: nat, top: nat, entryReturn: nat): (WordMap, nat)
    requires top >= REGS_SIZE + 56
  {
    var q := top - REGS_SIZE;
    var m := CopyRegs(mem, regs, q, 20)[q + 8 * RAX := 0];
    (InitialFrame(m, q, entryReturn, q), q - 56)
  }

  lemma ForkFrameBuilt(mem: WordMap, regs: nat, top: nat, entryReturn: nat, u: User)
    requires top >= STACK_SIZE && RegsAt(mem, regs, u) && (regs + REGS_SIZE <= top - REGS_SIZE || top <= regs)
    ensures var (mem', ctx) := ForkFrame(mem, regs, top, entryReturn);
            && FrameAt(mem', ctx, Frame(0, 0, top - REGS_SIZE, 0, 0, 0, entryReturn, top - REGS_SIZE))
            && RegsAt(mem', top - REGS_SIZE, u.(regs := u.regs[RAX := 0]))
            && ChangedWithin(mem, mem', top - REGS_SIZE - 56, top)
  {
    hide InitialFrame, RegsAt, FrameAt, CopyRegs, ChangedWithin, RegsWord, At, Field;
    RegsCount(mem, regs, u);
    var q := top - REGS_SIZE;
    CopiedRegs(mem, regs, q, u);
    var m1 := CopyRegs(mem, regs, q, 20)[q := 0];
    InitialFrameResumes(m1, q, entryReturn, q);
    var mem' := InitialFrame(m1, q, entryReturn, q);
    OutsideBelow(m1, mem', q - 56, q, u.(regs := u.regs[RAX := 0]));
    OutsideTwice(mem, m1, mem', q - 56, q, top);
  }

  lemma RegsCount(mem: WordMap, p: nat, u: User)
    requires RegsAt(mem, p, u)
    ensures |u.regs| == REGS
  {
  }

  lemma CopiedRegs(mem: WordMap, regs: nat, q: nat, u: User)
    requires RegsAt(mem, regs, u) && (regs + REGS_SIZE <= q || q + REGS_SIZE <= regs)
    ensures var m := CopyRegs(mem, regs, q, 20)[q := 0];
            RegsAt(m, q, u.(regs := u.regs[RAX := 0])) && ChangedWithin(mem, m, q, q + REGS_SIZE)
  {
    hide CopyRegs;
    CopyRegsCopies(mem, regs, q, 20);
    var m0 := CopyRegs(mem, regs, q, 20);
    forall i: nat | i < 20 ensures At(m0, Field(q, i)) == RegsWord(u, i) {
      assert At(mem, Field(regs, i)) == RegsWord(u, i);
    }
    SetRax(m0, q, u, 0);
    forall a: nat | !(q <= a < q + REGS_SIZE) ensures At(m0[q := 0], a) == At(mem, a) {
      assert At(m0, a) == At(mem, a);
    }
  }

  lemma OutsideBelow(mem: WordMap, mem': WordMap, lo: nat, q: nat, u: User)
    requires ChangedWithin(mem, mem', lo, q) && RegsAt(mem, q, u)
    ensures RegsAt(mem', q, u)
  {
    RegsMoved(mem, mem', q, u);
  }

  /** A forked child's first run: after any run of the others, switching to it and returning from
      its struct syscall_regs gives the parent's user state at the fork, with rax 0. */
  lemma ForkedChildResumes(tops: seq<nat>, w: World, child: nat, regs: nat, entryReturn: nat, u: User,
                           es: seq<Event>, ret: nat)
    requires child < |tops| && w.current != Some(child) && RegsAt(w.cpu.mem, regs, u) && StacksOk(tops)
    requires regs + REGS_SIZE <= tops[child] - REGS_SIZE || tops[child] <= regs
    requires var (mem, ctx) := ForkFrame(w.cpu.mem, regs, tops[child], entryReturn);
             var e := Build(child, mem, ctx);
             && Legal(tops, w, e)
             && var w1 := Next(tops, w, e);
             Without(tops, w1, es, child) && Legal(tops, Run(tops, w1, es, child), Switch(child, ret))
    ensures var (mem, ctx) := ForkFrame(w.cpu.mem, regs, tops[child], entryReturn);
            var w1 := Next(tops, w, Build(child, mem, ctx));
            var w2 := Next(tops, Run(tops, w1, es, child), Switch(child, ret));
            && w2.rip == entryReturn && CpuOk(w2.cpu) && SyscallReturn(w2.cpu) == u.(regs := u.regs[RAX := 0])
  {
    var top := tops[child];
    ForkFrameBuilt(w.cpu.mem, regs, top, entryReturn, u);
    var (mem, ctx) := ForkFrame(w.cpu.mem, regs, top, entryReturn);
    FirstRun(tops, Next(tops, w, Build(child, mem, ctx)), child, entryReturn, u.(regs := u.regs[RAX := 0]), es, ret);
  }

  /** A task whose stack holds a struct syscall_regs for u below its top, and a saved context that
      leads to the return path, starts in user state u, whatever the others did before. */
  lemma FirstRun(tops: seq<nat>, w: World, t: nat, entryReturn: nat, u: User, es: seq<Event>, ret: nat)
    requires StacksOk(tops) && t < |tops| && RegsAt(w.cpu.mem, tops[t] - REGS_SIZE, u)
    requires Suspended(tops, w, t, Frame(0, 0, tops[t] - REGS_SIZE, 0, 0, 0, entryReturn, tops[t] - REGS_SIZE))
    requires Without(tops, w, es, t) && Legal(tops, Run(tops, w, es, t), Switch(t, ret))
    ensures var w' := Next(tops, Run(tops, w, es, t), Switch(t, ret));
            w'.rip == entryReturn && CpuOk(w'.cpu) && SyscallReturn(w'.cpu) == u
  {
    hide SyscallReturn, LoadContext, SaveContext, RegsAt, Without, Run;
    var top := tops[t];
    var f := Frame(0, 0, top - REGS_SIZE, 0, 0, 0, entryReturn, top - REGS_SIZE);
    RunKeepsSuspended(tops, w, es, t, f);
    RunKeepsRegs(tops, w, es, t, u);
    var w2 := Run(tops, w, es, t);
    SwitchResumes(tops, w2, t, ret, f);
    SwitchMemory(tops, w2, t, ret);
    KeptRegs(w2.cpu.mem, Next(tops, w2, Switch(t, ret)).cpu.mem, top, u);
    ReturnReads(Next(tops, w2, Switch(t, ret)).cpu, u);
  }

  // ----- the first task

  /** User state at the entry point of a program: flags with interrupts on, all else zero. */
  function EntryState(entry: nat, stack: nat): User {
    User(seq(REGS, i => 0), entry, USER_CS, 0x202, stack, USER_DS)
  }

  /** The first n words of the struct syscall_regs for u, at q. */
  function StoreRegs(mem: WordMap, q: nat, u: User, n: nat): WordMap
    requires |u.regs| == REGS && n <= 20
  {
    if n == 0 then mem else StoreRegs(mem, q, u, n - 1)[q + 8 * (n - 1) := RegsWord(u, n - 1)]
  }

  lemma {:induction false} StoreRegsStores(mem: WordMap, q: nat, u: User, n: nat)
    requires |u.regs| == REGS && n <= 20
    ensures var m := StoreRegs(mem, q, u, n);
            && ChangedWithin(mem, m, q, q + 8 * n)
            && forall i: nat {:trigger Field(q, i)} :: i < n ==> At(m, Field(q, i)) == RegsWord(u, i)
  {
    if n > 0 {
      StoreRegsStores(mem, q, u, n - 1);
      WordSet(mem, StoreRegs(mem, q, u, n - 1), q, n - 1, RegsWord(u, n - 1));
    }
  }

  /** task_prepare_user_entry */
  function EntryFrame(mem: WordMap, top: nat, entry: nat, stack: nat, entryReturn: nat): (WordMap, nat)
    requires top >= REGS_SIZE + 56
  {
    var q := top - REGS_SIZE;
    (InitialFrame(StoreRegs(mem, q, EntryState(entry, stack), 20), q, entryReturn, q), q - 56)
  }

  /** A prepared task first runs at its entry point, on its user stack, with interrupts on. */
  lemma PreparedTaskStarts(tops: seq<nat>, w: World, t: nat, entry: nat, stack: nat, entryReturn: nat,
                           es: seq<Event>, ret: nat)
    requires t < |tops| && w.current != Some(t) && StacksOk(tops)
    requires var (mem, ctx) := EntryFrame(w.cpu.mem, tops[t], entry, stack, entryReturn);
             && Legal(tops, w, Build(t, mem, ctx))
             && var w1 := Next(tops, w, Build(t, mem, ctx));
             Without(tops, w1, es, t) && Legal(tops, Run(tops, w1, es, t), Switch(t, ret))
    ensures var (mem, ctx) := EntryFrame(w.cpu.mem, tops[t], entry, stack, entryReturn);
            var w1 := Next(tops, w, Build(t, mem, ctx));
            var w2 := Next(tops, Run(tops, w1, es, t), Switch(t, ret));
            && w2.rip == entryReturn && CpuOk(w2.cpu)
            && var u := SyscallReturn(w2.cpu);
            && u.rip == entry && u.rsp == stack && u.cs == 0x23 && u.ss == 0x1B && u.rflags == 0x202
            && |u.regs| == 15 && forall i :: 0 <= i < 15 ==> u.regs[i] == 0
  {
    hide InitialFrame, StoreRegs, SyscallReturn, LoadContext, SaveContext, Without, Run, EntryState;
    var q, u := tops[t] - REGS_SIZE, EntryState(entry, stack);
    EntryRegs(entry, stack);
    StoreRegsStores(w.cpu.mem, q, u, 20);
    var m := StoreRegs(w.cpu.mem, q, u, 20);
    InitialFrameResumes(m, q, entryReturn, q);
    var (mem, ctx) := EntryFrame(w.cpu.mem, tops[t], entry, stack, entryReturn);
    OutsideBelow(m, mem, q - 56, q, u);
    FirstRun(tops, Next(tops, w, Build(t, mem, ctx)), t, entryReturn, u, es, ret);
  }

  lemma EntryRegs(entry: nat, stack: nat)
    ensures var u := EntryState(entry, stack);
            && u.rip == entry && u.rsp == stack && u.cs == 0x23 && u.ss == 0x1B && u.rflags == 0x202
            && |u.regs| == 15 && forall i :: 0 <= i < 15 ==> u.regs[i] == 0
  {
  }

  lemma KeptRegs(mem: WordMap, mem': WordMap, top: nat, u: User)
    requires StackKept(mem, mem', top) && top >= STACK_SIZE && RegsAt(mem, top - REGS_SIZE, u)
    ensures RegsAt(mem', top - REGS_SIZE, u)
  {
    RegsMoved(mem, mem', top - REGS_SIZE, u);
  }

  lemma {:induction false} RunKeepsRegs(tops: seq<nat>, w: World, es: seq<Event>, c: nat, u: User)
    requires Without(tops, w, es, c) && c < |tops| && StacksOk(tops) && w.current != Some(c)
    requires RegsAt(w.cpu.mem, tops[c] - REGS_SIZE, u)
    ensures RegsAt(Run(tops, w, es, c).cpu.mem, tops[c] - REGS_SIZE, u)
    decreases |es|
  {
    hide RegsAt, StackKept;
    if es != [] {
      var w' := Next(tops, w, es[0]);
      if es[0].Switch? { SwitchMemory(tops, w, es[0].to, es[0].ret); }
      KeptRegs(w.cpu.mem, w'.cpu.mem, tops[c], u);
      RunKeepsRegs(tops, w', es[1..], c, u);
    }
  }

  /** The processor and the context_rsp fields, changed instruction by instruction. */
  class Processor {
    var regs: seq<nat>
    var rsp: nat
    var mem: WordMap
    var rip: nat
    var ctx: seq<nat>

    function Abs(): Cpu
      reads this
    {
      Cpu(regs, rsp, mem)
    }

    constructor (tasks: nat)
      ensures CpuOk(Abs()) && |ctx| == tasks
    {
      regs := seq(REGS, i => 0);
      rsp := 0;
      mem := map[];
      rip := 0;
      ctx := seq(tasks, i => 0);
    }

    method PushRegs(rs: seq<nat>)
      requires CpuOk(Abs()) && RegList(rs) && rsp >= 8 * |rs|
      modifies this`rsp, this`mem
      ensures Abs() == PushAll(old(Abs()), rs)
    {
      var i := 0;
      while i < |rs|
        invariant 0 <= i <= |rs| && CpuOk(Abs()) && RegList(rs[i..]) && rsp >= 8 * (|rs| - i)
        invariant PushAll(Abs(), rs[i..]) == PushAll(old(Abs()), rs)
      {
        assert rs[i..][0] == rs[i] && rs[i..][1..] == rs[i + 1..];
        rsp := rsp - 8;
        mem := mem[rsp := regs[rs[i]]];
        i := i + 1;
      }
    }

    method PopRegs(rs: seq<nat>)
      requires CpuOk(Abs()) && RegList(rs)
      modifies this`rsp, this`regs
      ensures Abs() == PopAll(old(Abs()), rs) && CpuOk(Abs())
    {
      var i := 0;
      while i < |rs|
        invariant 0 <= i <= |rs| && CpuOk(Abs()) && RegList(rs[i..])
        invariant PopAll(Abs(), rs[i..]) == PopAll(old(Abs()), rs)
      {
        assert rs[i..][0] == rs[i] && rs[i..][1..] == rs[i + 1..];
        regs := regs[rs[i] := At(mem, rsp)];
        rsp := rsp + 8;
        i := i + 1;
      }
    }

    /** A call of context_switch that is to return to ret; no task is saved when there is none. */
    method ContextSwitch(from: Option<nat>, to: nat, ret: nat)
      requires CpuOk(Abs()) && to < |ctx| && (from.Some? ==> from.value < |ctx| && from.value != to && rsp >= 56)
      modifies this
      ensures var s := if from.Some? then SaveContext(old(Abs()), ret) else old(Abs());
              && CpuOk(s) && (Abs(), rip) == LoadContext(s, old(ctx)[to])
              && ctx == if from.Some? then old(ctx)[from.value := s.rsp] else old(ctx)
    {
      assert RegList(SAVE_PUSHES) && RegList(LOAD_POPS);
      if from.Some? {
        SaveWrites(Abs(), ret);
        rsp := rsp - 8;
        mem := mem[rsp := ret];
        PushRegs(SAVE_PUSHES);
        ctx := ctx[from.value := rsp];
      }
      rsp := ctx[to];
      PopRegs(LOAD_POPS);
      rip := At(mem, rsp);
      rsp := rsp + 8;
    }

    /** task_fork's frame for task `child`, copied from the struct at `parentRegs`. */
    method BuildForkFrame(child: nat, parentRegs: nat, top: nat, entryReturn: nat)
      requires child < |ctx| && top >= REGS_SIZE + 56
      modifies this`mem, this`ctx
      ensures var (m, c) := ForkFrame(old(mem), parentRegs, top, entryReturn);
              mem == m && ctx == old(ctx)[child := c]
    {
      hide At;
      var q := top - REGS_SIZE;
      for i := 0 to 20
        invariant mem == CopyRegs(old(mem), parentRegs, q, i) && ctx == old(ctx)
      {
        mem := mem[q + 8 * i := At(mem, parentRegs + 8 * i)];
      }
      mem := mem[q + 8 * RAX := 0];
      var sp := q - 8;
      mem := mem[sp := entryReturn];
      sp := sp - 48;
      mem := mem[sp := 0];
      mem := mem[sp + 8 := 0];
      mem := mem[sp + 16 := 0];
      mem := mem[sp + 24 := q];
      mem := mem[sp + 32 := 0];
      mem := mem[sp + 40 := 0];
      ctx := ctx[child := sp];
    }
  }
}

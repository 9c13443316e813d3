/** A small-step machine for loader programs, and what the cleanup code does on it. */
module LoaderVm {
  import opened LoaderCode

  // ----- Machine -----

  const WORD64: nat := 0x1_0000_0000_0000_0000
  const WORD32: nat := 0x1_0000_0000

  /** A register: a 64-bit number, or a pointer into one of three regions. */
  datatype Val = Num(n: nat) | BlobPtr(off: int) | StackPtr(off: int) | CtxPtr(off: int)

  /** A region maps the offset of a field to the number it holds; a field never written reads as zero. */
  type Region = map<int, nat>

  datatype Vm = Vm(pc: nat, regs: seq<Val>, stack: Region, blob: Region, ctx: Region,
                   closed: seq<nat>, calls: nat)

  datatype Outcome = Running(vm: Vm) | Exited(result: Val, closed: seq<nat>) | Stuck

  /** What the kernel answers to a call: a result, new values for R1 to R5, and what it writes to the
      data blob, unless the call is close or trace_printk. */
  datatype Reply = Reply(r0: nat, r1: Val, r2: Val, r3: Val, r4: Val, r5: Val, writes: Region)

  /** What the program does not decide: the answers, and where the three regions lie. */
  datatype Env = Env(replies: nat -> Reply, blobAt: nat, stackAt: nat, ctxAt: nat)

  function Signed(n: nat): int {
    var m := n % WORD64;
    if m >= 0x8000_0000_0000_0000 then m - WORD64 else m
  }

  function Unsigned(x: int): nat { x % WORD64 }

  function Width(size: nat): nat {
    if size == 1 then 0x100 else if size == 2 then 0x1_0000 else if size == 4 then WORD32 else WORD64
  }

  /** Loads zero-extend. */
  function Load(r: Region, off: int, size: nat): nat {
    if off in r then r[off] % Width(size) else 0
  }

  function Store(r: Region, off: int, size: nat, n: nat): Region {
    r[off := n % Width(size)]
  }

  /** A register as the number it is; a pointer is an address. */
  function Bits(v: Val, env: Env): nat {
    match v
    case Num(n) => n
    case BlobPtr(o) => Unsigned(env.blobAt + o)
    case StackPtr(o) => Unsigned(env.stackAt + o)
    case CtxPtr(o) => Unsigned(env.ctxAt + o)
  }

  predicate Holds(cond: Cond, n: nat, imm: int) {
    match cond
    case JEQ => n == Unsigned(imm)
    case JNE => n != Unsigned(imm)
    case JSGE => Signed(n) >= imm
    case JSLE => Signed(n) <= imm
    case JSLT => Signed(n) < imm
    case JSET => imm > 0 && (n / imm) % 2 == 1
  }

  predicate Reg(r: nat) { r <= 10 }

  function Jump(vm: Vm, off: int): Outcome {
    if vm.pc + 1 + off < 0 then Stuck else Running(vm.(pc := vm.pc + 1 + off))
  }

  function SetReg(vm: Vm, dst: nat, v: Val): Outcome
    requires |vm.regs| == 11
  {
    if dst < 10 then Running(vm.(pc := vm.pc + 1, regs := vm.regs[dst := v])) else Stuck
  }

  /** Memory is reached through pointers only, and the stack only inside the frame the opening clears. */
  predicate Accessible(p: Val, off: int) {
    match p
    case Num(_) => false
    case StackPtr(o) => -STACK_SZ <= o + off < 0
    case _ => true
  }

  function LoadFrom(vm: Vm, p: Val, off: int, size: nat): nat
    requires !p.Num?
  {
    match p
    case BlobPtr(o) => Load(vm.blob, o + off, size)
    case StackPtr(o) => Load(vm.stack, o + off, size)
    case CtxPtr(o) => Load(vm.ctx, o + off, size)
  }

  function StoreTo(vm: Vm, p: Val, off: int, size: nat, n: nat): Vm
    requires !p.Num?
  {
    match p
    case BlobPtr(o) => vm.(pc := vm.pc + 1, blob := Store(vm.blob, o + off, size, n))
    case StackPtr(o) => vm.(pc := vm.pc + 1, stack := Store(vm.stack, o + off, size, n))
    case CtxPtr(o) => vm.(pc := vm.pc + 1, ctx := Store(vm.ctx, o + off, size, n))
  }

  function AluResult(op: Alu, v: Val, imm: int, env: Env): Val {
    match op
    case ADD =>
      (match v
       case Num(n) => Num(Unsigned(n + imm))
       case BlobPtr(o) => BlobPtr(o + imm)
       case StackPtr(o) => StackPtr(o + imm)
       case CtxPtr(o) => CtxPtr(o + imm))
    case RSH => Num(if imm == 32 then Bits(v, env) / WORD32 else Bits(v, env))
    case AND32 => Num(if imm == 15 then Bits(v, env) % 16 else 0)
  }

  /** A read from address zero fails, and then fills its target with zeroes. */
  predicate ClearsStack(target: Val, size: Val, source: Val) {
    target == StackPtr(-STACK_SZ) && size == Num(STACK_SZ) && source == Num(0)
  }

  function CallFunc(vm: Vm, f: Func, env: Env): Outcome
    requires |vm.regs| == 11
  {
    var reply := env.replies(vm.calls);
    if f == SysClose && !vm.regs[1].Num? then Stuck
    else
      Running(vm.(pc := vm.pc + 1,
                  regs := [Num(reply.r0), reply.r1, reply.r2, reply.r3, reply.r4, reply.r5] + vm.regs[6..],
                  stack := if f == ProbeReadKernel && ClearsStack(vm.regs[1], vm.regs[2], vm.regs[3]) then map[] else vm.stack,
                  blob := if f == SysClose || f == TracePrintk then vm.blob else vm.blob + reply.writes,
                  closed := if f == SysClose then vm.closed + [vm.regs[1].n] else vm.closed,
                  calls := vm.calls + 1))
  }

  function Step(code: seq<Insn>, vm: Vm, env: Env): (o: Outcome)
    requires |vm.regs| == 11
    ensures o.Running? ==> |o.vm.regs| == 11
  {
    if vm.pc >= |code| then Stuck
    else
      match code[vm.pc]
      case MovReg(dst, src) => if Reg(src) then SetReg(vm, dst, vm.regs[src]) else Stuck
      case MovImm(dst, imm) => SetReg(vm, dst, Num(Unsigned(imm)))
      case AluImm(op, dst, imm) => if dst < 10 then SetReg(vm, dst, AluResult(op, vm.regs[dst], imm, env)) else Stuck
      case LdBlob(dst, off) =>
        if dst < 10 then Running(vm.(pc := vm.pc + 2, regs := vm.regs[dst := BlobPtr(off)])) else Stuck
      case LdBlobTail => Stuck
      case Ldx(size, dst, src, off) =>
        if Reg(src) && Accessible(vm.regs[src], off) then SetReg(vm, dst, Num(LoadFrom(vm, vm.regs[src], off, size))) else Stuck
      case Stx(size, dst, src, off) =>
        if Reg(src) && Reg(dst) && Accessible(vm.regs[dst], off)
        then Running(StoreTo(vm, vm.regs[dst], off, size, Bits(vm.regs[src], env))) else Stuck
      case St(size, dst, off, imm) =>
        if Reg(dst) && Accessible(vm.regs[dst], off)
        then Running(StoreTo(vm, vm.regs[dst], off, size, Unsigned(imm))) else Stuck
      case Jmp(cond, reg, imm, off) =>
        if Reg(reg) && vm.regs[reg].Num? then Jump(vm, if Holds(cond, vm.regs[reg].n, imm) then off else 0)
        else Stuck
      case Ja(off) => Jump(vm, off)
      case Call(f) => CallFunc(vm, f, env)
      case Exit => Exited(vm.regs[0], vm.closed)
  }

  /** At most `k` steps. */
  function Exec(code: seq<Insn>, vm: Vm, env: Env, k: nat): (o: Outcome)
    requires |vm.regs| == 11
    ensures o.Running? ==> |o.vm.regs| == 11
    decreases k
  {
    if k == 0 then Running(vm)
    else
      match Step(code, vm, env)
      case Running(vm') => Exec(code, vm', env, k - 1)
      case o => o
  }

  lemma {:induction false} ExecJoins(code: seq<Insn>, vm: Vm, env: Env, j: nat, k: nat)
    requires |vm.regs| == 11 && Exec(code, vm, env, j).Running?
    ensures Exec(code, vm, env, j + k) == Exec(code, Exec(code, vm, env, j).vm, env, k)
    decreases j
  {
    if j > 0 {
      ExecJoins(code, Step(code, vm, env).vm, env, j - 1, k);
    }
  }

  // ----- File descriptors held in fields -----

  /** The descriptor a 4-byte field holds; zero means none. */
  function Fd(r: Region, off: int): nat { Load(r, off, 4) }

  function FdIfAny(n: nat): seq<nat> { if n > 0 then [n] else [] }

  /** The descriptors in the first `k` stack slots. */
  function StackFds(r: Region, k: nat): seq<nat> {
    if k == 0 then [] else StackFds(r, k - 1) + FdIfAny(Fd(r, -STACK_SZ + 4 * (k - 1)))
  }

  /** The descriptors in the first `k` map slots of the blob. */
  function BlobFds(r: Region, fdArray: int, k: nat): seq<nat> {
    if k == 0 then [] else BlobFds(r, fdArray, k - 1) + FdIfAny(Fd(r, fdArray + 4 * (k - 1)))
  }

  /** `block` stands in `code` at `pos`. */
  predicate CodeAt(code: seq<Insn>, pos: nat, block: seq<Insn>) {
    pos + |block| <= |code| && forall i :: 0 <= i < |block| ==> code[pos + i] == block[i]
  }

  lemma CodeAtSplit(code: seq<Insn>, pos: nat, a: seq<Insn>, b: seq<Insn>)
    requires CodeAt(code, pos, a + b)
    ensures CodeAt(code, pos, a) && CodeAt(code, pos + |a|, b)
  {
    forall i | 0 <= i < |a| ensures code[pos + i] == a[i] {
      assert (a + b)[i] == a[i];
    }
    forall i | 0 <= i < |b| ensures code[pos + |a| + i] == b[i] {
      assert (a + b)[|a| + i] == b[i];
    }
  }

  ghost predicate Reaches(code: seq<Insn>, vm: Vm, env: Env, k: nat, vm': Vm) {
    |vm.regs| == 11 && |vm'.regs| == 11 && Exec(code, vm, env, k) == Running(vm')
  }

  lemma ReachesJoin(code: seq<Insn>, vm: Vm, env: Env, j: nat, vm1: Vm, k: nat, vm2: Vm)
    requires Reaches(code, vm, env, j, vm1) && Reaches(code, vm1, env, k, vm2)
    ensures Reaches(code, vm, env, j + k, vm2)
  {
    ExecJoins(code, vm, env, j, k);
  }

  lemma OneStep(code: seq<Insn>, vm: Vm, env: Env, vm1: Vm, k: nat, vm2: Vm)
    requires |vm.regs| == 11 && Step(code, vm, env) == Running(vm1) && Reaches(code, vm1, env, k, vm2)
    ensures Reaches(code, vm, env, k + 1, vm2)
  {
  }

  /** `vm'` stands at `pc` with these descriptors closed since `vm`; R6, R7, R10 and all memory
      are as before. */
  predicate Kept(vm: Vm, vm': Vm, pc: nat, fds: seq<nat>)
    requires |vm.regs| == 11 && |vm'.regs| == 11
  {
    && vm'.pc == pc && vm'.closed == vm.closed + fds
    && vm'.regs[6] == vm.regs[6] && vm'.regs[7] == vm.regs[7] && vm'.regs[10] == vm.regs[10]
    && vm'.stack == vm.stack && vm'.blob == vm.blob && vm'.ctx == vm.ctx
  }

  // ----- The cleanup code, piece by piece -----

  /** One stack slot: closed exactly if it holds a descriptor. */
  lemma StackCloseRuns(code: seq<Insn>, vm: Vm, env: Env, off: int) returns (k: nat, vm': Vm)
    requires |vm.regs| == 11 && vm.regs[10] == StackPtr(0) && -STACK_SZ <= off < 0
    requires CodeAt(code, vm.pc, [Ldx(4, 1, 10, off), Jmp(JSLE, 1, 0, 1), Call(SysClose)])
    ensures Reaches(code, vm, env, k, vm') && Kept(vm, vm', vm.pc + 3, FdIfAny(Fd(vm.stack, off)))
  {
    var block := [Ldx(4, 1, 10, off), Jmp(JSLE, 1, 0, 1), Call(SysClose)];
    assert code[vm.pc] == block[0] && code[vm.pc + 1] == block[1] && code[vm.pc + 2] == block[2];
    var fd := Fd(vm.stack, off);
    var vm1 := vm.(pc := vm.pc + 1, regs := vm.regs[1 := Num(fd)]);
    assert Step(code, vm, env) == Running(vm1);
    assert Signed(fd) == fd;
    var vm2 := vm1.(pc := vm.pc + if fd > 0 then 2 else 3);
    assert Step(code, vm1, env) == Running(vm2);
    k, vm' := 2, vm2;
    if fd > 0 {
      vm' := Step(code, vm2, env).vm;
      OneStep(code, vm2, env, vm', 0, vm');
      OneStep(code, vm1, env, vm2, 1, vm');
      OneStep(code, vm, env, vm1, 2, vm');
      k := 3;
    } else {
      OneStep(code, vm1, env, vm2, 0, vm');
      OneStep(code, vm, env, vm1, 1, vm');
    }
  }

  /** Logging closes nothing. */
  lemma DebugRuns(code: seq<Insn>, vm: Vm, env: Env, msg: (int, int)) returns (vm': Vm)
    requires |vm.regs| == 11 && CodeAt(code, vm.pc, DebugRegs(9, 0, msg))
    ensures Reaches(code, vm, env, 5, vm') && Kept(vm, vm', vm.pc + 6, [])
  {
    var block := DebugRegs(9, 0, msg);
    assert code[vm.pc] == block[0] && code[vm.pc + 2] == block[2] && code[vm.pc + 3] == block[3];
    assert code[vm.pc + 4] == block[4] && code[vm.pc + 5] == block[5];
    var vm1 := Step(code, vm, env).vm;
    var vm2 := Step(code, vm1, env).vm;
    var vm3 := Step(code, vm2, env).vm;
    var vm4 := Step(code, vm3, env).vm;
    vm' := Step(code, vm4, env).vm;
    OneStep(code, vm4, env, vm', 0, vm');
    OneStep(code, vm3, env, vm4, 1, vm');
    OneStep(code, vm2, env, vm3, 2, vm');
    OneStep(code, vm1, env, vm2, 3, vm');
    OneStep(code, vm, env, vm1, 4, vm');
  }

  lemma CloseOpenRuns(code: seq<Insn>, vm: Vm, env: Env, fd: nat, jump: int) returns (vm': Vm)
    requires |vm.regs| == 11 && vm.regs[1] == Num(fd) && 0 < fd < WORD32
    requires CodeAt(code, vm.pc, [Jmp(JSLE, 1, 0, jump), MovReg(9, 1), Call(SysClose)])
    ensures Reaches(code, vm, env, 3, vm') && Kept(vm, vm', vm.pc + 3, [fd])
  {
    var block := [Jmp(JSLE, 1, 0, jump), MovReg(9, 1), Call(SysClose)];
    assert code[vm.pc] == block[0] && code[vm.pc + 1] == block[1] && code[vm.pc + 2] == block[2];
    assert Signed(fd) == fd;
    var vm1 := vm.(pc := vm.pc + 1);
    assert Step(code, vm, env) == Running(vm1);
    var vm2 := vm1.(pc := vm.pc + 2, regs := vm1.regs[9 := Num(fd)]);
    assert Step(code, vm1, env) == Running(vm2);
    vm' := Step(code, vm2, env).vm;
    OneStep(code, vm2, env, vm', 0, vm');
    OneStep(code, vm1, env, vm2, 1, vm');
    OneStep(code, vm, env, vm1, 2, vm');
  }

  lemma CloseNoneRuns(code: seq<Insn>, vm: Vm, env: Env, jump: nat) returns (vm': Vm)
    requires |vm.regs| == 11 && vm.regs[1] == Num(0)
    requires CodeAt(code, vm.pc, [Jmp(JSLE, 1, 0, jump), MovReg(9, 1), Call(SysClose)])
    ensures Reaches(code, vm, env, 1, vm') && Kept(vm, vm', vm.pc + 1 + jump, FdIfAny(0))
  {
    var block := [Jmp(JSLE, 1, 0, jump), MovReg(9, 1), Call(SysClose)];
    assert code[vm.pc] == block[0];
    vm' := vm.(pc := vm.pc + 1 + jump);
    assert Step(code, vm, env) == Running(vm');
    OneStep(code, vm, env, vm', 0, vm');
  }

  /** R1 holds a descriptor or nothing: close it and perhaps log it. */
  lemma CloseR1Runs(code: seq<Insn>, vm: Vm, env: Env, fd: nat, log: bool, msg: (int, int)) returns (k: nat, vm': Vm)
    requires |vm.regs| == 11 && vm.regs[1] == Num(fd) && fd < WORD32
    requires CodeAt(code, vm.pc, CloseR1(log, msg))
    ensures Reaches(code, vm, env, k, vm') && Kept(vm, vm', vm.pc + |CloseR1(log, msg)|, FdIfAny(fd))
  {
    hide DebugRegs, Step, CodeAt, Kept, Reaches;
    var skip := if log then 8 else 2;
    var core := [Jmp(JSLE, 1, 0, skip), MovReg(9, 1), Call(SysClose)];
    var tail := if log then DebugRegs(9, 0, msg) else [];
    DebugWidth(msg);
    CodeAtSplit(code, vm.pc, core, tail);
    if fd == 0 {
      k := 1;
      vm' := CloseNoneRuns(code, vm, env, skip);
    } else {
      vm' := CloseOpenRuns(code, vm, env, fd, skip);
      k := 3;
      if log {
        var vm3 := vm';
        PcOf(vm, vm3, vm.pc + 3, [fd]);
        vm' := DebugRuns(code, vm3, env, msg);
        ReachesJoin(code, vm, env, 3, vm3, 5, vm');
        KeptJoin(vm, vm3, vm', vm.pc + 3, [fd], vm.pc + 9, []);
        k := 8;
      }
    }
  }

  lemma DebugWidth(msg: (int, int))
    ensures |DebugRegs(9, 0, msg)| == 6
  {
  }

  lemma PcOf(vm: Vm, vm': Vm, pc: nat, fds: seq<nat>)
    requires |vm.regs| == 11 && |vm'.regs| == 11 && Kept(vm, vm', pc, fds)
    ensures vm'.pc == pc
  {
  }

  lemma KeptJoin(vm: Vm, vm1: Vm, vm2: Vm, pc: nat, fds: seq<nat>, pc': nat, more: seq<nat>)
    requires |vm.regs| == |vm1.regs| == |vm2.regs| == 11 && Kept(vm, vm1, pc, fds) && Kept(vm1, vm2, pc', more)
    ensures Kept(vm, vm2, pc', fds + more)
    ensures more == [] ==> fds + more == fds
  {
  }

  /** One map slot of the blob. */
  lemma BlobCloseRuns(code: seq<Insn>, vm: Vm, env: Env, off: int, log: bool, msg: (int, int)) returns (k: nat, vm': Vm)
    requires |vm.regs| == 11
    requires CodeAt(code, vm.pc, CloseBlob(off, log, msg))
    ensures Reaches(code, vm, env, k, vm')
    ensures Kept(vm, vm', vm.pc + |CloseBlob(off, log, msg)|, FdIfAny(Fd(vm.blob, off)))
  {
    hide CloseR1, CodeAt;
    var load := [LdBlob(0, off), LdBlobTail, Ldx(4, 1, 0, 0)];
    CodeAtSplit(code, vm.pc, load, CloseR1(log, msg));
    assert code[vm.pc] == load[0] && code[vm.pc + 2] == load[2];
    var fd := Fd(vm.blob, off);
    var vm1 := Step(code, vm, env).vm;
    var vm2 := Step(code, vm1, env).vm;
    assert vm2.regs[1] == Num(fd);
    OneStep(code, vm1, env, vm2, 0, vm2);
    OneStep(code, vm, env, vm1, 1, vm2);
    k, vm' := CloseR1Runs(code, vm2, env, fd, log, msg);
    ReachesJoin(code, vm, env, 2, vm2, k, vm');
    k := 2 + k;
  }

  lemma {:induction false} StackClosesRun(code: seq<Insn>, vm: Vm, env: Env, n: nat) returns (k: nat, vm': Vm)
    requires |vm.regs| == 11 && vm.regs[10] == StackPtr(0) && n <= 2 + MAX_USED_PROGS
    requires CodeAt(code, vm.pc, StackCloses(n))
    ensures Reaches(code, vm, env, k, vm') && Kept(vm, vm', vm.pc + |StackCloses(n)|, StackFds(vm.stack, n))
    decreases n
  {
    hide CodeAt, Step, Fd, FdIfAny;
    k, vm' := 0, vm;
    if n > 0 {
      var off := -STACK_SZ + 4 * (n - 1);
      var first, last := StackCloses(n - 1), [Ldx(4, 1, 10, off), Jmp(JSLE, 1, 0, 1), Call(SysClose)];
      CodeAtSplit(code, vm.pc, first, last);
      var j, vm1 := StackClosesRun(code, vm, env, n - 1);
      k, vm' := StackCloseRuns(code, vm1, env, off);
      ReachesJoin(code, vm, env, j, vm1, k, vm');
      k := j + k;
    }
  }

  lemma {:induction false} BlobClosesRun(code: seq<Insn>, vm: Vm, env: Env, fdArray: int, log: bool,
                                         msgs: seq<(int, int)>) returns (k: nat, vm': Vm)
    requires |vm.regs| == 11
    requires CodeAt(code, vm.pc, BlobCloses(fdArray, log, msgs))
    ensures Reaches(code, vm, env, k, vm')
    ensures Kept(vm, vm', vm.pc + |BlobCloses(fdArray, log, msgs)|, BlobFds(vm.blob, fdArray, |msgs|))
    decreases |msgs|
  {
    hide CodeAt, CloseBlob, Step;
    k, vm' := 0, vm;
    if msgs != [] {
      var m := |msgs| - 1;
      var off := fdArray + 4 * m;
      var first, last := BlobCloses(fdArray, log, msgs[..m]), CloseBlob(off, log, msgs[m]);
      assert BlobCloses(fdArray, log, msgs) == first + last;
      CodeAtSplit(code, vm.pc, first, last);
      var j, vm1 := BlobClosesRun(code, vm, env, fdArray, log, msgs[..m]);
      k, vm' := BlobCloseRuns(code, vm1, env, off, log, msgs[m]);
      ReachesJoin(code, vm, env, j, vm1, k, vm');
      k := j + k;
    }
  }

  /** R7 becomes the program's result. */
  lemma ReturnRuns(code: seq<Insn>, vm: Vm, env: Env)
    requires |vm.regs| == 11 && CodeAt(code, vm.pc, [MovReg(0, 7), Exit])
    ensures Exec(code, vm, env, 2) == Exited(vm.regs[7], vm.closed)
  {
    var c := [MovReg(0, 7), Exit];
    assert code[vm.pc] == c[0] && code[vm.pc + 1] == c[1];
    var vm1 := vm.(pc := vm.pc + 1, regs := vm.regs[0 := vm.regs[7]]);
    assert Step(code, vm, env) == Running(vm1);
    assert Exec(code, vm1, env, 1) == Step(code, vm1, env);
  }

  lemma {:induction false} StackClosesFirst(code: seq<Insn>, pos: nat, n: nat, k: nat)
    requires k <= n && CodeAt(code, pos, StackCloses(n))
    ensures CodeAt(code, pos, StackCloses(k))
    decreases n
  {
    hide CodeAt;
    if k < n {
      CodeAtSplit(code, pos, StackCloses(n - 1), [Ldx(4, 1, 10, -STACK_SZ + 4 * (n - 1)), Jmp(JSLE, 1, 0, 1), Call(SysClose)]);
      StackClosesFirst(code, pos, n - 1, k);
    }
  }

  /** With more programs than the stack frame has slots the cleanup code leaves the frame. */
  lemma LeavesFrame(code: seq<Insn>, vm: Vm, env: Env, n: nat) returns (k: nat)
    requires |vm.regs| == 11 && vm.regs[10] == StackPtr(0) && n > 2 + MAX_USED_PROGS && CodeAt(code, vm.pc, StackCloses(n))
    ensures Exec(code, vm, env, k) == Stuck
  {
    hide StackCloses, StackFds;
    var m := 2 + MAX_USED_PROGS;
    StackClosesFirst(code, vm.pc, n, m + 1);
    StackClosesFirst(code, vm.pc, n, m);
    var j, vm1 := StackClosesRun(code, vm, env, m);
    NextClose(code, vm.pc, m);
    assert Step(code, vm1, env) == Stuck;
    ExecJoins(code, vm, env, j, 1);
    k := j + 1;
  }

  lemma NextClose(code: seq<Insn>, pos: nat, m: nat)
    requires CodeAt(code, pos, StackCloses(m + 1))
    ensures pos + |StackCloses(m)| < |code| && code[pos + |StackCloses(m)|] == Ldx(4, 1, 10, -STACK_SZ + 4 * m)
  {
    var last := [Ldx(4, 1, 10, -STACK_SZ + 4 * m), Jmp(JSLE, 1, 0, 1), Call(SysClose)];
    CodeAtSplit(code, pos, StackCloses(m), last);
    assert code[pos + |StackCloses(m)| + 0] == last[0];
  }

  /** The whole cleanup code: whatever the kernel answers, it closes every descriptor in the
      stack slots and then every one in the map slots, each once and nothing else, and the
      program returns R7 - if the frame has a slot for every program; if not, it leaves the frame. */
  lemma CleanupRuns(code: seq<Insn>, vm: Vm, env: Env, progs: nat, fdArray: int, log: bool, msgs: seq<(int, int)>)
    returns (k: nat)
    requires |vm.regs| == 11 && vm.regs[10] == StackPtr(0)
    requires CodeAt(code, vm.pc, Cleanup(progs, fdArray, log, msgs))
    ensures Exec(code, vm, env, k) ==
            if progs <= MAX_USED_PROGS
            then Exited(vm.regs[7], vm.closed + (StackFds(vm.stack, 2 + progs) + BlobFds(vm.blob, fdArray, |msgs|)))
            else Stuck
  {
    hide Step, Exec, CodeAt, StackCloses, BlobCloses, StackFds, BlobFds;
    var n := 2 + progs;
    var a, b := StackCloses(n), BlobCloses(fdArray, log, msgs);
    CodeAtSplit(code, vm.pc, a + b, [MovReg(0, 7), Exit]);
    CodeAtSplit(code, vm.pc, a, b);
    if progs > MAX_USED_PROGS {
      k := LeavesFrame(code, vm, env, n);
    } else {
      var j1, vm1 := StackClosesRun(code, vm, env, n);
      var j2, vm2 := BlobClosesRun(code, vm1, env, fdArray, log, msgs);
      ReachesJoin(code, vm, env, j1, vm1, j2, vm2);
      ReturnRuns(code, vm2, env);
      ExecJoins(code, vm, env, j1 + j2, 2);
      k := j1 + j2 + 2;
    }
  }

  /** The error branch behind any command goes to the cleanup label. */
  lemma FailureStep(code: seq<Insn>, vm: Vm, env: Env, progs: nat, fdArray: int, log: bool, msgs: seq<(int, int)>, r: nat)
    requires Loader(code, progs, fdArray, log, msgs)
    requires |vm.regs| == 11 && vm.regs[7] == Num(r) && Signed(r) < 0
    requires LABEL <= vm.pc < |code| && code[vm.pc].Jmp? && code[vm.pc].cond == JSLT
    ensures Step(code, vm, env) == Running(vm.(pc := LABEL))
  {
    var f := code[LABEL..];
    assert BranchOk(f, LABEL, LABEL, vm.pc - LABEL) && f[vm.pc - LABEL] == code[vm.pc];
  }

  lemma CleanupInPlace(code: seq<Insn>, progs: nat, fdArray: int, log: bool, msgs: seq<(int, int)>)
    requires Loader(code, progs, fdArray, log, msgs)
    ensures CodeAt(code, LABEL, Cleanup(progs, fdArray, log, msgs))
  {
    var opening, block := Opening(S16(CleanupLength(progs, |msgs|, log))), Cleanup(progs, fdArray, log, msgs);
    assert opening + block <= code;
    forall i | 0 <= i < |block| ensures code[LABEL + i] == block[i] {
      assert code[LABEL + i] == (opening + block)[LABEL + i];
    }
  }

  /** An error branch taken: control goes to the cleanup label with R7 unchanged, the descriptors in
      the slots are closed, and the program returns R7. */
  lemma FailureIsCleanedUp(code: seq<Insn>, vm: Vm, env: Env, progs: nat, fdArray: int, log: bool,
                           msgs: seq<(int, int)>, r: nat) returns (k: nat)
    requires Loader(code, progs, fdArray, log, msgs) && progs <= MAX_USED_PROGS
    requires |vm.regs| == 11 && vm.regs[10] == StackPtr(0) && vm.regs[7] == Num(r) && Signed(r) < 0
    requires LABEL <= vm.pc < |code| && code[vm.pc].Jmp? && code[vm.pc].cond == JSLT
    ensures Exec(code, vm, env, k) ==
            Exited(Num(r), vm.closed + (StackFds(vm.stack, 2 + progs) + BlobFds(vm.blob, fdArray, |msgs|)))
  {
    hide Loader, Cleanup, StackFds, BlobFds, CodeAt;
    FailureStep(code, vm, env, progs, fdArray, log, msgs, r);
    CleanupInPlace(code, progs, fdArray, log, msgs);
    var vm1 := vm.(pc := LABEL);
    var j := CleanupRuns(code, vm1, env, progs, fdArray, log, msgs);
    ExecJoins(code, vm, env, 1, j);
    k := 1 + j;
  }
}

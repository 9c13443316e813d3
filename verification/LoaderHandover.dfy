/** What a successful loader hands to its caller: the run of the code that ends a program, and whole
    runs in which no command fails. */
module LoaderHandover {
  import opened LoaderCode
  import opened LoaderFailure
  import opened LoaderParts
  import opened LoaderRuns
  import opened LoaderSafety
  import opened LoaderTypes
  import opened LoaderVm

  // ----- What the caller finds -----

  /** The context's field for program `i` holds the descriptor of the stack's slot for it. */
  predicate ProgHanded(ctx: Region, stack: Region, maps: nat, i: nat) {
    Fd(ctx, 24 + 16 * maps + 4 * i) == Fd(stack, -128 + 4 * i)
  }

  /** The context's field for map `i` holds the descriptor of entry `i` of the array in the blob. */
  predicate MapHanded(ctx: Region, blob: Region, fdArray: int, i: nat) {
    Fd(ctx, 24 + 16 * i) == Fd(blob, fdArray + 4 * i)
  }

  /** A field with a descriptor of one of `n` programs, or of one of `n` maps. */
  predicate ProgField(o: int, maps: nat, n: nat) { 0 <= o - (24 + 16 * maps) < 4 * n && (o - (24 + 16 * maps)) % 4 == 0 }

  predicate MapField(o: int, n: nat) { 0 <= o - 24 < 16 * n && (o - 24) % 16 == 0 }

  predicate SameField(a: Region, b: Region, o: int) {
    (o in a <==> o in b) && (o in a ==> a[o] == b[o])
  }

  /** `vm'` stands at `pc`; nothing but scratch registers and the context has changed. */
  predicate Copied(vm: Vm, vm': Vm, pc: nat) {
    && |vm.regs| == |vm'.regs| == 11 && vm'.pc == pc
    && vm'.regs[6] == vm.regs[6] && vm'.regs[10] == vm.regs[10]
    && vm'.stack == vm.stack && vm'.blob == vm.blob && vm'.closed == vm.closed && vm'.calls == vm.calls
  }

  // ----- The moves -----

  lemma Stack2CtxRuns(code: seq<Insn>, vm: Vm, env: Env, to: int, from: int) returns (vm': Vm)
    requires |vm.regs| == 11 && vm.regs[6] == CtxPtr(0) && vm.regs[10] == StackPtr(0) && -STACK_SZ <= from < 0
    requires CodeAt(code, vm.pc, Stack2Ctx(to, 4, from))
    ensures Reaches(code, vm, env, 2, vm') && Copied(vm, vm', vm.pc + 2) && vm'.ctx == vm.ctx[to := Fd(vm.stack, from)]
  {
    var p, f := vm.pc, Stack2Ctx(to, 4, from);
    assert code[p] == f[0] && code[p + 1] == f[1];
    hide CodeAt;
    var fd := Fd(vm.stack, from);
    var v1 := vm.(pc := p + 1, regs := vm.regs[0 := Num(fd)]);
    vm' := v1.(pc := p + 2, ctx := vm.ctx[to := fd]);
    var vms := [vm, v1, vm'];
    assert StepAt(code, env, vms, 0) && StepAt(code, env, vms, 1);
    PathReaches(code, env, vms);
  }

  lemma Blob2CtxRuns(code: seq<Insn>, vm: Vm, env: Env, to: int, from: int) returns (vm': Vm)
    requires |vm.regs| == 11 && vm.regs[6] == CtxPtr(0) && CodeAt(code, vm.pc, Blob2Ctx(to, 4, from))
    ensures Reaches(code, vm, env, 3, vm') && Copied(vm, vm', vm.pc + 4) && vm'.ctx == vm.ctx[to := Fd(vm.blob, from)]
  {
    var p, f := vm.pc, Blob2Ctx(to, 4, from);
    assert code[p] == f[0] && code[p + 2] == f[2] && code[p + 3] == f[3];
    hide CodeAt;
    var fd := Fd(vm.blob, from);
    var v1 := vm.(pc := p + 2, regs := vm.regs[1 := BlobPtr(from)]);
    var v2 := v1.(pc := p + 3, regs := v1.regs[0 := Num(fd)]);
    vm' := v2.(pc := p + 4, ctx := vm.ctx[to := fd]);
    var vms := [vm, v1, v2, vm'];
    assert StepAt(code, env, vms, 0) && StepAt(code, env, vms, 1) && StepAt(code, env, vms, 2);
    PathReaches(code, env, vms);
  }

  lemma CopiedJoin(vm: Vm, vm1: Vm, vm2: Vm, pc: nat, pc': nat)
    requires Copied(vm, vm1, pc) && Copied(vm1, vm2, pc')
    ensures Copied(vm, vm2, pc')
  {
  }

  /** Every program's descriptor is handed over, and no other field of the context changes. */
  lemma {:induction false} ProgMovesRun(code: seq<Insn>, vm: Vm, env: Env, maps: nat, n: nat) returns (k: nat, vm': Vm)
    requires |vm.regs| == 11 && vm.regs[6] == CtxPtr(0) && vm.regs[10] == StackPtr(0) && n <= MAX_USED_PROGS
    requires CodeAt(code, vm.pc, ProgMoves(maps, n))
    ensures Reaches(code, vm, env, k, vm') && Copied(vm, vm', vm.pc + |ProgMoves(maps, n)|)
    ensures forall i: nat {:trigger ProgHanded(vm'.ctx, vm.stack, maps, i)} :: i < n ==> ProgHanded(vm'.ctx, vm.stack, maps, i)
    ensures forall o {:trigger SameField(vm.ctx, vm'.ctx, o)} :: !ProgField(o, maps, n) ==> SameField(vm.ctx, vm'.ctx, o)
    decreases n
  {
    hide CodeAt, Step, Exec, Fd;
    k, vm' := 0, vm;
    if n == 0 {
      NoSteps(code, vm, env);
    } else {
      var first, last := ProgMoves(maps, n - 1), Stack2Ctx(CtxProg(maps, n - 1), 4, ProgFdOff(n - 1));
      CodeAtSplit(code, vm.pc, first, last);
      var j, vm1 := ProgMovesRun(code, vm, env, maps, n - 1);
      vm' := Stack2CtxRuns(code, vm1, env, CtxProg(maps, n - 1), ProgFdOff(n - 1));
      ReachesJoin(code, vm, env, j, vm1, 2, vm');
      k := j + 2;
      var to, fd := 24 + 16 * maps + 4 * (n - 1), Fd(vm.stack, -128 + 4 * (n - 1));
      FdIsWord(vm.stack, -128 + 4 * (n - 1));
      assert vm'.ctx == vm1.ctx[to := fd];
      forall i: nat | i < n ensures ProgHanded(vm'.ctx, vm.stack, maps, i) {
        FdStored(vm1.ctx, to, fd, 24 + 16 * maps + 4 * i);
        assert i < n - 1 ==> ProgHanded(vm1.ctx, vm.stack, maps, i);
      }
      forall o | !ProgField(o, maps, n) ensures SameField(vm.ctx, vm'.ctx, o) {
        assert ProgField(to, maps, n) && SameField(vm.ctx, vm1.ctx, o);
      }
    }
  }

  /** Every map's descriptor is handed over, and no other field of the context changes. */
  lemma {:induction false} MapMovesRun(code: seq<Insn>, vm: Vm, env: Env, fdArray: int, n: nat) returns (k: nat, vm': Vm)
    requires |vm.regs| == 11 && vm.regs[6] == CtxPtr(0) && CodeAt(code, vm.pc, MapMoves(fdArray, n))
    ensures Reaches(code, vm, env, k, vm') && Copied(vm, vm', vm.pc + |MapMoves(fdArray, n)|)
    ensures forall i: nat {:trigger MapHanded(vm'.ctx, vm.blob, fdArray, i)} :: i < n ==> MapHanded(vm'.ctx, vm.blob, fdArray, i)
    ensures forall o {:trigger SameField(vm.ctx, vm'.ctx, o)} :: !MapField(o, n) ==> SameField(vm.ctx, vm'.ctx, o)
    decreases n
  {
    hide CodeAt, Step, Exec, Fd;
    k, vm' := 0, vm;
    if n == 0 {
      NoSteps(code, vm, env);
    } else {
      var first, last := MapMoves(fdArray, n - 1), Blob2Ctx(CtxMap(n - 1), 4, fdArray + 4 * (n - 1));
      CodeAtSplit(code, vm.pc, first, last);
      var j, vm1 := MapMovesRun(code, vm, env, fdArray, n - 1);
      vm' := Blob2CtxRuns(code, vm1, env, CtxMap(n - 1), fdArray + 4 * (n - 1));
      ReachesJoin(code, vm, env, j, vm1, 3, vm');
      k := j + 3;
      var to, fd := 24 + 16 * (n - 1), Fd(vm.blob, fdArray + 4 * (n - 1));
      FdIsWord(vm.blob, fdArray + 4 * (n - 1));
      assert vm'.ctx == vm1.ctx[to := fd];
      forall i: nat | i < n ensures MapHanded(vm'.ctx, vm.blob, fdArray, i) {
        FdStored(vm1.ctx, to, fd, 24 + 16 * i);
        assert i < n - 1 ==> MapHanded(vm1.ctx, vm.blob, fdArray, i);
      }
      forall o | !MapField(o, n) ensures SameField(vm.ctx, vm'.ctx, o) {
        assert MapField(to, n) && SameField(vm.ctx, vm1.ctx, o);
      }
    }
  }

  lemma NoSteps(code: seq<Insn>, vm: Vm, env: Env)
    requires |vm.regs| == 11
    ensures Reaches(code, vm, env, 0, vm)
  {
  }

  lemma FdIsWord(r: Region, o: int)
    ensures Fd(r, o) < WORD32
  {
  }

  lemma FdStored(r: Region, to: int, fd: nat, o: int)
    requires fd < WORD32
    ensures Fd(r[to := fd], o) == if o == to then fd else Fd(r, o)
  {
  }

  lemma FdSame(a: Region, b: Region, o: int)
    requires SameField(a, b, o)
    ensures Fd(a, o) == Fd(b, o)
  {
  }

  // ----- The end of a program -----

  /** The run is at its normal exit, with result zero. */
  predicate AtExit(code: seq<Insn>, vm: Vm) {
    |vm.regs| == 11 && vm.pc < |code| && code[vm.pc] == Exit && vm.regs[0] == Num(0)
  }

  /** Every map's and every program's descriptor is in the caller's context, and nothing else in it is new. */
  ghost predicate HandedOver(vm: Vm, vm': Vm, maps: nat, progs: nat, fdArray: int) {
    && (forall i: nat {:trigger MapHanded(vm'.ctx, vm.blob, fdArray, i)} :: i < maps ==> MapHanded(vm'.ctx, vm.blob, fdArray, i))
    && (forall i: nat {:trigger ProgHanded(vm'.ctx, vm.stack, maps, i)} :: i < progs ==> ProgHanded(vm'.ctx, vm.stack, maps, i))
    && (forall o {:trigger SameField(vm.ctx, vm'.ctx, o)} :: !MapField(o, maps) && !ProgField(o, maps, progs) ==> SameField(vm.ctx, vm'.ctx, o))
  }

  /** From the end of the last command on, the program closes the BTF descriptor if there is one and nothing
      else, hands every descriptor over, and comes to its exit with result zero. */
  lemma FinaleRuns(code: seq<Insn>, vm: Vm, env: Env, maps: nat, progs: nat, fdArray: int, log: bool, msg: (int, int))
    returns (k: nat, vm': Vm)
    requires |vm.regs| == 11 && vm.regs[6] == CtxPtr(0) && vm.regs[10] == StackPtr(0) && progs <= MAX_USED_PROGS
    requires CodeAt(code, vm.pc, Finale(maps, progs, fdArray, log, msg))
    ensures Reaches(code, vm, env, k, vm') && AtExit(code, vm') && HandedOver(vm, vm', maps, progs, fdArray)
    ensures vm'.stack == vm.stack && vm'.blob == vm.blob && vm'.closed == vm.closed + FdIfAny(Fd(vm.stack, -136))
    ensures Exec(code, vm, env, k + 1) == Exited(Num(0), vm'.closed)
  {
    hide CodeAt, Step, Exec, Fd, CloseStack, ProgMoves, MapMoves, ProgHanded, MapHanded, SameField, ProgField, MapField;
    var a, b, c, d := CloseStack(BTF_FD_OFF, log, msg), ProgMoves(maps, progs), MapMoves(fdArray, maps), [MovImm(0, 0), Exit];
    CodeAtSplit(code, vm.pc, a + b + c, d);
    CodeAtSplit(code, vm.pc, a + b, c);
    CodeAtSplit(code, vm.pc, a, b);
    var k1, v1 := CloseStackRuns(code, vm, env, BTF_FD_OFF, log, msg);
    var k2, v2 := ProgMovesRun(code, v1, env, maps, progs);
    var k3, v3 := MapMovesRun(code, v2, env, fdArray, maps);
    vm' := ZeroRuns(code, v3, env);
    ReachesJoin(code, vm, env, k1, v1, k2, v2);
    ReachesJoin(code, vm, env, k1 + k2, v2, k3, v3);
    ReachesJoin(code, vm, env, k1 + k2 + k3, v3, 1, vm');
    k := k1 + k2 + k3 + 1;
    BothHanded(v1.ctx, v2.ctx, v3.ctx, vm.stack, vm.blob, maps, progs, fdArray);
    ExitsThere(code, vm, env, k, vm');
  }

  lemma CloseStackRuns(code: seq<Insn>, vm: Vm, env: Env, off: int, log: bool, msg: (int, int)) returns (k: nat, vm': Vm)
    requires |vm.regs| == 11 && vm.regs[10] == StackPtr(0) && -STACK_SZ <= off < 0 && CodeAt(code, vm.pc, CloseStack(off, log, msg))
    ensures Reaches(code, vm, env, k, vm') && Kept(vm, vm', vm.pc + |CloseStack(off, log, msg)|, FdIfAny(Fd(vm.stack, off)))
  {
    hide CloseR1, CodeAt;
    var load := [Ldx(4, 1, 10, off)];
    CodeAtSplit(code, vm.pc, load, CloseR1(log, msg));
    AtBlock(code, vm.pc, load, 0);
    var fd := Fd(vm.stack, off);
    var v1 := vm.(pc := vm.pc + 1, regs := vm.regs[1 := Num(fd)]);
    assert Step(code, vm, env) == Running(v1);
    OneStep(code, vm, env, v1, 0, v1);
    k, vm' := CloseR1Runs(code, v1, env, fd, log, msg);
    ReachesJoin(code, vm, env, 1, v1, k, vm');
    k := 1 + k;
  }

  lemma ZeroRuns(code: seq<Insn>, vm: Vm, env: Env) returns (vm': Vm)
    requires |vm.regs| == 11 && CodeAt(code, vm.pc, [MovImm(0, 0), Exit])
    ensures Reaches(code, vm, env, 1, vm') && Copied(vm, vm', vm.pc + 1) && vm'.ctx == vm.ctx && AtExit(code, vm')
  {
    var f := [MovImm(0, 0), Exit];
    assert code[vm.pc] == f[0] && code[vm.pc + 1] == f[1] && Unsigned(0) == 0;
    vm' := vm.(pc := vm.pc + 1, regs := vm.regs[0 := Num(0)]);
    assert Step(code, vm, env) == Running(vm');
    OneStep(code, vm, env, vm', 0, vm');
  }

  lemma ExitsThere(code: seq<Insn>, vm: Vm, env: Env, k: nat, vm': Vm)
    requires Reaches(code, vm, env, k, vm') && AtExit(code, vm')
    ensures Exec(code, vm, env, k + 1) == Exited(Num(0), vm'.closed)
  {
    ExecJoins(code, vm, env, k, 1);
    OneMore(code, vm', env);
  }

  /** The fields of the maps and those of the programs are apart. */
  lemma BothHanded(ctx: Region, mid: Region, last: Region, stack: Region, blob: Region, maps: nat, progs: nat, fdArray: int)
    requires forall i: nat {:trigger ProgHanded(mid, stack, maps, i)} :: i < progs ==> ProgHanded(mid, stack, maps, i)
    requires forall o {:trigger SameField(ctx, mid, o)} :: !ProgField(o, maps, progs) ==> SameField(ctx, mid, o)
    requires forall o {:trigger SameField(mid, last, o)} :: !MapField(o, maps) ==> SameField(mid, last, o)
    ensures forall i: nat {:trigger ProgHanded(last, stack, maps, i)} :: i < progs ==> ProgHanded(last, stack, maps, i)
    ensures forall o {:trigger SameField(ctx, last, o)} :: !MapField(o, maps) && !ProgField(o, maps, progs) ==> SameField(ctx, last, o)
  {
    hide Fd;
    forall i: nat | i < progs ensures ProgHanded(last, stack, maps, i) {
      var o := 24 + 16 * maps + 4 * i;
      assert ProgHanded(mid, stack, maps, i) && !MapField(o, maps) && SameField(mid, last, o);
      FdSame(mid, last, o);
    }
    forall o | !MapField(o, maps) && !ProgField(o, maps, progs) ensures SameField(ctx, last, o) {
      assert SameField(ctx, mid, o) && SameField(mid, last, o);
    }
  }

  // ----- Whole runs -----

  /** No command of the run fails. */
  ghost predicate NeverFails(code: seq<Insn>, vm: Vm, env: Env)
    requires |vm.regs| == 11
  {
    forall k: nat {:trigger Exec(code, vm, env, k)} :: !Failed(code, Exec(code, vm, env, k))
  }

  lemma NeverFailsLater(code: seq<Insn>, vm: Vm, env: Env, j: nat, vm': Vm)
    requires |vm.regs| == 11 && NeverFails(code, vm, env) && Reaches(code, vm, env, j, vm')
    ensures |vm'.regs| == 11 && NeverFails(code, vm', env)
  {
    hide Failed, Step;
    forall k: nat ensures !Failed(code, Exec(code, vm', env, k)) {
      ExecJoins(code, vm, env, j, k);
    }
  }

  /** The commands of a loader hold no exit. */
  lemma NoExit(front: seq<Insn>, progs: nat, log: bool, maps: nat, room: Room, i: nat)
    requires TypedLoader(front, progs, log, maps, room) && !room.mayExit && Behind(progs, log, maps) <= i < |front|
    ensures front[i] != Exit
  {
    hide CleanupLength, Leads, Weaker;
    var start := Behind(progs, log, maps);
    var ts :| Table(front[start..], ts, BASE, BASE, room);
    assert TypedAt(front[start..], ts, room, i - start);
  }

  /** Where a step of a sound fragment leads if it is no error branch taken. */
  lemma StepInside(front: seq<Insn>, pc: nat, next: nat)
    requires LABEL <= pc < |front| && FragmentOk(front[LABEL..], LABEL, LABEL)
    requires Follows(front[pc], pc, next) && (IsCheck(front, pc) ==> next == pc + 1)
    ensures pc < next <= |front|
  {
    var f, i := front[LABEL..], pc - LABEL;
    assert f[i] == front[pc] && BranchOk(f, LABEL, LABEL, i) && PairOk(f, i);
  }

  /** An error branch is not taken unless a command has failed. */
  lemma CheckPasses(code: seq<Insn>, vm: Vm, env: Env, progs: nat, fdArray: int, log: bool, msgs: seq<(int, int)>)
    requires Loader(code, progs, fdArray, log, msgs) && |vm.regs| == 11 && LABEL <= vm.pc && IsCheck(code, vm.pc)
    requires !Failed(code, Running(vm)) && Step(code, vm, env).Running?
    ensures Step(code, vm, env).vm.pc == vm.pc + 1
  {
    hide Opening, Cleanup, Signed;
    assert BranchOk(code[LABEL..], LABEL, LABEL, vm.pc - LABEL) && code[LABEL..][vm.pc - LABEL] == code[vm.pc];
  }

  lemma StepOn(front: seq<Insn>, code: seq<Insn>, vm: Vm, env: Env, ts: seq<Types>, room: Room, progs: nat, log: bool, msgs: seq<(int, int)>,
               maps: nat, done: nat, msg: (int, int))
    requires HandsOver(front, code, progs, log, msgs, room, maps, done, msg) && Jumpable(progs, |msgs|, log)
    requires room.slots <= 2 + MAX_USED_PROGS && Fair(env) && At(code, ts, room.(mayExit := true), vm)
    requires Behind(progs, log, |msgs|) <= vm.pc < |front| && !Failed(code, Running(vm))
    ensures |vm.regs| == 11
    ensures var o := Step(code, vm, env);
            o.Running? && vm.pc < o.vm.pc <= |front| && At(code, ts, room.(mayExit := true), o.vm)
  {
    hide Loader, Complete, TypedLoader, Finale, Jumpable, Step, Fair, At, Failed, Follows, FragmentOk, CleanupLength;
    assert code[vm.pc] == front[vm.pc];
    NoExit(front, progs, log, |msgs|, room, vm.pc);
    StepStays(code, vm, env, ts, room.(mayExit := true), progs, 0, log, msgs);
    StepFollows(code, vm, env);
    CompleteIsLoader(code, progs, 0, log, msgs);
    if IsCheck(code, vm.pc) {
      CheckPasses(code, vm, env, progs, 0, log, msgs);
    }
    LoaderIsSound(front, progs, 0, log, msgs);
    StepInside(front, vm.pc, Step(code, vm, env).vm.pc);
  }

  lemma LoaderIsSound(code: seq<Insn>, progs: nat, fdArray: int, log: bool, msgs: seq<(int, int)>)
    requires Loader(code, progs, fdArray, log, msgs)
    ensures |code| >= LABEL && FragmentOk(code[LABEL..], LABEL, LABEL) && Behind(progs, log, |msgs|) <= |code|
  {
    HeadEnds(code, progs, fdArray, log, msgs);
  }

  /** As long as no command fails the run goes on to the end of the last one. */
  lemma {:induction false} RunOn(front: seq<Insn>, code: seq<Insn>, vm: Vm, env: Env, ts: seq<Types>, room: Room, progs: nat, log: bool,
                                 msgs: seq<(int, int)>, maps: nat, done: nat, msg: (int, int)) returns (k: nat, vm': Vm)
    requires HandsOver(front, code, progs, log, msgs, room, maps, done, msg) && Jumpable(progs, |msgs|, log)
    requires room.slots <= 2 + MAX_USED_PROGS && Fair(env) && At(code, ts, room.(mayExit := true), vm)
    requires Behind(progs, log, |msgs|) <= vm.pc <= |front| && |vm.regs| == 11 && NeverFails(code, vm, env)
    ensures Reaches(code, vm, env, k, vm') && vm'.pc == |front| && At(code, ts, room.(mayExit := true), vm')
    decreases |front| - vm.pc
  {
    hide HandsOver, Jumpable, Step, Fair, At, Failed, NeverFails, Exec;
    if vm.pc == |front| {
      k, vm' := 0, vm;
      NoSteps(code, vm, env);
    } else {
      FailsNotNow(code, vm, env);
      StepOn(front, code, vm, env, ts, room, progs, log, msgs, maps, done, msg);
      var vm1 := Step(code, vm, env).vm;
      NoSteps(code, vm1, env);
      OneStep(code, vm, env, vm1, 0, vm1);
      NeverFailsLater(code, vm, env, 1, vm1);
      k, vm' := RunOn(front, code, vm1, env, ts, room, progs, log, msgs, maps, done, msg);
      OneStep(code, vm, env, vm1, k, vm');
      k := k + 1;
    }
  }

  lemma FailsNotNow(code: seq<Insn>, vm: Vm, env: Env)
    requires |vm.regs| == 11 && NeverFails(code, vm, env)
    ensures !Failed(code, Running(vm))
  {
    assert Exec(code, vm, env, 0) == Running(vm);
  }

  lemma FinaleInPlace(front: seq<Insn>, code: seq<Insn>, progs: nat, log: bool, msgs: seq<(int, int)>, room: Room,
                      maps: nat, done: nat, msg: (int, int))
    requires HandsOver(front, code, progs, log, msgs, room, maps, done, msg)
    ensures CodeAt(code, |front|, Finale(maps, done, 0, log, msg)) && Behind(progs, log, |msgs|) <= |front|
  {
    hide Finale, Complete, TypedLoader, Loader, CleanupLength;
    LoaderIsSound(front, progs, 0, log, msgs);
  }

  lemma AtSane(code: seq<Insn>, ts: seq<Types>, room: Room, vm: Vm)
    requires At(code, ts, room, vm)
    ensures |vm.regs| == 11 && vm.regs[6] == CtxPtr(0) && vm.regs[10] == StackPtr(0)
  {
  }

  /** A run from the start in which no command fails: it comes to the end of the last command, in some
      state `mid`, and from there to the normal exit.  The program's result is zero; the caller's context
      holds what the slots of the maps and of the programs held; of these descriptors none was closed. */
  lemma SuccessHandsOver(front: seq<Insn>, code: seq<Insn>, start: Vm, env: Env, room: Room, progs: nat, log: bool, msgs: seq<(int, int)>,
                         maps: nat, done: nat, msg: (int, int)) returns (j: nat, mid: Vm, k: nat, last: Vm)
    requires HandsOver(front, code, progs, log, msgs, room, maps, done, msg) && Jumpable(progs, |msgs|, log)
    requires room.slots <= 2 + MAX_USED_PROGS && Started(start) && Fair(env) && NeverFails(code, start, env)
    ensures Reaches(code, start, env, j, mid) && mid.pc == |front|
    ensures Reaches(code, mid, env, k, last) && AtExit(code, last) && HandedOver(mid, last, maps, done, 0)
    ensures last.stack == mid.stack && last.blob == mid.blob && last.closed == mid.closed + FdIfAny(Fd(mid.stack, -136))
    ensures Exec(code, start, env, j + k + 1) == Exited(Num(0), last.closed)
  {
    hide Complete, Loader, TypedLoader, Finale, Jumpable, Step, Fair, At, Failed, NeverFails, Exec, HandedOver, Fd, CodeAt, CleanupLength;
    FinaleInPlace(front, code, progs, log, msgs, room, maps, done, msg);
    var v1, ts := OpeningStays(code, start, env, room.(mayExit := true), progs, 0, log, msgs);
    NeverFailsLater(code, start, env, LABEL, v1);
    var k1, v := RunOn(front, code, v1, env, ts, room, progs, log, msgs, maps, done, msg);
    j, mid := LABEL + k1, v;
    ReachesJoin(code, start, env, LABEL, v1, k1, v);
    AtSane(code, ts, room.(mayExit := true), mid);
    k, last := FinaleRuns(code, mid, env, maps, done, 0, log, msg);
    ReachesJoin(code, start, env, j, mid, k, last);
    ExitsThere(code, start, env, j + k, last);
  }

  lemma {:induction false} EndsOnce(code: seq<Insn>, vm: Vm, env: Env, i: nat, j: nat)
    requires |vm.regs| == 11 && Exec(code, vm, env, i).Exited? && Exec(code, vm, env, j).Exited?
    ensures Exec(code, vm, env, i) == Exec(code, vm, env, j)
    decreases i
  {
    hide Step;
    if Step(code, vm, env).Running? {
      EndsOnce(code, Step(code, vm, env).vm, env, i - 1, j - 1);
    }
  }

  lemma NegativeIsNotZero(v: Val)
    requires v.Num? && Signed(v.n) < 0
    ensures v != Num(0)
  {
  }

  /** The caller gets zero if and only if no command failed. */
  lemma ZeroIffNoneFails(front: seq<Insn>, code: seq<Insn>, start: Vm, env: Env, room: Room, progs: nat, log: bool, msgs: seq<(int, int)>,
                         maps: nat, done: nat, msg: (int, int), n: nat)
    requires HandsOver(front, code, progs, log, msgs, room, maps, done, msg) && Jumpable(progs, |msgs|, log)
    requires room.slots <= 2 + MAX_USED_PROGS && Started(start) && Fair(env) && Exec(code, start, env, n).Exited?
    ensures Exec(code, start, env, n).result == Num(0) <==> NeverFails(code, start, env)
  {
    hide Complete, Loader, TypedLoader, Finale, Jumpable, Fair, Exec, HandedOver, Fd, Signed;
    if NeverFails(code, start, env) {
      var j, mid, k, last := SuccessHandsOver(front, code, start, env, room, progs, log, msgs, maps, done, msg);
      EndsOnce(code, start, env, n, j + k + 1);
    } else {
      var k: nat :| Failed(code, Exec(code, start, env, k));
      var j := FailureExits(code, start, env, room.(mayExit := true), progs, log, msgs, k);
      EndsOnce(code, start, env, n, k + j);
      NegativeIsNotZero(Exec(code, start, env, k).vm.regs[7]);
    }
  }
}

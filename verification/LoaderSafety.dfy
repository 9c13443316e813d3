/** Whole runs of a finished loader program: control never leaves it, and every run ends. */
module LoaderSafety {
  import opened LoaderCode
  import opened LoaderVm

  /** The hand-computed length of the cleanup code fits the offset field of the opening jump. */
  predicate Jumpable(progs: nat, maps: nat, log: bool) {
    CleanupLength(progs, maps, log) < 0x8000
  }

  lemma OpeningInPlace(code: seq<Insn>, progs: nat, fdArray: int, log: bool, msgs: seq<(int, int)>)
    requires Loader(code, progs, fdArray, log, msgs)
    ensures CodeAt(code, 0, Opening(S16(CleanupLength(progs, |msgs|, log))))
  {
    var opening := Opening(S16(CleanupLength(progs, |msgs|, log)));
    assert opening <= opening + Cleanup(progs, fdArray, log, msgs) <= code;
  }

  /** The arguments of the call that clears the stack. */
  lemma ArgumentsRun(code: seq<Insn>, vm: Vm, env: Env, jump: int) returns (vm': Vm)
    requires |vm.regs| == 11 && vm.pc == 0 && vm.regs[10] == StackPtr(0) && CodeAt(code, 0, Opening(jump))
    ensures Reaches(code, vm, env, 5, vm') && vm'.pc == 5
    ensures vm'.regs == vm.regs[6 := vm.regs[1]][1 := StackPtr(-STACK_SZ)][2 := Num(STACK_SZ)][3 := Num(0)]
    ensures vm' == vm.(pc := 5, regs := vm'.regs)
  {
    var o := Opening(jump);
    assert code[0] == o[0] && code[1] == o[1] && code[2] == o[2] && code[3] == o[3] && code[4] == o[4];
    assert Unsigned(0) == 0 && Unsigned(STACK_SZ) == STACK_SZ;
    hide Opening, CodeAt, Unsigned;
    var v1 := vm.(pc := 1, regs := vm.regs[6 := vm.regs[1]]);
    var v2 := v1.(pc := 2, regs := v1.regs[1 := StackPtr(0)]);
    var v3 := v2.(pc := 3, regs := v2.regs[1 := StackPtr(-STACK_SZ)]);
    var v4 := v3.(pc := 4, regs := v3.regs[2 := Num(STACK_SZ)]);
    vm' := v4.(pc := 5, regs := v4.regs[3 := Num(0)]);
    assert v3.regs == vm.regs[6 := vm.regs[1]][1 := StackPtr(-STACK_SZ)];
    OneStep(code, v4, env, vm', 0, vm');
    OneStep(code, v3, env, v4, 1, vm');
    OneStep(code, v2, env, v3, 2, vm');
    OneStep(code, v1, env, v2, 3, vm');
    OneStep(code, vm, env, v1, 4, vm');
  }

  lemma ShortJump(len: nat)
    requires len < 0x8000
    ensures S16(len) == len
  {
  }

  /** The opening keeps the context pointer in R6, clears the stack slots and goes to the code
      just past the cleanup code. */
  lemma OpeningRuns(code: seq<Insn>, vm: Vm, env: Env, progs: nat, fdArray: int, log: bool, msgs: seq<(int, int)>)
    returns (vm': Vm)
    requires Complete(code, progs, fdArray, log, msgs) && Jumpable(progs, |msgs|, log)
    requires |vm.regs| == 11 && vm.pc == 0 && vm.regs[10] == StackPtr(0)
    ensures Reaches(code, vm, env, LABEL, vm') && vm'.pc == LABEL + CleanupLength(progs, |msgs|, log)
    ensures vm'.regs[6] == vm.regs[1] && vm'.regs[10] == StackPtr(0) && vm'.stack == map[] && vm'.closed == vm.closed
    ensures vm'.blob == vm.blob + env.replies(vm.calls).writes && vm'.calls == vm.calls + 1
  {
    var len := CleanupLength(progs, |msgs|, log);
    var jump := S16(len);
    OpeningInPlace(code, progs, fdArray, log, msgs);
    assert code[5] == Opening(jump)[5] && code[6] == Opening(jump)[6];
    ShortJump(len);
    hide Exec;
    var v5 := ArgumentsRun(code, vm, env, jump);
    hide Complete, Cleanup, Opening, CodeAt, CleanupLength, Jumpable, S16, Reaches, Unsigned, Step;
    vm' := ClearRuns(code, v5, env, len);
    ReachesJoin(code, vm, env, 5, v5, 2, vm');
  }

  lemma ClearRuns(code: seq<Insn>, vm: Vm, env: Env, len: nat) returns (vm': Vm)
    requires |vm.regs| == 11 && vm.pc == 5 && |code| > 6 && code[5] == Call(ProbeReadKernel) && code[6] == Ja(len)
    requires ClearsStack(vm.regs[1], vm.regs[2], vm.regs[3])
    ensures Reaches(code, vm, env, 2, vm') && vm'.pc == LABEL + len
    ensures vm'.regs[6] == vm.regs[6] && vm'.regs[10] == vm.regs[10] && vm'.stack == map[] && vm'.closed == vm.closed
    ensures vm'.blob == vm.blob + env.replies(vm.calls).writes && vm'.calls == vm.calls + 1
  {
    hide ClearsStack;
    var vm1 := Step(code, vm, env).vm;
    vm' := vm1.(pc := LABEL + len);
    OneStep(code, vm1, env, vm', 0, vm');
    OneStep(code, vm, env, vm1, 1, vm');
  }

  // ----- Control never leaves the program -----

  /** The instruction behind one that is no branch is an instruction of the program. */
  lemma NextLands(code: seq<Insn>, progs: nat, fdArray: int, log: bool, msgs: seq<(int, int)>, pc: nat)
    requires Complete(code, progs, fdArray, log, msgs) && Lands(code, pc)
    requires code[pc] != Exit && !code[pc].Jmp? && !code[pc].Ja?
    ensures Lands(code, if code[pc].LdBlob? then pc + 2 else pc + 1)
  {
    hide Cleanup, Opening;
    var f, n := code[LABEL..], |code|;
    assert code[n - 2] == code[n - 2..][0] && code[n - 1] == code[n - 2..][1];
    if pc < LABEL {
      OpeningInPlace(code, progs, fdArray, log, msgs);
      var jump := S16(CleanupLength(progs, |msgs|, log));
      OpeningPlain(jump, pc);
      OpeningPlain(jump, pc + 1);
      assert code[pc] == Opening(jump)[pc] && code[pc + 1] == Opening(jump)[pc + 1];
    } else {
      var i := pc - LABEL;
      assert PairOk(f, i) && f[i] == code[pc];
      if code[pc].LdBlob? {
        assert f[i + 1] == code[pc + 1] && pc + 2 < n;
        assert PairOk(f, i + 2) && f[i + 2] == code[pc + 2];
      } else {
        assert PairOk(f, i + 1) && f[i + 1] == code[pc + 1];
      }
    }
  }

  /** The opening holds no 64-bit load, and no branch but its last instruction. */
  lemma OpeningPlain(jump: int, i: nat)
    requires i < LABEL
    ensures var o := Opening(jump);
            && !o[i].LdBlob? && !o[i].LdBlobTail? && !o[i].Jmp? && (o[i].Ja? <==> i == LABEL - 1)
  {
  }

  /** A branch either goes forward or is an error branch to the cleanup label. */
  lemma BranchGoes(code: seq<Insn>, progs: nat, fdArray: int, log: bool, msgs: seq<(int, int)>, pc: nat)
    requires Complete(code, progs, fdArray, log, msgs) && Jumpable(progs, |msgs|, log)
    requires Lands(code, pc) && (code[pc].Jmp? || code[pc].Ja?)
    ensures Lands(code, Target(code, pc))
    ensures Target(code, pc) > pc || Target(code, pc) == LABEL
    ensures code[pc].Jmp? ==> Lands(code, pc + 1)
  {
    hide Complete, Opening;
    if pc < LABEL {
      CompleteIsLoader(code, progs, fdArray, log, msgs);
      OpeningInPlace(code, progs, fdArray, log, msgs);
      OpeningPlain(S16(CleanupLength(progs, |msgs|, log)), pc);
      assert code[pc] == Opening(S16(CleanupLength(progs, |msgs|, log)))[pc];
      OpeningLands(code, progs, fdArray, log, msgs);
    } else {
      BranchesLand(code, progs, fdArray, log, msgs, pc);
      BehindBranch(code, progs, fdArray, log, msgs, pc);
    }
  }

  lemma CompleteIsLoader(code: seq<Insn>, progs: nat, fdArray: int, log: bool, msgs: seq<(int, int)>)
    requires Complete(code, progs, fdArray, log, msgs)
    ensures Loader(code, progs, fdArray, log, msgs)
  {
  }

  lemma BehindBranch(code: seq<Insn>, progs: nat, fdArray: int, log: bool, msgs: seq<(int, int)>, pc: nat)
    requires Complete(code, progs, fdArray, log, msgs) && LABEL <= pc < |code| && (code[pc].Jmp? || code[pc].Ja?)
    ensures Lands(code, pc + 1)
  {
    hide Cleanup, Opening;
    var f, n := code[LABEL..], |code|;
    assert code[n - 2] == code[n - 2..][0] && code[n - 1] == code[n - 2..][1];
    assert PairOk(f, pc - LABEL + 1) && f[pc - LABEL] == code[pc] && f[pc - LABEL + 1] == code[pc + 1];
  }

  /** Where one step leads. */
  predicate Follows(insn: Insn, pc: nat, next: nat) {
    match insn
    case Jmp(_, _, _, off) => next == pc + 1 || next == pc + 1 + off
    case Ja(off) => next == pc + 1 + off
    case LdBlob(_, _) => next == pc + 2
    case Exit => false
    case _ => next == pc + 1
  }

  lemma StepFollows(code: seq<Insn>, vm: Vm, env: Env)
    requires |vm.regs| == 11 && Step(code, vm, env).Running?
    ensures vm.pc < |code| && Follows(code[vm.pc], vm.pc, Step(code, vm, env).vm.pc)
  {
  }

  /** One step: on to an instruction of the program, further down or at the cleanup label. */
  lemma StepLands(code: seq<Insn>, vm: Vm, env: Env, progs: nat, fdArray: int, log: bool, msgs: seq<(int, int)>)
    requires Complete(code, progs, fdArray, log, msgs) && Jumpable(progs, |msgs|, log)
    requires |vm.regs| == 11 && Lands(code, vm.pc) && Step(code, vm, env).Running?
    ensures Lands(code, Step(code, vm, env).vm.pc)
    ensures var pc := Step(code, vm, env).vm.pc; pc > vm.pc || pc == LABEL
  {
    hide Complete, Jumpable, Step;
    StepFollows(code, vm, env);
    if code[vm.pc].Jmp? || code[vm.pc].Ja? {
      BranchGoes(code, progs, fdArray, log, msgs, vm.pc);
    } else {
      NextLands(code, progs, fdArray, log, msgs, vm.pc);
    }
  }

  /** In every run, as long as it goes on, control is at an instruction of the program. */
  lemma {:induction false} RunLands(code: seq<Insn>, vm: Vm, env: Env, progs: nat, fdArray: int, log: bool,
                                    msgs: seq<(int, int)>, k: nat)
    requires Complete(code, progs, fdArray, log, msgs) && Jumpable(progs, |msgs|, log)
    requires |vm.regs| == 11 && Lands(code, vm.pc)
    ensures Exec(code, vm, env, k).Running? ==> Lands(code, Exec(code, vm, env, k).vm.pc)
    decreases k
  {
    hide Complete, Jumpable, Lands, Step;
    if k > 0 && Step(code, vm, env).Running? {
      StepLands(code, vm, env, progs, fdArray, log, msgs);
      RunLands(code, Step(code, vm, env).vm, env, progs, fdArray, log, msgs, k - 1);
    }
  }

  // ----- Every run ends -----

  /** The closing part of the cleanup code is sound whatever label is meant, so it holds no error branch. */
  lemma ClosesSound(progs: nat, fdArray: int, log: bool, msgs: seq<(int, int)>, cleanup: nat)
    ensures FragmentOk(StackCloses(2 + progs) + BlobCloses(fdArray, log, msgs), LABEL, cleanup)
  {
    var a, b := StackCloses(2 + progs), BlobCloses(fdArray, log, msgs);
    StackClosesSound(2 + progs, LABEL, cleanup);
    BlobClosesSound(fdArray, log, msgs, LABEL + |a|, cleanup);
    FragmentsJoin(a, b, LABEL, cleanup);
  }

  /** Inside the cleanup code a step leads further down, at most to its last two instructions. */
  lemma CleanupStep(code: seq<Insn>, vm: Vm, env: Env, progs: nat, fdArray: int, log: bool, msgs: seq<(int, int)>)
    requires Loader(code, progs, fdArray, log, msgs) && |vm.regs| == 11
    requires LABEL <= vm.pc < LABEL + CleanupLength(progs, |msgs|, log) && Step(code, vm, env).Running?
    ensures vm.pc < Step(code, vm, env).vm.pc < LABEL + CleanupLength(progs, |msgs|, log)
  {
    hide Step, Follows;
    StepFollows(code, vm, env);
    CleanupFollows(code, vm.pc, Step(code, vm, env).vm.pc, progs, fdArray, log, msgs);
  }

  lemma CleanupFollows(code: seq<Insn>, pc: nat, next: nat, progs: nat, fdArray: int, log: bool, msgs: seq<(int, int)>)
    requires Loader(code, progs, fdArray, log, msgs) && LABEL <= pc < |code|
    requires pc < LABEL + CleanupLength(progs, |msgs|, log) && Follows(code[pc], pc, next)
    ensures pc < next < LABEL + CleanupLength(progs, |msgs|, log)
  {
    var body, i := StackCloses(2 + progs) + BlobCloses(fdArray, log, msgs), pc - LABEL;
    CleanupInPlace(code, progs, fdArray, log, msgs);
    CleanupLengthExact(progs, fdArray, log, msgs);
    assert Cleanup(progs, fdArray, log, msgs) == body + [MovReg(0, 7), Exit];
    CodeAtSplit(code, LABEL, body, [MovReg(0, 7), Exit]);
    ClosesSound(progs, fdArray, log, msgs, 0);
    ClosesSound(progs, fdArray, log, msgs, 1);
    hide *;
    BlockFollows(code, body, pc, next);
  }

  lemma BlockFollows(code: seq<Insn>, body: seq<Insn>, pc: nat, next: nat)
    requires CodeAt(code, LABEL, body) && CodeAt(code, LABEL + |body|, [MovReg(0, 7), Exit])
    requires FragmentOk(body, LABEL, 0) && FragmentOk(body, LABEL, 1)
    requires LABEL <= pc < LABEL + |body| + 2 && pc < |code| && Follows(code[pc], pc, next)
    ensures pc < next < LABEL + |body| + 2
  {
    hide CodeAt, FragmentOk;
    var i := pc - LABEL;
    if i < |body| {
      AtBlock(code, LABEL, body, i);
      StaysInside(body, i, next - LABEL);
    } else {
      AtBlock(code, LABEL + |body|, [MovReg(0, 7), Exit], i - |body|);
    }
  }

  /** A fragment that is sound whatever label is meant leads down to its end at most. */
  lemma StaysInside(f: seq<Insn>, i: nat, next: int)
    requires FragmentOk(f, LABEL, 0) && FragmentOk(f, LABEL, 1) && i < |f|
    requires LABEL + next >= 0 && Follows(f[i], LABEL + i, LABEL + next)
    ensures i < next <= |f|
  {
    assert BranchOk(f, LABEL, 0, i) && BranchOk(f, LABEL, 1, i) && PairOk(f, i);
  }

  lemma AtBlock(code: seq<Insn>, pos: nat, block: seq<Insn>, i: nat)
    requires CodeAt(code, pos, block) && i < |block|
    ensures pos + i < |code| && code[pos + i] == block[i]
  {
  }

  lemma {:induction false} CleanupEnds(code: seq<Insn>, vm: Vm, env: Env, progs: nat, fdArray: int, log: bool, msgs: seq<(int, int)>)
    requires Loader(code, progs, fdArray, log, msgs) && |vm.regs| == 11
    requires LABEL <= vm.pc < LABEL + CleanupLength(progs, |msgs|, log)
    ensures !Exec(code, vm, env, LABEL + CleanupLength(progs, |msgs|, log) - vm.pc).Running?
    decreases LABEL + CleanupLength(progs, |msgs|, log) - vm.pc
  {
    hide Loader, CleanupLength, Step;
    var end := LABEL + CleanupLength(progs, |msgs|, log);
    if Step(code, vm, env).Running? {
      CleanupStep(code, vm, env, progs, fdArray, log, msgs);
      var vm1 := Step(code, vm, env).vm;
      CleanupEnds(code, vm1, env, progs, fdArray, log, msgs);
      EndsAfterStep(code, vm, env, end - vm1.pc, end - vm.pc);
    }
  }

  /** An outcome is final. */
  lemma {:induction false} StaysEnded(code: seq<Insn>, vm: Vm, env: Env, j: nat, k: nat)
    requires |vm.regs| == 11 && !Exec(code, vm, env, j).Running? && j <= k
    ensures !Exec(code, vm, env, k).Running?
    decreases j
  {
    hide Step;
    if Step(code, vm, env).Running? {
      StaysEnded(code, Step(code, vm, env).vm, env, j - 1, k - 1);
    }
  }

  lemma EndsAfterStep(code: seq<Insn>, vm: Vm, env: Env, j: nat, k: nat)
    requires |vm.regs| == 11 && Step(code, vm, env).Running? && j < k
    requires !Exec(code, Step(code, vm, env).vm, env, j).Running?
    ensures !Exec(code, vm, env, k).Running?
  {
    hide Step;
    StaysEnded(code, Step(code, vm, env).vm, env, j, k - 1);
  }

  /** Every run ends: control only goes down the program, but for at most one jump to the cleanup code. */
  lemma {:induction false} RunEnds(code: seq<Insn>, vm: Vm, env: Env, progs: nat, fdArray: int, log: bool, msgs: seq<(int, int)>)
    requires Complete(code, progs, fdArray, log, msgs) && Jumpable(progs, |msgs|, log)
    requires |vm.regs| == 11 && Lands(code, vm.pc)
    ensures !Exec(code, vm, env, |code| - vm.pc + CleanupLength(progs, |msgs|, log)).Running?
    decreases |code| - vm.pc
  {
    hide Complete, Jumpable, Step, CleanupLength, Exec, Loader;
    var len := CleanupLength(progs, |msgs|, log);
    CompleteIsLoader(code, progs, fdArray, log, msgs);
    HeadEnds(code, progs, fdArray, log, msgs);
    if Step(code, vm, env).Running? {
      StepLands(code, vm, env, progs, fdArray, log, msgs);
      var vm1 := Step(code, vm, env).vm;
      if vm1.pc > vm.pc {
        RunEnds(code, vm1, env, progs, fdArray, log, msgs);
        EndsAfterStep(code, vm, env, |code| - vm1.pc + len, |code| - vm.pc + len);
      } else {
        CleanupEnds(code, vm1, env, progs, fdArray, log, msgs);
        EndsAfterStep(code, vm, env, len, |code| - vm.pc + len);
      }
    } else {
      NotRunning(code, vm, env, |code| - vm.pc + len);
    }
  }

  lemma NotRunning(code: seq<Insn>, vm: Vm, env: Env, k: nat)
    requires |vm.regs| == 11 && !Step(code, vm, env).Running? && k > 0
    ensures !Exec(code, vm, env, k).Running?
  {
  }
}

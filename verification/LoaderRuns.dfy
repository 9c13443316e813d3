/** What the relocation and update fragments do when they run: every hand-counted jump takes the
    path it is meant to, whatever the kernel answered. */
module LoaderRuns {
  import opened LoaderCode
  import opened LoaderOps
  import opened LoaderVm

  // ----- Paths -----

  ghost predicate StepAt(code: seq<Insn>, env: Env, vms: seq<Vm>, i: int) {
    0 <= i < |vms| - 1 && |vms[i].regs| == 11 && |vms[i + 1].regs| == 11 && Step(code, vms[i], env) == Running(vms[i + 1])
  }

  lemma {:induction false} PathReaches(code: seq<Insn>, env: Env, vms: seq<Vm>)
    requires |vms| > 0 && |vms[0].regs| == 11
    requires forall i {:trigger StepAt(code, env, vms, i)} :: 0 <= i < |vms| - 1 ==> StepAt(code, env, vms, i)
    ensures Reaches(code, vms[0], env, |vms| - 1, vms[|vms| - 1])
    decreases |vms|
  {
    if |vms| > 1 {
      assert StepAt(code, env, vms, 0);
      var rest := vms[1..];
      forall i | 0 <= i < |rest| - 1 ensures StepAt(code, env, rest, i) {
        assert StepAt(code, env, vms, i + 1);
      }
      PathReaches(code, env, rest);
      OneStep(code, vms[0], env, vms[1], |rest| - 1, vms[|vms| - 1]);
    }
  }

  /** `vm` moved to `pc` with this data blob. */
  predicate Moved(vm: Vm, vm': Vm, pc: nat, blob: Region) {
    && |vm.regs| == |vm'.regs| == 11 && vm'.pc == pc && vm'.blob == blob
    && vm'.stack == vm.stack && vm'.ctx == vm.ctx && vm'.closed == vm.closed && vm'.calls == vm.calls
    && vm'.regs[6] == vm.regs[6] && vm'.regs[8] == vm.regs[8] && vm'.regs[10] == vm.regs[10]
  }

  // ----- A kernel function bound -----

  /** Not found: a call of nothing.  Found: the BTF id, the module's descriptor in the slot, and the
      slot's index unless the function is the kernel's own. */
  function KfuncResult(blob: Region, insn: int, idx: int, slot: int, n: nat): Region {
    if Signed(n) < 0 then blob[insn + 4 := 0][insn + 2 := 0]
    else blob[insn + 4 := n % WORD32][slot := n / WORD32][insn + 2 := if n / WORD32 == 0 then 0 else Unsigned(idx)]
  }

  lemma KfuncBindRuns(code: seq<Insn>, vm: Vm, env: Env, idx: int, slot: int, insn: int, n: nat) returns (k: nat, vm': Vm)
    requires |vm.regs| == 11 && vm.regs[7] == Num(n) && n < WORD64 && vm.regs[8] == BlobPtr(insn) && 0 <= idx < 0x8000
    requires CodeAt(code, vm.pc, KfuncBind(idx, slot))
    ensures Reaches(code, vm, env, k, vm') && Moved(vm, vm', vm.pc + 14, KfuncResult(vm.blob, insn, idx, slot, n))
  {
    var p, b := vm.pc, [Jmp(JSGE, 7, 0, 3), St(4, 8, 4, 0), St(2, 8, 2, 0), Ja(10)];
    CodeAtSplit(code, p, b, KfuncStore(idx, slot));
    if Signed(n) < 0 {
      k := 4;
      vm' := KfuncMissingRuns(code, vm, env, insn, n);
    } else {
      assert code[p] == b[0];
      hide CodeAt, KfuncStore;
      var v1 := vm.(pc := p + 4);
      assert Step(code, vm, env) == Running(v1);
      var j, v := KfuncStoreRuns(code, v1, env, idx, slot, insn, n);
      OneStep(code, vm, env, v1, j, v);
      k, vm' := j + 1, v;
    }
  }

  lemma KfuncMissingRuns(code: seq<Insn>, vm: Vm, env: Env, insn: int, n: nat) returns (vm': Vm)
    requires |vm.regs| == 11 && vm.regs[7] == Num(n) && Signed(n) < 0 && vm.regs[8] == BlobPtr(insn)
    requires CodeAt(code, vm.pc, [Jmp(JSGE, 7, 0, 3), St(4, 8, 4, 0), St(2, 8, 2, 0), Ja(10)])
    ensures Reaches(code, vm, env, 4, vm') && Moved(vm, vm', vm.pc + 14, vm.blob[insn + 4 := 0][insn + 2 := 0])
  {
    var p, b := vm.pc, [Jmp(JSGE, 7, 0, 3), St(4, 8, 4, 0), St(2, 8, 2, 0), Ja(10)];
    assert code[p] == b[0] && code[p + 1] == b[1] && code[p + 2] == b[2] && code[p + 3] == b[3];
    hide CodeAt;
    var v1 := vm.(pc := p + 1);
    var v2 := v1.(pc := p + 2, blob := v1.blob[insn + 4 := 0]);
    var v3 := v2.(pc := p + 3, blob := v2.blob[insn + 2 := 0]);
    vm' := v3.(pc := p + 14);
    var vms := [vm, v1, v2, v3, vm'];
    assert StepAt(code, env, vms, 0) && StepAt(code, env, vms, 1) && StepAt(code, env, vms, 2) && StepAt(code, env, vms, 3);
    PathReaches(code, env, vms);
  }

  lemma KfuncStoreCode(code: seq<Insn>, p: nat, idx: int, slot: int)
    requires CodeAt(code, p, KfuncStore(idx, slot))
    ensures p + 10 <= |code| && code[p] == Stx(4, 8, 7, 4) && code[p + 1] == MovReg(9, 7) && code[p + 2] == AluImm(RSH, 9, 32)
    ensures code[p + 3] == LdBlob(0, slot) && code[p + 5] == Stx(4, 0, 9, 0) && CodeAt(code, p + 5, KfuncOff(idx))
  {
    var b := [Stx(4, 8, 7, 4), MovReg(9, 7), AluImm(RSH, 9, 32), LdBlob(0, slot), LdBlobTail];
    CodeAtSplit(code, p, b, KfuncOff(idx));
    assert code[p] == b[0] && code[p + 1] == b[1] && code[p + 2] == b[2] && code[p + 3] == b[3] && code[p + 5] == KfuncOff(idx)[0];
  }

  lemma KfuncStoreRuns(code: seq<Insn>, vm: Vm, env: Env, idx: int, slot: int, insn: int, n: nat) returns (k: nat, vm': Vm)
    requires |vm.regs| == 11 && vm.regs[7] == Num(n) && n < WORD64 && vm.regs[8] == BlobPtr(insn) && 0 <= idx < 0x8000
    requires Signed(n) >= 0 && CodeAt(code, vm.pc, KfuncStore(idx, slot))
    ensures Reaches(code, vm, env, k, vm') && Moved(vm, vm', vm.pc + 10, KfuncResult(vm.blob, insn, idx, slot, n))
  {
    hide CodeAt, Reaches, KfuncStore, KfuncOff, Signed, Unsigned, Exec, Step;
    var hi := n / WORD32;
    KfuncStoreCode(code, vm.pc, idx, slot);
    var v3 := KfuncIdRuns(code, vm, env, insn, n);
    var v5 := KfuncSlotRuns(code, v3, env, slot, hi);
    ReachesJoin(code, vm, env, 3, v3, 2, v5);
    var j, v := KfuncOffRuns(code, v5, env, idx, insn, hi);
    ReachesJoin(code, vm, env, 5, v5, j, v);
    k, vm' := 5 + j, v;
  }

  /** The BTF id goes into the call; what is left is the module's descriptor. */
  lemma KfuncIdRuns(code: seq<Insn>, vm: Vm, env: Env, insn: int, n: nat) returns (vm': Vm)
    requires |vm.regs| == 11 && vm.regs[7] == Num(n) && n < WORD64 && vm.regs[8] == BlobPtr(insn) && vm.pc + 2 < |code|
    requires code[vm.pc] == Stx(4, 8, 7, 4) && code[vm.pc + 1] == MovReg(9, 7) && code[vm.pc + 2] == AluImm(RSH, 9, 32)
    ensures Reaches(code, vm, env, 3, vm') && Moved(vm, vm', vm.pc + 3, vm.blob[insn + 4 := n % WORD32])
    ensures vm'.regs[9] == Num(n / WORD32)
  {
    var v1 := vm.(pc := vm.pc + 1, blob := vm.blob[insn + 4 := n % WORD32]);
    var v2 := v1.(pc := vm.pc + 2, regs := v1.regs[9 := Num(n)]);
    vm' := v2.(pc := vm.pc + 3, regs := v2.regs[9 := Num(n / WORD32)]);
    var vms := [vm, v1, v2, vm'];
    assert StepAt(code, env, vms, 0) && StepAt(code, env, vms, 1) && StepAt(code, env, vms, 2);
    PathReaches(code, env, vms);
  }

  lemma KfuncSlotRuns(code: seq<Insn>, vm: Vm, env: Env, slot: int, hi: nat) returns (vm': Vm)
    requires |vm.regs| == 11 && vm.regs[9] == Num(hi) && hi < WORD32
    requires vm.pc + 2 < |code| && code[vm.pc] == LdBlob(0, slot) && code[vm.pc + 2] == Stx(4, 0, 9, 0)
    ensures Reaches(code, vm, env, 2, vm') && Moved(vm, vm', vm.pc + 3, vm.blob[slot := hi]) && vm'.regs[9] == Num(hi)
  {
    var v1 := vm.(pc := vm.pc + 2, regs := vm.regs[0 := BlobPtr(slot)]);
    vm' := v1.(pc := vm.pc + 3, blob := v1.blob[slot := hi]);
    var vms := [vm, v1, vm'];
    assert StepAt(code, env, vms, 0) && StepAt(code, env, vms, 1);
    PathReaches(code, env, vms);
  }

  lemma KfuncOffRuns(code: seq<Insn>, vm: Vm, env: Env, idx: int, insn: int, hi: nat) returns (k: nat, vm': Vm)
    requires |vm.regs| == 11 && vm.regs[9] == Num(hi) && hi < WORD32 && vm.regs[8] == BlobPtr(insn) && 0 <= idx < 0x8000
    requires vm.pc > 0 && CodeAt(code, vm.pc - 1, KfuncOff(idx))
    ensures Reaches(code, vm, env, k, vm')
    ensures Moved(vm, vm', vm.pc + 4, vm.blob[insn + 2 := if hi == 0 then 0 else Unsigned(idx)])
  {
    var p, b := vm.pc, KfuncOff(idx);
    assert code[p] == b[1] && code[p + 1] == b[2] && code[p + 2] == b[3] && code[p + 3] == b[4];
    if hi == 0 {
      var v1 := vm.(pc := p + 1);
      var v2 := v1.(pc := p + 2, blob := v1.blob[insn + 2 := 0]);
      var v3 := v2.(pc := p + 4);
      var vms := [vm, v1, v2, v3];
      assert StepAt(code, env, vms, 0) && StepAt(code, env, vms, 1) && StepAt(code, env, vms, 2);
      PathReaches(code, env, vms);
      k, vm' := 3, v3;
    } else {
      var v1 := vm.(pc := p + 3);
      var v2 := v1.(pc := p + 4, blob := v1.blob[insn + 2 := Unsigned(idx)]);
      var vms := [vm, v1, v2];
      assert StepAt(code, env, vms, 0) && StepAt(code, env, vms, 1);
      PathReaches(code, env, vms);
      k, vm' := 2, v2;
    }
  }

  // ----- A typed variable bound -----

  /** Not found: zeroes, and no source register.  Found: the BTF id and the module's descriptor. */
  function KsymResult(blob: Region, insn: int, n: nat): Region {
    if Signed(n) < 0 then ClearedSrc(blob[insn + 4 := 0][insn + 12 := 0], insn)
    else blob[insn + 4 := n % WORD32][insn + 12 := n / WORD32]
  }

  /** The destination register is kept, the source register cleared. */
  function ClearedSrc(blob: Region, insn: int): Region {
    blob[insn + 1 := Load(blob, insn + 1, 1) % 16]
  }

  lemma ClearSrcRuns(code: seq<Insn>, vm: Vm, env: Env, insn: int) returns (vm': Vm)
    requires |vm.regs| == 11 && vm.regs[8] == BlobPtr(insn) && CodeAt(code, vm.pc, CLEAR_SRC)
    ensures Reaches(code, vm, env, 3, vm') && Moved(vm, vm', vm.pc + 3, ClearedSrc(vm.blob, insn))
  {
    var p, b, byte := vm.pc, CLEAR_SRC, Load(vm.blob, insn + 1, 1);
    assert code[p] == b[0] && code[p + 1] == b[1] && code[p + 2] == b[2];
    var low := byte % 16;
    var v1 := vm.(pc := p + 1, regs := vm.regs[9 := Num(byte)]);
    var v2 := v1.(pc := p + 2, regs := v1.regs[9 := Num(low)]);
    var v3 := v2.(pc := p + 3, blob := v2.blob[insn + 1 := low]);
    var vms := [vm, v1, v2, v3];
    assert StepAt(code, env, vms, 0) && StepAt(code, env, vms, 1) && StepAt(code, env, vms, 2);
    PathReaches(code, env, vms);
    vm' := v3;
  }

  lemma KsymBindRuns(code: seq<Insn>, vm: Vm, env: Env, insn: int, n: nat) returns (k: nat, vm': Vm)
    requires |vm.regs| == 11 && vm.regs[7] == Num(n) && n < WORD64 && vm.regs[8] == BlobPtr(insn)
    requires CodeAt(code, vm.pc, KsymBind())
    ensures Reaches(code, vm, env, k, vm') && Moved(vm, vm', vm.pc + 11, KsymResult(vm.blob, insn, n))
  {
    CodeAtSplit(code, vm.pc, KSYM_STORE, CLEAR_SRC);
    hide CodeAt, Step, ClearedSrc;
    if Signed(n) < 0 {
      var v4 := KsymMissingRuns(code, vm, env, insn, n);
      vm' := ClearSrcRuns(code, v4, env, insn);
      ReachesJoin(code, vm, env, 4, v4, 3, vm');
      k := 7;
    } else {
      vm' := KsymFoundRuns(code, vm, env, insn, n);
      k := 5;
    }
  }

  lemma KsymFoundRuns(code: seq<Insn>, vm: Vm, env: Env, insn: int, n: nat) returns (vm': Vm)
    requires |vm.regs| == 11 && vm.regs[7] == Num(n) && n < WORD64 && Signed(n) >= 0 && vm.regs[8] == BlobPtr(insn)
    requires CodeAt(code, vm.pc, KSYM_STORE)
    ensures Reaches(code, vm, env, 5, vm')
    ensures Moved(vm, vm', vm.pc + 11, vm.blob[insn + 4 := n % WORD32][insn + 12 := n / WORD32])
  {
    var p, b, hi := vm.pc, KSYM_STORE, n / WORD32;
    assert code[p] == b[0] && code[p + 4] == b[4] && code[p + 5] == b[5] && code[p + 6] == b[6] && code[p + 7] == b[7];
    hide CodeAt;
    var v1 := vm.(pc := p + 4);
    var v2 := v1.(pc := p + 5, blob := v1.blob[insn + 4 := n % WORD32]);
    var v3 := v2.(pc := p + 6, regs := v2.regs[7 := Num(hi)]);
    var first := [vm, v1, v2, v3];
    assert StepAt(code, env, first, 0) && StepAt(code, env, first, 1) && StepAt(code, env, first, 2);
    PathReaches(code, env, first);
    vm' := KsymHighRuns(code, v3, env, insn, hi);
    ReachesJoin(code, vm, env, 3, v3, 2, vm');
  }

  lemma KsymHighRuns(code: seq<Insn>, vm: Vm, env: Env, insn: int, hi: nat) returns (vm': Vm)
    requires |vm.regs| == 11 && vm.regs[7] == Num(hi) && hi < WORD32 && vm.regs[8] == BlobPtr(insn)
    requires vm.pc + 1 < |code| && code[vm.pc] == Stx(4, 8, 7, 12) && code[vm.pc + 1] == Ja(3)
    ensures Reaches(code, vm, env, 2, vm') && Moved(vm, vm', vm.pc + 5, vm.blob[insn + 12 := hi])
  {
    var v1 := vm.(pc := vm.pc + 1, blob := vm.blob[insn + 12 := hi]);
    vm' := v1.(pc := vm.pc + 5);
    var vms := [vm, v1, vm'];
    assert StepAt(code, env, vms, 0) && StepAt(code, env, vms, 1);
    PathReaches(code, env, vms);
  }

  lemma KsymMissingRuns(code: seq<Insn>, vm: Vm, env: Env, insn: int, n: nat) returns (vm': Vm)
    requires |vm.regs| == 11 && vm.regs[7] == Num(n) && Signed(n) < 0 && vm.regs[8] == BlobPtr(insn)
    requires CodeAt(code, vm.pc, KSYM_STORE)
    ensures Reaches(code, vm, env, 4, vm')
    ensures Moved(vm, vm', vm.pc + 8, vm.blob[insn + 4 := 0][insn + 12 := 0])
  {
    var p, b := vm.pc, KSYM_STORE;
    assert code[p] == b[0] && code[p + 1] == b[1] && code[p + 2] == b[2] && code[p + 3] == b[3];
    var v1 := vm.(pc := p + 1);
    var v2 := v1.(pc := p + 2, blob := v1.blob[insn + 4 := 0]);
    var v3 := v2.(pc := p + 3, blob := v2.blob[insn + 12 := 0]);
    vm' := v3.(pc := p + 8);
    var vms := [vm, v1, v2, v3, vm'];
    assert StepAt(code, env, vms, 0) && StepAt(code, env, vms, 1) && StepAt(code, env, vms, 2) && StepAt(code, env, vms, 3);
    PathReaches(code, env, vms);
  }

  // ----- A typeless variable bound -----

  /** An unknown symbol keeps its address; any other failure goes to the cleanup code. */
  lemma TypelessBindRuns(code: seq<Insn>, vm: Vm, env: Env, cleanup: nat, insn: int, n: nat, addr: nat) returns (k: nat, vm': Vm)
    requires |vm.regs| == 11 && vm.regs[7] == Num(n) && n < WORD64 && vm.regs[8] == BlobPtr(insn)
    requires vm.regs[9] == Num(addr) && addr < WORD64
    requires CodeAt(code, vm.pc, TypelessBind(vm.pc, cleanup))
    ensures Reaches(code, vm, env, k, vm')
    ensures if Signed(n) < 0 && Signed(n) != -2 then Moved(vm, vm', cleanup, vm.blob) && vm'.regs == vm.regs
            else Moved(vm, vm', vm.pc + 5, vm.blob[insn + 4 := addr % WORD32][insn + 12 := addr / WORD32])
  {
    var p, b := vm.pc, TypelessBind(vm.pc, cleanup);
    assert code[p] == b[0] && code[p + 1] == b[1] && code[p + 2] == b[2] && code[p + 3] == b[3] && code[p + 4] == b[4];
    assert n == Unsigned(-2) <==> Signed(n) == -2;
    assert code[p + 2..p + 5] == STORE_ADDR;
    hide CodeAt, TypelessBind;
    if Signed(n) < 0 && Signed(n) != -2 {
      var v1 := vm.(pc := p + 1);
      var v2 := v1.(pc := cleanup);
      var vms := [vm, v1, v2];
      assert StepAt(code, env, vms, 0) && StepAt(code, env, vms, 1);
      PathReaches(code, env, vms);
      k, vm' := 2, v2;
    } else {
      var v1 := vm.(pc := if Signed(n) == -2 then p + 2 else p + 1);
      var v2 := vm.(pc := p + 2);
      var j := if Signed(n) == -2 then 1 else 2;
      var start := if Signed(n) == -2 then [vm, v2] else [vm, v1, v2];
      assert StepAt(code, env, start, 0) && (j == 2 ==> StepAt(code, env, start, 1));
      PathReaches(code, env, start);
      vm' := StoreAddrRuns(code, v2, env, insn, addr);
      ReachesJoin(code, vm, env, j, v2, 3, vm');
      k := j + 3;
    }
  }

  lemma StoreAddrRuns(code: seq<Insn>, vm: Vm, env: Env, insn: int, addr: nat) returns (vm': Vm)
    requires |vm.regs| == 11 && vm.regs[8] == BlobPtr(insn) && vm.regs[9] == Num(addr) && addr < WORD64
    requires vm.pc + 3 <= |code| && code[vm.pc..vm.pc + 3] == STORE_ADDR
    ensures Reaches(code, vm, env, 3, vm')
    ensures Moved(vm, vm', vm.pc + 3, vm.blob[insn + 4 := addr % WORD32][insn + 12 := addr / WORD32])
  {
    var p, b := vm.pc, code[vm.pc..vm.pc + 3];
    assert code[p] == b[0] && code[p + 1] == b[1] && code[p + 2] == b[2];
    var v1 := vm.(pc := p + 1, blob := vm.blob[insn + 4 := addr % WORD32]);
    var v2 := v1.(pc := p + 2, regs := v1.regs[9 := Num(addr / WORD32)]);
    vm' := v2.(pc := p + 3, blob := v2.blob[insn + 12 := addr / WORD32]);
    var vms := [vm, v1, v2, vm'];
    assert StepAt(code, env, vms, 0) && StepAt(code, env, vms, 1) && StepAt(code, env, vms, 2);
    PathReaches(code, env, vms);
  }

  // ----- A map's maximum and its initial value -----

  /** The caller's maximum replaces the default unless it is zero. */
  lemma MaxEntriesRuns(code: seq<Insn>, vm: Vm, env: Env, off: int, ctxOff: int) returns (k: nat, vm': Vm)
    requires |vm.regs| == 11 && vm.regs[6] == CtxPtr(0)
    requires CodeAt(code, vm.pc, Ctx2Blob(off, 4, ctxOff, true))
    ensures Reaches(code, vm, env, k, vm')
    ensures Moved(vm, vm', vm.pc + 5, if Load(vm.ctx, ctxOff, 4) == 0 then vm.blob
                                      else vm.blob[off := Load(vm.ctx, ctxOff, 4)])
  {
    var p, b, max := vm.pc, Ctx2Blob(off, 4, ctxOff, true), Load(vm.ctx, ctxOff, 4);
    assert code[p] == b[0] && code[p + 1] == b[1] && code[p + 2] == b[2] && code[p + 4] == b[4];
    hide CodeAt, Ctx2Blob, Load;
    var v1 := vm.(pc := p + 1, regs := vm.regs[0 := Num(max)]);
    if max == 0 {
      var vms := [vm, v1, v1.(pc := p + 5)];
      assert StepAt(code, env, vms, 0) && StepAt(code, env, vms, 1);
      PathReaches(code, env, vms);
      k, vm' := 2, vms[2];
    } else {
      var v2 := v1.(pc := p + 2);
      var v3 := v2.(pc := p + 4, regs := v2.regs[1 := BlobPtr(off)]);
      var v4 := v3.(pc := p + 5, blob := v3.blob[off := max]);
      var vms := [vm, v1, v2, v3, v4];
      assert StepAt(code, env, vms, 0) && StepAt(code, env, vms, 1) && StepAt(code, env, vms, 2) && StepAt(code, env, vms, 3);
      PathReaches(code, env, vms);
      k, vm' := 4, v4;
    }
  }

  lemma CopyChoiceRuns(code: seq<Insn>, vm: Vm, env: Env) returns (vm': Vm)
    requires |vm.regs| == 11 && vm.regs[6] == CtxPtr(0)
    requires vm.pc + 1 < |code| && code[vm.pc] == Ldx(4, 0, 6, 4) && code[vm.pc + 1] == Jmp(JSET, 0, 1, 2)
    ensures Reaches(code, vm, env, 2, vm')
    ensures Moved(vm, vm', if Load(vm.ctx, 4, 4) % 2 == 1 then vm.pc + 4 else vm.pc + 2, vm.blob)
    ensures vm'.regs[1] == vm.regs[1] && vm'.regs[2] == vm.regs[2] && vm'.regs[3] == vm.regs[3]
  {
    var flags := Load(vm.ctx, 4, 4);
    var v1 := vm.(pc := vm.pc + 1, regs := vm.regs[0 := Num(flags)]);
    vm' := v1.(pc := if flags % 2 == 1 then vm.pc + 4 else vm.pc + 2);
    var vms := [vm, v1, vm'];
    assert StepAt(code, env, vms, 0) && StepAt(code, env, vms, 1);
    PathReaches(code, env, vms);
  }

  /** No initial value: nothing is called.  Otherwise exactly one helper is about to be called, the
      one the caller's flags choose, on the value, its size and its address, and from its call
      control goes to the end. */
  lemma InitialValueRuns(code: seq<Insn>, vm: Vm, env: Env, idx: int, value: int, size: nat) returns (k: nat, vm': Vm)
    requires |vm.regs| == 11 && vm.regs[6] == CtxPtr(0) && size < WORD32
    requires CodeAt(code, vm.pc, InitialValue(idx, value, size))
    ensures Reaches(code, vm, env, k, vm')
    ensures var addr, flags := Load(vm.ctx, CtxMap(idx) + 8, 8), Load(vm.ctx, 4, 4);
            if addr == 0 then Moved(vm, vm', vm.pc + 10, vm.blob)
            else
              && Moved(vm, vm', if flags % 2 == 1 then vm.pc + 9 else vm.pc + 7, vm.blob)
              && code[vm'.pc] == Call(if flags % 2 == 1 then ProbeReadKernel else CopyFromUser)
              && vm'.regs[1] == BlobPtr(value) && vm'.regs[2] == Num(size) && vm'.regs[3] == Num(addr)
  {
    var p, b := vm.pc, InitialValue(idx, value, size);
    var addr := Load(vm.ctx, CtxMap(idx) + 8, 8);
    assert code[p] == b[0] && code[p + 1] == b[1] && code[p + 2] == b[2] && code[p + 4] == b[4] && code[p + 5] == b[5];
    assert code[p + 6] == b[6] && code[p + 7] == b[7] && code[p + 9] == b[9];
    hide CodeAt, InitialValue, Load;
    var v1 := vm.(pc := p + 1, regs := vm.regs[3 := Num(addr)]);
    var v2 := v1.(pc := if addr == 0 then p + 10 else p + 2);
    var vms := [vm, v1, v2];
    assert StepAt(code, env, vms, 0) && StepAt(code, env, vms, 1);
    PathReaches(code, env, vms);
    k, vm' := 2, v2;
    if addr != 0 {
      var v4 := ArgumentsRun(code, v2, env, value, size);
      ReachesJoin(code, vm, env, 2, v2, 2, v4);
      vm' := CopyChoiceRuns(code, v4, env);
      ReachesJoin(code, vm, env, 4, v4, 2, vm');
      k := 6;
    }
  }

  lemma ArgumentsRun(code: seq<Insn>, vm: Vm, env: Env, value: int, size: nat) returns (vm': Vm)
    requires |vm.regs| == 11 && size < WORD32
    requires vm.pc + 2 < |code| && code[vm.pc] == LdBlob(1, value) && code[vm.pc + 2] == MovImm(2, size)
    ensures Reaches(code, vm, env, 2, vm') && Moved(vm, vm', vm.pc + 3, vm.blob)
    ensures vm'.regs[1] == BlobPtr(value) && vm'.regs[2] == Num(size) && vm'.regs[3] == vm.regs[3]
  {
    var v1 := vm.(pc := vm.pc + 2, regs := vm.regs[1 := BlobPtr(value)]);
    vm' := v1.(pc := vm.pc + 3, regs := v1.regs[2 := Num(size)]);
    var vms := [vm, v1, vm'];
    assert StepAt(code, env, vms, 0) && StepAt(code, env, vms, 1);
    PathReaches(code, env, vms);
  }

  /** From either helper call control goes to the end without another. */
  lemma CopyEnds(code: seq<Insn>, vm: Vm, env: Env, start: nat, idx: int, value: int, size: nat) returns (k: nat, vm': Vm)
    requires |vm.regs| == 11 && CodeAt(code, start, InitialValue(idx, value, size))
    requires vm.pc == start + 7 || vm.pc == start + 9
    ensures Reaches(code, vm, env, k, vm') && vm'.pc == start + 10 && vm'.calls == vm.calls + 1
  {
    var b := InitialValue(idx, value, size);
    assert code[start + 7] == b[7] && code[start + 8] == b[8] && code[start + 9] == b[9];
    var v1 := Step(code, vm, env).vm;
    var vms := if vm.pc == start + 9 then [vm, v1] else [vm, v1, v1.(pc := start + 10)];
    assert StepAt(code, env, vms, 0) && (vm.pc == start + 7 ==> StepAt(code, env, vms, 1));
    PathReaches(code, env, vms);
    k, vm' := |vms| - 1, vms[|vms| - 1];
  }
}

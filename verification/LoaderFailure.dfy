/** Whole runs of a typed loader program: none gets stuck, every one exits, and one whose command
    fails exits with every descriptor it holds closed. */
module LoaderFailure {
  import opened LoaderCode
  import opened LoaderOps
  import opened LoaderParts
  import opened LoaderSafety
  import opened LoaderTypes
  import opened LoaderVm

  predicate IsCheck(code: seq<Insn>, pc: nat) { pc < |code| && code[pc].Jmp? && code[pc].cond == JSLT }

  // ----- States of typed code -----

  predicate HasKind(v: Val, k: Kind) {
    match k
    case Any => true
    case Number => v.Num?
    case Natural => v.Num? && Signed(v.n) >= 0
    case Blob(o) => v == BlobPtr(o)
  }

  predicate HaveKinds(regs: seq<Val>, t: Types)
    requires |regs| == 11
  {
    && HasKind(regs[0], t.r0) && HasKind(regs[1], t.r1) && HasKind(regs[2], t.r2) && HasKind(regs[3], t.r3)
    && HasKind(regs[4], t.r4) && HasKind(regs[7], t.r7) && HasKind(regs[8], t.r8) && HasKind(regs[9], t.r9)
  }

  /** The stack holds nothing but slots, the blob nothing but slots and data. */
  predicate SlotsOnly(stack: Region, blob: Region, room: Room) {
    && (forall o {:trigger o in stack} :: o in stack ==> StackSlot(o, room.slots))
    && (forall o {:trigger o in blob} :: o in blob ==> MapSlot(o, room.maps) || Data(o))
  }

  /** R6 and R10 are as the opening left them. */
  predicate Sane(vm: Vm, t: Types, room: Room) {
    && |vm.regs| == 11 && vm.regs[6] == CtxPtr(0) && vm.regs[10] == StackPtr(0)
    && HaveKinds(vm.regs, t) && SlotsOnly(vm.stack, vm.blob, room)
  }

  /** The kernel does not write the slots of the maps. */
  ghost predicate Fair(env: Env) {
    forall k, o {:trigger o in env.replies(k).writes} :: o in env.replies(k).writes ==> Data(o)
  }

  lemma WeakerKinds(regs: seq<Val>, need: Types, have: Types)
    requires |regs| == 11 && Weaker(need, have) && HaveKinds(regs, have)
    ensures HaveKinds(regs, need)
  {
    hide Signed;
  }

  lemma GetKind(regs: seq<Val>, t: Types, r: nat)
    requires |regs| == 11 && HaveKinds(regs, t) && r < 10
    ensures HasKind(regs[r], Get(t, r))
  {
    hide Signed;
  }

  lemma SetKind(regs: seq<Val>, t: Types, r: nat, v: Val, k: Kind)
    requires |regs| == 11 && HaveKinds(regs, t) && Scratch(r) && HasKind(v, k)
    ensures HaveKinds(regs[r := v], Set(t, r, k))
  {
    hide HasKind, Set;
    GetSet(t, r, k, 0);
    GetSet(t, r, k, 1);
    GetSet(t, r, k, 2);
    GetSet(t, r, k, 3);
    GetSet(t, r, k, 4);
    GetSet(t, r, k, 7);
    GetSet(t, r, k, 8);
    GetSet(t, r, k, 9);
  }

  lemma GetSet(t: Types, r: nat, k: Kind, q: nat)
    requires q < 10 && q != 5 && q != 6
    ensures Get(Set(t, r, k), q) == if q == r then k else Get(t, q)
  {
  }

  // ----- One step -----

  /** A register gets a value of the kind promised. */
  lemma AfterSet(vm: Vm, t: Types, room: Room, dst: nat, v: Val, k: Kind, pc: nat)
    requires Sane(vm, t, room) && Scratch(dst) && HasKind(v, k)
    ensures Sane(vm.(pc := pc, regs := vm.regs[dst := v]), Set(t, dst, k), room)
  {
    hide HaveKinds, HasKind, SlotsOnly, Set;
    SetKind(vm.regs, t, dst, v, k);
  }

  lemma LoadStep(code: seq<Insn>, vm: Vm, env: Env, t: Types, room: Room)
    requires Sane(vm, t, room) && room.slots <= 2 + MAX_USED_PROGS
    requires vm.pc < |code| && code[vm.pc].Ldx? && Allowed(code[vm.pc], t, room)
    ensures Step(code, vm, env).Running? && Sane(Step(code, vm, env).vm, After(code[vm.pc], t), room)
  {
    hide HaveKinds, SlotsOnly, Set, Get, LoadFrom, Signed;
    var insn := code[vm.pc];
    if insn.src < 10 {
      GetKind(vm.regs, t, insn.src);
    }
    AfterSet(vm, t, room, insn.dst, Num(LoadFrom(vm, vm.regs[insn.src], insn.off, insn.size)), Number, vm.pc + 1);
  }

  /** What a store leaves of the slots. */
  lemma StoreStep(code: seq<Insn>, vm: Vm, env: Env, t: Types, room: Room)
    requires Sane(vm, t, room) && room.slots <= 2 + MAX_USED_PROGS
    requires vm.pc < |code| && (code[vm.pc].Stx? || code[vm.pc].St?) && Allowed(code[vm.pc], t, room)
    ensures Step(code, vm, env).Running? && Sane(Step(code, vm, env).vm, t, room)
  {
    hide HaveKinds, Get, Bits, Width, Signed, Unsigned;
    var insn := code[vm.pc];
    if insn.dst < 10 {
      GetKind(vm.regs, t, insn.dst);
    }
  }

  lemma CallStep(code: seq<Insn>, vm: Vm, env: Env, t: Types, room: Room)
    requires Sane(vm, t, room) && Fair(env)
    requires vm.pc < |code| && code[vm.pc].Call? && Allowed(code[vm.pc], t, room)
    ensures Step(code, vm, env).Running? && Sane(Step(code, vm, env).vm, After(code[vm.pc], t), room)
  {
    hide Signed;
    var reply := env.replies(vm.calls);
    forall o | o in reply.writes ensures Data(o) {
      assert o in env.replies(vm.calls).writes;
    }
  }

  lemma MoveStep(code: seq<Insn>, vm: Vm, env: Env, t: Types, room: Room)
    requires Sane(vm, t, room) && vm.pc < |code| && Allowed(code[vm.pc], t, room)
    requires code[vm.pc].MovReg? || code[vm.pc].MovImm? || code[vm.pc].AluImm? || code[vm.pc].LdBlob?
    ensures Step(code, vm, env).Running? && Sane(Step(code, vm, env).vm, After(code[vm.pc], t), room)
  {
    hide HaveKinds, SlotsOnly, Set, Get, Bits, Signed, Unsigned;
    match code[vm.pc] {
      case MovReg(dst, src) =>
        GetKind(vm.regs, t, src);
        AfterSet(vm, t, room, dst, vm.regs[src], Get(t, src), vm.pc + 1);
      case MovImm(dst, imm) => AfterSet(vm, t, room, dst, Num(Unsigned(imm)), Number, vm.pc + 1);
      case AluImm(op, dst, imm) =>
        GetKind(vm.regs, t, dst);
        AfterSet(vm, t, room, dst, AluResult(op, vm.regs[dst], imm, env),
                 if op == ADD && !IsNumber(Get(t, dst)) then Any else Number, vm.pc + 1);
      case LdBlob(dst, off) => AfterSet(vm, t, room, dst, BlobPtr(off), Blob(off), vm.pc + 2);
      case _ =>
    }
  }

  lemma BranchStep(code: seq<Insn>, vm: Vm, env: Env, t: Types, room: Room)
    requires Sane(vm, t, room) && vm.pc < |code| && Allowed(code[vm.pc], t, room)
    requires (code[vm.pc].Jmp? || code[vm.pc].Ja?) && Target(code, vm.pc) >= 0
    ensures Step(code, vm, env).Running? && Sane(Step(code, vm, env).vm, t, room)
    ensures Step(code, vm, env).vm.pc != Target(code, vm.pc) ==> Sane(Step(code, vm, env).vm, Beyond(code[vm.pc], t), room)
  {
    hide HaveKinds, SlotsOnly, Get, Signed;
    if code[vm.pc].Jmp? {
      GetKind(vm.regs, t, code[vm.pc].reg);
      if IsCheck(code, vm.pc) && code[vm.pc].reg == 7 && code[vm.pc].imm == 0 && Signed(vm.regs[7].n) >= 0 {
        NaturalKind(vm.regs, t);
      }
    }
  }

  lemma NaturalKind(regs: seq<Val>, t: Types)
    requires |regs| == 11 && HaveKinds(regs, t) && regs[7].Num? && Signed(regs[7].n) >= 0
    ensures HaveKinds(regs, t.(r7 := Natural))
  {
    hide Signed;
  }

  /** An allowed instruction can be executed, and leaves the kinds it is said to leave. */
  lemma KindsStep(code: seq<Insn>, vm: Vm, env: Env, t: Types, room: Room)
    requires Sane(vm, t, room) && Fair(env) && room.slots <= 2 + MAX_USED_PROGS
    requires vm.pc < |code| && !code[vm.pc].LdBlobTail? && Allowed(code[vm.pc], t, room)
    requires code[vm.pc].Jmp? || code[vm.pc].Ja? ==> Target(code, vm.pc) >= 0
    ensures var o := Step(code, vm, env);
            if code[vm.pc].Exit? then o.Exited? else o.Running? && Sane(o.vm, After(code[vm.pc], t), room)
    ensures var o := Step(code, vm, env);
            code[vm.pc].Jmp? && o.vm.pc != Target(code, vm.pc) ==> Sane(o.vm, Beyond(code[vm.pc], t), room)
  {
    hide Sane, Allowed, Fair;
    match code[vm.pc] {
      case Exit =>
      case Ldx(_, _, _, _) => LoadStep(code, vm, env, t, room);
      case Stx(_, _, _, _) => StoreStep(code, vm, env, t, room);
      case St(_, _, _, _) => StoreStep(code, vm, env, t, room);
      case Call(_) => CallStep(code, vm, env, t, room);
      case Jmp(_, _, _, _) => BranchStep(code, vm, env, t, room);
      case Ja(_) => BranchStep(code, vm, env, t, room);
      case _ => MoveStep(code, vm, env, t, room);
    }
  }

  lemma NothingAsked(t: Types)
    ensures Weaker(BASE, t)
  {
  }

  lemma BranchKeeps(insn: Insn, t: Types)
    requires insn.Jmp? || insn.Ja?
    ensures After(insn, t) == t && (insn.Jmp? && insn.cond != JSLT ==> Beyond(insn, t) == t)
  {
  }

  /** Where a step of typed code leads, its kinds are enough. */
  lemma KindsNext(f: seq<Insn>, ts: seq<Types>, room: Room, i: nat, next: nat)
    requires Table(f, ts, BASE, BASE, room) && i < |f| && TypedAt(f, ts, room, i) && !f[i].LdBlobTail?
    requires Follows(f[i], i, next) || (f[i].Jmp? && f[i].cond == JSLT && next == 0)
    requires f[i].Jmp? && f[i].cond == JSLT ==> f[i].off < 0 && (next == 0 || next == i + 1)
    ensures next < |ts|
    ensures if f[i].Jmp? && next == i + 1 && next != i + 1 + f[i].off then Weaker(ts[next], Beyond(f[i], ts[i]))
            else Weaker(ts[next], After(f[i], ts[i]))
  {
    hide Allowed, After, Weaker, Beyond;
    NothingAsked(After(f[i], ts[i]));
    WeakerJoins(ts[0], BASE, After(f[i], ts[i]));
    if f[i].Jmp? || f[i].Ja? {
      BranchKeeps(f[i], ts[i]);
    }
  }

  // ----- Runs -----

  /** Control is at an instruction of typed code, and the state is as its table says. */
  ghost predicate At(code: seq<Insn>, ts: seq<Types>, room: Room, vm: Vm) {
    && LABEL <= vm.pc && Lands(code, vm.pc) && Table(code[LABEL..], ts, BASE, BASE, room)
    && Sane(vm, ts[vm.pc - LABEL], room)
  }

  lemma StepStays(code: seq<Insn>, vm: Vm, env: Env, ts: seq<Types>, room: Room,
                  progs: nat, fdArray: int, log: bool, msgs: seq<(int, int)>)
    requires Complete(code, progs, fdArray, log, msgs) && Jumpable(progs, |msgs|, log)
    requires At(code, ts, room, vm) && Fair(env) && room.slots <= 2 + MAX_USED_PROGS
    ensures |vm.regs| == 11
    ensures var o := Step(code, vm, env);
            if code[vm.pc].Exit? then o.Exited? else o.Running? && At(code, ts, room, o.vm)
  {
    hide Complete, Jumpable, Step, Sane, Fair, After, Allowed, Weaker, Follows;
    var i, f := vm.pc - LABEL, code[LABEL..];
    assert f[i] == code[vm.pc] && TypedAt(f, ts, room, i);
    if code[vm.pc].Jmp? || code[vm.pc].Ja? {
      BranchesLand(code, progs, fdArray, log, msgs, vm.pc);
    }
    assert |vm.regs| == 11 by { SaneRegs(vm, ts[i], room); }
    KindsStep(code, vm, env, ts[i], room);
    if !code[vm.pc].Exit? {
      var vm' := Step(code, vm, env).vm;
      StepFollows(code, vm, env);
      StepLands(code, vm, env, progs, fdArray, log, msgs);
      NextOf(code[vm.pc], vm.pc, vm'.pc);
      KindsNext(f, ts, room, i, vm'.pc - LABEL);
      if code[vm.pc].Jmp? && vm'.pc == vm.pc + 1 && vm'.pc != Target(code, vm.pc) {
        SaneAgain(vm', ts[vm'.pc - LABEL], Beyond(f[i], ts[i]), room);
      } else {
        SaneAgain(vm', ts[vm'.pc - LABEL], After(f[i], ts[i]), room);
      }
    }
  }

  lemma SaneRegs(vm: Vm, t: Types, room: Room)
    requires Sane(vm, t, room)
    ensures |vm.regs| == 11
  {
  }

  /** The same step, counted from the label. */
  lemma NextOf(insn: Insn, pc: nat, next: nat)
    requires Follows(insn, pc, next) && pc >= LABEL && next >= LABEL
    requires insn.Jmp? && insn.cond == JSLT ==> pc + 1 + insn.off == LABEL
    ensures Follows(insn, pc - LABEL, next - LABEL)
    ensures insn.Jmp? && insn.cond == JSLT ==> next == LABEL || next == pc + 1
  {
  }

  lemma SaneAgain(vm: Vm, need: Types, have: Types, room: Room)
    requires Weaker(need, have) && Sane(vm, have, room)
    ensures Sane(vm, need, room)
  {
    WeakerKinds(vm.regs, need, have);
  }

  lemma {:induction false} RunStays(code: seq<Insn>, vm: Vm, env: Env, ts: seq<Types>, room: Room,
                                    progs: nat, fdArray: int, log: bool, msgs: seq<(int, int)>, k: nat)
    requires Complete(code, progs, fdArray, log, msgs) && Jumpable(progs, |msgs|, log)
    requires At(code, ts, room, vm) && Fair(env) && room.slots <= 2 + MAX_USED_PROGS
    requires |vm.regs| == 11
    ensures !Exec(code, vm, env, k).Stuck?
    ensures Exec(code, vm, env, k).Running? ==> At(code, ts, room, Exec(code, vm, env, k).vm)
    decreases k
  {
    hide Complete, Jumpable, At, Step, Fair;
    if k > 0 {
      StepStays(code, vm, env, ts, room, progs, fdArray, log, msgs);
      if Step(code, vm, env).Running? {
        RunStays(code, Step(code, vm, env).vm, env, ts, room, progs, fdArray, log, msgs, k - 1);
      }
    }
  }

  /** How the kernel starts a program: the context in R1, the frame in R10, and no map's slot filled. */
  predicate Started(vm: Vm) {
    && |vm.regs| == 11 && vm.pc == 0 && vm.regs[1] == CtxPtr(0) && vm.regs[10] == StackPtr(0) && vm.closed == []
    && forall o {:trigger o in vm.blob} :: o in vm.blob ==> Data(o)
  }

  /** A table for the cleanup code and what stands behind it, with nothing asked at the start of either. */
  lemma WholeTable(code: seq<Insn>, room: Room, progs: nat, fdArray: int, log: bool, msgs: seq<(int, int)>) returns (ts: seq<Types>)
    requires Loader(code, progs, fdArray, log, msgs) && TypedLoader(code, progs, log, |msgs|, room) && 2 + progs <= room.slots && room.mayExit
    ensures Table(code[LABEL..], ts, BASE, BASE, room) && |ts| == |code[LABEL..]| + 1
    ensures CleanupLength(progs, |msgs|, log) < |ts| && Weaker(ts[CleanupLength(progs, |msgs|, log)], BASE)
  {
    var a, b := Cleanup(progs, fdArray, log, msgs), code[Behind(progs, log, |msgs|)..];
    CleanupLengthExact(progs, fdArray, log, msgs);
    CleanupInPlace(code, progs, fdArray, log, msgs);
    CleanupTyped(progs, fdArray, log, msgs, room);
    assert code[LABEL..] == a + b;
    hide Cleanup, CleanupLength, TypedAt, Weaker;
    var s1 :| Table(a, s1, BASE, BASE, room);
    var s2 :| Table(b, s2, BASE, BASE, room);
    TableJoin(a, s1, b, s2, BASE, BASE, BASE, room);
    ts := s1[..|a|] + s2;
  }

  /** Behind the opening the state is as the table says. */
  lemma OpeningStays(code: seq<Insn>, vm: Vm, env: Env, room: Room, progs: nat, fdArray: int, log: bool, msgs: seq<(int, int)>)
    returns (vm': Vm, ts: seq<Types>)
    requires Complete(code, progs, fdArray, log, msgs) && Jumpable(progs, |msgs|, log)
    requires TypedLoader(code, progs, log, |msgs|, room) && 2 + progs <= room.slots && room.mayExit
    requires Started(vm) && Fair(env)
    ensures Reaches(code, vm, env, LABEL, vm') && At(code, ts, room, vm') && vm'.closed == []
    ensures vm'.pc == Behind(progs, log, |msgs|)
  {
    hide Complete, Loader, Jumpable, CleanupLength, Table, TypedLoader, Weaker, Exec, Lands;
    CompleteIsLoader(code, progs, fdArray, log, msgs);
    ts := WholeTable(code, room, progs, fdArray, log, msgs);
    vm' := OpeningRuns(code, vm, env, progs, fdArray, log, msgs);
    BehindLands(code, progs, fdArray, log, msgs);
    StartSane(vm, vm', env, room);
    SaneAgain(vm', ts[CleanupLength(progs, |msgs|, log)], BASE, room);
  }

  lemma StartSane(vm: Vm, vm': Vm, env: Env, room: Room)
    requires Started(vm) && Fair(env) && |vm'.regs| == 11
    requires vm'.regs[6] == vm.regs[1] && vm'.regs[10] == StackPtr(0) && vm'.stack == map[]
    requires vm'.blob == vm.blob + env.replies(vm.calls).writes
    ensures Sane(vm', BASE, room)
  {
    forall o | o in env.replies(vm.calls).writes ensures Data(o) { }
  }

  lemma BehindLands(code: seq<Insn>, progs: nat, fdArray: int, log: bool, msgs: seq<(int, int)>)
    requires Complete(code, progs, fdArray, log, msgs) && Jumpable(progs, |msgs|, log)
    ensures Lands(code, LABEL + CleanupLength(progs, |msgs|, log))
  {
    hide Complete, CleanupLength, Lands;
    OpeningLands(code, progs, fdArray, log, msgs);
  }

  /** In every run from the start, for any answers of the kernel: the program never gets stuck, and
      behind the opening R6, R10 and the slots are as they should be. */
  lemma RunNeverStuck(code: seq<Insn>, vm: Vm, env: Env, room: Room, progs: nat, fdArray: int, log: bool, msgs: seq<(int, int)>, k: nat)
    requires Complete(code, progs, fdArray, log, msgs) && Jumpable(progs, |msgs|, log)
    requires TypedLoader(code, progs, log, |msgs|, room) && 2 + progs <= room.slots <= 2 + MAX_USED_PROGS && room.mayExit
    requires Started(vm) && Fair(env)
    ensures !Exec(code, vm, env, k).Stuck?
    ensures k >= LABEL && Exec(code, vm, env, k).Running? ==> exists ts :: At(code, ts, room, Exec(code, vm, env, k).vm)
  {
    hide Complete, Loader, Jumpable, TypedLoader, At, Step, Fair;
    var vm', ts := OpeningStays(code, vm, env, room, progs, fdArray, log, msgs);
    if k >= LABEL {
      ExecJoins(code, vm, env, LABEL, k - LABEL);
      RunStays(code, vm', env, ts, room, progs, fdArray, log, msgs, k - LABEL);
    } else {
      StillRunning(code, vm, env, k, LABEL);
    }
  }

  lemma {:induction false} StillRunning(code: seq<Insn>, vm: Vm, env: Env, j: nat, k: nat)
    requires |vm.regs| == 11 && Exec(code, vm, env, k).Running? && j <= k
    ensures Exec(code, vm, env, j).Running?
    decreases j
  {
    hide Step;
    if j > 0 {
      StillRunning(code, Step(code, vm, env).vm, env, j - 1, k - 1);
    }
  }

  /** Every run of a finished program exits. */
  lemma RunExits(code: seq<Insn>, vm: Vm, env: Env, room: Room, progs: nat, fdArray: int, log: bool, msgs: seq<(int, int)>) returns (k: nat)
    requires Complete(code, progs, fdArray, log, msgs) && Jumpable(progs, |msgs|, log)
    requires TypedLoader(code, progs, log, |msgs|, room) && 2 + progs <= room.slots <= 2 + MAX_USED_PROGS && room.mayExit
    requires Started(vm) && Fair(env)
    ensures Exec(code, vm, env, k).Exited?
  {
    hide Complete, Loader, Jumpable, TypedLoader, CleanupLength, Lands, Exec, Fair, At, Sane;
    StartLands(code, progs, fdArray, log, msgs);
    k := |code| + CleanupLength(progs, |msgs|, log);
    RunEnds(code, vm, env, progs, fdArray, log, msgs);
    RunNeverStuck(code, vm, env, room, progs, fdArray, log, msgs, k);
  }

  lemma StartLands(code: seq<Insn>, progs: nat, fdArray: int, log: bool, msgs: seq<(int, int)>)
    requires Complete(code, progs, fdArray, log, msgs)
    ensures Lands(code, 0)
  {
    OpeningInPlace(code, progs, fdArray, log, msgs);
    OpeningPlain(S16(CleanupLength(progs, |msgs|, log)), 0);
    assert code[0] == Opening(S16(CleanupLength(progs, |msgs|, log)))[0];
  }

  // ----- What the slots hold -----

  /** The slots are untouched. */
  ghost predicate SlotsSame(vm: Vm, vm': Vm) {
    && vm'.stack == vm.stack
    && forall o {:trigger o in vm.blob} {:trigger o in vm'.blob} :: o < 4 * MAX_USED_MAPS ==>
         (o in vm.blob <==> o in vm'.blob) && (o in vm.blob ==> vm.blob[o] == vm'.blob[o])
  }

  /** The result of a command that succeeded went to one slot. */
  ghost predicate Recorded(vm: Vm, vm': Vm, room: Room) {
    && |vm.regs| == 11 && vm.regs[7].Num? && Signed(vm.regs[7].n) >= 0
    && ((exists o {:trigger StackSlot(o, room.slots)} ::
           StackSlot(o, room.slots) && vm'.stack == vm.stack[o := vm.regs[7].n % WORD32] && vm'.blob == vm.blob)
        || (exists o {:trigger MapSlot(o, room.maps)} ::
              MapSlot(o, room.maps) && vm'.blob == vm.blob[o := vm.regs[7].n % WORD32] && vm'.stack == vm.stack))
  }

  lemma StoreRecords(code: seq<Insn>, vm: Vm, env: Env, t: Types, room: Room)
    requires Sane(vm, t, room) && room.slots <= 2 + MAX_USED_PROGS
    requires vm.pc < |code| && (code[vm.pc].Stx? || code[vm.pc].St?) && Allowed(code[vm.pc], t, room)
    ensures Step(code, vm, env).Running?
    ensures SlotsSame(vm, Step(code, vm, env).vm) || Recorded(vm, Step(code, vm, env).vm, room)
  {
    hide Get, Signed, Unsigned;
    var insn := code[vm.pc];
    if insn.dst < 10 {
      GetKind(vm.regs, t, insn.dst);
    }
    GetKind(vm.regs, t, 7);
    StoreStep(code, vm, env, t, room);
  }

  lemma StepRecords(code: seq<Insn>, vm: Vm, env: Env, t: Types, room: Room)
    requires Sane(vm, t, room) && Fair(env) && room.slots <= 2 + MAX_USED_PROGS
    requires vm.pc < |code| && Allowed(code[vm.pc], t, room) && Step(code, vm, env).Running?
    ensures SlotsSame(vm, Step(code, vm, env).vm) || Recorded(vm, Step(code, vm, env).vm, room)
  {
    hide Signed, Unsigned;
    if code[vm.pc].Stx? || code[vm.pc].St? {
      StoreRecords(code, vm, env, t, room);
    } else if code[vm.pc].Call? {
      assert forall o {:trigger o in env.replies(vm.calls).writes} :: o in env.replies(vm.calls).writes ==> Data(o);
    }
  }

  /** In every run from the start, behind the opening: a step leaves all slots alone, or it records in
      one of them the result of a command that succeeded. */
  lemma RunRecords(code: seq<Insn>, vm: Vm, env: Env, room: Room, progs: nat, fdArray: int, log: bool, msgs: seq<(int, int)>, k: nat)
    requires Complete(code, progs, fdArray, log, msgs) && Jumpable(progs, |msgs|, log)
    requires TypedLoader(code, progs, log, |msgs|, room) && 2 + progs <= room.slots <= 2 + MAX_USED_PROGS && room.mayExit
    requires Started(vm) && Fair(env) && k >= LABEL && Exec(code, vm, env, k + 1).Running?
    ensures Exec(code, vm, env, k).Running?
    ensures var a, b := Exec(code, vm, env, k).vm, Exec(code, vm, env, k + 1).vm; SlotsSame(a, b) || Recorded(a, b, room)
  {
    hide Complete, Loader, Jumpable, TypedLoader, Step, Exec, Sane, Allowed, SlotsSame, Recorded;
    StillRunning(code, vm, env, k, k + 1);
    RunNeverStuck(code, vm, env, room, progs, fdArray, log, msgs, k);
    ExecJoins(code, vm, env, k, 1);
    var a := Exec(code, vm, env, k).vm;
    OneMore(code, a, env);
    var ts :| At(code, ts, room, a);
    assert TypedAt(code[LABEL..], ts, room, a.pc - LABEL) && code[LABEL..][a.pc - LABEL] == code[a.pc];
    StepRecords(code, a, env, ts[a.pc - LABEL], room);
  }

  // ----- Failure -----

  /** An error branch stands behind the cleanup code, near enough for the opening jump to fit too. */
  lemma CheckMeansJumpable(code: seq<Insn>, progs: nat, fdArray: int, log: bool, msgs: seq<(int, int)>, pc: nat)
    requires Complete(code, progs, fdArray, log, msgs) && IsCheck(code, pc)
    ensures pc >= LABEL && Jumpable(progs, |msgs|, log)
  {
    NoCheckInOpening(code, progs, fdArray, log, msgs, pc);
    NoCheckInCleanup(code, progs, fdArray, log, msgs, pc);
    hide Opening, Cleanup, CleanupLength;
    var f := code[LABEL..];
    assert BranchOk(f, LABEL, LABEL, pc - LABEL) && f[pc - LABEL] == code[pc];
  }

  lemma NoCheckInOpening(code: seq<Insn>, progs: nat, fdArray: int, log: bool, msgs: seq<(int, int)>, pc: nat)
    requires Loader(code, progs, fdArray, log, msgs)
    ensures pc < LABEL ==> !IsCheck(code, pc)
  {
    var jump := S16(CleanupLength(progs, |msgs|, log));
    OpeningInPlace(code, progs, fdArray, log, msgs);
    hide Opening, CleanupLength, S16;
    if pc < LABEL {
      OpeningPlain(jump, pc);
      AtBlock(code, 0, Opening(jump), pc);
    }
  }

  lemma NoCheckInCleanup(code: seq<Insn>, progs: nat, fdArray: int, log: bool, msgs: seq<(int, int)>, pc: nat)
    requires Loader(code, progs, fdArray, log, msgs)
    ensures LABEL <= pc < LABEL + CleanupLength(progs, |msgs|, log) ==> !IsCheck(code, pc)
  {
    var body := StackCloses(2 + progs) + BlobCloses(fdArray, log, msgs);
    CleanupInPlace(code, progs, fdArray, log, msgs);
    CleanupLengthExact(progs, fdArray, log, msgs);
    assert Cleanup(progs, fdArray, log, msgs) == body + [MovReg(0, 7), Exit];
    CodeAtSplit(code, LABEL, body, [MovReg(0, 7), Exit]);
    ClosesSound(progs, fdArray, log, msgs, 0);
    ClosesSound(progs, fdArray, log, msgs, 1);
    assert |Cleanup(progs, fdArray, log, msgs)| == |body| + 2;
    hide *;
    NoCheckInBlock(code, body, pc);
  }

  lemma NoCheckInBlock(code: seq<Insn>, body: seq<Insn>, pc: nat)
    requires CodeAt(code, LABEL, body) && CodeAt(code, LABEL + |body|, [MovReg(0, 7), Exit])
    requires FragmentOk(body, LABEL, 0) && FragmentOk(body, LABEL, 1)
    ensures LABEL <= pc < LABEL + |body| + 2 ==> !IsCheck(code, pc)
  {
    hide CodeAt, FragmentOk;
    var i := pc - LABEL;
    if 0 <= i < |body| {
      AtBlock(code, LABEL, body, i);
      NoCheckIn(body, i);
    } else if 0 <= i < |body| + 2 {
      AtBlock(code, LABEL + |body|, [MovReg(0, 7), Exit], i - |body|);
    }
  }

  /** A fragment that is sound whatever label is meant holds no error branch. */
  lemma NoCheckIn(f: seq<Insn>, i: nat)
    requires FragmentOk(f, LABEL, 0) && FragmentOk(f, LABEL, 1) && i < |f|
    ensures !IsCheck(f, i)
  {
    assert BranchOk(f, LABEL, 0, i) && BranchOk(f, LABEL, 1, i);
  }

  /** Whatever descriptor a field holds is among those listed. */
  ghost predicate AllHeld(r: Region, limit: int, fds: seq<nat>) {
    forall o {:trigger o in r} :: o in r && o < limit && Fd(r, o) > 0 ==> Fd(r, o) in fds
  }

  lemma {:induction false} StackListed(r: Region, k: nat, o: int)
    requires StackSlot(o, k) && Fd(r, o) > 0
    ensures Fd(r, o) in StackFds(r, k)
  {
    if o != -STACK_SZ + 4 * (k - 1) {
      StackListed(r, k - 1, o);
    }
  }

  lemma {:induction false} BlobListed(r: Region, k: nat, o: int)
    requires MapSlot(o, k) && Fd(r, o) > 0
    ensures Fd(r, o) in BlobFds(r, 0, k)
  {
    if o != 4 * (k - 1) {
      BlobListed(r, k - 1, o);
    }
  }

  lemma SlotsListed(vm: Vm, room: Room)
    requires SlotsOnly(vm.stack, vm.blob, room)
    ensures AllHeld(vm.stack, 0, StackFds(vm.stack, room.slots))
    ensures AllHeld(vm.blob, 4 * MAX_USED_MAPS, BlobFds(vm.blob, 0, room.maps))
  {
    forall o | o in vm.stack && o < 0 && Fd(vm.stack, o) > 0 ensures Fd(vm.stack, o) in StackFds(vm.stack, room.slots) {
      StackListed(vm.stack, room.slots, o);
    }
    forall o | o in vm.blob && o < 4 * MAX_USED_MAPS && Fd(vm.blob, o) > 0 ensures Fd(vm.blob, o) in BlobFds(vm.blob, 0, room.maps) {
      BlobListed(vm.blob, room.maps, o);
    }
  }

  /** The run has come to an error branch with a negative result in R7. */
  predicate Failed(code: seq<Insn>, o: Outcome) {
    && o.Running? && |o.vm.regs| == 11 && IsCheck(code, o.vm.pc)
    && o.vm.regs[7].Num? && Signed(o.vm.regs[7].n) < 0
  }

  /** In every run from the start, for any answers of the kernel: where a checked command has failed,
      the program goes on to close exactly the descriptors in the slots the cleanup code was told of
      and exits with the command's result.  Those are all the descriptors it holds if it loaded no
      more programs and created no more maps than that. */
  lemma FailureExits(code: seq<Insn>, start: Vm, env: Env, room: Room, progs: nat, log: bool, msgs: seq<(int, int)>, k: nat)
    returns (j: nat)
    requires Complete(code, progs, 0, log, msgs) && TypedLoader(code, progs, log, |msgs|, room)
    requires 2 + progs <= room.slots <= 2 + MAX_USED_PROGS && room.mayExit
    requires Started(start) && Fair(env) && Failed(code, Exec(code, start, env, k))
    ensures var vm := Exec(code, start, env, k).vm;
            var stackFds, blobFds := StackFds(vm.stack, 2 + progs), BlobFds(vm.blob, 0, |msgs|);
            && Exec(code, start, env, k + j) == Exited(vm.regs[7], vm.closed + (stackFds + blobFds))
            && (room.slots == 2 + progs && room.maps == |msgs| ==> AllHeld(vm.stack, 0, stackFds) && AllHeld(vm.blob, 4 * MAX_USED_MAPS, blobFds))
  {
    hide Complete, Loader, Jumpable, TypedLoader, Step, Fair, StackFds, BlobFds, AllHeld, Exec, Signed;
    var vm := Exec(code, start, env, k).vm;
    CheckMeansJumpable(code, progs, 0, log, msgs, vm.pc);
    BehindOpening(code, start, env, progs, 0, log, msgs, k);
    RunNeverStuck(code, start, env, room, progs, 0, log, msgs, k);
    CompleteIsLoader(code, progs, 0, log, msgs);
    ghost var ts :| At(code, ts, room, vm);
    SlotsListed(vm, room);
    j := FailureIsCleanedUp(code, vm, env, progs, 0, log, msgs, vm.regs[7].n);
    ExecJoins(code, start, env, k, j);
  }

  /** The opening takes its seven steps one by one. */
  lemma {:induction false} OpeningPc(code: seq<Insn>, start: Vm, env: Env, progs: nat, fdArray: int, log: bool, msgs: seq<(int, int)>, k: nat)
    requires Loader(code, progs, fdArray, log, msgs) && |start.regs| == 11 && start.pc == 0 && k < LABEL
    requires Exec(code, start, env, k).Running?
    ensures Exec(code, start, env, k).vm.pc == k
  {
    hide Loader, Step;
    if k > 0 {
      StillRunning(code, start, env, k - 1, k);
      OpeningPc(code, start, env, progs, fdArray, log, msgs, k - 1);
      ExecJoins(code, start, env, k - 1, 1);
      var vm := Exec(code, start, env, k - 1).vm;
      OneMore(code, vm, env);
      StepFollows(code, vm, env);
      OpeningInPlace(code, progs, fdArray, log, msgs);
      OpeningPlain(S16(CleanupLength(progs, |msgs|, log)), k - 1);
      AtBlock(code, 0, Opening(S16(CleanupLength(progs, |msgs|, log))), k - 1);
    }
  }

  lemma OneMore(code: seq<Insn>, vm: Vm, env: Env)
    requires |vm.regs| == 11
    ensures Exec(code, vm, env, 1) == Step(code, vm, env)
  {
  }

  lemma BehindOpening(code: seq<Insn>, start: Vm, env: Env, progs: nat, fdArray: int, log: bool, msgs: seq<(int, int)>, k: nat)
    requires Complete(code, progs, fdArray, log, msgs) && |start.regs| == 11 && start.pc == 0
    requires Exec(code, start, env, k).Running? && Exec(code, start, env, k).vm.pc >= LABEL
    ensures k >= LABEL
  {
    hide Complete, Loader, Exec;
    CompleteIsLoader(code, progs, fdArray, log, msgs);
    if k < LABEL {
      OpeningPc(code, start, env, progs, fdArray, log, msgs, k);
    }
  }
}

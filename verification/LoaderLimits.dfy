/** Where the promises of a finished loader end: an opening that misses the code behind a long
    cleanup, and maps the cleanup code was not told of. */
module LoaderLimits {
  import opened GenLoader
  import opened LoaderCode
  import opened LoaderCommands
  import opened LoaderFailure
  import opened LoaderOps
  import opened LoaderParts
  import opened LoaderRuns
  import opened LoaderSafety
  import opened LoaderTypes
  import opened LoaderVm

  // ----- Programs without commands -----

  lemma HeadIsLoader(progs: nat, log: bool, msgs: seq<(int, int)>)
    ensures Loader(Opening(S16(CleanupLength(progs, |msgs|, log))) + Cleanup(progs, 0, log, msgs), progs, 0, log, msgs)
  {
    CleanupSound(progs, 0, log, msgs, LABEL, LABEL);
    var head := Opening(S16(CleanupLength(progs, |msgs|, log))) + Cleanup(progs, 0, log, msgs);
    assert head[LABEL..] == Cleanup(progs, 0, log, msgs);
  }

  /** What the generator makes of a program with no command: the opening, the cleanup code and the end. */
  function Bare(progs: nat, log: bool, msgs: seq<(int, int)>, msg: (int, int)): seq<Insn> {
    Opening(S16(CleanupLength(progs, |msgs|, log))) + Cleanup(progs, 0, log, msgs) + Finale(0, 0, 0, log, msg)
  }

  /** It is complete whatever it was told to clean up, and its opening jump leads to the code behind
      the cleanup code if and only if the length of that code fits the offset field. */
  lemma BareIsComplete(progs: nat, log: bool, msgs: seq<(int, int)>, msg: (int, int))
    ensures var code, len := Bare(progs, log, msgs, msg), CleanupLength(progs, |msgs|, log);
            && Complete(code, progs, 0, log, msgs) && code[LABEL - 1].Ja?
            && (Target(code, LABEL - 1) == LABEL + len <==> len < 0x8000)
  {
    var code, head := Bare(progs, log, msgs, msg), Opening(S16(CleanupLength(progs, |msgs|, log))) + Cleanup(progs, 0, log, msgs);
    var f := CloseStack(BTF_FD_OFF, log, msg);
    HeadIsLoader(progs, log, msgs);
    ClosePlain(BTF_FD_OFF, log, msg);
    hide Opening, Cleanup, CloseStack, CleanupLength, FragmentOk, Plain;
    Finished(head, f, progs, 0, log, msgs);
    assert code == head + f + [MovImm(0, 0), Exit];
    OpeningLands(code, progs, 0, log, msgs);
  }

  /** With 5461 maps the jump goes to before the program. */
  lemma BareMisses(msgs: seq<(int, int)>)
    requires |msgs| == 5461
    ensures var code := Bare(0, false, msgs, (0, 0));
            Complete(code, 0, 0, false, msgs) && code[LABEL - 1].Ja? && Target(code, LABEL - 1) < 0
  {
    BareIsComplete(0, false, msgs, (0, 0));
    var code := Bare(0, false, msgs, (0, 0));
    hide Opening, Cleanup, Finale;
    HeadEnds(code, 0, 0, false, msgs);
  }

  // ----- A map the cleanup code was not told of -----

  /** One map created and frozen by a generator told of none. */
  function Uncounted(): seq<Insn> {
    Opening(8) + Cleanup(0, 0, false, []) + Created() + Frozen() + Finale(1, 0, 0, false, (0, 0))
  }

  function Created(): seq<Insn> {
    Checked(MapCreateBody(1280, false, false, 0, false, (0, 0)), 15, LABEL, MapCreateTail(0, false, 0, false, (0, 0)))
  }

  function Frozen(): seq<Insn> { Checked(MapFreezeBody(1352, 0, false, (0, 0)), 30, LABEL, []) }

  /** At log level zero no message matters. */
  lemma MessagesGone(msg: (int, int), msg2: (int, int))
    ensures MapCreateBody(1280, false, false, 0, false, msg) == MapCreateBody(1280, false, false, 0, false, (0, 0))
    ensures MapCreateTail(0, false, 0, false, msg) == MapCreateTail(0, false, 0, false, (0, 0))
    ensures MapFreezeBody(1352, 0, false, msg) == MapFreezeBody(1352, 0, false, (0, 0))
    ensures Finale(1, 0, 0, false, msg) == Finale(1, 0, 0, false, (0, 0))
    ensures MsgWords(false, msg) == 0 && Words(4 * MAX_FD_ARRAY_SZ) == 160 && Words(72) == 9 && AllWords(false, []) == 0
  {
    hide Ctx2Blob, Stack2Blob, Blob2Blob, SysBpfCall, ProgMoves, MapMoves;
  }

  lemma Sizes(attr: int, msg: (int, int), msg2: (int, int))
    ensures CleanupLength(0, 0, false) == |Cleanup(0, 0, false, [])| == 8 && S16(8) == 8
    ensures |MapCreateBody(attr, false, false, 0, false, msg)| == 11 && |MapCreateTail(0, false, 0, false, msg2)| == 3
    ensures |MapFreezeBody(attr, 0, false, msg)| == 12 && |Finale(1, 0, 0, false, msg)| == 10
  {
    CleanupLengthExact(0, 0, false, []);
    assert |MapMoves(0, 1)| == 4 by { assert MapMoves(0, 0) == []; }
    hide MapMoves, Cleanup;
  }

  /** The generator makes that program and reports no error. */
  method GenerateUncounted() returns (g: Gen, res: int)
    ensures res == 0 && g.insns == Uncounted()
    ensures Complete(g.insns, 0, 0, false, []) && TypedLoader(g.insns, 0, false, 0, Room(2, 1, true))
  {
    hide MapCreateBody, MapCreateTail, MapFreezeBody, Finale, Opening, Cleanup, Loader, Complete, TypedLoader, MsgWords, Words, AllWords;
    Sizes(0, (0, 0), (0, 0));
    g := new Gen();
    g.Init(0, 0, 0);
    MessagesGone((0, 0), (0, 0));
    assert g.msgs == [] && g.error == 0 && |g.insns| == 15 && g.dataLen == 1280;
    ghost var a, msg, msg2 := g.MapCreate(false, false, 0);
    MessagesGone(msg, msg2);
    MessagesGone(msg2, msg);
    Sizes(a, msg, msg2);
    assert g.error == 0 && |g.insns| == 30 && g.dataLen == 1352;
    assert g.insns == Opening(8) + Cleanup(0, 0, false, []) + Created();
    ghost var b, msg3 := g.MapFreeze(0);
    MessagesGone(msg3, msg3);
    Sizes(b, msg3, msg3);
    assert g.error == 0 && |g.insns| == 43;
    assert g.insns == Opening(8) + Cleanup(0, 0, false, []) + Created() + Frozen();
    ghost var last;
    res, last := g.Finish(0, 1);
    MessagesGone(last, last);
    Sizes(0, last, last);
  }

  /** A command was run: its result is in R7. */
  predicate Asked(vm: Vm, vm': Vm, env: Env, pc: nat) {
    && |vm.regs| == |vm'.regs| == 11 && vm'.pc == pc && vm'.regs[7] == Num(env.replies(vm.calls).r0)
    && vm'.regs[6] == vm.regs[6] && vm'.regs[10] == vm.regs[10] && vm'.stack == vm.stack && vm'.closed == vm.closed
    && vm'.blob == vm.blob + env.replies(vm.calls).writes && vm'.calls == vm.calls + 1
  }

  lemma CommandRuns(code: seq<Insn>, vm: Vm, env: Env, cmd: int, attr: int, size: int) returns (vm': Vm)
    requires |vm.regs| == 11 && CodeAt(code, vm.pc, SysBpfCall(cmd, attr, size))
    ensures Reaches(code, vm, env, 5, vm') && Asked(vm, vm', env, vm.pc + 6)
  {
    var p, b := vm.pc, SysBpfCall(cmd, attr, size);
    assert code[p] == b[0] && code[p + 1] == b[1] && code[p + 3] == b[3] && code[p + 4] == b[4] && code[p + 5] == b[5];
    hide CodeAt, SysBpfCall, Unsigned;
    var v1 := vm.(pc := p + 1, regs := vm.regs[1 := Num(Unsigned(cmd))]);
    var v2 := v1.(pc := p + 3, regs := v1.regs[2 := BlobPtr(attr)]);
    var v3 := v2.(pc := p + 4, regs := v2.regs[3 := Num(Unsigned(size))]);
    assert v3.regs[6..] == vm.regs[6..];
    var v4 := Step(code, v3, env).vm;
    var v5 := Step(code, v4, env).vm;
    OneStep(code, v4, env, v5, 0, v5);
    OneStep(code, v3, env, v4, 1, v5);
    OneStep(code, v2, env, v3, 2, v5);
    OneStep(code, v1, env, v2, 3, v5);
    OneStep(code, vm, env, v1, 4, v5);
    vm' := v5;
  }

  /** A command that succeeded: past its error branch the result goes to a map's slot. */
  lemma KeepRuns(code: seq<Insn>, vm: Vm, env: Env, cleanup: nat, off: int, n: nat) returns (vm': Vm)
    requires |vm.regs| == 11 && vm.regs[7] == Num(n) && Signed(n) >= 0
    requires CodeAt(code, vm.pc, CheckErr(vm.pc, cleanup) + KeepInBlob(off))
    ensures Reaches(code, vm, env, 3, vm') && Moved(vm, vm', vm.pc + 4, Store(vm.blob, off, 4, n))
  {
    var p, b := vm.pc, CheckErr(vm.pc, cleanup) + KeepInBlob(off);
    assert code[p] == b[0] && code[p + 1] == b[1] && code[p + 3] == b[3];
    hide CodeAt, Signed, Store;
    var v1 := vm.(pc := p + 1);
    var v2 := v1.(pc := p + 3, regs := v1.regs[1 := BlobPtr(off)]);
    vm' := v2.(pc := p + 4, blob := Store(v2.blob, off, 4, n));
    var vms := [vm, v1, v2, vm'];
    assert StepAt(code, env, vms, 0) && StepAt(code, env, vms, 1) && StepAt(code, env, vms, 2);
    PathReaches(code, env, vms);
  }

  /** Where the pieces of the two commands stand. */
  predicate Pieces(code: seq<Insn>) {
    && CodeAt(code, 15, Ctx2Blob(1292, 4, 28, true)) && CodeAt(code, 20, SysBpfCall(0, 1280, 72))
    && CodeAt(code, 26, CheckErr(26, LABEL) + KeepInBlob(0)) && CodeAt(code, 30, Blob2Blob(1352, 4, 0))
    && CodeAt(code, 36, SysBpfCall(22, 1352, 4)) && CodeAt(code, 42, CheckErr(42, LABEL))
  }

  lemma PiecesInPlace(code: seq<Insn>)
    requires CodeAt(code, 15, Created() + Frozen())
    ensures Pieces(code)
  {
    var settings, create, keep := Ctx2Blob(1292, 4, 28, true), SysBpfCall(0, 1280, 72), CheckErr(26, LABEL) + KeepInBlob(0);
    var copy, freeze, check := Blob2Blob(1352, 4, 0), SysBpfCall(22, 1352, 4), CheckErr(42, LABEL);
    PiecesJoin();
    hide Created, Frozen;
    CodeAtSplit(code, 15, settings, create + (keep + (copy + (freeze + check))));
    CodeAtSplit(code, 20, create, keep + (copy + (freeze + check)));
    CodeAtSplit(code, 26, keep, copy + (freeze + check));
    CodeAtSplit(code, 30, copy, freeze + check);
    CodeAtSplit(code, 36, freeze, check);
  }

  lemma PiecesJoin()
    ensures Created() + Frozen() ==
            Ctx2Blob(1292, 4, 28, true) + (SysBpfCall(0, 1280, 72) + (CheckErr(26, LABEL) + KeepInBlob(0)
            + (Blob2Blob(1352, 4, 0) + (SysBpfCall(22, 1352, 4) + CheckErr(42, LABEL)))))
  {
    hide KeepInBlob, KeepInStack;
  }

  /** Control has come to `pc` with nothing closed and the stack as it was. */
  predicate Stands(vm: Vm, vm': Vm, pc: nat) {
    && |vm.regs| == |vm'.regs| == 11 && vm'.pc == pc && vm'.stack == vm.stack && vm'.closed == vm.closed
    && vm'.regs[6] == vm.regs[6] && vm'.regs[10] == vm.regs[10]
  }

  /** Creation succeeds: the descriptor is in its slot. */
  lemma CreateRuns(code: seq<Insn>, vm: Vm, env: Env, fd: nat) returns (k: nat, vm': Vm)
    requires |vm.regs| == 11 && vm.pc == 15 && vm.regs[6] == CtxPtr(0) && Pieces(code)
    requires 0 < fd < 0x8000_0000 && env.replies(vm.calls).r0 == fd
    ensures Reaches(code, vm, env, k, vm') && Stands(vm, vm', 30) && Fd(vm'.blob, 0) == fd && vm'.calls == vm.calls + 1
  {
    hide CodeAt, Ctx2Blob, SysBpfCall, CheckErr, KeepInBlob, Blob2Blob, Step, Exec, Signed, Load, Store, Fd, Reaches;
    SmallIsItself(fd);
    var j, v1 := MaxEntriesRuns(code, vm, env, 1292, 28);
    var v2 := CommandRuns(code, v1, env, 0, 1280, 72);
    ReachesJoin(code, vm, env, j, v1, 5, v2);
    vm' := KeepRuns(code, v2, env, LABEL, 0, fd);
    ReachesJoin(code, vm, env, j + 5, v2, 3, vm');
    k := j + 8;
    JustStored(v2.blob, fd);
  }

  lemma SmallIsItself(n: nat)
    requires n < 0x8000_0000
    ensures Signed(n) == n
  {
  }

  lemma JustStored(blob: Region, fd: nat)
    requires fd < 0x8000_0000
    ensures Fd(Store(blob, 0, 4, fd), 0) == fd
  {
  }

  /** Freezing fails: the slot is as it was. */
  lemma FreezeRuns(code: seq<Insn>, vm: Vm, env: Env) returns (vm': Vm)
    requires |vm.regs| == 11 && vm.pc == 30 && Fair(env) && Pieces(code)
    ensures Reaches(code, vm, env, 9, vm') && Stands(vm, vm', 42) && Fd(vm'.blob, 0) == Fd(vm.blob, 0)
    ensures vm'.regs[7] == Num(env.replies(vm.calls).r0)
  {
    hide CodeAt, Ctx2Blob, SysBpfCall, CheckErr, KeepInBlob, Blob2Blob, Step, Exec, Load, Store, Fd, Reaches, Fair;
    var v1 := Blob2BlobRuns(code, vm, env, 1352, 4, 0);
    vm' := CommandRuns(code, v1, env, 22, 1352, 4);
    ReachesJoin(code, vm, env, 4, v1, 5, vm');
    SlotSurvives(vm.blob, Load(vm.blob, 0, 4), env, vm.calls);
  }

  lemma SlotSurvives(blob: Region, n: nat, env: Env, k: nat)
    requires Fair(env)
    ensures Fd(blob[1352 := n] + env.replies(k).writes, 0) == Fd(blob, 0)
  {
    assert 0 in env.replies(k).writes ==> Data(0);
  }

  /** Creation succeeds with a descriptor, freezing fails: the run is at an error branch with the descriptor in its slot. */
  lemma CreatedThenFailed(code: seq<Insn>, vm: Vm, env: Env, fd: nat) returns (k: nat, vm': Vm)
    requires |vm.regs| == 11 && vm.pc == 15 && vm.regs[6] == CtxPtr(0) && Fair(env) && Pieces(code)
    requires 0 < fd < 0x8000_0000 && env.replies(vm.calls).r0 == fd && Signed(env.replies(vm.calls + 1).r0) < 0
    ensures Reaches(code, vm, env, k, vm') && Failed(code, Running(vm')) && Fd(vm'.blob, 0) == fd
    ensures Stands(vm, vm', 42) && vm'.regs[7] == Num(env.replies(vm.calls + 1).r0)
  {
    hide CodeAt, Exec, Signed, Fd, Failed, Fair, Reaches;
    var check := CheckErr(42, LABEL);
    AtBlock(code, 42, check, 0);
    hide Pieces, CheckErr;
    var j, v1 := CreateRuns(code, vm, env, fd);
    vm' := FreezeRuns(code, v1, env);
    ReachesJoin(code, vm, env, j, v1, 9, vm');
    k := j + 9;
    HasFailed(code, vm');
  }

  lemma HasFailed(code: seq<Insn>, vm: Vm)
    requires |vm.regs| == 11 && vm.pc < |code| && code[vm.pc] == CheckErr(42, LABEL)[0]
    requires vm.regs[7].Num? && Signed(vm.regs[7].n) < 0
    ensures Failed(code, Running(vm))
  {
  }

  lemma PieceSizes()
    ensures |Opening(8) + Cleanup(0, 0, false, [])| == 15 && |Created()| == 15 && |Frozen()| == 13
    ensures |MapCreateBody(1280, false, false, 0, false, (0, 0))| == 11 && |MapFreezeBody(1352, 0, false, (0, 0))| == 12
  {
    Sizes(1280, (0, 0), (0, 0));
    Sizes(1352, (0, 0), (0, 0));
    hide MapCreateBody, MapCreateTail, MapFreezeBody, Cleanup;
  }

  /** The two commands extend the loader. */
  lemma CommandsAreLoader()
    ensures Loader(Opening(8) + Cleanup(0, 0, false, []) + Created() + Frozen(), 0, 0, false, [])
  {
    hide Opening, Cleanup, FragmentOk, Plain, Loader, MapCreateBody, MapCreateTail, MapFreezeBody;
    var none, head := (0, 0), Opening(8) + Cleanup(0, 0, false, []);
    PieceSizes();
    Sizes(0, none, none);
    HeadIsLoader(0, false, []);
    MapCreateOk(1280, false, false, 0, false, none, none, 15, LABEL, Room(2, 1, true));
    CheckedSound(MapCreateBody(1280, false, false, 0, false, none), 15, LABEL, MapCreateTail(0, false, 0, false, none));
    LoaderGrows(head, Created(), 0, 0, false, []);
    MapFreezePlain(1352, 0, false, none);
    NothingPlain();
    PlainSound(MapFreezeBody(1352, 0, false, none), 30, LABEL);
    CheckedSound(MapFreezeBody(1352, 0, false, none), 30, LABEL, []);
    LoaderGrows(head + Created(), Frozen(), 0, 0, false, []);
  }

  lemma UncountedIsComplete()
    ensures Complete(Uncounted(), 0, 0, false, [])
  {
    hide Opening, Cleanup, Created, Frozen, FragmentOk, Plain, Loader, Complete, CloseStack, ProgMoves, MapMoves;
    var none := (0, 0);
    var code := Opening(8) + Cleanup(0, 0, false, []) + Created() + Frozen();
    var a, b, c := CloseStack(BTF_FD_OFF, false, none), ProgMoves(1, 0), MapMoves(0, 1);
    CommandsAreLoader();
    ClosePlain(BTF_FD_OFF, false, none);
    ProgMovesPlain(1, 0);
    MapMovesPlain(0, 1);
    PlainJoin(a, b);
    PlainJoin(a + b, c);
    Finished(code, a + b + c, 0, 0, false, []);
    assert Uncounted() == code + (a + b + c) + [MovImm(0, 0), Exit];
  }

  lemma UncountedPieces()
    ensures Pieces(Uncounted())
  {
    var head, body := Opening(8) + Cleanup(0, 0, false, []), Created() + Frozen();
    Sizes(0, (0, 0), (0, 0));
    assert Uncounted() == head + body + Finale(1, 0, 0, false, (0, 0));
    hide Cleanup, Created, Frozen, Finale, Uncounted;
    BodyInPlace(Uncounted(), head, body, Finale(1, 0, 0, false, (0, 0)));
    PiecesInPlace(Uncounted());
  }

  lemma BodyInPlace(code: seq<Insn>, a: seq<Insn>, b: seq<Insn>, c: seq<Insn>)
    requires code == a + b + c
    ensures CodeAt(code, |a|, b)
  {
    forall i | 0 <= i < |b| ensures code[|a| + i] == b[i] {
      assert (a + b)[|a| + i] == b[i];
    }
  }

  /** In every run of that program in which creation succeeds and freezing fails, the map's descriptor
      stands in its slot when the command fails, and the program exits without closing anything. */
  lemma UncountedStaysOpen(start: Vm, env: Env, fd: nat) returns (k: nat, j: nat)
    requires Started(start) && Fair(env)
    requires 0 < fd < 0x8000_0000 && env.replies(start.calls + 1).r0 == fd && Signed(env.replies(start.calls + 2).r0) < 0
    ensures var o := Exec(Uncounted(), start, env, k); Failed(Uncounted(), o) && Fd(o.vm.blob, 0) == fd
    ensures Exec(Uncounted(), start, env, k + j) == Exited(Num(env.replies(start.calls + 2).r0), [])
  {
    var code := Uncounted();
    UncountedIsComplete();
    UncountedPieces();
    hide *;
    k, j := StaysOpen(code, start, env, fd);
  }

  lemma StaysOpen(code: seq<Insn>, start: Vm, env: Env, fd: nat) returns (k: nat, j: nat)
    requires Complete(code, 0, 0, false, []) && Pieces(code) && Started(start) && Fair(env)
    requires 0 < fd < 0x8000_0000 && env.replies(start.calls + 1).r0 == fd && Signed(env.replies(start.calls + 2).r0) < 0
    ensures var o := Exec(code, start, env, k); Failed(code, o) && Fd(o.vm.blob, 0) == fd
    ensures Exec(code, start, env, k + j) == Exited(Num(env.replies(start.calls + 2).r0), [])
  {
    hide Complete, Loader, Exec, Pieces, Fair, Signed, Fd;
    CompleteIsLoader(code, 0, 0, false, []);
    var v1 := OpeningRuns(code, start, env, 0, 0, false, []);
    var k2, v2 := CreatedThenFailed(code, v1, env, fd);
    ReachesJoin(code, start, env, LABEL, v1, k2, v2);
    k := LABEL + k2;
    j := FailureIsCleanedUp(code, v2, env, 0, 0, false, [], env.replies(start.calls + 2).r0);
    NothingHeld(v2);
    ExecJoins(code, start, env, k, j);
  }

  lemma NothingHeld(vm: Vm)
    requires vm.stack == map[]
    ensures StackFds(vm.stack, 2 + 0) + BlobFds(vm.blob, 0, 0) == []
  {
    assert StackFds(vm.stack, 0) == [] && StackFds(vm.stack, 1) == [];
  }
}

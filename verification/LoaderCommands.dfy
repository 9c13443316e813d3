/** What the commands of a loader ask of the kernel, and where it remembers the answers: the numbers of
    the commands, and the offsets in their attributes, are those of the kernel's `union bpf_attr`. */
module LoaderCommands {
  import opened LoaderCode
  import opened LoaderHandover
  import opened LoaderOps
  import opened LoaderParts
  import opened LoaderRuns
  import opened LoaderSafety
  import opened LoaderVm

  /** `vm` has come to a call of the kernel: command `cmd`, with `size` bytes of attributes at `attr` and
      this data blob.  Stack, context and descriptors are as before. */
  predicate Asks(code: seq<Insn>, vm: Vm, vm': Vm, cmd: nat, attr: int, size: nat, blob: Region) {
    && Moved(vm, vm', vm'.pc, blob) && vm'.pc < |code| && code[vm'.pc] == Call(SysBpf)
    && vm'.regs[1] == Num(cmd) && vm'.regs[2] == BlobPtr(attr) && vm'.regs[3] == Num(size)
  }

  /** The address of a place in the data blob. */
  function Address(env: Env, off: int): nat { Bits(BlobPtr(off), env) }

  // ----- Moves -----

  lemma RelStoreRuns(code: seq<Insn>, vm: Vm, env: Env, off: int, data: int) returns (vm': Vm)
    requires |vm.regs| == 11 && CodeAt(code, vm.pc, RelStore(off, data))
    ensures Reaches(code, vm, env, 3, vm') && Moved(vm, vm', vm.pc + 5, vm.blob[off := Address(env, data)])
  {
    var p, b := vm.pc, RelStore(off, data);
    assert code[p] == b[0] && code[p + 2] == b[2] && code[p + 4] == b[4];
    hide CodeAt, RelStore;
    var v1 := vm.(pc := p + 2, regs := vm.regs[0 := BlobPtr(data)]);
    var v2 := v1.(pc := p + 4, regs := v1.regs[1 := BlobPtr(off)]);
    vm' := v2.(pc := p + 5, blob := vm.blob[off := Address(env, data)]);
    var vms := [vm, v1, v2, vm'];
    assert StepAt(code, env, vms, 0) && StepAt(code, env, vms, 1) && StepAt(code, env, vms, 2);
    PathReaches(code, env, vms);
  }

  lemma Ctx2BlobRuns(code: seq<Insn>, vm: Vm, env: Env, off: int, size: nat, ctxOff: int) returns (vm': Vm)
    requires |vm.regs| == 11 && vm.regs[6] == CtxPtr(0) && CodeAt(code, vm.pc, Ctx2Blob(off, size, ctxOff, false))
    ensures Reaches(code, vm, env, 3, vm') && Moved(vm, vm', vm.pc + 4, vm.blob[off := Load(vm.ctx, ctxOff, size)])
  {
    var p, b, n := vm.pc, Ctx2Blob(off, size, ctxOff, false), Load(vm.ctx, ctxOff, size);
    assert code[p] == b[0] && code[p + 1] == b[1] && code[p + 3] == b[3];
    LoadFits(vm.ctx, ctxOff, size);
    hide CodeAt, Ctx2Blob, Load, Width;
    var v1 := vm.(pc := p + 1, regs := vm.regs[0 := Num(n)]);
    var v2 := v1.(pc := p + 3, regs := v1.regs[1 := BlobPtr(off)]);
    vm' := v2.(pc := p + 4, blob := vm.blob[off := n]);
    var vms := [vm, v1, v2, vm'];
    assert StepAt(code, env, vms, 0) && StepAt(code, env, vms, 1) && StepAt(code, env, vms, 2);
    PathReaches(code, env, vms);
  }

  lemma LoadFits(r: Region, off: int, size: nat)
    ensures Load(r, off, size) < Width(size) && Load(r, off, size) % Width(size) == Load(r, off, size)
  {
  }

  lemma Stack2BlobRuns(code: seq<Insn>, vm: Vm, env: Env, off: int, stackOff: int) returns (vm': Vm)
    requires |vm.regs| == 11 && vm.regs[10] == StackPtr(0) && -STACK_SZ <= stackOff < 0
    requires CodeAt(code, vm.pc, Stack2Blob(off, 4, stackOff))
    ensures Reaches(code, vm, env, 3, vm') && Moved(vm, vm', vm.pc + 4, vm.blob[off := Fd(vm.stack, stackOff)])
  {
    var p, b, n := vm.pc, Stack2Blob(off, 4, stackOff), Fd(vm.stack, stackOff);
    assert code[p] == b[0] && code[p + 1] == b[1] && code[p + 3] == b[3];
    LoadFits(vm.stack, stackOff, 4);
    hide CodeAt, Stack2Blob, Load;
    var v1 := vm.(pc := p + 1, regs := vm.regs[0 := Num(n)]);
    var v2 := v1.(pc := p + 3, regs := v1.regs[1 := BlobPtr(off)]);
    vm' := v2.(pc := p + 4, blob := vm.blob[off := n]);
    var vms := [vm, v1, v2, vm'];
    assert StepAt(code, env, vms, 0) && StepAt(code, env, vms, 1) && StepAt(code, env, vms, 2);
    PathReaches(code, env, vms);
  }

  lemma Blob2BlobRuns(code: seq<Insn>, vm: Vm, env: Env, off: int, size: nat, from: int) returns (vm': Vm)
    requires |vm.regs| == 11 && CodeAt(code, vm.pc, Blob2Blob(off, size, from))
    ensures Reaches(code, vm, env, 4, vm') && Moved(vm, vm', vm.pc + 6, vm.blob[off := Load(vm.blob, from, size)])
    ensures vm'.regs[0] == Num(Load(vm.blob, from, size))
  {
    var p, b, n := vm.pc, Blob2Blob(off, size, from), Load(vm.blob, from, size);
    assert code[p] == b[0] && code[p + 2] == b[2] && code[p + 3] == b[3] && code[p + 5] == b[5];
    LoadFits(vm.blob, from, size);
    hide CodeAt, Blob2Blob, Load, Width;
    var v1 := vm.(pc := p + 2, regs := vm.regs[2 := BlobPtr(from)]);
    var v2 := v1.(pc := p + 3, regs := v1.regs[0 := Num(n)]);
    var v3 := v2.(pc := p + 5, regs := v2.regs[1 := BlobPtr(off)]);
    vm' := v3.(pc := p + 6, blob := vm.blob[off := n]);
    var vms := [vm, v1, v2, v3, vm'];
    assert StepAt(code, env, vms, 0) && StepAt(code, env, vms, 1) && StepAt(code, env, vms, 2) && StepAt(code, env, vms, 3);
    PathReaches(code, env, vms);
  }

  lemma MovedJoin(vm: Vm, vm1: Vm, vm2: Vm, pc: nat, blob: Region, pc': nat, blob': Region)
    requires Moved(vm, vm1, pc, blob) && Moved(vm1, vm2, pc', blob')
    ensures Moved(vm, vm2, pc', blob')
  {
  }

  // ----- Commands -----

  lemma CommandAsks(code: seq<Insn>, vm: Vm, env: Env, cmd: nat, attr: int, size: nat, log: bool, msg: (int, int)) returns (vm': Vm)
    requires |vm.regs| == 11 && cmd < WORD32 && size < WORD32 && CodeAt(code, vm.pc, Command(cmd, attr, size, log, msg))
    ensures Reaches(code, vm, env, 3, vm') && Asks(code, vm, vm', cmd, attr, size, vm.blob) && vm'.pc == vm.pc + 4
  {
    CodeAtSplit(code, vm.pc, SysBpfCall(cmd, attr, size), Debug(log, 7, -1, msg));
    var p, b := vm.pc, SysBpfCall(cmd, attr, size);
    assert code[p] == b[0] && code[p + 1] == b[1] && code[p + 3] == b[3] && code[p + 4] == b[4];
    hide CodeAt, SysBpfCall;
    var v1 := vm.(pc := p + 1, regs := vm.regs[1 := Num(cmd)]);
    var v2 := v1.(pc := p + 3, regs := v1.regs[2 := BlobPtr(attr)]);
    vm' := v2.(pc := p + 4, regs := v2.regs[3 := Num(size)]);
    var vms := [vm, v1, v2, vm'];
    assert StepAt(code, env, vms, 0) && StepAt(code, env, vms, 1) && StepAt(code, env, vms, 2);
    PathReaches(code, env, vms);
  }

  /** The log level, the size of the log and its address are the caller's. */
  lemma LogSettingsRun(code: seq<Insn>, vm: Vm, env: Env, level: int, size: int, buf: int) returns (vm': Vm)
    requires |vm.regs| == 11 && vm.regs[6] == CtxPtr(0) && CodeAt(code, vm.pc, LogSettings(level, size, buf))
    ensures Reaches(code, vm, env, 9, vm')
    ensures Moved(vm, vm', vm.pc + 12, vm.blob[level := Load(vm.ctx, 8, 4)][size := Load(vm.ctx, 12, 4)][buf := Load(vm.ctx, 16, 8)])
  {
    hide CodeAt, Load, Step, Exec;
    var a, b, c := Ctx2Blob(level, 4, 8, false), Ctx2Blob(size, 4, 12, false), Ctx2Blob(buf, 8, 16, false);
    CodeAtSplit(code, vm.pc, a + b, c);
    CodeAtSplit(code, vm.pc, a, b);
    var v1 := Ctx2BlobRuns(code, vm, env, level, 4, 8);
    var v2 := Ctx2BlobRuns(code, v1, env, size, 4, 12);
    vm' := Ctx2BlobRuns(code, v2, env, buf, 8, 16);
    ReachesJoin(code, vm, env, 3, v1, 3, v2);
    ReachesJoin(code, vm, env, 6, v2, 3, vm');
  }

  /** BPF_BTF_LOAD: the BTF's address, and the caller's log settings. */
  lemma LoadBtfAsks(code: seq<Insn>, vm: Vm, env: Env, data: int, attr: int, log: bool, msg: (int, int)) returns (k: nat, vm': Vm)
    requires |vm.regs| == 11 && vm.regs[6] == CtxPtr(0) && CodeAt(code, vm.pc, LoadBtfBody(data, attr, log, msg))
    ensures Reaches(code, vm, env, k, vm')
    ensures Asks(code, vm, vm', 18, attr, 28,
                 vm.blob[attr + 24 := Load(vm.ctx, 8, 4)][attr + 20 := Load(vm.ctx, 12, 4)][attr + 8 := Load(vm.ctx, 16, 8)]
                        [attr := Address(env, data)])
  {
    hide CodeAt, Load, Step, Exec, Address, LogSettings, Command;
    var a, b, c := LogSettings(attr + 24, attr + 20, attr + 8), RelStore(attr, data), Command(18, attr, 28, log, msg);
    CodeAtSplit(code, vm.pc, a + b, c);
    CodeAtSplit(code, vm.pc, a, b);
    SettingsLength(attr + 24, attr + 20, attr + 8);
    var v1 := LogSettingsRun(code, vm, env, attr + 24, attr + 20, attr + 8);
    var v2 := RelStoreRuns(code, v1, env, attr, data);
    vm' := CommandAsks(code, v2, env, 18, attr, 28, log, msg);
    ReachesJoin(code, vm, env, 9, v1, 3, v2);
    ReachesJoin(code, vm, env, 12, v2, 3, vm');
    k := 15;
  }

  lemma SettingsLength(level: int, size: int, buf: int)
    ensures |LogSettings(level, size, buf)| == 12
  {
  }

  /** What MAP_CREATE finds set: the BTF of typed values, the inner map of a map of maps, and a maximum
      the caller gave. */
  function CreateBlob(vm: Vm, attr: int, valueTyped: bool, ofMaps: bool, idx: int): Region {
    var typed := if valueTyped then vm.blob[attr + 48 := Fd(vm.stack, -136)] else vm.blob;
    var nested := if ofMaps then typed[attr + 20 := Fd(vm.stack, -132)] else typed;
    var max := Load(vm.ctx, 24 + 16 * idx + 4, 4);
    if idx >= 0 && max != 0 then nested[attr + 12 := max] else nested
  }

  lemma OptionalStackRuns(code: seq<Insn>, vm: Vm, env: Env, cond: bool, off: int, stackOff: int) returns (k: nat, vm': Vm)
    requires |vm.regs| == 11 && vm.regs[10] == StackPtr(0) && -STACK_SZ <= stackOff < 0
    requires CodeAt(code, vm.pc, IfCode(cond, Stack2Blob(off, 4, stackOff)))
    ensures Reaches(code, vm, env, k, vm')
    ensures Moved(vm, vm', vm.pc + |IfCode(cond, Stack2Blob(off, 4, stackOff))|,
                  if cond then vm.blob[off := Fd(vm.stack, stackOff)] else vm.blob)
  {
    k, vm' := 0, vm;
    if cond {
      vm' := Stack2BlobRuns(code, vm, env, off, stackOff);
      k := 3;
    }
  }

  lemma OptionalMaxRuns(code: seq<Insn>, vm: Vm, env: Env, off: int, idx: int) returns (k: nat, vm': Vm)
    requires |vm.regs| == 11 && vm.regs[6] == CtxPtr(0)
    requires CodeAt(code, vm.pc, IfCode(idx >= 0, Ctx2Blob(off, 4, CtxMap(idx) + 4, true)))
    ensures Reaches(code, vm, env, k, vm')
    ensures var max := Load(vm.ctx, 24 + 16 * idx + 4, 4);
            Moved(vm, vm', vm.pc + |IfCode(idx >= 0, Ctx2Blob(off, 4, CtxMap(idx) + 4, true))|,
                  if idx >= 0 && max != 0 then vm.blob[off := max] else vm.blob)
  {
    hide CodeAt, Load, Ctx2Blob;
    k, vm' := 0, vm;
    if idx >= 0 {
      k, vm' := MaxEntriesRuns(code, vm, env, off, CtxMap(idx) + 4);
      CheckedLength(off, CtxMap(idx) + 4);
    }
  }

  /** BPF_MAP_CREATE. */
  lemma MapCreateAsks(code: seq<Insn>, vm: Vm, env: Env, attr: int, valueTyped: bool, ofMaps: bool, idx: int, log: bool, msg: (int, int))
    returns (k: nat, vm': Vm)
    requires |vm.regs| == 11 && vm.regs[6] == CtxPtr(0) && vm.regs[10] == StackPtr(0)
    requires CodeAt(code, vm.pc, MapCreateBody(attr, valueTyped, ofMaps, idx, log, msg))
    ensures Reaches(code, vm, env, k, vm') && Asks(code, vm, vm', 0, attr, 72, CreateBlob(vm, attr, valueTyped, ofMaps, idx))
  {
    hide CodeAt, Load, Step, Exec, Command, Stack2Blob, Ctx2Blob, IfCode, Fd;
    var a, b := IfCode(valueTyped, Stack2Blob(attr + 48, 4, BTF_FD_OFF)), IfCode(ofMaps, Stack2Blob(attr + 20, 4, INNER_MAP_FD_OFF));
    var c, d := IfCode(idx >= 0, Ctx2Blob(attr + 12, 4, CtxMap(idx) + 4, true)), Command(0, attr, 72, log, msg);
    CodeAtSplit(code, vm.pc, a + b + c, d);
    CodeAtSplit(code, vm.pc, a + b, c);
    CodeAtSplit(code, vm.pc, a, b);
    var k1, v1 := OptionalStackRuns(code, vm, env, valueTyped, attr + 48, BTF_FD_OFF);
    var k2, v2 := OptionalStackRuns(code, v1, env, ofMaps, attr + 20, INNER_MAP_FD_OFF);
    ReachesJoin(code, vm, env, k1, v1, k2, v2);
    var k3, v3 := OptionalMaxRuns(code, v2, env, attr + 12, idx);
    ReachesJoin(code, vm, env, k1 + k2, v2, k3, v3);
    vm' := CommandAsks(code, v3, env, 0, attr, 72, log, msg);
    ReachesJoin(code, vm, env, k1 + k2 + k3, v3, 3, vm');
    k := k1 + k2 + k3 + 3;
  }

  lemma CheckedLength(off: int, ctxOff: int)
    ensures |Ctx2Blob(off, 4, ctxOff, true)| == 5
  {
  }

  /** BPF_MAP_UPDATE_ELEM: the map's descriptor, and the addresses of key and value. */
  lemma UpdateAsks(code: seq<Insn>, vm: Vm, env: Env, attr: int, key: int, value: int, mapSlot: int, log: bool, msg: (int, int))
    returns (k: nat, vm': Vm)
    requires |vm.regs| == 11 && CodeAt(code, vm.pc, UpdateBody(attr, key, value, mapSlot, log, msg))
    ensures Reaches(code, vm, env, k, vm')
    ensures Asks(code, vm, vm', 2, attr, 32,
                 vm.blob[attr := Fd(vm.blob, mapSlot)][attr + 8 := Address(env, key)][attr + 16 := Address(env, value)])
  {
    hide CodeAt, Load, Step, Exec, Address, Command;
    var a, b, c := Blob2Blob(attr, 4, mapSlot), RelStore(attr + 8, key), RelStore(attr + 16, value);
    var d := Command(2, attr, 32, log, msg);
    CodeAtSplit(code, vm.pc, a + b + c, d);
    CodeAtSplit(code, vm.pc, a + b, c);
    CodeAtSplit(code, vm.pc, a, b);
    var v1 := Blob2BlobRuns(code, vm, env, attr, 4, mapSlot);
    var v2 := RelStoreRuns(code, v1, env, attr + 8, key);
    var v3 := RelStoreRuns(code, v2, env, attr + 16, value);
    vm' := CommandAsks(code, v3, env, 2, attr, 32, log, msg);
    ReachesJoin(code, vm, env, 4, v1, 3, v2);
    ReachesJoin(code, vm, env, 7, v2, 3, v3);
    ReachesJoin(code, vm, env, 10, v3, 3, vm');
    k := 13;
  }

  /** BPF_MAP_FREEZE: the map's descriptor. */
  lemma FreezeAsks(code: seq<Insn>, vm: Vm, env: Env, attr: int, mapSlot: int, log: bool, msg: (int, int)) returns (k: nat, vm': Vm)
    requires |vm.regs| == 11 && CodeAt(code, vm.pc, MapFreezeBody(attr, mapSlot, log, msg))
    ensures Reaches(code, vm, env, k, vm') && Asks(code, vm, vm', 22, attr, 4, vm.blob[attr := Fd(vm.blob, mapSlot)])
  {
    hide CodeAt, Load, Step, Exec, Command;
    CodeAtSplit(code, vm.pc, Blob2Blob(attr, 4, mapSlot), Command(22, attr, 4, log, msg));
    var v1 := Blob2BlobRuns(code, vm, env, attr, 4, mapSlot);
    vm' := CommandAsks(code, v1, env, 22, attr, 4, log, msg);
    ReachesJoin(code, vm, env, 4, v1, 3, vm');
    k := 7;
  }

  /** What PROG_LOAD finds set: the addresses of the parts of the program and of the descriptors it may
      use, the caller's log settings, and the BTF's descriptor. */
  function ProgBlob(vm: Vm, env: Env, d: ProgData, fdArray: int): Region {
    vm.blob[d.attr + 16 := Address(env, d.license)][d.attr + 8 := Address(env, d.insns)][d.attr + 80 := Address(env, d.funcs)]
           [d.attr + 96 := Address(env, d.lines)][d.attr + 128 := Address(env, d.coreRelos)][d.attr + 120 := Address(env, fdArray)]
           [d.attr + 24 := Load(vm.ctx, 8, 4)][d.attr + 28 := Load(vm.ctx, 12, 4)][d.attr + 32 := Load(vm.ctx, 16, 8)]
           [d.attr + 72 := Fd(vm.stack, -136)]
  }

  lemma ThreeStores(code: seq<Insn>, vm: Vm, env: Env, off1: int, data1: int, off2: int, data2: int, off3: int, data3: int) returns (vm': Vm)
    requires |vm.regs| == 11 && CodeAt(code, vm.pc, RelStore(off1, data1) + RelStore(off2, data2) + RelStore(off3, data3))
    ensures Reaches(code, vm, env, 9, vm')
    ensures Moved(vm, vm', vm.pc + 15,
                  vm.blob[off1 := Address(env, data1)][off2 := Address(env, data2)][off3 := Address(env, data3)])
  {
    hide CodeAt, Step, Exec, Address;
    CodeAtSplit(code, vm.pc, RelStore(off1, data1) + RelStore(off2, data2), RelStore(off3, data3));
    CodeAtSplit(code, vm.pc, RelStore(off1, data1), RelStore(off2, data2));
    var v1 := RelStoreRuns(code, vm, env, off1, data1);
    var v2 := RelStoreRuns(code, v1, env, off2, data2);
    vm' := RelStoreRuns(code, v2, env, off3, data3);
    ReachesJoin(code, vm, env, 3, v1, 3, v2);
    ReachesJoin(code, vm, env, 6, v2, 3, vm');
  }

  lemma ProgHeadRuns(code: seq<Insn>, vm: Vm, env: Env, d: ProgData, fdArray: int) returns (k: nat, vm': Vm)
    requires |vm.regs| == 11 && vm.regs[6] == CtxPtr(0) && vm.regs[10] == StackPtr(0)
    requires CodeAt(code, vm.pc, ProgLoadHead(d.attr, d.license, d.insns, d.funcs, d.lines, d.coreRelos, fdArray))
    ensures Reaches(code, vm, env, k, vm') && Moved(vm, vm', vm.pc + 46, ProgBlob(vm, env, d, fdArray))
  {
    hide CodeAt, Step, Exec, Address, Load, RelStore, LogSettings, Stack2Blob;
    var a := RelStore(d.attr + 16, d.license) + RelStore(d.attr + 8, d.insns) + RelStore(d.attr + 80, d.funcs);
    var b := RelStore(d.attr + 96, d.lines) + RelStore(d.attr + 128, d.coreRelos) + RelStore(d.attr + 120, fdArray);
    var c, e := LogSettings(d.attr + 24, d.attr + 28, d.attr + 32), Stack2Blob(d.attr + 72, 4, BTF_FD_OFF);
    CodeAtSplit(code, vm.pc, a + b + c, e);
    CodeAtSplit(code, vm.pc, a + b, c);
    CodeAtSplit(code, vm.pc, a, b);
    StoreLength();
    SettingsLength(d.attr + 24, d.attr + 28, d.attr + 32);
    var v1 := ThreeStores(code, vm, env, d.attr + 16, d.license, d.attr + 8, d.insns, d.attr + 80, d.funcs);
    var v2 := ThreeStores(code, v1, env, d.attr + 96, d.lines, d.attr + 128, d.coreRelos, d.attr + 120, fdArray);
    var v3 := LogSettingsRun(code, v2, env, d.attr + 24, d.attr + 28, d.attr + 32);
    vm' := Stack2BlobRuns(code, v3, env, d.attr + 72, BTF_FD_OFF);
    ReachesJoin(code, vm, env, 9, v1, 9, v2);
    ReachesJoin(code, vm, env, 18, v2, 9, v3);
    ReachesJoin(code, vm, env, 27, v3, 3, vm');
    k := 30;
  }

  lemma StoreLength()
    ensures forall off, data {:trigger RelStore(off, data)} :: |RelStore(off, data)| == 5
  {
  }

  /** BPF_PROG_LOAD. */
  lemma ProgLoadAsks(code: seq<Insn>, vm: Vm, env: Env, d: ProgData, t: ProgNotes, kind: int, fdArray: int, log: bool) returns (vm': Vm)
    requires |t.ks| == |t.ms| && |vm.regs| == 11 && CodeAt(code, vm.pc, ProgBack(d, t, kind, fdArray, log))
    ensures Reaches(code, vm, env, 3, vm') && Asks(code, vm, vm', 5, d.attr, 140, vm.blob)
  {
    hide CodeAt, Step, Exec, Command, KsymCloses, CloseBlob, Reaches, Asks;
    var a, b, c := Command(5, d.attr, 140, log, t.result), KsymCloses(t.ks, fdArray, log, t.ms), IfCode(kind != 0, CloseBlob(d.attr + 112, log, t.last));
    CodeAtSplit(code, vm.pc, a + b, c);
    CodeAtSplit(code, vm.pc, a, b);
    vm' := CommandAsks(code, vm, env, 5, d.attr, 140, log, t.result);
  }

  // ----- Where results go -----

  /** A result in R7 went to a slot of the stack or of the blob; these descriptors were closed since. */
  predicate Stored(vm: Vm, vm': Vm, pc: nat, stack: Region, blob: Region, fds: seq<nat>) {
    && |vm.regs| == |vm'.regs| == 11 && vm'.pc == pc && vm'.stack == stack && vm'.blob == blob && vm'.ctx == vm.ctx
    && vm'.closed == vm.closed + fds && vm'.regs[6] == vm.regs[6] && vm'.regs[7] == vm.regs[7] && vm'.regs[10] == vm.regs[10]
  }

  lemma KeepInStackRuns(code: seq<Insn>, vm: Vm, env: Env, off: int, n: nat) returns (vm': Vm)
    requires |vm.regs| == 11 && vm.regs[7] == Num(n) && vm.regs[10] == StackPtr(0) && -STACK_SZ <= off < 0
    requires CodeAt(code, vm.pc, KeepInStack(off))
    ensures Reaches(code, vm, env, 1, vm') && Stored(vm, vm', vm.pc + 1, vm.stack[off := n % WORD32], vm.blob, [])
  {
    var f := KeepInStack(off);
    assert code[vm.pc] == f[0];
    hide CodeAt, KeepInStack;
    vm' := vm.(pc := vm.pc + 1, stack := vm.stack[off := n % WORD32]);
    assert Step(code, vm, env) == Running(vm');
    OneStep(code, vm, env, vm', 0, vm');
  }

  lemma KeepInBlobRuns(code: seq<Insn>, vm: Vm, env: Env, off: int, n: nat) returns (vm': Vm)
    requires |vm.regs| == 11 && vm.regs[7] == Num(n) && CodeAt(code, vm.pc, KeepInBlob(off))
    ensures Reaches(code, vm, env, 2, vm') && Stored(vm, vm', vm.pc + 3, vm.stack, vm.blob[off := n % WORD32], [])
  {
    var f := KeepInBlob(off);
    assert code[vm.pc] == f[0] && code[vm.pc + 2] == f[2];
    hide CodeAt, KeepInBlob;
    var v1 := vm.(pc := vm.pc + 2, regs := vm.regs[1 := BlobPtr(off)]);
    vm' := v1.(pc := vm.pc + 3, blob := vm.blob[off := n % WORD32]);
    var vms := [vm, v1, vm'];
    assert StepAt(code, env, vms, 0) && StepAt(code, env, vms, 1);
    PathReaches(code, env, vms);
  }

  /** Behind MAP_CREATE: an inner map's descriptor is kept in the stack, that of map `idx` in entry `idx` of the
      array in the blob; behind the creation of a map of maps the inner map's is closed. */
  lemma MapCreateRecords(code: seq<Insn>, vm: Vm, env: Env, fdArray: int, ofMaps: bool, idx: int, log: bool, msg: (int, int), n: nat)
    returns (k: nat, vm': Vm)
    requires |vm.regs| == 11 && vm.regs[7] == Num(n) && vm.regs[10] == StackPtr(0)
    requires CodeAt(code, vm.pc, MapCreateTail(fdArray, ofMaps, idx, log, msg))
    ensures Reaches(code, vm, env, k, vm')
    ensures var stack := if idx < 0 then vm.stack[-132 := n % WORD32] else vm.stack;
            Stored(vm, vm', vm.pc + |MapCreateTail(fdArray, ofMaps, idx, log, msg)|, stack,
                  if idx < 0 then vm.blob else vm.blob[fdArray + 4 * idx := n % WORD32],
                  if ofMaps then FdIfAny(Fd(stack, -132)) else [])
  {
    hide CodeAt, Step, Exec, CloseStack, KeepInStack, KeepInBlob, Fd;
    var a := if idx < 0 then KeepInStack(INNER_MAP_FD_OFF) else KeepInBlob(fdArray + 4 * idx);
    CodeAtSplit(code, vm.pc, a, IfCode(ofMaps, CloseStack(INNER_MAP_FD_OFF, log, msg)));
    KeepLength(fdArray + 4 * idx);
    if idx < 0 {
      vm' := KeepInStackRuns(code, vm, env, INNER_MAP_FD_OFF, n);
      k := 1;
    } else {
      vm' := KeepInBlobRuns(code, vm, env, fdArray + 4 * idx, n);
      k := 2;
    }
    if ofMaps {
      var v1 := vm';
      var j;
      j, vm' := CloseStackRuns(code, v1, env, INNER_MAP_FD_OFF, log, msg);
      ReachesJoin(code, vm, env, k, v1, j, vm');
      k := k + j;
    }
  }

  lemma KeepLength(off: int)
    ensures |KeepInStack(INNER_MAP_FD_OFF)| == 1 && |KeepInBlob(off)| == 3
  {
  }

  // ----- Symbols: what is looked up, and later uses -----

  /** `vm` has come to a call of a helper, with these four arguments. */
  predicate Consults(code: seq<Insn>, vm: Vm, vm': Vm, func: Func, r1: Val, r2: Val, r3: Val, r4: Val) {
    && Moved(vm, vm', vm'.pc, vm.blob) && vm'.pc < |code| && code[vm'.pc] == Call(func)
    && vm'.regs[1] == r1 && vm'.regs[2] == r2 && vm'.regs[3] == r3 && vm'.regs[4] == r4
  }

  /** A BTF type is looked up by the address of its name, the size of that, and its kind. */
  lemma FindByNameAsks(code: seq<Insn>, vm: Vm, env: Env, name: int, len: nat, kind: nat, log: bool, msg: (int, int)) returns (vm': Vm)
    requires |vm.regs| == 11 && len < WORD32 && kind < WORD32 && CodeAt(code, vm.pc, FindByName(name, len, kind, log, msg))
    ensures Reaches(code, vm, env, 4, vm')
    ensures Consults(code, vm, vm', FindByNameKind, BlobPtr(name), Num(len), Num(kind), Num(0))
  {
    var p, b := vm.pc, FindByName(name, len, kind, log, msg);
    assert code[p] == b[0] && code[p + 2] == b[2] && code[p + 3] == b[3] && code[p + 4] == b[4] && code[p + 5] == b[5];
    hide CodeAt, FindByName;
    var v1 := vm.(pc := p + 2, regs := vm.regs[1 := BlobPtr(name)]);
    var v2 := v1.(pc := p + 3, regs := v1.regs[2 := Num(len)]);
    var v3 := v2.(pc := p + 4, regs := v2.regs[3 := Num(kind)]);
    vm' := v3.(pc := p + 5, regs := v3.regs[4 := Num(0)]);
    var vms := [vm, v1, v2, v3, vm'];
    assert StepAt(code, env, vms, 0) && StepAt(code, env, vms, 1) && StepAt(code, env, vms, 2) && StepAt(code, env, vms, 3);
    PathReaches(code, env, vms);
  }

  /** An address is looked up by the symbol's name, into the eight bytes at `res`. */
  lemma KallsymsAsks(code: seq<Insn>, vm: Vm, env: Env, name: int, len: nat, res: int, log: bool, msg: (int, int)) returns (vm': Vm)
    requires |vm.regs| == 11 && len < WORD32 && CodeAt(code, vm.pc, Kallsyms(name, len, res, log, msg))
    ensures Reaches(code, vm, env, 5, vm') && vm'.pc == vm.pc + 7 && vm'.regs[7] == BlobPtr(res)
    ensures Consults(code, vm, vm', KallsymsLookupName, BlobPtr(name), Num(len), Num(0), BlobPtr(res))
  {
    var p, b := vm.pc, Kallsyms(name, len, res, log, msg);
    assert code[p] == b[0] && code[p + 2] == b[2] && code[p + 3] == b[3] && code[p + 4] == b[4] && code[p + 6] == b[6] && code[p + 7] == b[7];
    hide CodeAt, Kallsyms;
    var v1 := vm.(pc := p + 2, regs := vm.regs[1 := BlobPtr(name)]);
    var v2 := v1.(pc := p + 3, regs := v1.regs[2 := Num(len)]);
    var v3 := v2.(pc := p + 4, regs := v2.regs[3 := Num(0)]);
    var v4 := v3.(pc := p + 6, regs := v3.regs[4 := BlobPtr(res)]);
    vm' := v4.(pc := p + 7, regs := v4.regs[7 := BlobPtr(res)]);
    var vms := [vm, v1, v2, v3, v4, vm'];
    assert StepAt(code, env, vms, 0) && StepAt(code, env, vms, 1) && StepAt(code, env, vms, 2) && StepAt(code, env, vms, 3) && StepAt(code, env, vms, 4);
    PathReaches(code, env, vms);
  }

  /** Behind the call the address is in R9 and the helper's answer in R7. */
  lemma KallsymsAnswers(code: seq<Insn>, vm: Vm, env: Env, start: nat, name: int, len: nat, res: int, log: bool, msg: (int, int)) returns (vm': Vm)
    requires |vm.regs| == 11 && CodeAt(code, start, Kallsyms(name, len, res, log, msg)) && vm.pc == start + 7 && vm.regs[7] == BlobPtr(res)
    ensures Reaches(code, vm, env, 3, vm') && vm'.pc == start + 10
    ensures vm'.blob == vm.blob + env.replies(vm.calls).writes
    ensures vm'.regs[9] == Num(Load(vm'.blob, res, 8)) && vm'.regs[7] == Num(env.replies(vm.calls).r0)
  {
    var p, b := vm.pc, Kallsyms(name, len, res, log, msg);
    assert code[start + 7] == b[7] && code[start + 8] == b[8] && code[start + 9] == b[9];
    hide CodeAt, Kallsyms, Load;
    var v1 := Step(code, vm, env).vm;
    assert v1.regs[7] == vm.regs[7] && v1.regs[0] == Num(env.replies(vm.calls).r0);
    var v2 := v1.(pc := p + 2, regs := v1.regs[9 := Num(Load(v1.blob, res, 8))]);
    vm' := v2.(pc := p + 3, regs := v2.regs[7 := v1.regs[0]]);
    var vms := [vm, v1, v2, vm'];
    assert StepAt(code, env, vms, 0) && StepAt(code, env, vms, 1) && StepAt(code, env, vms, 2);
    PathReaches(code, env, vms);
  }

  /** What to attach to: the BTF id and the descriptor of the BTF it is in, from one answer. */
  lemma AttachBindRuns(code: seq<Insn>, vm: Vm, env: Env, attr: int, n: nat) returns (vm': Vm)
    requires |vm.regs| == 11 && vm.regs[7] == Num(n) && n < WORD64 && CodeAt(code, vm.pc, AttachBind(attr))
    ensures Reaches(code, vm, env, 4, vm')
    ensures Moved(vm, vm', vm.pc + 5, vm.blob[attr + 108 := n % WORD32][attr + 112 := n / WORD32])
  {
    var p, b, hi := vm.pc, AttachBind(attr), n / WORD32;
    assert code[p] == b[0] && code[p + 2] == b[2] && code[p + 3] == b[3] && code[p + 4] == b[4];
    hide CodeAt, AttachBind;
    var v1 := vm.(pc := p + 2, regs := vm.regs[0 := BlobPtr(attr)]);
    var v2 := v1.(pc := p + 3, blob := vm.blob[attr + 108 := n % WORD32]);
    var v3 := v2.(pc := p + 4, regs := v2.regs[7 := Num(hi)]);
    vm' := v3.(pc := p + 5, blob := v2.blob[attr + 112 := hi]);
    var vms := [vm, v1, v2, v3, vm'];
    assert StepAt(code, env, vms, 0) && StepAt(code, env, vms, 1) && StepAt(code, env, vms, 2) && StepAt(code, env, vms, 3);
    PathReaches(code, env, vms);
  }

  /** A later call of a kernel function gets the immediate and the offset of the first. */
  lemma KfuncCopyRuns(code: seq<Insn>, vm: Vm, env: Env, insn: int, from: int) returns (vm': Vm)
    requires |vm.regs| == 11 && CodeAt(code, vm.pc, KfuncCopy(insn, from))
    ensures Reaches(code, vm, env, 8, vm')
    ensures var blob := vm.blob[insn + 4 := Load(vm.blob, from + 4, 4)];
            Moved(vm, vm', vm.pc + 12, blob[insn + 2 := Load(blob, from + 2, 2)])
  {
    hide CodeAt, Step, Exec, Load;
    CodeAtSplit(code, vm.pc, Blob2Blob(insn + 4, 4, from + 4), Blob2Blob(insn + 2, 2, from + 2));
    var v1 := Blob2BlobRuns(code, vm, env, insn + 4, 4, from + 4);
    vm' := Blob2BlobRuns(code, v1, env, insn + 2, 2, from + 2);
    ReachesJoin(code, vm, env, 4, v1, 4, vm');
  }

  /** A later use of a typeless variable gets both halves of the address. */
  lemma TypelessCopyRuns(code: seq<Insn>, vm: Vm, env: Env, insn: int, from: int) returns (vm': Vm)
    requires |vm.regs| == 11 && CodeAt(code, vm.pc, TypelessCopy(insn, from))
    ensures Reaches(code, vm, env, 8, vm')
    ensures var blob := vm.blob[insn + 4 := Load(vm.blob, from + 4, 4)];
            Moved(vm, vm', vm.pc + 12, blob[insn + 12 := Load(blob, from + 12, 4)])
  {
    hide CodeAt, Step, Exec, Load;
    CodeAtSplit(code, vm.pc, Blob2Blob(insn + 4, 4, from + 4), Blob2Blob(insn + 12, 4, from + 12));
    var v1 := Blob2BlobRuns(code, vm, env, insn + 4, 4, from + 4);
    vm' := Blob2BlobRuns(code, v1, env, insn + 12, 4, from + 12);
    ReachesJoin(code, vm, env, 4, v1, 4, vm');
  }

  /** A later use of a typed variable gets descriptor and id, and no source register if there is no id. */
  lemma KsymCopyRuns(code: seq<Insn>, vm: Vm, env: Env, insn: int, from: int) returns (k: nat, vm': Vm)
    requires |vm.regs| == 11 && vm.regs[8] == BlobPtr(insn) && CodeAt(code, vm.pc, KsymCopy(insn, from))
    ensures Reaches(code, vm, env, k, vm')
    ensures var blob := vm.blob[insn + 12 := Load(vm.blob, from + 12, 4)];
            var id := Load(blob, from + 4, 4);
            var both := blob[insn + 4 := id];
            Moved(vm, vm', vm.pc + 16, if id != 0 then both else both[insn + 1 := Load(both, insn + 1, 1) % 16])
  {
    hide CodeAt, Step, Exec, Load;
    var a, b, c := Blob2Blob(insn + 12, 4, from + 12), Blob2Blob(insn + 4, 4, from + 4), [Jmp(JNE, 0, 0, 3)];
    CodeAtSplit(code, vm.pc, a + b, c + CLEAR_SRC);
    CodeAtSplit(code, vm.pc, a, b);
    CodeAtSplit(code, vm.pc + 12, c, CLEAR_SRC);
    var v1 := Blob2BlobRuns(code, vm, env, insn + 12, 4, from + 12);
    var v2 := Blob2BlobRuns(code, v1, env, insn + 4, 4, from + 4);
    ReachesJoin(code, vm, env, 4, v1, 4, v2);
    AtBlock(code, vm.pc + 12, c, 0);
    var id := Load(v1.blob, from + 4, 4);
    var v3 := v2.(pc := vm.pc + if id != 0 then 16 else 13);
    JumpOver(code, v2, env, id, v3);
    ReachesJoin(code, vm, env, 8, v2, 1, v3);
    k, vm' := 9, v3;
    if id == 0 {
      vm' := ClearSrcRuns(code, v3, env, insn);
      ReachesJoin(code, vm, env, 9, v3, 3, vm');
      k := 12;
    }
  }

  lemma JumpOver(code: seq<Insn>, vm: Vm, env: Env, n: nat, vm': Vm)
    requires |vm.regs| == 11 && vm.pc < |code| && code[vm.pc] == Jmp(JNE, 0, 0, 3) && vm.regs[0] == Num(n)
    requires vm' == vm.(pc := vm.pc + if n != 0 then 4 else 1)
    ensures Reaches(code, vm, env, 1, vm')
  {
    assert Step(code, vm, env) == Running(vm');
    OneStep(code, vm, env, vm', 0, vm');
  }

  /** When a program has been loaded, the module descriptor of each typed variable and of each kernel
      function is closed if there is one; a typeless variable has none. */
  lemma KsymCloseRuns(code: seq<Insn>, vm: Vm, env: Env, s: Ksym, fdArray: int, log: bool, msg: (int, int)) returns (k: nat, vm': Vm)
    requires |vm.regs| == 11 && CodeAt(code, vm.pc, KsymClose(s, fdArray, log, msg))
    ensures Reaches(code, vm, env, k, vm')
    ensures Kept(vm, vm', vm.pc + |KsymClose(s, fdArray, log, msg)|,
                 if s.ld64 && s.typeless then [] else FdIfAny(Fd(vm.blob, if s.ld64 then s.insn + 12 else fdArray + 4 * s.off)))
  {
    hide CodeAt, Step, Exec, CloseBlob, Fd;
    k, vm' := 0, vm;
    if !(s.ld64 && s.typeless) {
      k, vm' := BlobCloseRuns(code, vm, env, if s.ld64 then s.insn + 12 else fdArray + 4 * s.off, log, msg);
    } else {
      NoSteps(code, vm, env);
    }
  }
}

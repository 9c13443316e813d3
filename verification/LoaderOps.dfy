/** The code of each generator command, and that it is sound wherever it is placed. */
module LoaderOps {
  import opened LoaderCode

  // ----- Fragments without error branches -----

  /** Not an error branch, and a branch stays within the fragment. */
  predicate PlainAt(f: seq<Insn>, i: nat)
    requires i < |f|
  {
    PairOk(f, i) && (f[i].Jmp? || f[i].Ja? ==> ForwardOk(f, i, f[i].off)) && (f[i].Jmp? ==> f[i].cond != JSLT)
  }

  predicate Plain(f: seq<Insn>) {
    forall i {:trigger PlainAt(f, i)} :: 0 <= i < |f| ==> PlainAt(f, i)
  }

  lemma PlainSound(f: seq<Insn>, base: nat, cleanup: nat)
    requires Plain(f)
    ensures FragmentOk(f, base, cleanup)
  {
    forall i | 0 <= i < |f| ensures BranchOk(f, base, cleanup, i) && PairOk(f, i) {
      assert PlainAt(f, i);
    }
  }

  lemma PlainJoin(a: seq<Insn>, b: seq<Insn>)
    requires Plain(a) && Plain(b)
    ensures Plain(a + b)
  {
    var c := a + b;
    assert |b| > 0 ==> PlainAt(b, 0);
    forall i | 0 <= i < |c| ensures PlainAt(c, i) {
      if i < |a| {
        assert PlainAt(a, i);
      } else {
        assert PlainAt(b, i - |a|);
      }
    }
  }

  lemma MovesPlain(off: int, size: nat, from: int, check: bool)
    ensures Plain(Blob2Blob(off, size, from)) && Plain(Blob2Ctx(off, size, from))
    ensures Plain(Ctx2Blob(off, size, from, check)) && Plain(Stack2Blob(off, size, from))
    ensures Plain(Stack2Ctx(off, size, from)) && Plain(RelStore(off, from))
  {
    forall i | 0 <= i < 6 ensures PlainAt(Blob2Blob(off, size, from), i) { }
    forall i | 0 <= i < 4 ensures PlainAt(Blob2Ctx(off, size, from), i) { }
    forall i | 0 <= i < |Ctx2Blob(off, size, from, check)| ensures PlainAt(Ctx2Blob(off, size, from, check), i) { }
    forall i | 0 <= i < 4 ensures PlainAt(Stack2Blob(off, size, from), i) { }
    forall i | 0 <= i < 2 ensures PlainAt(Stack2Ctx(off, size, from), i) { }
    forall i | 0 <= i < 5 ensures PlainAt(RelStore(off, from), i) { }
  }

  /** Nothing at log level zero. */
  function Debug(log: bool, reg1: int, reg2: int, msg: (int, int)): seq<Insn> {
    if log then DebugRegs(reg1, reg2, msg) else []
  }

  lemma DebugPlain(log: bool, reg1: int, reg2: int, msg: (int, int))
    ensures Plain(Debug(log, reg1, reg2, msg))
  {
    var f := Debug(log, reg1, reg2, msg);
    forall i | 0 <= i < |f| ensures PlainAt(f, i) { }
  }

  lemma ClosePlain(off: int, log: bool, msg: (int, int))
    ensures Plain(CloseStack(off, log, msg)) && Plain(CloseBlob(off, log, msg))
  {
    var f, g := CloseStack(off, log, msg), CloseBlob(off, log, msg);
    forall i | 0 <= i < |f| ensures PlainAt(f, i) { }
    forall i | 0 <= i < |g| ensures PlainAt(g, i) { }
  }

  // ----- Checked commands -----

  /** A bpf command whose result is logged. */
  function Command(cmd: int, attr: int, size: int, log: bool, msg: (int, int)): seq<Insn> {
    SysBpfCall(cmd, attr, size) + Debug(log, 7, -1, msg)
  }

  lemma CommandPlain(cmd: int, attr: int, size: int, log: bool, msg: (int, int))
    ensures Plain(Command(cmd, attr, size, log, msg))
  {
    var f := SysBpfCall(cmd, attr, size);
    forall i | 0 <= i < |f| ensures PlainAt(f, i) { }
    DebugPlain(log, 7, -1, msg);
    PlainJoin(f, Debug(log, 7, -1, msg));
  }

  /** `body`, then the error branch, then `rest`. */
  function Checked(body: seq<Insn>, pos: nat, cleanup: nat, rest: seq<Insn>): seq<Insn> {
    body + CheckErr(pos + |body|, cleanup) + rest
  }

  lemma CheckedSound(body: seq<Insn>, pos: nat, cleanup: nat, rest: seq<Insn>)
    requires FragmentOk(body, pos, cleanup) && Plain(rest) && Near(pos + |body|, cleanup)
    ensures FragmentOk(Checked(body, pos, cleanup, rest), pos, cleanup)
  {
    var check := CheckErr(pos + |body|, cleanup);
    assert BranchOk(check, pos + |body|, cleanup, 0) && PairOk(check, 0);
    FragmentsJoin(body, check, pos, cleanup);
    PlainSound(rest, pos + |body| + 1, cleanup);
    FragmentsJoin(body + check, rest, pos, cleanup);
  }

  /** Remembers R7 in a stack slot. */
  function KeepInStack(off: int): seq<Insn> { [Stx(4, 10, 7, off)] }

  /** Remembers R7 in a slot of the data blob. */
  function KeepInBlob(off: int): seq<Insn> { [LdBlob(1, off), LdBlobTail, Stx(4, 1, 7, 0)] }

  lemma KeepPlain(off: int)
    ensures Plain(KeepInStack(off)) && Plain(KeepInBlob(off))
  {
    assert PlainAt(KeepInStack(off), 0);
    forall i | 0 <= i < 3 ensures PlainAt(KeepInBlob(off), i) { }
  }

  // ----- BTF_LOAD -----

  function LogSettings(level: int, size: int, buf: int): seq<Insn> {
    Ctx2Blob(level, 4, 8, false) + Ctx2Blob(size, 4, 12, false) + Ctx2Blob(buf, 8, 16, false)
  }

  lemma LogSettingsPlain(level: int, size: int, buf: int)
    ensures Plain(LogSettings(level, size, buf))
  {
    var a, b, c := Ctx2Blob(level, 4, 8, false), Ctx2Blob(size, 4, 12, false), Ctx2Blob(buf, 8, 16, false);
    MovesPlain(level, 4, 8, false);
    MovesPlain(size, 4, 12, false);
    MovesPlain(buf, 8, 16, false);
    PlainJoin(a, b);
    PlainJoin(a + b, c);
  }

  function LoadBtfBody(data: int, attr: int, log: bool, msg: (int, int)): seq<Insn> {
    LogSettings(attr + 24, attr + 20, attr + 8) + RelStore(attr, data) + Command(18, attr, 28, log, msg)
  }

  lemma LoadBtfPlain(data: int, attr: int, log: bool, msg: (int, int))
    ensures Plain(LoadBtfBody(data, attr, log, msg))
  {
    var a, b, c := LogSettings(attr + 24, attr + 20, attr + 8), RelStore(attr, data), Command(18, attr, 28, log, msg);
    LogSettingsPlain(attr + 24, attr + 20, attr + 8);
    MovesPlain(attr, 4, data, false);
    CommandPlain(18, attr, 28, log, msg);
    PlainJoin(a, b);
    PlainJoin(a + b, c);
  }

  // ----- MAP_CREATE -----

  function IfCode(cond: bool, f: seq<Insn>): seq<Insn> { if cond then f else [] }

  /** The BTF of typed values, the inner map of a map of maps, and a maximum the caller overrides. */
  function MapCreateSettings(attr: int, valueTyped: bool, ofMaps: bool, idx: int): seq<Insn> {
    IfCode(valueTyped, Stack2Blob(attr + 48, 4, BTF_FD_OFF))
    + IfCode(ofMaps, Stack2Blob(attr + 20, 4, INNER_MAP_FD_OFF))
    + IfCode(idx >= 0, Ctx2Blob(attr + 12, 4, CtxMap(idx) + 4, true))
  }

  function MapCreateBody(attr: int, valueTyped: bool, ofMaps: bool, idx: int, log: bool, msg: (int, int)): seq<Insn> {
    MapCreateSettings(attr, valueTyped, ofMaps, idx) + Command(0, attr, 72, log, msg)
  }

  lemma MapCreatePlain(attr: int, valueTyped: bool, ofMaps: bool, idx: int, log: bool, msg: (int, int))
    ensures Plain(MapCreateBody(attr, valueTyped, ofMaps, idx, log, msg))
  {
    var a, b := IfCode(valueTyped, Stack2Blob(attr + 48, 4, BTF_FD_OFF)), IfCode(ofMaps, Stack2Blob(attr + 20, 4, INNER_MAP_FD_OFF));
    var c, d := IfCode(idx >= 0, Ctx2Blob(attr + 12, 4, CtxMap(idx) + 4, true)), Command(0, attr, 72, log, msg);
    MovesPlain(attr + 48, 4, BTF_FD_OFF, true);
    MovesPlain(attr + 20, 4, INNER_MAP_FD_OFF, true);
    MovesPlain(attr + 12, 4, CtxMap(idx) + 4, true);
    CommandPlain(0, attr, 72, log, msg);
    PlainJoin(a, b);
    PlainJoin(a + b, c);
    PlainJoin(a + b + c, d);
  }

  /** An inner map's descriptor goes to the stack, any other's to its slot in the blob; a map of
      maps then lets go of the inner map. */
  function MapCreateTail(fdArray: int, ofMaps: bool, idx: int, log: bool, msg: (int, int)): seq<Insn> {
    (if idx < 0 then KeepInStack(INNER_MAP_FD_OFF) else KeepInBlob(fdArray + 4 * idx))
    + IfCode(ofMaps, CloseStack(INNER_MAP_FD_OFF, log, msg))
  }

  lemma MapCreateTailPlain(fdArray: int, ofMaps: bool, idx: int, log: bool, msg: (int, int))
    ensures Plain(MapCreateTail(fdArray, ofMaps, idx, log, msg))
  {
    KeepPlain(INNER_MAP_FD_OFF);
    KeepPlain(fdArray + 4 * idx);
    ClosePlain(INNER_MAP_FD_OFF, log, msg);
    PlainJoin(if idx < 0 then KeepInStack(INNER_MAP_FD_OFF) else KeepInBlob(fdArray + 4 * idx),
              IfCode(ofMaps, CloseStack(INNER_MAP_FD_OFF, log, msg)));
  }

  // ----- MAP_UPDATE_ELEM and MAP_FREEZE -----

  /** A caller-supplied initial value replaces the one in the blob. */
  function InitialValue(idx: int, value: int, size: int): seq<Insn> {
    [Ldx(8, 3, 6, CtxMap(idx) + 8), Jmp(JEQ, 3, 0, 8), LdBlob(1, value), LdBlobTail, MovImm(2, size), Ldx(4, 0, 6, 4),
     Jmp(JSET, 0, 1, 2), Call(CopyFromUser), Ja(1), Call(ProbeReadKernel)]
  }

  function UpdateBody(attr: int, key: int, value: int, mapSlot: int, log: bool, msg: (int, int)): seq<Insn> {
    Blob2Blob(attr, 4, mapSlot) + RelStore(attr + 8, key) + RelStore(attr + 16, value) + Command(2, attr, 32, log, msg)
  }

  lemma UpdatePlain(attr: int, key: int, value: int, mapSlot: int, log: bool, msg: (int, int))
    ensures Plain(UpdateBody(attr, key, value, mapSlot, log, msg))
  {
    var a, b, c := Blob2Blob(attr, 4, mapSlot), RelStore(attr + 8, key), RelStore(attr + 16, value);
    MovesPlain(attr, 4, mapSlot, false);
    MovesPlain(attr + 8, 4, key, false);
    MovesPlain(attr + 16, 4, value, false);
    CommandPlain(2, attr, 32, log, msg);
    PlainJoin(a, b);
    PlainJoin(a + b, c);
    PlainJoin(a + b + c, Command(2, attr, 32, log, msg));
  }

  function MapUpdateBody(idx: int, size: int, attr: int, key: int, value: int, mapSlot: int, log: bool, msg: (int, int)): seq<Insn> {
    InitialValue(idx, value, size) + UpdateBody(attr, key, value, mapSlot, log, msg)
  }

  lemma MapUpdatePlain(idx: int, size: int, attr: int, key: int, value: int, mapSlot: int, log: bool, msg: (int, int))
    ensures Plain(MapUpdateBody(idx, size, attr, key, value, mapSlot, log, msg))
  {
    var f := InitialValue(idx, value, size);
    forall i | 0 <= i < |f| ensures PlainAt(f, i) { }
    UpdatePlain(attr, key, value, mapSlot, log, msg);
    PlainJoin(f, UpdateBody(attr, key, value, mapSlot, log, msg));
  }

  function MapFreezeBody(attr: int, mapSlot: int, log: bool, msg: (int, int)): seq<Insn> {
    Blob2Blob(attr, 4, mapSlot) + Command(22, attr, 4, log, msg)
  }

  lemma MapFreezePlain(attr: int, mapSlot: int, log: bool, msg: (int, int))
    ensures Plain(MapFreezeBody(attr, mapSlot, log, msg))
  {
    MovesPlain(attr, 4, mapSlot, false);
    CommandPlain(22, attr, 4, log, msg);
    PlainJoin(Blob2Blob(attr, 4, mapSlot), Command(22, attr, 4, log, msg));
  }

  // ----- Symbol lookups and relocations; R8 points to the instruction relocated -----

  function FindByName(name: int, len: int, kind: int, log: bool, msg: (int, int)): seq<Insn> {
    [LdBlob(1, name), LdBlobTail, MovImm(2, len), MovImm(3, kind), MovImm(4, 0), Call(FindByNameKind), MovReg(7, 0)]
    + Debug(log, 7, -1, msg)
  }

  function KallsymsCall(name: int, len: int, res: int): seq<Insn> {
    [LdBlob(1, name), LdBlobTail, MovImm(2, len), MovImm(3, 0), LdBlob(4, res), LdBlobTail, MovReg(7, 4),
     Call(KallsymsLookupName), Ldx(8, 9, 7, 0), MovReg(7, 0)]
  }

  function Kallsyms(name: int, len: int, res: int, log: bool, msg: (int, int)): seq<Insn> {
    KallsymsCall(name, len, res) + Debug(log, 7, -1, msg)
  }

  lemma LookupsPlain(name: int, len: int, kind: int, res: int, log: bool, msg: (int, int))
    ensures Plain(FindByName(name, len, kind, log, msg)) && Plain(Kallsyms(name, len, res, log, msg))
  {
    var a := [LdBlob(1, name), LdBlobTail, MovImm(2, len), MovImm(3, kind), MovImm(4, 0), Call(FindByNameKind), MovReg(7, 0)];
    var b := KallsymsCall(name, len, res);
    forall i | 0 <= i < |a| ensures PlainAt(a, i) { }
    forall i | 0 <= i < |b| ensures PlainAt(b, i) { }
    DebugPlain(log, 7, -1, msg);
    PlainJoin(a, Debug(log, 7, -1, msg));
    PlainJoin(b, Debug(log, 7, -1, msg));
  }

  /** A kernel function found: its BTF id into the call's immediate, its module's descriptor into
      slot `idx` of fd_array.  Not found: zeroes. */
  function KfuncBind(idx: int, slot: int): seq<Insn> {
    [Jmp(JSGE, 7, 0, 3), St(4, 8, 4, 0), St(2, 8, 2, 0), Ja(10)] + KfuncStore(idx, slot)
  }

  function KfuncStore(idx: int, slot: int): seq<Insn> {
    [Stx(4, 8, 7, 4), MovReg(9, 7), AluImm(RSH, 9, 32), LdBlob(0, slot), LdBlobTail] + KfuncOff(idx)
  }

  function KfuncOff(idx: int): seq<Insn> {
    [Stx(4, 0, 9, 0), Jmp(JNE, 9, 0, 2), St(2, 8, 2, 0), Ja(1), St(2, 8, 2, idx)]
  }

  function KfuncCopy(insn: int, from: int): seq<Insn> {
    Blob2Blob(insn + 4, 4, from + 4) + Blob2Blob(insn + 2, 2, from + 2)
  }

  function KfuncLog(log: bool, slot: int, msg1: (int, int), msg2: (int, int)): seq<Insn> {
    IfCode(log, [Ldx(4, 7, 8, 4), Ldx(2, 9, 8, 2)] + DebugRegs(7, 9, msg1)
                + [LdBlob(0, slot), LdBlobTail, Ldx(4, 9, 0, 0)] + DebugRegs(9, -1, msg2))
  }

  lemma KfuncPlain(idx: int, slot: int, insn: int, from: int, log: bool, msg1: (int, int), msg2: (int, int))
    ensures Plain(KfuncBind(idx, slot)) && Plain(KfuncCopy(insn, from)) && Plain(KfuncLog(log, slot, msg1, msg2))
  {
    forall i | 0 <= i < 14 ensures PlainAt(KfuncBind(idx, slot), i) { }
    MovesPlain(insn + 4, 4, from + 4, false);
    MovesPlain(insn + 2, 2, from + 2, false);
    PlainJoin(Blob2Blob(insn + 4, 4, from + 4), Blob2Blob(insn + 2, 2, from + 2));
    if log {
      var a, b := [Ldx(4, 7, 8, 4), Ldx(2, 9, 8, 2)], [LdBlob(0, slot), LdBlobTail, Ldx(4, 9, 0, 0)];
      forall i | 0 <= i < |a| ensures PlainAt(a, i) { }
      forall i | 0 <= i < |b| ensures PlainAt(b, i) { }
      DebugPlain(log, 7, 9, msg1);
      DebugPlain(log, 9, -1, msg2);
      PlainJoin(a, DebugRegs(7, 9, msg1));
      PlainJoin(a + DebugRegs(7, 9, msg1), b);
      PlainJoin(a + DebugRegs(7, 9, msg1) + b, DebugRegs(9, -1, msg2));
    }
  }

  /** The address in R9 split over the two immediates of a 64-bit load. */
  const STORE_ADDR := [Stx(4, 8, 9, 4), AluImm(RSH, 9, 32), Stx(4, 8, 9, 12)]

  /** An address that is not known is no error. */
  function TypelessBind(pos: nat, cleanup: nat): seq<Insn> {
    [Jmp(JEQ, 7, -2, 1)] + CheckErr(pos + 1, cleanup) + STORE_ADDR
  }

  lemma TypelessLength(pos: nat, cleanup: nat)
    ensures |TypelessBind(pos, cleanup)| == 5
  {
  }

  lemma TypelessSound(pos: nat, cleanup: nat)
    requires Near(pos + 1, cleanup)
    ensures FragmentOk(TypelessBind(pos, cleanup), pos, cleanup)
  {
    var f := TypelessBind(pos, cleanup);
    forall i | 0 <= i < |f| ensures BranchOk(f, pos, cleanup, i) && PairOk(f, i) { }
  }

  function TypelessCopy(insn: int, from: int): seq<Insn> {
    Blob2Blob(insn + 4, 4, from + 4) + Blob2Blob(insn + 12, 4, from + 12)
  }

  const CLEAR_SRC := [Ldx(1, 9, 8, 1), AluImm(AND32, 9, 15), Stx(1, 8, 9, 1)]

  const KSYM_STORE := [Jmp(JSGE, 7, 0, 3), St(4, 8, 4, 0), St(4, 8, 12, 0), Ja(4),
                       Stx(4, 8, 7, 4), AluImm(RSH, 7, 32), Stx(4, 8, 7, 12), Ja(3)]

  /** A typed variable found: its BTF id and its module's descriptor into the two immediates of
      the 64-bit load.  Not found: zeroes, and the load's source register is cleared. */
  function KsymBind(): seq<Insn> {
    KSYM_STORE + CLEAR_SRC
  }

  function KsymCopy(insn: int, from: int): seq<Insn> {
    Blob2Blob(insn + 12, 4, from + 12) + Blob2Blob(insn + 4, 4, from + 4) + ([Jmp(JNE, 0, 0, 3)] + CLEAR_SRC)
  }

  function KsymLog(log: bool, msg1: (int, int), msg2: (int, int)): seq<Insn> {
    IfCode(log, [Ldx(4, 7, 8, 4), Ldx(2, 9, 8, 12)] + DebugRegs(7, 9, msg1) + [Ldx(1, 9, 8, 1)] + DebugRegs(9, -1, msg2))
  }

  lemma KsymPlain(insn: int, from: int, log: bool, msg1: (int, int), msg2: (int, int))
    ensures Plain(KsymBind()) && Plain(KsymCopy(insn, from)) && Plain(TypelessCopy(insn, from))
    ensures Plain(KsymLog(log, msg1, msg2))
  {
    forall i | 0 <= i < 11 ensures PlainAt(KsymBind(), i) { }
    MovesPlain(insn + 12, 4, from + 12, false);
    MovesPlain(insn + 4, 4, from + 4, false);
    var a, b := Blob2Blob(insn + 12, 4, from + 12), Blob2Blob(insn + 4, 4, from + 4);
    var c := [Jmp(JNE, 0, 0, 3)] + CLEAR_SRC;
    forall i | 0 <= i < |c| ensures PlainAt(c, i) { }
    PlainJoin(a, b);
    PlainJoin(b, a);
    PlainJoin(a + b, c);
    if log {
      var d, e := [Ldx(4, 7, 8, 4), Ldx(2, 9, 8, 12)], [Ldx(1, 9, 8, 1)];
      forall i | 0 <= i < |d| ensures PlainAt(d, i) { }
      assert PlainAt(e, 0);
      DebugPlain(log, 7, 9, msg1);
      DebugPlain(log, 9, -1, msg2);
      PlainJoin(d, DebugRegs(7, 9, msg1));
      PlainJoin(d + DebugRegs(7, 9, msg1), e);
      PlainJoin(d + DebugRegs(7, 9, msg1) + e, DebugRegs(9, -1, msg2));
    }
  }

  // ----- PROG_LOAD -----

  /** Pointers to the parts of the program, and to the descriptors it may use. */
  function ProgPointers(attr: int, license: int, insns: int, funcs: int, lines: int, relos: int, fdArray: int): seq<Insn> {
    (RelStore(attr + 16, license) + RelStore(attr + 8, insns) + RelStore(attr + 80, funcs))
    + (RelStore(attr + 96, lines) + RelStore(attr + 128, relos) + RelStore(attr + 120, fdArray))
  }

  function ProgLoadHead(attr: int, license: int, insns: int, funcs: int, lines: int, relos: int, fdArray: int): seq<Insn> {
    ProgPointers(attr, license, insns, funcs, lines, relos, fdArray)
    + LogSettings(attr + 24, attr + 28, attr + 32) + Stack2Blob(attr + 72, 4, BTF_FD_OFF)
  }

  lemma ProgLoadHeadPlain(attr: int, license: int, insns: int, funcs: int, lines: int, relos: int, fdArray: int)
    ensures Plain(ProgLoadHead(attr, license, insns, funcs, lines, relos, fdArray))
  {
    hide Plain, RelStore, LogSettings, Stack2Blob;
    var a, b, c := RelStore(attr + 16, license), RelStore(attr + 8, insns), RelStore(attr + 80, funcs);
    var d, e, f := RelStore(attr + 96, lines), RelStore(attr + 128, relos), RelStore(attr + 120, fdArray);
    MovesPlain(attr + 16, 4, license, false);
    MovesPlain(attr + 8, 4, insns, false);
    MovesPlain(attr + 80, 4, funcs, false);
    MovesPlain(attr + 96, 4, lines, false);
    MovesPlain(attr + 128, 4, relos, false);
    MovesPlain(attr + 120, 4, fdArray, false);
    MovesPlain(attr + 72, 4, BTF_FD_OFF, false);
    LogSettingsPlain(attr + 24, attr + 28, attr + 32);
    PlainJoin(a, b);
    PlainJoin(a + b, c);
    PlainJoin(d, e);
    PlainJoin(d + e, f);
    PlainJoin(a + b + c, d + e + f);
    PlainJoin(a + b + c + (d + e + f), LogSettings(attr + 24, attr + 28, attr + 32));
    PlainJoin(a + b + c + (d + e + f) + LogSettings(attr + 24, attr + 28, attr + 32), Stack2Blob(attr + 72, 4, BTF_FD_OFF));
  }

  /** A lookup whose failure is an error unless the symbol is weak. */
  function Lookup(f: seq<Insn>, pos: nat, cleanup: nat, weak: bool): seq<Insn> {
    f + IfCode(!weak, CheckErr(pos + |f|, cleanup))
  }

  lemma LookupSound(f: seq<Insn>, pos: nat, cleanup: nat, weak: bool, rest: seq<Insn>)
    requires Plain(f) && Plain(rest) && Near(pos + |f|, cleanup)
    ensures FragmentOk(Lookup(f, pos, cleanup, weak) + rest, pos, cleanup)
  {
    PlainSound(f, pos, cleanup);
    if weak {
      assert Lookup(f, pos, cleanup, weak) == f;
      PlainSound(rest, pos + |f|, cleanup);
      FragmentsJoin(f, rest, pos, cleanup);
    } else {
      CheckedSound(f, pos, cleanup, rest);
    }
  }

  /** The BTF id and the descriptor the helper packed into R7 go to the attribute. */
  function AttachBind(attr: int): seq<Insn> {
    [LdBlob(0, attr), LdBlobTail, Stx(4, 0, 7, 108), AluImm(RSH, 7, 32), Stx(4, 0, 7, 112)]
  }

  lemma AttachSound(name: int, len: int, kind: int, attr: int, pos: nat, cleanup: nat, log: bool, msg: (int, int))
    requires Near(pos + |FindByName(name, len, kind, log, msg)|, cleanup)
    ensures FragmentOk(Checked(FindByName(name, len, kind, log, msg), pos, cleanup, AttachBind(attr)), pos, cleanup)
  {
    LookupsPlain(name, len, kind, 0, log, msg);
    PlainSound(FindByName(name, len, kind, log, msg), pos, cleanup);
    forall i | 0 <= i < 5 ensures PlainAt(AttachBind(attr), i) { }
    CheckedSound(FindByName(name, len, kind, log, msg), pos, cleanup, AttachBind(attr));
  }
}

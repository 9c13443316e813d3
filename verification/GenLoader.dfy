/** The generator: appends instructions and data with a sticky error, and keeps every branch sound. */
module GenLoader {
  import opened LoaderCode
  import opened LoaderOps
  import opened LoaderParts
  import opened LoaderTypes

  // ----- The generator -----

  class Gen {
    var insns: seq<Insn>
    var dataLen: nat
    var error: int
    var logLevel: int
    var cleanupLabel: nat
    var nrProgs: nat
    var nrMaps: nat
    var fdArray: nat
    var nrFdArray: int
    var relos: seq<Relo>
    var ksyms: seq<Ksym>
    var coreReloCnt: nat
    var attachKind: int
    var attachTarget: string

    // What the cleanup code was generated for.
    ghost var progSlots: nat
    ghost var msgs: seq<(int, int)>

    function Out(): Buf reads this { Buf(insns, dataLen, error) }

    predicate Log() reads this { logLevel != 0 }

    /** Short of an error, the program so far is sound; between commands no symbol is known. */
    ghost predicate Valid() reads this {
      && fdArray == 0 && cleanupLabel <= LABEL && nrMaps <= MAX_USED_MAPS && ksyms == [] && (error == 0 ==> nrFdArray == 0)
      && Fits(Out(), cleanupLabel, progSlots, Log(), msgs, Space())
    }

    /** The descriptor slots the program may use. */
    ghost function Space(): Room reads this { RoomFor(progSlots, nrProgs, |msgs|, nrMaps) }

    /** While a program is loaded these are kept. */
    ghost predicate Loading() reads this {
      && fdArray == 0 && cleanupLabel <= LABEL && nrMaps <= MAX_USED_MAPS
      && (error == 0 ==>
            && cleanupLabel == LABEL && 4 * MAX_FD_ARRAY_SZ <= dataLen && dataLen % 8 == 0
            && Slots(ksyms, nrFdArray, dataLen))
      && Distinct(ksyms)
    }

    // ----- Buffers -----

    /** One instruction. */
    method Emit(insn: Insn)
      modifies `insns, `error
      ensures Appends(old(Out()), Out(), [insn], 0, true)
    {
      if error != 0 { return; }
      if (|insns| + 1) * 8 > INT32_MAX {
        error := -ERANGE;
        return;
      }
      insns := insns + [insn];
    }

    method Emit2(insn1: Insn, insn2: Insn)
      modifies `insns, `error
      ensures Appends(old(Out()), Out(), [insn1, insn2], 0, true)
    {
      ghost var a := Out();
      Emit(insn1);
      ghost var b := Out();
      Emit(insn2);
      Join(a, b, Out(), [insn1], 0, true, [insn2], 0, true);
      assert [insn1] + [insn2] == [insn1, insn2];
    }

    /** Room for `size` bytes in the data blob, at a multiple of eight. */
    method AddData(size: nat) returns (addr: nat)
      modifies `dataLen, `error
      ensures Appends(old(Out()), Out(), [], Words(size), true)
      ensures addr == if error == 0 then old(dataLen) else 0
    {
      if error != 0 { return 0; }
      var size8 := 8 * Words(size);
      if size8 > INT32_MAX || dataLen + size8 > INT32_MAX {
        error := -ERANGE;
        return 0;
      }
      addr := dataLen;
      dataLen := dataLen + size8;
      assert insns == old(insns) + [];
    }

    // ----- Moves, commands, closes -----

    method EmitRelStore(off: int, data: int)
      modifies `insns, `error
      ensures Appends(old(Out()), Out(), RelStore(off, data), 0, true)
    {
      Emit2(LdBlob(0, data), LdBlobTail);
      Emit2(LdBlob(1, off), LdBlobTail);
      Emit(Stx(8, 1, 0, 0));
      assert error == 0 ==> insns == old(insns) + RelStore(off, data);
    }

    method MoveBlob2Blob(off: int, size: nat, blobOff: int)
      modifies `insns, `error
      ensures Appends(old(Out()), Out(), Blob2Blob(off, size, blobOff), 0, true)
    {
      Emit2(LdBlob(2, blobOff), LdBlobTail);
      Emit(Ldx(size, 0, 2, 0));
      Emit2(LdBlob(1, off), LdBlobTail);
      Emit(Stx(size, 1, 0, 0));
      assert error == 0 ==> insns == old(insns) + Blob2Blob(off, size, blobOff);
    }

    method MoveBlob2Ctx(ctxOff: int, size: nat, blobOff: int)
      modifies `insns, `error
      ensures Appends(old(Out()), Out(), Blob2Ctx(ctxOff, size, blobOff), 0, true)
    {
      Emit2(LdBlob(1, blobOff), LdBlobTail);
      Emit(Ldx(size, 0, 1, 0));
      Emit(Stx(size, 6, 0, ctxOff));
      assert error == 0 ==> insns == old(insns) + Blob2Ctx(ctxOff, size, blobOff);
    }

    method MoveCtx2Blob(off: int, size: nat, ctxOff: int, checkNonZero: bool)
      modifies `insns, `error
      ensures Appends(old(Out()), Out(), Ctx2Blob(off, size, ctxOff, checkNonZero), 0, true)
    {
      Emit(Ldx(size, 0, 6, ctxOff));
      if checkNonZero {
        Emit(Jmp(JEQ, 0, 0, 3));
      }
      Emit2(LdBlob(1, off), LdBlobTail);
      Emit(Stx(size, 1, 0, 0));
      assert error == 0 ==> insns == old(insns) + Ctx2Blob(off, size, ctxOff, checkNonZero);
    }

    method MoveStack2Blob(off: int, size: nat, stackOff: int)
      modifies `insns, `error
      ensures Appends(old(Out()), Out(), Stack2Blob(off, size, stackOff), 0, true)
    {
      Emit(Ldx(size, 0, 10, stackOff));
      Emit2(LdBlob(1, off), LdBlobTail);
      Emit(Stx(size, 1, 0, 0));
      assert error == 0 ==> insns == old(insns) + Stack2Blob(off, size, stackOff);
    }

    method MoveStack2Ctx(ctxOff: int, size: nat, stackOff: int)
      modifies `insns, `error
      ensures Appends(old(Out()), Out(), Stack2Ctx(ctxOff, size, stackOff), 0, true)
    {
      Emit(Ldx(size, 0, 10, stackOff));
      Emit(Stx(size, 6, 0, ctxOff));
      assert error == 0 ==> insns == old(insns) + Stack2Ctx(ctxOff, size, stackOff);
    }

    method EmitSysBpf(cmd: int, attr: int, attrSize: int)
      modifies `insns, `error
      ensures Appends(old(Out()), Out(), SysBpfCall(cmd, attr, attrSize), 0, true)
    {
      Emit(MovImm(1, cmd));
      Emit2(LdBlob(2, attr), LdBlobTail);
      Emit(MovImm(3, attrSize));
      Emit(Call(SysBpf));
      Emit(MovReg(7, 0));
      assert error == 0 ==> insns == old(insns) + SysBpfCall(cmd, attr, attrSize);
    }

    /** The error branch: refused when its distance does not fit the offset field. */
    method EmitCheckErr()
      requires cleanupLabel <= LABEL
      modifies `insns, `error
      ensures Appends(old(Out()), Out(), CheckErr(|old(insns)|, cleanupLabel), 0, true)
      ensures error == 0 ==> Near(|old(insns)|, cleanupLabel)
    {
      var off := cleanupLabel - |insns| - 1;
      if IsSimm16(off) {
        Emit(Jmp(JSLT, 7, 0, off));
      } else {
        error := -ERANGE;
        Emit(Ja(-1));
      }
    }

    /** A message of some length is added and its logging emitted, unless logging is off. */
    method EmitDebug(reg1: int, reg2: int) returns (ghost msg: (int, int))
      modifies `insns, `dataLen, `error
      ensures msg.1 >= 0 && Appends(old(Out()), Out(), Debug(Log(), reg1, reg2, msg), MsgWords(Log(), msg), true)
    {
      msg := (0, 0);
      if logLevel == 0 {
        assert insns == old(insns) + [];
        return;
      }
      var len: nat :| 1 <= len <= 1024;
      var addr := AddData(len);
      msg := (addr, len);
      Emit2(LdBlob(1, addr), LdBlobTail);
      Emit(MovImm(2, len));
      ghost var a, f := Out(), [LdBlob(1, addr), LdBlobTail, MovImm(2, len)];
      assert Appends(old(Out()), a, f, MsgWords(true, msg), true);
      EmitTrace(reg1, reg2);
      Join(old(Out()), a, Out(), f, MsgWords(true, msg), true, Trace(reg1, reg2), 0, true);
      assert f + Trace(reg1, reg2) == DebugRegs(reg1, reg2, msg);
    }

    method EmitTrace(reg1: int, reg2: int)
      modifies `insns, `error
      ensures Appends(old(Out()), Out(), Trace(reg1, reg2), 0, true)
    {
      assert insns == old(insns) + [];
      if reg1 >= 0 {
        Emit(MovReg(3, reg1));
      }
      ghost var a, f := Out(), if reg1 >= 0 then [MovReg(3, reg1)] else [];
      assert Appends(old(Out()), a, f, 0, true);
      if reg2 >= 0 {
        Emit(MovReg(4, reg2));
      }
      Emit(Call(TracePrintk));
      ghost var g := (if reg2 >= 0 then [MovReg(4, reg2)] else []) + [Call(TracePrintk)];
      assert Appends(a, Out(), g, 0, true);
      Join(old(Out()), a, Out(), f, 0, true, g, 0, true);
      assert f + g == Trace(reg1, reg2);
    }

    method EmitClose() returns (ghost msg: (int, int))
      modifies `insns, `dataLen, `error
      ensures msg.1 >= 0 && Appends(old(Out()), Out(), CloseR1(Log(), msg), MsgWords(Log(), msg), true)
    {
      Emit(Jmp(JSLE, 1, 0, 2 + if logLevel != 0 then 6 else 0));
      Emit(MovReg(9, 1));
      Emit(Call(SysClose));
      msg := EmitDebug(9, 0);
      assert error == 0 ==> insns == old(insns) + CloseR1(Log(), msg);
    }

    method EmitCloseStack(stackOff: int) returns (ghost msg: (int, int))
      modifies `insns, `dataLen, `error
      ensures msg.1 >= 0 && Appends(old(Out()), Out(), CloseStack(stackOff, Log(), msg), MsgWords(Log(), msg), true)
    {
      Emit(Ldx(4, 1, 10, stackOff));
      msg := EmitClose();
      assert error == 0 ==> insns == old(insns) + CloseStack(stackOff, Log(), msg);
    }

    method EmitCloseBlob(blobOff: int) returns (ghost msg: (int, int))
      modifies `insns, `dataLen, `error
      ensures msg.1 >= 0 && Appends(old(Out()), Out(), CloseBlob(blobOff, Log(), msg), MsgWords(Log(), msg), true)
    {
      Emit2(LdBlob(0, blobOff), LdBlobTail);
      Emit(Ldx(4, 1, 0, 0));
      msg := EmitClose();
      assert error == 0 ==> insns == old(insns) + CloseBlob(blobOff, Log(), msg);
    }

    /** A command and the logging of its result. */
    method EmitCommand(cmd: int, attr: int, attrSize: int) returns (ghost msg: (int, int))
      modifies `insns, `dataLen, `error
      ensures msg.1 >= 0
      ensures Appends(old(Out()), Out(), Command(cmd, attr, attrSize, Log(), msg), MsgWords(Log(), msg), true)
    {
      EmitSysBpf(cmd, attr, attrSize);
      msg := EmitDebug(7, -1);
      assert error == 0 ==> insns == old(insns) + Command(cmd, attr, attrSize, Log(), msg);
    }

    // ----- bpf_gen__init -----

    /** All zero. */
    ghost predicate Blank() reads this {
      && insns == [] && dataLen == 0 && error == 0 && logLevel == 0 && cleanupLabel == 0 && nrProgs == 0 && nrMaps == 0
      && fdArray == 0 && nrFdArray == 0 && relos == [] && ksyms == [] && coreReloCnt == 0 && attachKind == 0
      && attachTarget == "" && msgs == []
    }

    constructor ()
      ensures Blank()
    {
      insns, dataLen, error, logLevel, cleanupLabel, nrProgs, nrMaps := [], 0, 0, 0, 0, 0, 0;
      fdArray, nrFdArray, coreReloCnt, relos, ksyms, attachKind, attachTarget := 0, 0, 0, [], [], 0, "";
      progSlots, msgs := 0, [];
    }

    /** The opening, then the cleanup code every error branch goes to. */
    method Init(level: int, progCnt: nat, mapCnt: nat)
      requires Blank()
      modifies `insns, `dataLen, `error, `logLevel, `cleanupLabel, `fdArray, `progSlots, `msgs
      ensures Valid()
      ensures |msgs| == mapCnt && progSlots == progCnt && logLevel == level
      ensures Appends(old(Out()), Out(),
                      Opening(S16(CleanupLength(progCnt, mapCnt, Log()))) + Cleanup(progCnt, 0, Log(), msgs),
                      Words(4 * MAX_FD_ARRAY_SZ) + AllWords(Log(), msgs), true)
    {
      hide Cleanup, Opening, CleanupLength, Appends, Fits, AllWords;
      progSlots := progCnt;
      fdArray := AddData(4 * MAX_FD_ARRAY_SZ);
      ghost var a := Out();
      logLevel := level;
      var jump := EmitOpening(progCnt, mapCnt);
      cleanupLabel := |insns|;
      ghost var b, opening := Out(), Opening(jump);
      Join(old(Out()), a, b, [], Words(4 * MAX_FD_ARRAY_SZ), true, opening, 0, true);
      assert [] + opening == opening;
      EmitCleanup(progCnt, mapCnt);
      Join(old(Out()), b, Out(), opening, Words(4 * MAX_FD_ARRAY_SZ), true,
           Cleanup(progCnt, fdArray, Log(), msgs), AllWords(Log(), msgs), true);
      Starts(old(Out()), opening, Cleanup(progCnt, fdArray, Log(), msgs), AllWords(Log(), msgs));
    }

    /** The opening and the cleanup code make a loader. */
    lemma Starts(start: Buf, opening: seq<Insn>, cleanup: seq<Insn>, words: nat)
      requires start == Buf([], 0, 0) && Appends(start, Out(), opening + cleanup, Words(4 * MAX_FD_ARRAY_SZ) + words, true)
      requires opening == Opening(S16(CleanupLength(progSlots, |msgs|, Log())))
      requires cleanup == Cleanup(progSlots, fdArray, Log(), msgs)
      requires fdArray == 0 && ksyms == [] && nrFdArray == 0 && cleanupLabel <= LABEL && nrMaps == nrProgs == 0
      requires error == 0 ==> cleanupLabel == LABEL
      ensures Valid()
    {
      hide Opening, Cleanup, CleanupLength, FragmentOk, TypedLoader;
      if error == 0 {
        CleanupSound(progSlots, fdArray, Log(), msgs, LABEL, LABEL);
        CleanupLengthExact(progSlots, fdArray, Log(), msgs);
        assert insns == opening + cleanup;
        NothingBehind(insns, progSlots, Log(), |msgs|, Space());
        assert insns[LABEL..] == cleanup;
      }
    }

    method EmitCleanup(nrProgs: nat, nrMaps: nat)
      requires msgs == []
      modifies `insns, `error, `dataLen, `msgs
      ensures |msgs| == nrMaps
      ensures Appends(old(Out()), Out(), Cleanup(nrProgs, fdArray, Log(), msgs), AllWords(Log(), msgs), true)
    {
      EmitStackCloses(nrProgs);
      ghost var a, f := Out(), StackCloses(2 + nrProgs);
      EmitBlobCloses(nrMaps);
      ghost var b, g, words := Out(), BlobCloses(fdArray, Log(), msgs), AllWords(Log(), msgs);
      Join(old(Out()), a, b, f, 0, true, g, words, true);
      Emit(MovReg(0, 7));
      Emit(Exit);
      assert Appends(b, Out(), [MovReg(0, 7), Exit], 0, true);
      Join(old(Out()), b, Out(), f + g, words, true, [MovReg(0, 7), Exit], 0, true);
    }

    method EmitOpening(nrProgs: nat, nrMaps: nat) returns (jump: int)
      modifies `insns, `error
      ensures jump == S16(CleanupLength(nrProgs, nrMaps, Log()))
      ensures Appends(old(Out()), Out(), Opening(jump), 0, true)
    {
      Emit(MovReg(6, 1));
      Emit(MovReg(1, 10));
      Emit(AluImm(ADD, 1, -STACK_SZ));
      Emit(MovImm(2, STACK_SZ));
      Emit(MovImm(3, 0));
      Emit(Call(ProbeReadKernel));
      var nrProgsSz := 8 + 4 * nrProgs;
      jump := S16(nrProgsSz / 4 * 3 + 2 + nrMaps * (6 + if logLevel != 0 then 6 else 0));
      Emit(Ja(jump));
      assert error == 0 ==> insns == old(insns) + Opening(jump);
    }

    method EmitStackCloses(nrProgs: nat)
      modifies `insns, `error
      ensures Appends(old(Out()), Out(), StackCloses(2 + nrProgs), 0, true)
    {
      var i := 0;
      assert insns == old(insns) + [];
      while i < 8 + 4 * nrProgs
        invariant 0 <= i <= 8 + 4 * nrProgs && i % 4 == 0
        invariant Appends(old(Out()), Out(), StackCloses(i / 4), 0, true)
      {
        ghost var a := Out();
        Emit(Ldx(4, 1, 10, -STACK_SZ + i));
        Emit(Jmp(JSLE, 1, 0, 1));
        Emit(Call(SysClose));
        ghost var f := [Ldx(4, 1, 10, -STACK_SZ + i), Jmp(JSLE, 1, 0, 1), Call(SysClose)];
        assert Appends(a, Out(), f, 0, true);
        Join(old(Out()), a, Out(), StackCloses(i / 4), 0, true, f, 0, true);
        assert StackCloses((i + 4) / 4) == StackCloses(i / 4) + f;
        i := i + 4;
      }
    }

    method EmitBlobCloses(nrMaps: nat)
      requires msgs == []
      modifies `insns, `error, `dataLen, `msgs
      ensures |msgs| == nrMaps
      ensures Appends(old(Out()), Out(), BlobCloses(fdArray, Log(), msgs), AllWords(Log(), msgs), true)
    {
      var i := 0;
      assert insns == old(insns) + [];
      while i < nrMaps
        invariant 0 <= i <= nrMaps && |msgs| == i
        invariant Appends(old(Out()), Out(), BlobCloses(fdArray, Log(), msgs), AllWords(Log(), msgs), true)
      {
        ghost var a, ms := Out(), msgs;
        ghost var msg := EmitCloseBlob(fdArray + 4 * i);
        msgs := ms + [msg];
        Join(old(Out()), a, Out(), BlobCloses(fdArray, Log(), ms), AllWords(Log(), ms), true,
             CloseBlob(fdArray + 4 * i, Log(), msg), MsgWords(Log(), msg), true);
        BlobClosesNext(fdArray, Log(), ms, msg);
        i := i + 1;
      }
    }

    // ----- Commands -----

    method EmitLogSettings(level: int, size: int, buf: int)
      modifies `insns, `error
      ensures Appends(old(Out()), Out(), LogSettings(level, size, buf), 0, true)
    {
      MoveCtx2Blob(level, 4, 8, false);
      MoveCtx2Blob(size, 4, 12, false);
      MoveCtx2Blob(buf, 8, 16, false);
      assert error == 0 ==> insns == old(insns) + LogSettings(level, size, buf);
    }

    /** BTF_LOAD: on success the descriptor stays in the stack. */
    method LoadBtf(size: nat) returns (ghost data: nat, ghost attr: nat, ghost msg: (int, int))
      requires Valid()
      modifies `insns, `dataLen, `error
      ensures Valid()
      ensures error == 0 ==> data == old(dataLen) && attr == data + 8 * Words(size)
      ensures Appends(old(Out()), Out(),
                      Checked(LoadBtfBody(data, attr, Log(), msg), |old(insns)|, cleanupLabel, KeepInStack(BTF_FD_OFF)),
                      Words(size) + Words(28) + MsgWords(Log(), msg), true)
    {
      hide Loader, TypedLoader, CommandOk, LoadBtfBody;
      data, attr, msg := EmitLoadBtf(size);
      ghost var body, words := LoadBtfBody(data, attr, Log(), msg), Words(size) + Words(28) + MsgWords(Log(), msg);
      ghost var mid := Out();
      EmitCheckErr();
      ghost var last := Out();
      Emit(Stx(4, 10, 7, BTF_FD_OFF));
      if error == 0 {
        LoadBtfOk(data, attr, Log(), msg, |old(insns)|, cleanupLabel, Space());
      }
      CheckedFits(old(Out()), mid, last, Out(), body, words, true, KeepInStack(BTF_FD_OFF), 0, true,
                  cleanupLabel, progSlots, Log(), msgs, Space(), Space());
    }

    method EmitLoadBtf(size: nat) returns (data: nat, attr: nat, ghost msg: (int, int))
      modifies `insns, `dataLen, `error
      ensures error == 0 ==> data == old(dataLen) && attr == data + 8 * Words(size)
      ensures Appends(old(Out()), Out(), LoadBtfBody(data, attr, Log(), msg), Words(size) + Words(28) + MsgWords(Log(), msg), true)
    {
      data := AddData(size);
      attr := AddData(28);
      ghost var a := Out();
      assert Appends(old(Out()), a, [], Words(size) + Words(28), true);
      msg := EmitLoadBtfCode(data, attr);
      JoinData(old(Out()), a, Out(), Words(size) + Words(28), LoadBtfBody(data, attr, Log(), msg), MsgWords(Log(), msg));
    }

    method EmitLoadBtfCode(data: nat, attr: nat) returns (ghost msg: (int, int))
      modifies `insns, `dataLen, `error
      ensures Appends(old(Out()), Out(), LoadBtfBody(data, attr, Log(), msg), MsgWords(Log(), msg), true)
    {
      EmitLogSettings(attr + 24, attr + 20, attr + 8);
      EmitRelStore(attr, data);
      msg := EmitCommand(18, attr, 28);
      assert error == 0 ==> insns == old(insns) + LoadBtfBody(data, attr, Log(), msg);
    }

    /** A slot for the descriptor of the next map; the limit is only noticed here. */
    method AddMapFd() returns (idx: nat)
      modifies `nrMaps, `error
      ensures if old(nrMaps) == MAX_USED_MAPS then nrMaps == old(nrMaps) && error == -E2BIG && idx == 0
              else nrMaps == old(nrMaps) + 1 && error == old(error) && idx == old(nrMaps)
    {
      if nrMaps == MAX_USED_MAPS {
        error := -E2BIG;
        return 0;
      }
      idx := nrMaps;
      nrMaps := nrMaps + 1;
    }

    /** MAP_CREATE.  Tracked maps must come in order; -1 creates the inner map of the next one. */
    method MapCreate(valueTyped: bool, ofMaps: bool, mapIdx: int)
      returns (ghost attr: nat, ghost msg: (int, int), ghost msg2: (int, int))
      requires Valid()
      modifies `insns, `dataLen, `error, `nrMaps
      ensures Valid()
      ensures error == 0 ==> attr == old(dataLen) && InOrder(old(nrMaps), mapIdx)
      ensures nrMaps == if 0 <= mapIdx == old(nrMaps) != MAX_USED_MAPS then old(nrMaps) + 1 else old(nrMaps)
      ensures Appends(old(Out()), Out(),
                      Checked(MapCreateBody(attr, valueTyped, ofMaps, mapIdx, Log(), msg), |old(insns)|, cleanupLabel,
                              MapCreateTail(fdArray, ofMaps, mapIdx, Log(), msg2)),
                      Words(72) + MsgWords(Log(), msg) + if ofMaps then MsgWords(Log(), msg2) else 0,
                      InOrder(old(nrMaps), mapIdx))
    {
      hide Loader, TypedLoader, CommandOk, MapCreateBody, MapCreateTail;
      ghost var log, ok, was := Log(), InOrder(nrMaps, mapIdx), Space();
      attr, msg := EmitMapCreate(valueTyped, ofMaps, mapIdx);
      ghost var body, words := MapCreateBody(attr, valueTyped, ofMaps, mapIdx, log, msg), Words(72) + MsgWords(log, msg);
      ghost var mid := Out();
      assert Appends(old(Out()), mid, body, words, true);
      EmitCheckErr();
      ghost var last := Out();
      msg2 := EmitKeepMap(ofMaps, mapIdx);
      ghost var tail, more := MapCreateTail(fdArray, ofMaps, mapIdx, log, msg2), if ofMaps then MsgWords(log, msg2) else 0;
      assert Log() == log && Appends(last, Out(), tail, more, ok);
      if error == 0 {
        MapCreateOk(attr, valueTyped, ofMaps, mapIdx, log, msg, msg2, |old(insns)|, cleanupLabel, Space());
      }
      CheckedFits(old(Out()), mid, last, Out(), body, words, true, tail, more, ok, cleanupLabel, progSlots, Log(), msgs, was, Space());
    }

    method EmitMapCreate(valueTyped: bool, ofMaps: bool, mapIdx: int) returns (attr: nat, ghost msg: (int, int))
      modifies `insns, `dataLen, `error
      ensures error == 0 ==> attr == old(dataLen)
      ensures Appends(old(Out()), Out(), MapCreateBody(attr, valueTyped, ofMaps, mapIdx, Log(), msg),
                      Words(72) + MsgWords(Log(), msg), true)
    {
      attr := AddData(72);
      ghost var a, body := Out(), MapCreateSettings(attr, valueTyped, ofMaps, mapIdx);
      EmitMapSettings(attr, valueTyped, ofMaps, mapIdx);
      ghost var b := Out();
      msg := EmitCommand(0, attr, 72);
      ghost var command := Command(0, attr, 72, Log(), msg);
      Join(a, b, Out(), body, 0, true, command, MsgWords(Log(), msg), true);
      JoinData(old(Out()), a, Out(), Words(72), body + command, MsgWords(Log(), msg));
    }

    method EmitMapSettings(attr: nat, valueTyped: bool, ofMaps: bool, mapIdx: int)
      modifies `insns, `error
      ensures Appends(old(Out()), Out(), MapCreateSettings(attr, valueTyped, ofMaps, mapIdx), 0, true)
    {
      if valueTyped {
        MoveStack2Blob(attr + 48, 4, BTF_FD_OFF);
      }
      ghost var b, f := Out(), IfCode(valueTyped, Stack2Blob(attr + 48, 4, BTF_FD_OFF));
      assert Appends(old(Out()), b, f, 0, true) by { assert old(insns) + [] == old(insns); }
      if ofMaps {
        MoveStack2Blob(attr + 20, 4, INNER_MAP_FD_OFF);
      }
      ghost var c, g := Out(), IfCode(ofMaps, Stack2Blob(attr + 20, 4, INNER_MAP_FD_OFF));
      assert Appends(b, c, g, 0, true) by { assert b.insns + [] == b.insns; }
      Join(old(Out()), b, c, f, 0, true, g, 0, true);
      if mapIdx >= 0 {
        MoveCtx2Blob(attr + 12, 4, CtxMap(mapIdx) + 4, true);
      }
      ghost var h := IfCode(mapIdx >= 0, Ctx2Blob(attr + 12, 4, CtxMap(mapIdx) + 4, true));
      assert Appends(c, Out(), h, 0, true) by { assert c.insns + [] == c.insns; }
      Join(old(Out()), c, Out(), f + g, 0, true, h, 0, true);
    }

    /** Remembers the new map's descriptor. */
    method EmitKeepMap(ofMaps: bool, mapIdx: int) returns (ghost msg: (int, int))
      requires nrMaps <= MAX_USED_MAPS
      modifies `insns, `dataLen, `error, `nrMaps
      ensures error == 0 ==> InOrder(old(nrMaps), mapIdx)
      ensures nrMaps == if 0 <= mapIdx == old(nrMaps) != MAX_USED_MAPS then old(nrMaps) + 1 else old(nrMaps)
      ensures Appends(old(Out()), Out(), MapCreateTail(fdArray, ofMaps, mapIdx, Log(), msg),
                      if ofMaps then MsgWords(Log(), msg) else 0, InOrder(old(nrMaps), mapIdx))
    {
      msg := (0, 0);
      if mapIdx < 0 {
        Emit(Stx(4, 10, 7, INNER_MAP_FD_OFF));
      } else if mapIdx != nrMaps {
        error := -EDOM;
        return;
      } else {
        var idx := AddMapFd();
        Emit2(LdBlob(1, fdArray + 4 * idx), LdBlobTail);
        Emit(Stx(4, 1, 7, 0));
      }
      ghost var a, f := Out(), if mapIdx < 0 then KeepInStack(INNER_MAP_FD_OFF) else KeepInBlob(fdArray + 4 * mapIdx);
      assert a.error == 0 ==> InOrder(old(nrMaps), mapIdx);
      assert Appends(old(Out()), a, f, 0, InOrder(old(nrMaps), mapIdx));
      if ofMaps {
        msg := EmitCloseStack(INNER_MAP_FD_OFF);
        Join(old(Out()), a, Out(), f, 0, InOrder(old(nrMaps), mapIdx),
             CloseStack(INNER_MAP_FD_OFF, Log(), msg), MsgWords(Log(), msg), true);
      } else {
        assert f + [] == f;
      }
    }

    /** MAP_UPDATE_ELEM of element zero, with an initial value the caller may override. */
    method MapUpdateElem(mapIdx: int, valueSize: nat) returns (ghost value: nat, ghost key: nat, ghost attr: nat, ghost msg: (int, int))
      requires Valid()
      modifies `insns, `dataLen, `error
      ensures Valid()
      ensures error == 0 ==> value == old(dataLen) && key == value + 8 * Words(valueSize) && attr == key + 8
      ensures Appends(old(Out()), Out(),
                      Checked(MapUpdateBody(mapIdx, valueSize, attr, key, value, fdArray + 4 * mapIdx, Log(), msg),
                              |old(insns)|, cleanupLabel, []),
                      Words(valueSize) + 5 + MsgWords(Log(), msg), true)
    {
      hide Loader, TypedLoader, Plain, Answers, MapUpdateBody;
      ghost var log := Log();
      var mapSlot := fdArray + 4 * mapIdx;
      value, key, attr, msg := EmitMapUpdate(mapIdx, valueSize, mapSlot);
      ghost var mid, body := Out(), MapUpdateBody(mapIdx, valueSize, attr, key, value, mapSlot, log, msg);
      ghost var words := Words(valueSize) + 5 + MsgWords(log, msg);
      assert Appends(old(Out()), mid, body, words, true);
      EmitCheckErr();
      MapUpdatePlain(mapIdx, valueSize, attr, key, value, mapSlot, log, msg);
      if error == 0 {
        MapUpdateTyped(mapIdx, valueSize, attr, key, value, mapSlot, log, msg, Space());
      }
      CheckedEnds(old(Out()), mid, Out(), body, words, cleanupLabel, progSlots, Log(), msgs, Space());
      assert Log() == log && fdArray + 4 * mapIdx == mapSlot;
    }

    method EmitMapUpdate(mapIdx: int, valueSize: nat, mapSlot: int)
      returns (value: nat, key: nat, attr: nat, ghost msg: (int, int))
      modifies `insns, `dataLen, `error
      ensures error == 0 ==> value == old(dataLen) && key == value + 8 * Words(valueSize) && attr == key + 8
      ensures Appends(old(Out()), Out(), MapUpdateBody(mapIdx, valueSize, attr, key, value, mapSlot, Log(), msg),
                      Words(valueSize) + 5 + MsgWords(Log(), msg), true)
    {
      value := AddData(valueSize);
      key := AddData(4);
      ghost var a, words := Out(), Words(valueSize) + 1;
      assert Appends(old(Out()), a, [], words, true);
      EmitInitialValue(mapIdx, value, valueSize);
      ghost var b, f := Out(), InitialValue(mapIdx, value, valueSize);
      JoinData(old(Out()), a, b, words, f, 0);
      attr := AddData(32);
      ghost var c := Out();
      Join(old(Out()), b, c, f, words, true, [], 4, true);
      assert f + [] == f;
      msg := EmitUpdate(attr, key, value, mapSlot);
      Join(old(Out()), c, Out(), f, words + 4, true, UpdateBody(attr, key, value, mapSlot, Log(), msg),
           MsgWords(Log(), msg), true);
    }

    method EmitInitialValue(mapIdx: int, value: nat, valueSize: nat)
      modifies `insns, `error
      ensures Appends(old(Out()), Out(), InitialValue(mapIdx, value, valueSize), 0, true)
    {
      Emit(Ldx(8, 3, 6, CtxMap(mapIdx) + 8));
      Emit(Jmp(JEQ, 3, 0, 8));
      Emit2(LdBlob(1, value), LdBlobTail);
      Emit(MovImm(2, valueSize));
      ghost var a, f := Out(), [Ldx(8, 3, 6, CtxMap(mapIdx) + 8), Jmp(JEQ, 3, 0, 8), LdBlob(1, value), LdBlobTail, MovImm(2, valueSize)];
      assert Appends(old(Out()), a, f, 0, true);
      EmitCopy();
      Join(old(Out()), a, Out(), f, 0, true, COPY, 0, true);
      assert f + COPY == InitialValue(mapIdx, value, valueSize);
    }

    method EmitCopy()
      modifies `insns, `error
      ensures Appends(old(Out()), Out(), COPY, 0, true)
    {
      Emit(Ldx(4, 0, 6, 4));
      Emit(Jmp(JSET, 0, 1, 2));
      Emit(Call(CopyFromUser));
      Emit(Ja(1));
      Emit(Call(ProbeReadKernel));
      assert error == 0 ==> insns == old(insns) + COPY;
    }

    method EmitUpdate(attr: nat, key: nat, value: int, mapSlot: int) returns (ghost msg: (int, int))
      modifies `insns, `dataLen, `error
      ensures Appends(old(Out()), Out(), UpdateBody(attr, key, value, mapSlot, Log(), msg), MsgWords(Log(), msg), true)
    {
      MoveBlob2Blob(attr, 4, mapSlot);
      EmitRelStore(attr + 8, key);
      EmitRelStore(attr + 16, value);
      ghost var a, f := Out(), Blob2Blob(attr, 4, mapSlot) + RelStore(attr + 8, key) + RelStore(attr + 16, value);
      assert Appends(old(Out()), a, f, 0, true);
      msg := EmitCommand(2, attr, 32);
      Join(old(Out()), a, Out(), f, 0, true, Command(2, attr, 32, Log(), msg), MsgWords(Log(), msg), true);
    }

    /** MAP_UPDATE_ELEM of one slot of a map of maps. */
    method PopulateOuterMap(outerIdx: int, slot: int, innerIdx: int) returns (ghost key: nat, ghost attr: nat, ghost msg: (int, int))
      requires Valid()
      modifies `insns, `dataLen, `error
      ensures Valid()
      ensures error == 0 ==> key == old(dataLen) && attr == key + 8
      ensures Appends(old(Out()), Out(),
                      Checked(UpdateBody(attr, key, fdArray + 4 * innerIdx, fdArray + 4 * outerIdx, Log(), msg),
                              |old(insns)|, cleanupLabel, []),
                      5 + MsgWords(Log(), msg), true)
    {
      hide Loader, TypedLoader, Plain, Answers, UpdateBody;
      ghost var log := Log();
      var outer, inner := fdArray + 4 * outerIdx, fdArray + 4 * innerIdx;
      key, attr, msg := EmitPopulate(outer, inner);
      ghost var mid, body, words := Out(), UpdateBody(attr, key, inner, outer, log, msg), 5 + MsgWords(log, msg);
      assert Appends(old(Out()), mid, body, words, true);
      EmitCheckErr();
      UpdatePlain(attr, key, inner, outer, log, msg);
      if error == 0 {
        UpdateTyped(attr, key, inner, outer, log, msg, Space());
      }
      CheckedEnds(old(Out()), mid, Out(), body, words, cleanupLabel, progSlots, Log(), msgs, Space());
      assert Log() == log && fdArray + 4 * outerIdx == outer && fdArray + 4 * innerIdx == inner;
    }

    method EmitPopulate(outer: int, inner: int) returns (key: nat, attr: nat, ghost msg: (int, int))
      modifies `insns, `dataLen, `error
      ensures error == 0 ==> key == old(dataLen) && attr == key + 8
      ensures Appends(old(Out()), Out(), UpdateBody(attr, key, inner, outer, Log(), msg), 5 + MsgWords(Log(), msg), true)
    {
      key := AddData(4);
      attr := AddData(32);
      ghost var a := Out();
      assert Appends(old(Out()), a, [], 5, true);
      msg := EmitUpdate(attr, key, inner, outer);
      JoinData(old(Out()), a, Out(), 5, UpdateBody(attr, key, inner, outer, Log(), msg), MsgWords(Log(), msg));
    }

    /** MAP_FREEZE. */
    method MapFreeze(mapIdx: int) returns (ghost attr: nat, ghost msg: (int, int))
      requires Valid()
      modifies `insns, `dataLen, `error
      ensures Valid()
      ensures error == 0 ==> attr == old(dataLen)
      ensures Appends(old(Out()), Out(),
                      Checked(MapFreezeBody(attr, fdArray + 4 * mapIdx, Log(), msg), |old(insns)|, cleanupLabel, []),
                      1 + MsgWords(Log(), msg), true)
    {
      hide Loader, TypedLoader, Plain, Answers, MapFreezeBody;
      ghost var log := Log();
      var mapSlot := fdArray + 4 * mapIdx;
      attr, msg := EmitFreeze(mapSlot);
      ghost var mid, body, words := Out(), MapFreezeBody(attr, mapSlot, log, msg), 1 + MsgWords(log, msg);
      assert Appends(old(Out()), mid, body, words, true);
      EmitCheckErr();
      MapFreezePlain(attr, mapSlot, log, msg);
      if error == 0 {
        MapFreezeTyped(attr, mapSlot, log, msg, Space());
      }
      CheckedEnds(old(Out()), mid, Out(), body, words, cleanupLabel, progSlots, Log(), msgs, Space());
      assert Log() == log;
    }

    method EmitFreeze(mapSlot: int) returns (attr: nat, ghost msg: (int, int))
      modifies `insns, `dataLen, `error
      ensures error == 0 ==> attr == old(dataLen)
      ensures Appends(old(Out()), Out(), MapFreezeBody(attr, mapSlot, Log(), msg), 1 + MsgWords(Log(), msg), true)
    {
      ghost var log := Log();
      attr := AddData(4);
      ghost var a := Out();
      MoveBlob2Blob(attr, 4, mapSlot);
      ghost var b, f := Out(), Blob2Blob(attr, 4, mapSlot);
      JoinData(old(Out()), a, b, 1, f, 0);
      msg := EmitCommand(22, attr, 4);
      Join(old(Out()), b, Out(), f, 1, true, Command(22, attr, 4, log, msg), MsgWords(log, msg), true);
    }

    // ----- External symbols -----

    /** The descriptor of the symbol: an existing one with one more use, or a new one. */
    method GetKsymDesc(relo: Relo) returns (k: nat)
      modifies `ksyms
      ensures Got(old(ksyms), ksyms, k, relo)
    {
      k := 0;
      while k < |ksyms|
        invariant 0 <= k <= |ksyms| && ksyms == old(ksyms)
        invariant forall i {:trigger ksyms[i]} :: 0 <= i < k ==> !SameSym(ksyms[i], relo)
      {
        if SameSym(ksyms[k], relo) {
          ksyms := ksyms[k := ksyms[k].(ref := ksyms[k].ref + 1)];
          return;
        }
        k := k + 1;
      }
      ksyms := ksyms + [Ksym(relo.name, relo.kind, relo.ld64, 1, 0, 0, false)];
    }

    /** A slot of fd_array for a module's descriptor: a reserved one while there are any, then one
        in data added for it. */
    method AddKfuncBtfFd() returns (idx: int)
      modifies `dataLen, `error, `nrFdArray
      ensures Appends(old(Out()), Out(), [], if old(nrFdArray) == MAX_KFUNC_DESCS then 1 else 0, true)
      ensures nrFdArray == if old(nrFdArray) == MAX_KFUNC_DESCS then old(nrFdArray) else old(nrFdArray) + 1
      ensures error == 0 ==> idx == if old(nrFdArray) == MAX_KFUNC_DESCS then (old(dataLen) - fdArray) / 4
                                    else MAX_USED_MAPS + old(nrFdArray)
    {
      assert insns == insns + [];
      if nrFdArray == MAX_KFUNC_DESCS {
        var cur := AddData(4);
        return (cur - fdArray) / 4;
      }
      idx := MAX_USED_MAPS + nrFdArray;
      nrFdArray := nrFdArray + 1;
    }

    method EmitFindByName(relo: Relo) returns (name: nat, ghost msg: (int, int))
      modifies `insns, `dataLen, `error
      ensures error == 0 ==> name == old(dataLen)
      ensures Appends(old(Out()), Out(), FindByName(name, |relo.name| + 1, relo.kind, Log(), msg),
                      Words(|relo.name| + 1) + MsgWords(Log(), msg), true)
    {
      var len := |relo.name| + 1;
      name := AddData(len);
      ghost var a := Out();
      Emit2(LdBlob(1, name), LdBlobTail);
      Emit(MovImm(2, len));
      Emit(MovImm(3, relo.kind));
      Emit(MovImm(4, 0));
      Emit(Call(FindByNameKind));
      Emit(MovReg(7, 0));
      ghost var b, f := Out(), [LdBlob(1, name), LdBlobTail, MovImm(2, len), MovImm(3, relo.kind), MovImm(4, 0),
                                Call(FindByNameKind), MovReg(7, 0)];
      assert Appends(a, b, f, 0, true);
      JoinData(old(Out()), a, b, Words(len), f, 0);
      msg := EmitDebug(7, -1);
      Join(old(Out()), b, Out(), f, Words(len), true, Debug(Log(), 7, -1, msg), MsgWords(Log(), msg), true);
    }

    method EmitKallsyms(relo: Relo) returns (name: nat, res: nat, ghost msg: (int, int))
      modifies `insns, `dataLen, `error
      ensures error == 0 ==> name == old(dataLen) && res == name + 8 * Words(|relo.name| + 1)
      ensures Appends(old(Out()), Out(), Kallsyms(name, |relo.name| + 1, res, Log(), msg),
                      Words(|relo.name| + 1) + 1 + MsgWords(Log(), msg), true)
    {
      var len := |relo.name| + 1;
      name := AddData(len);
      res := AddData(8);
      ghost var a, words := Out(), Words(len) + 1;
      assert Appends(old(Out()), a, [], words, true);
      EmitKallsymsCall(name, len, res);
      ghost var b, f := Out(), KallsymsCall(name, len, res);
      JoinData(old(Out()), a, b, words, f, 0);
      msg := EmitDebug(7, -1);
      Join(old(Out()), b, Out(), f, words, true, Debug(Log(), 7, -1, msg), MsgWords(Log(), msg), true);
    }

    method EmitKallsymsCall(name: nat, len: nat, res: nat)
      modifies `insns, `error
      ensures Appends(old(Out()), Out(), KallsymsCall(name, len, res), 0, true)
    {
      Emit2(LdBlob(1, name), LdBlobTail);
      Emit(MovImm(2, len));
      Emit(MovImm(3, 0));
      ghost var a, f := Out(), [LdBlob(1, name), LdBlobTail, MovImm(2, len), MovImm(3, 0)];
      assert Appends(old(Out()), a, f, 0, true);
      EmitKallsymsResult(res);
      ghost var g := [LdBlob(4, res), LdBlobTail, MovReg(7, 4), Call(KallsymsLookupName), Ldx(8, 9, 7, 0), MovReg(7, 0)];
      Join(old(Out()), a, Out(), f, 0, true, g, 0, true);
      assert f + g == KallsymsCall(name, len, res);
    }

    method EmitKallsymsResult(res: nat)
      modifies `insns, `error
      ensures Appends(old(Out()), Out(),
                      [LdBlob(4, res), LdBlobTail, MovReg(7, 4), Call(KallsymsLookupName), Ldx(8, 9, 7, 0), MovReg(7, 0)], 0, true)
    {
      Emit2(LdBlob(4, res), LdBlobTail);
      Emit(MovReg(7, 4));
      Emit(Call(KallsymsLookupName));
      Emit(Ldx(8, 9, 7, 0));
      Emit(MovReg(7, 0));
      assert error == 0 ==> insns == old(insns) + [LdBlob(4, res), LdBlobTail, MovReg(7, 4), Call(KallsymsLookupName),
                                                   Ldx(8, 9, 7, 0), MovReg(7, 0)];
    }

    method EmitKfuncBind(idx: int, slot: int)
      modifies `insns, `error
      ensures Appends(old(Out()), Out(), KfuncBind(idx, slot), 0, true)
    {
      Emit(Jmp(JSGE, 7, 0, 3));
      Emit(St(4, 8, 4, 0));
      Emit(St(2, 8, 2, 0));
      Emit(Ja(10));
      ghost var a, f := Out(), [Jmp(JSGE, 7, 0, 3), St(4, 8, 4, 0), St(2, 8, 2, 0), Ja(10)];
      assert Appends(old(Out()), a, f, 0, true);
      EmitKfuncStore(idx, slot);
      Join(old(Out()), a, Out(), f, 0, true, KfuncStore(idx, slot), 0, true);
      assert f + KfuncStore(idx, slot) == KfuncBind(idx, slot);
    }

    method EmitKfuncStore(idx: int, slot: int)
      modifies `insns, `error
      ensures Appends(old(Out()), Out(), KfuncStore(idx, slot), 0, true)
    {
      Emit(Stx(4, 8, 7, 4));
      Emit(MovReg(9, 7));
      Emit(AluImm(RSH, 9, 32));
      Emit2(LdBlob(0, slot), LdBlobTail);
      ghost var a, f := Out(), [Stx(4, 8, 7, 4), MovReg(9, 7), AluImm(RSH, 9, 32), LdBlob(0, slot), LdBlobTail];
      assert Appends(old(Out()), a, f, 0, true);
      EmitKfuncOff(idx);
      Join(old(Out()), a, Out(), f, 0, true, KfuncOff(idx), 0, true);
      assert f + KfuncOff(idx) == KfuncStore(idx, slot);
    }

    method EmitKfuncOff(idx: int)
      modifies `insns, `error
      ensures Appends(old(Out()), Out(), KfuncOff(idx), 0, true)
    {
      Emit(Stx(4, 0, 9, 0));
      Emit(Jmp(JNE, 9, 0, 2));
      Emit(St(2, 8, 2, 0));
      Emit(Ja(1));
      Emit(St(2, 8, 2, idx));
      assert error == 0 ==> insns == old(insns) + KfuncOff(idx);
    }

    method EmitKfuncLog(slot: int) returns (ghost msg1: (int, int), ghost msg2: (int, int))
      modifies `insns, `dataLen, `error
      ensures Appends(old(Out()), Out(), KfuncLog(Log(), slot, msg1, msg2), MsgWords(Log(), msg1) + MsgWords(Log(), msg2), true)
    {
      msg1, msg2 := (0, 0), (0, 0);
      if logLevel == 0 {
        assert insns == insns + [];
        return;
      }
      Emit(Ldx(4, 7, 8, 4));
      Emit(Ldx(2, 9, 8, 2));
      ghost var a, f := Out(), [Ldx(4, 7, 8, 4), Ldx(2, 9, 8, 2)];
      assert Appends(old(Out()), a, f, 0, true);
      msg1 := EmitDebug(7, 9);
      ghost var b, g := Out(), DebugRegs(7, 9, msg1);
      Join(old(Out()), a, b, f, 0, true, g, MsgWords(true, msg1), true);
      Emit2(LdBlob(0, slot), LdBlobTail);
      Emit(Ldx(4, 9, 0, 0));
      ghost var c, h := Out(), [LdBlob(0, slot), LdBlobTail, Ldx(4, 9, 0, 0)];
      assert Appends(b, c, h, 0, true);
      Join(old(Out()), b, c, f + g, MsgWords(true, msg1), true, h, 0, true);
      msg2 := EmitDebug(9, -1);
      Join(old(Out()), c, Out(), f + g + h, MsgWords(true, msg1), true, DebugRegs(9, -1, msg2), MsgWords(true, msg2), true);
    }

    method EmitKsymLog() returns (ghost msg1: (int, int), ghost msg2: (int, int))
      modifies `insns, `dataLen, `error
      ensures Appends(old(Out()), Out(), KsymLog(Log(), msg1, msg2), MsgWords(Log(), msg1) + MsgWords(Log(), msg2), true)
    {
      msg1, msg2 := (0, 0), (0, 0);
      if logLevel == 0 {
        assert insns == insns + [];
        return;
      }
      Emit(Ldx(4, 7, 8, 4));
      Emit(Ldx(2, 9, 8, 12));
      ghost var a, f := Out(), [Ldx(4, 7, 8, 4), Ldx(2, 9, 8, 12)];
      assert Appends(old(Out()), a, f, 0, true);
      msg1 := EmitDebug(7, 9);
      ghost var b, g := Out(), DebugRegs(7, 9, msg1);
      Join(old(Out()), a, b, f, 0, true, g, MsgWords(true, msg1), true);
      Emit(Ldx(1, 9, 8, 1));
      ghost var c := Out();
      Join(old(Out()), b, c, f + g, MsgWords(true, msg1), true, [Ldx(1, 9, 8, 1)], 0, true);
      msg2 := EmitDebug(9, -1);
      Join(old(Out()), c, Out(), f + g + [Ldx(1, 9, 8, 1)], MsgWords(true, msg1), true, DebugRegs(9, -1, msg2), MsgWords(true, msg2), true);
    }

    /** The lookup of a symbol, checked unless it is weak. */
    method EmitLookup(relo: Relo) returns (ghost name: nat, ghost msg: (int, int))
      requires cleanupLabel <= LABEL
      modifies `insns, `dataLen, `error
      ensures error == 0 ==> name == old(dataLen)
      ensures Appends(old(Out()), Out(),
                      Lookup(FindByName(name, |relo.name| + 1, relo.kind, Log(), msg), |old(insns)|, cleanupLabel, relo.weak),
                      Words(|relo.name| + 1) + MsgWords(Log(), msg), true)
    {
      hide FindByName;
      name, msg := EmitFindByName(relo);
      ghost var mid, f, words := Out(), FindByName(name, |relo.name| + 1, relo.kind, Log(), msg), Words(|relo.name| + 1) + MsgWords(Log(), msg);
      if !relo.weak {
        EmitCheckErr();
        Join(old(Out()), mid, Out(), f, words, true, CheckErr(|old(insns)| + |f|, cleanupLabel), 0, true);
      } else {
        assert f + [] == f;
      }
    }

    /** The first use of a function: looked up and bound to a slot of its own. */
    method BindKfunc(relo: Relo, insn: int, d: nat, ghost was: seq<Ksym>) returns (ghost name: nat, ghost msg: (int, int))
      requires ksyms == was + [Ksym(relo.name, relo.kind, relo.ld64, 1, 0, 0, false)] && d == |was| && !relo.ld64
      requires fdArray == 0 && cleanupLabel <= LABEL
      requires error == 0 ==> 4 * MAX_FD_ARRAY_SZ <= dataLen && dataLen % 8 == 0 && Slots(was, nrFdArray, dataLen)
      modifies `insns, `dataLen, `error, `ksyms, `nrFdArray
      ensures |ksyms| == d + 1 && ksyms[..d] == was && SameSym(ksyms[d], relo)
      ensures ksyms[d].ref == 1 && ksyms[d].insn == insn && !ksyms[d].typeless
      ensures error == 0 ==> Slots(ksyms, nrFdArray, dataLen) && nrFdArray <= old(nrFdArray) + 1
      ensures Appends(old(Out()), Out(),
                      Lookup(FindByName(name, |relo.name| + 1, relo.kind, Log(), msg), |old(insns)|, cleanupLabel, relo.weak)
                      + KfuncBind(ksyms[d].off, fdArray + 4 * ksyms[d].off),
                      Words(|relo.name| + 1) + MsgWords(Log(), msg) + (if old(nrFdArray) == MAX_KFUNC_DESCS then 1 else 0),
                      old(nrFdArray) < MAX_KFUNC_DESCS)
    {
      hide FindByName, KfuncBind, Lookup, Slots, Words, MsgWords, Appends;
      ksyms := ksyms[d := ksyms[d].(insn := insn)];
      name, msg := EmitLookup(relo);
      ghost var a, f := Out(), Lookup(FindByName(name, |relo.name| + 1, relo.kind, Log(), msg), |old(insns)|, cleanupLabel, relo.weak);
      ghost var words, used := Words(|relo.name| + 1) + MsgWords(Log(), msg), nrFdArray;
      DataGrows(old(Out()), a, f, words, true);
      if error == 0 {
        SlotsKept(was, was, used, old(dataLen), dataLen);
      }
      BindSlot(d, was);
      Join(old(Out()), a, Out(), f, words, true, KfuncBind(ksyms[d].off, fdArray + 4 * ksyms[d].off),
           if used == MAX_KFUNC_DESCS then 1 else 0, used < MAX_KFUNC_DESCS);
    }

    /** A slot for the newest descriptor, and the code that binds it. */
    method BindSlot(d: nat, ghost was: seq<Ksym>)
      requires |ksyms| == d + 1 && ksyms[..d] == was && !ksyms[d].ld64 && fdArray == 0
      requires error == 0 ==> 4 * MAX_FD_ARRAY_SZ <= dataLen && dataLen % 8 == 0 && Slots(was, nrFdArray, dataLen)
      modifies `insns, `dataLen, `error, `ksyms, `nrFdArray
      ensures |ksyms| == d + 1 && ksyms[..d] == was && ksyms[d] == old(ksyms[d]).(off := ksyms[d].off)
      ensures error == 0 ==> Slots(ksyms, nrFdArray, dataLen) && nrFdArray <= old(nrFdArray) + 1
      ensures Appends(old(Out()), Out(), KfuncBind(ksyms[d].off, fdArray + 4 * ksyms[d].off),
                      if old(nrFdArray) == MAX_KFUNC_DESCS then 1 else 0, old(nrFdArray) < MAX_KFUNC_DESCS)
    {
      hide KfuncBind, Slots, Appends;
      ghost var used := nrFdArray;
      var taken := TakeSlot(d, was);
      ghost var b, more, f := Out(), if used == MAX_KFUNC_DESCS then 1 else 0, KfuncBind(ksyms[d].off, fdArray + 4 * ksyms[d].off);
      assert [] + f == f;
      if !taken {
        FailsAnyway(old(Out()), b, [], more, used < MAX_KFUNC_DESCS, f);
        return;
      }
      EmitKfuncBind(ksyms[d].off, fdArray + 4 * ksyms[d].off);
      DataGrows(b, Out(), f, 0, true);
      Join(old(Out()), b, Out(), [], more, used < MAX_KFUNC_DESCS, f, 0, true);
    }

    /** A slot for the newest descriptor, unless its number does not fit a call's offset field. */
    method TakeSlot(d: nat, ghost was: seq<Ksym>) returns (taken: bool)
      requires |ksyms| == d + 1 && ksyms[..d] == was && !ksyms[d].ld64 && fdArray == 0
      requires error == 0 ==> 4 * MAX_FD_ARRAY_SZ <= dataLen && dataLen % 8 == 0 && Slots(was, nrFdArray, dataLen)
      modifies `dataLen, `error, `ksyms, `nrFdArray
      ensures |ksyms| == d + 1 && ksyms[..d] == was && ksyms[d] == old(ksyms[d]).(off := ksyms[d].off)
      ensures error == 0 ==> taken && Slots(ksyms, nrFdArray, dataLen) && nrFdArray <= old(nrFdArray) + 1
      ensures Appends(old(Out()), Out(), [], if old(nrFdArray) == MAX_KFUNC_DESCS then 1 else 0, old(nrFdArray) < MAX_KFUNC_DESCS)
      ensures !taken ==> error != 0
    {
      hide Slots;
      ghost var used, len := nrFdArray, dataLen;
      var idx := AddKfuncBtfFd();
      if idx > INT16_MAX {
        error := -E2BIG;
        return false;
      }
      LastSet(ksyms, d, ksyms[d].(off := idx));
      ksyms := ksyms[d := ksyms[d].(off := idx)];
      taken := true;
      if error == 0 {
        RangeOfUsed(was, used, len);
        SlotsAdded(was, ksyms[d], used, nrFdArray, len, dataLen);
      }
    }

    /** The code of a first use. */
    method PlaceFirst(relo: Relo, insn: int, k: nat, ghost was: seq<Ksym>) returns (ghost n: Note)
      requires ksyms == was + [Ksym(relo.name, relo.kind, relo.ld64, 1, 0, 0, false)] && k == |was| && !relo.ld64
      requires fdArray == 0 && cleanupLabel <= LABEL
      requires error == 0 ==> 4 * MAX_FD_ARRAY_SZ <= dataLen && dataLen % 8 == 0 && Slots(was, nrFdArray, dataLen)
      modifies `insns, `dataLen, `error, `ksyms, `nrFdArray
      ensures |ksyms| == k + 1 && ksyms[..k] == was && SameSym(ksyms[k], relo)
      ensures ksyms[k].ref == 1 && ksyms[k].insn == insn && !ksyms[k].typeless && n.msg1 == n.msg2 == (0, 0)
      ensures error == 0 ==> Slots(ksyms, nrFdArray, dataLen) && nrFdArray <= old(nrFdArray) + 1
      ensures Appends(old(Out()), Out(), KfuncPlace(ksyms[k], relo, insn, |old(insns)|, cleanupLabel, fdArray, Log(), n),
                      ReloWords(relo, true, old(nrFdArray), Log(), n), old(nrFdArray) < MAX_KFUNC_DESCS)
    {
      hide FindByName, KfuncBind, KfuncCopy, Lookup, Slots, Words, MsgWords, SameSym, Appends;
      NoMessage(Log());
      ghost var name, msg := BindKfunc(relo, insn, k, was);
      n := NO_NOTE.(name := name, msg0 := msg);
    }

    /** The code of any later use. */
    method PlaceLater(relo: Relo, insn: int, k: nat)
      requires k < |ksyms| && ksyms[k].ref > 1
      modifies `insns, `error
      ensures Appends(old(Out()), Out(), KfuncPlace(ksyms[k], relo, insn, |old(insns)|, cleanupLabel, fdArray, Log(), NO_NOTE),
                      ReloWords(relo, false, nrFdArray, Log(), NO_NOTE), nrFdArray < MAX_KFUNC_DESCS)
    {
      hide KfuncPlace, KfuncCopy, ReloWords, Appends;
      LaterPlace(ksyms[k], relo, insn, |insns|, cleanupLabel, fdArray, Log(), nrFdArray);
      EmitKfuncCopy(insn, ksyms[k].insn);
      EnoughRoom(old(Out()), Out(), KfuncCopy(insn, ksyms[k].insn), 0, nrFdArray < MAX_KFUNC_DESCS);
    }

    /** A kernel function: the first use binds it to a slot of its own, later ones copy the first. */
    method PlaceKfunc(relo: Relo, insn: int) returns (k: nat, ghost n: Note)
      requires Loading() && !relo.ld64
      modifies `insns, `dataLen, `error, `ksyms, `nrFdArray
      ensures Loading()
      ensures Used(old(ksyms), ksyms, k, relo, insn)
      ensures n.msg1 == n.msg2 == (0, 0)
      ensures error == 0 ==> nrFdArray <= old(nrFdArray) + 1
      ensures Appends(old(Out()), Out(), KfuncPlace(ksyms[k], relo, insn, |old(insns)|, cleanupLabel, fdArray, Log(), n),
                      ReloWords(relo, k == |old(ksyms)|, old(nrFdArray), Log(), n), old(nrFdArray) < MAX_KFUNC_DESCS)
    {
      hide KfuncPlace, ReloWords, Slots, Distinct, Used, Got, SameSym, Appends;
      k := GetKsymDesc(relo);
      GotRef(old(ksyms), ksyms, k, relo);
      ghost var got := ksyms;
      if ksyms[k].ref > 1 {
        n := NO_NOTE;
        PlaceLater(relo, insn, k);
      } else {
        GotNew(old(ksyms), ksyms, k, relo);
        n := PlaceFirst(relo, insn, k, old(ksyms));
      }
      DataGrows(old(Out()), Out(), KfuncPlace(ksyms[k], relo, insn, |old(insns)|, cleanupLabel, fdArray, Log(), n),
                ReloWords(relo, k == |old(ksyms)|, old(nrFdArray), Log(), n), old(nrFdArray) < MAX_KFUNC_DESCS);
      if error == 0 && k < |old(ksyms)| {
        GotAgain(old(ksyms), ksyms, k, relo, nrFdArray, old(dataLen), dataLen);
      }
      GotIsUsed(old(ksyms), got, k, relo, ksyms, insn);
      UsedKeepsDistinct(old(ksyms), ksyms, k, relo, insn);
    }

    method EmitKfuncCopy(insn: int, from: int)
      modifies `insns, `error
      ensures Appends(old(Out()), Out(), KfuncCopy(insn, from), 0, true)
    {
      MoveBlob2Blob(insn + 4, 4, from + 4);
      MoveBlob2Blob(insn + 2, 2, from + 2);
      assert error == 0 ==> insns == old(insns) + KfuncCopy(insn, from);
    }

    method EmitReloKfunc(relo: Relo, insn: int) returns (ghost k: nat, ghost n: Note)
      requires Loading() && !relo.ld64
      modifies `insns, `dataLen, `error, `ksyms, `nrFdArray
      ensures Loading()
      ensures Used(old(ksyms), ksyms, k, relo, insn)
      ensures error == 0 ==> nrFdArray <= old(nrFdArray) + 1
      ensures Appends(old(Out()), Out(), KfuncCode(ksyms[k], relo, insn, |old(insns)|, cleanupLabel, fdArray, Log(), n),
                      ReloWords(relo, k == |old(ksyms)|, old(nrFdArray), Log(), n), old(nrFdArray) < MAX_KFUNC_DESCS)
    {
      hide KfuncPlace, KfuncLog, Slots, Distinct;
      ghost var ks := ksyms;
      var d, note := PlaceKfunc(relo, insn);
      ghost var a, len := Out(), dataLen;
      ghost var msg1, msg2 := EmitKfuncLog(fdArray + 4 * ksyms[d].off);
      k, n := d, note.(msg1 := msg1, msg2 := msg2);
      PlaceIgnoresLog(ksyms[k], relo, insn, |old(insns)|, cleanupLabel, fdArray, Log(), note, msg1, msg2);
      Join(old(Out()), a, Out(), KfuncPlace(ksyms[k], relo, insn, |old(insns)|, cleanupLabel, fdArray, Log(), n),
           ReloWords(relo, k == |ks|, old(nrFdArray), Log(), note), old(nrFdArray) < MAX_KFUNC_DESCS,
           KfuncLog(Log(), fdArray + 4 * ksyms[d].off, msg1, msg2), MsgWords(Log(), msg1) + MsgWords(Log(), msg2), true);
      if error == 0 {
        SlotsKept(ksyms, ksyms, nrFdArray, len, dataLen);
      }
    }

    method EmitTypelessCopy(insn: int, from: int)
      modifies `insns, `error
      ensures Appends(old(Out()), Out(), TypelessCopy(insn, from), 0, true)
    {
      MoveBlob2Blob(insn + 4, 4, from + 4);
      MoveBlob2Blob(insn + 12, 4, from + 12);
      assert error == 0 ==> insns == old(insns) + TypelessCopy(insn, from);
    }

    method EmitTypelessBind()
      requires cleanupLabel <= LABEL
      modifies `insns, `error
      ensures Appends(old(Out()), Out(), TypelessBind(|old(insns)|, cleanupLabel), 0, true)
    {
      Emit(Jmp(JEQ, 7, -ENOENT, 1));
      ghost var a := Out();
      EmitCheckErr();
      ghost var b, f, check := Out(), [Jmp(JEQ, 7, -2, 1)], CheckErr(|old(insns)| + 1, cleanupLabel);
      Join(old(Out()), a, b, f, 0, true, check, 0, true);
      Emit(Stx(4, 8, 9, 4));
      Emit(AluImm(RSH, 9, 32));
      Emit(Stx(4, 8, 9, 12));
      assert Appends(b, Out(), STORE_ADDR, 0, true);
      Join(old(Out()), b, Out(), f + check, 0, true, STORE_ADDR, 0, true);
    }

    method BindTypeless(relo: Relo) returns (ghost name: nat, ghost res: nat, ghost msg: (int, int))
      requires cleanupLabel <= LABEL
      modifies `insns, `dataLen, `error
      ensures var f := Kallsyms(name, |relo.name| + 1, res, Log(), msg);
              Appends(old(Out()), Out(), f + TypelessBind(|old(insns)| + |f|, cleanupLabel),
                      Words(|relo.name| + 1) + 1 + MsgWords(Log(), msg), true)
    {
      hide Kallsyms, TypelessBind;
      name, res, msg := EmitKallsyms(relo);
      ghost var a, f := Out(), Kallsyms(name, |relo.name| + 1, res, Log(), msg);
      ghost var words, bind := Words(|relo.name| + 1) + 1 + MsgWords(Log(), msg), TypelessBind(|old(insns)| + |f|, cleanupLabel);
      EmitTypelessBind();
      Join(old(Out()), a, Out(), f, words, true, bind, 0, true);
    }

    /** A typeless variable: its address is looked up once and copied for later uses. */
    method PlaceTypeless(relo: Relo, insn: int) returns (k: nat, ghost n: Note)
      requires Loading() && relo.ld64 && relo.typeless
      modifies `insns, `dataLen, `error, `ksyms
      ensures Loading()
      ensures Used(old(ksyms), ksyms, k, relo, insn)
      ensures n.msg1 == n.msg2 == (0, 0)
      ensures Appends(old(Out()), Out(), TypelessPlace(ksyms[k], relo, insn, |old(insns)|, cleanupLabel, Log(), n),
                      ReloWords(relo, k == |old(ksyms)|, nrFdArray, Log(), n), true)
    {
      hide Kallsyms, TypelessCopy, TypelessBind, TypelessPlace, ReloWords, Words, MsgWords, Slots, Distinct, Got, Used, Appends;
      k := GetKsymDesc(relo);
      GotRef(old(ksyms), ksyms, k, relo);
      VariableUsed(old(ksyms), ksyms, k, relo, insn);
      n := NO_NOTE;
      if ksyms[k].ref > 1 {
        EmitTypelessCopy(insn, ksyms[k].insn);
      } else {
        ksyms := ksyms[k := ksyms[k].(insn := insn, typeless := true)];
        ghost var name, res, msg := BindTypeless(relo);
        n := n.(name := name, res := res, msg0 := msg);
      }
      VariableWords(relo, nrFdArray, Log(), n);
      TypelessPlaces(ksyms[k], relo, insn, |old(insns)|, cleanupLabel, Log(), n);
      DataGrows(old(Out()), Out(), TypelessPlace(ksyms[k], relo, insn, |old(insns)|, cleanupLabel, Log(), n),
                ReloWords(relo, k == |old(ksyms)|, nrFdArray, Log(), n), true);
      UsedKeepsDistinct(old(ksyms), ksyms, k, relo, insn);
      if error == 0 {
        VariableKept(old(ksyms), ksyms, k, relo, insn, nrFdArray, old(dataLen), dataLen);
      }
    }

    method EmitReloTypeless(relo: Relo, insn: int) returns (ghost k: nat, ghost n: Note)
      requires Loading() && relo.ld64 && relo.typeless
      modifies `insns, `dataLen, `error, `ksyms
      ensures Loading()
      ensures Used(old(ksyms), ksyms, k, relo, insn)
      ensures Appends(old(Out()), Out(), TypelessCode(ksyms[k], relo, insn, |old(insns)|, cleanupLabel, Log(), n),
                      ReloWords(relo, k == |old(ksyms)|, nrFdArray, Log(), n), true)
    {
      hide TypelessPlace, KsymLog, Slots, Distinct;
      ghost var ks := ksyms;
      var d, note := PlaceTypeless(relo, insn);
      ghost var a, len := Out(), dataLen;
      ghost var msg1, msg2 := EmitKsymLog();
      k, n := d, note.(msg1 := msg1, msg2 := msg2);
      PlaceIgnoresLog(ksyms[k], relo, insn, |old(insns)|, cleanupLabel, fdArray, Log(), note, msg1, msg2);
      Join(old(Out()), a, Out(), TypelessPlace(ksyms[k], relo, insn, |old(insns)|, cleanupLabel, Log(), n),
           ReloWords(relo, k == |ks|, nrFdArray, Log(), note), true,
           KsymLog(Log(), msg1, msg2), MsgWords(Log(), msg1) + MsgWords(Log(), msg2), true);
      if error == 0 {
        SlotsKept(ksyms, ksyms, nrFdArray, len, dataLen);
      }
    }

    method EmitClearSrc()
      modifies `insns, `error
      ensures Appends(old(Out()), Out(), CLEAR_SRC, 0, true)
    {
      Emit(Ldx(1, 9, 8, 1));
      Emit(AluImm(AND32, 9, 15));
      Emit(Stx(1, 8, 9, 1));
      assert error == 0 ==> insns == old(insns) + CLEAR_SRC;
    }

    method EmitKsymStore()
      modifies `insns, `error
      ensures Appends(old(Out()), Out(), KSYM_STORE, 0, true)
    {
      Emit(Jmp(JSGE, 7, 0, 3));
      Emit(St(4, 8, 4, 0));
      Emit(St(4, 8, 12, 0));
      Emit(Ja(4));
      ghost var a, f := Out(), [Jmp(JSGE, 7, 0, 3), St(4, 8, 4, 0), St(4, 8, 12, 0), Ja(4)];
      assert Appends(old(Out()), a, f, 0, true);
      Emit(Stx(4, 8, 7, 4));
      Emit(AluImm(RSH, 7, 32));
      Emit(Stx(4, 8, 7, 12));
      Emit(Ja(3));
      ghost var g := [Stx(4, 8, 7, 4), AluImm(RSH, 7, 32), Stx(4, 8, 7, 12), Ja(3)];
      assert Appends(a, Out(), g, 0, true);
      Join(old(Out()), a, Out(), f, 0, true, g, 0, true);
      assert f + g == KSYM_STORE;
    }

    method BindKsym(relo: Relo) returns (ghost name: nat, ghost msg: (int, int))
      requires cleanupLabel <= LABEL
      modifies `insns, `dataLen, `error
      ensures Appends(old(Out()), Out(),
                      Lookup(FindByName(name, |relo.name| + 1, relo.kind, Log(), msg), |old(insns)|, cleanupLabel, relo.weak)
                      + KsymBind(),
                      Words(|relo.name| + 1) + MsgWords(Log(), msg), true)
    {
      hide FindByName, Lookup;
      name, msg := EmitLookup(relo);
      ghost var a, words := Out(), Words(|relo.name| + 1) + MsgWords(Log(), msg);
      ghost var f := Lookup(FindByName(name, |relo.name| + 1, relo.kind, Log(), msg), |old(insns)|, cleanupLabel, relo.weak);
      EmitKsymStore();
      ghost var b := Out();
      EmitClearSrc();
      Join(a, b, Out(), KSYM_STORE, 0, true, CLEAR_SRC, 0, true);
      Join(old(Out()), a, Out(), f, words, true, KsymBind(), 0, true);
    }

    /** A typed variable: looked up once and copied for later uses. */
    method PlaceKsym(relo: Relo, insn: int) returns (k: nat, ghost n: Note)
      requires Loading() && relo.ld64 && !relo.typeless
      modifies `insns, `dataLen, `error, `ksyms
      ensures Loading()
      ensures Used(old(ksyms), ksyms, k, relo, insn)
      ensures n.msg1 == n.msg2 == (0, 0)
      ensures Appends(old(Out()), Out(), KsymPlace(ksyms[k], relo, insn, |old(insns)|, cleanupLabel, Log(), n),
                      ReloWords(relo, k == |old(ksyms)|, nrFdArray, Log(), n), true)
    {
      hide FindByName, Lookup, KsymBind, KsymCopy, KsymPlace, ReloWords, Slots, Distinct, Words, MsgWords, Got, Used, Appends;
      k := GetKsymDesc(relo);
      GotRef(old(ksyms), ksyms, k, relo);
      VariableUsed(old(ksyms), ksyms, k, relo, insn);
      n := NO_NOTE;
      if ksyms[k].ref > 1 {
        EmitKsymCopy(insn, ksyms[k].insn);
      } else {
        ksyms := ksyms[k := ksyms[k].(insn := insn)];
        ghost var name, msg := BindKsym(relo);
        n := n.(name := name, msg0 := msg);
      }
      VariableWords(relo, nrFdArray, Log(), n);
      KsymPlaces(ksyms[k], relo, insn, |old(insns)|, cleanupLabel, Log(), n);
      DataGrows(old(Out()), Out(), KsymPlace(ksyms[k], relo, insn, |old(insns)|, cleanupLabel, Log(), n),
                ReloWords(relo, k == |old(ksyms)|, nrFdArray, Log(), n), true);
      UsedKeepsDistinct(old(ksyms), ksyms, k, relo, insn);
      if error == 0 {
        VariableKept(old(ksyms), ksyms, k, relo, insn, nrFdArray, old(dataLen), dataLen);
      }
    }

    method EmitKsymCopy(insn: int, from: int)
      modifies `insns, `error
      ensures Appends(old(Out()), Out(), KsymCopy(insn, from), 0, true)
    {
      MoveBlob2Blob(insn + 12, 4, from + 12);
      MoveBlob2Blob(insn + 4, 4, from + 4);
      ghost var a, f := Out(), Blob2Blob(insn + 12, 4, from + 12) + Blob2Blob(insn + 4, 4, from + 4);
      assert Appends(old(Out()), a, f, 0, true);
      Emit(Jmp(JNE, 0, 0, 3));
      ghost var b := Out();
      EmitClearSrc();
      Join(a, b, Out(), [Jmp(JNE, 0, 0, 3)], 0, true, CLEAR_SRC, 0, true);
      Join(old(Out()), a, Out(), f, 0, true, [Jmp(JNE, 0, 0, 3)] + CLEAR_SRC, 0, true);
    }

    method EmitReloKsym(relo: Relo, insn: int) returns (ghost k: nat, ghost n: Note)
      requires Loading() && relo.ld64 && !relo.typeless
      modifies `insns, `dataLen, `error, `ksyms
      ensures Loading()
      ensures Used(old(ksyms), ksyms, k, relo, insn)
      ensures Appends(old(Out()), Out(), KsymCode(ksyms[k], relo, insn, |old(insns)|, cleanupLabel, Log(), n),
                      ReloWords(relo, k == |old(ksyms)|, nrFdArray, Log(), n), true)
    {
      hide KsymPlace, KsymLog, Slots, Distinct;
      ghost var ks := ksyms;
      var d, note := PlaceKsym(relo, insn);
      ghost var a, len := Out(), dataLen;
      ghost var msg1, msg2 := EmitKsymLog();
      k, n := d, note.(msg1 := msg1, msg2 := msg2);
      PlaceIgnoresLog(ksyms[k], relo, insn, |old(insns)|, cleanupLabel, fdArray, Log(), note, msg1, msg2);
      Join(old(Out()), a, Out(), KsymPlace(ksyms[k], relo, insn, |old(insns)|, cleanupLabel, Log(), n),
           ReloWords(relo, k == |ks|, nrFdArray, Log(), note), true,
           KsymLog(Log(), msg1, msg2), MsgWords(Log(), msg1) + MsgWords(Log(), msg2), true);
      if error == 0 {
        SlotsKept(ksyms, ksyms, nrFdArray, len, dataLen);
      }
    }

    /** One relocation. */
    method EmitRelo(relo: Relo, insnsOff: int) returns (ghost k: nat, ghost n: Note)
      requires Loading()
      modifies `insns, `dataLen, `error, `ksyms, `nrFdArray
      ensures Loading()
      ensures Used(old(ksyms), ksyms, k, relo, insnsOff + 8 * relo.insnIdx)
      ensures error == 0 ==> nrFdArray <= old(nrFdArray) + 1 && Placed(ksyms[k], relo)
      ensures Appends(old(Out()), Out(), ReloCode(ksyms[k], relo, insnsOff, |old(insns)|, cleanupLabel, fdArray, Log(), n),
                      ReloWords(relo, k == |old(ksyms)|, old(nrFdArray), Log(), n), relo.ld64 || old(nrFdArray) < MAX_KFUNC_DESCS)
    {
      hide KfuncCode, TypelessCode, KsymCode, Slots, Distinct;
      var insn := insnsOff + 8 * relo.insnIdx;
      Emit2(LdBlob(8, insn), LdBlobTail);
      ghost var a := Out();
      assert a.error == 0 ==> |a.insns| == |old(insns)| + 2;
      assert Loading();
      if relo.ld64 {
        if relo.typeless {
          k, n := EmitReloTypeless(relo, insn);
        } else {
          k, n := EmitReloKsym(relo, insn);
        }
      } else {
        k, n := EmitReloKfunc(relo, insn);
      }
      ghost var f := SymbolCode(ksyms[k], relo, insn, |old(insns)| + 2, cleanupLabel, fdArray, Log(), n);
      if error == 0 {
        SlotPlaced(ksyms, nrFdArray, dataLen, k, relo);
      }
      Join(old(Out()), a, Out(), [LdBlob(8, insn), LdBlobTail], 0, true, f,
           ReloWords(relo, k == |old(ksyms)|, old(nrFdArray), Log(), n), relo.ld64 || old(nrFdArray) < MAX_KFUNC_DESCS);
    }

    /** All recorded relocations, in order. */
    method EmitRelos(insnsOff: int) returns (ghost ds: seq<Ksym>, ghost ns: seq<Note>, ghost words: nat)
      requires Loading()
      modifies `insns, `dataLen, `error, `ksyms, `nrFdArray
      ensures Loading()
      ensures |ds| == |ns| == |relos|
      ensures error == 0 ==> AllPlaced(ds, relos)
      ensures Appends(old(Out()), Out(), RelosCode(relos, ds, ns, insnsOff, |old(insns)|, cleanupLabel, fdArray, Log()), words,
                      old(nrFdArray) + |relos| <= MAX_KFUNC_DESCS)
    {
      hide Appends, ReloCode, Slots, Distinct, AllPlaced, Placed, Used;
      var i := 0;
      NonePlaced();
      ds, ns, words := [], [], 0;
      ghost var ok := old(nrFdArray) + |relos| <= MAX_KFUNC_DESCS;
      NothingAppended(Out());
      EnoughRoom(Out(), Out(), [], 0, ok);
      while i < |relos|
        invariant 0 <= i <= |relos| && |ds| == |ns| == i
        invariant Loading() && (error == 0 ==> nrFdArray <= old(nrFdArray) + i && AllPlaced(ds, relos[..i]))
        invariant Appends(old(Out()), Out(), RelosCode(relos[..i], ds, ns, insnsOff, |old(insns)|, cleanupLabel, fdArray, Log()), words, ok)
      {
        ghost var a, f := Out(), RelosCode(relos[..i], ds, ns, insnsOff, |old(insns)|, cleanupLabel, fdArray, Log());
        ghost var used, was, syms := nrFdArray, |ksyms|, ksyms;
        ghost var k, n := EmitRelo(relos[i], insnsOff);
        UsedIndex(syms, ksyms, k, relos[i], insnsOff + 8 * relos[i].insnIdx);
        ghost var g := ReloCode(ksyms[k], relos[i], insnsOff, |old(insns)| + |f|, cleanupLabel, fdArray, Log(), n);
        ghost var more := ReloWords(relos[i], k == was, used, Log(), n);
        ghost var found := ReloCode(ksyms[k], relos[i], insnsOff, |a.insns|, cleanupLabel, fdArray, Log(), n);
        ghost var room := relos[i].ld64 || used < MAX_KFUNC_DESCS;
        GrownTo(old(Out()), a, f, words, ok);
        GrownTo(a, Out(), found, more, room);
        JoinAt(old(Out()), a, Out(), f, words, ok, g, more, found, room);
        NextRelo(relos, i, ds, ns, ksyms[k], n, insnsOff, |old(insns)|, cleanupLabel, fdArray, Log());
        if error == 0 {
          PlacedNext(ds, relos, i, ksyms[k]);
        }
        ds, ns, words := ds + [ksyms[k]], ns + [n], words + more;
        i := i + 1;
      }
      assert relos[..i] == relos;
    }

    /** Closes the module descriptors and forgets symbols, relocations and their reserved slots. */
    method CleanupRelos() returns (ghost ms: seq<(int, int)>, ghost words: nat)
      requires Loading()
      modifies `insns, `dataLen, `error, `ksyms, `nrFdArray, `relos, `coreReloCnt
      ensures |ms| == |old(ksyms)| && ksyms == [] && relos == [] && coreReloCnt == 0
      ensures error == 0 ==> nrFdArray == 0
      ensures Appends(old(Out()), Out(), KsymCloses(old(ksyms), fdArray, Log(), ms), words, true)
    {
      hide CloseBlob;
      var i := 0;
      ms, words := [], 0;
      assert insns + [] == insns;
      assert ksyms[..|ksyms|] == ksyms;
      while i < |ksyms|
        invariant 0 <= i <= |ksyms| && |ms| == i && ksyms == old(ksyms) && relos == old(relos) && coreReloCnt == old(coreReloCnt)
        invariant error == 0 ==> nrFdArray == Reserved(ksyms) - Reserved(ksyms[..i])
        invariant Appends(old(Out()), Out(), KsymCloses(ksyms[..i], fdArray, Log(), ms), words, true)
      {
        ghost var a, f := Out(), KsymCloses(ksyms[..i], fdArray, Log(), ms);
        ghost var msg, more := EmitKsymClose(ksyms[i]);
        Join(old(Out()), a, Out(), f, words, true, KsymClose(ksyms[i], fdArray, Log(), msg), more, true);
        assert ksyms[..i + 1][..i] == ksyms[..i] && (ms + [msg])[..i] == ms;
        ms, words := ms + [msg], words + more;
        i := i + 1;
      }
      assert ksyms[..i] == ksyms;
      ksyms, relos, coreReloCnt := [], [], 0;
    }

    method EmitKsymClose(d: Ksym) returns (ghost msg: (int, int), ghost words: nat)
      modifies `insns, `dataLen, `error, `nrFdArray
      ensures nrFdArray == old(nrFdArray) - if HoldsSlot(d) then 1 else 0
      ensures Appends(old(Out()), Out(), KsymClose(d, fdArray, Log(), msg), words, true)
    {
      msg, words := (0, 0), 0;
      if d.ld64 && !d.typeless {
        msg := EmitCloseBlob(d.insn + 12);
        words := MsgWords(Log(), msg);
      } else if !d.ld64 {
        msg := EmitCloseBlob(fdArray + 4 * d.off);
        words := MsgWords(Log(), msg);
        if d.off < MAX_FD_ARRAY_SZ {
          nrFdArray := nrFdArray - 1;
        }
      } else {
        assert insns + [] == insns;
      }
    }

    // ----- bpf_gen__prog_load -----

    method RecordAttachTarget(prefix: string, name: string, kind: int)
      modifies `attachKind, `attachTarget, `error
      ensures attachKind == kind
      ensures |prefix| + |name| < 128 ==> error == old(error) && attachTarget == prefix + name
      ensures |prefix| + |name| >= 128 ==> error == -ENOSPC
    {
      attachKind := kind;
      attachTarget := prefix + name;
      if |prefix| + |name| >= 128 {
        attachTarget := attachTarget[..127];
        error := -ENOSPC;
      }
    }

    method RecordExtern(name: string, weak: bool, typeless: bool, ld64: bool, kind: int, insnIdx: nat)
      modifies `relos
      ensures relos == old(relos) + [Relo(name, weak, typeless, ld64, kind, insnIdx)]
    {
      relos := relos + [Relo(name, weak, typeless, ld64, kind, insnIdx)];
    }

    method RecordReloCore()
      modifies `coreReloCnt
      ensures coreReloCnt == old(coreReloCnt) + 1
    {
      coreReloCnt := coreReloCnt + 1;
    }

    /** The data of a program, blob by blob. */
    method AddProgData(licenseLen: nat, insnCnt: nat, funcSize: nat, lineSize: nat) returns (d: ProgData, ghost words: nat)
      modifies `dataLen, `error
      ensures error == 0 ==> LaidOut(d, old(dataLen), licenseLen, insnCnt, funcSize, lineSize, coreReloCnt)
      ensures words == Words(licenseLen) + Words(8 * insnCnt) + Words(funcSize) + Words(lineSize) + Words(16 * coreReloCnt) + Words(140)
      ensures Appends(old(Out()), Out(), [], words, true)
    {
      hide Words;
      var license := AddData(licenseLen);
      var insnsOff := AddData(8 * insnCnt);
      var funcs := AddData(funcSize);
      var lines := AddData(lineSize);
      var core := AddData(16 * coreReloCnt);
      var attr := AddData(140);
      d := ProgData(license, insnsOff, funcs, lines, core, attr);
      words := Words(licenseLen) + Words(8 * insnCnt) + Words(funcSize) + Words(lineSize) + Words(16 * coreReloCnt) + Words(140);
      assert error == 0 ==> insns == old(insns) + [];
    }

    method EmitProgHead(d: ProgData)
      modifies `insns, `error
      ensures Appends(old(Out()), Out(), ProgLoadHead(d.attr, d.license, d.insns, d.funcs, d.lines, d.coreRelos, fdArray), 0, true)
    {
      hide ProgPointers, LogSettings, Stack2Blob;
      ghost var f := ProgPointers(d.attr, d.license, d.insns, d.funcs, d.lines, d.coreRelos, fdArray);
      EmitProgPointers(d);
      ghost var a := Out();
      EmitLogSettings(d.attr + 24, d.attr + 28, d.attr + 32);
      ghost var b, l := Out(), LogSettings(d.attr + 24, d.attr + 28, d.attr + 32);
      Join(old(Out()), a, b, f, 0, true, l, 0, true);
      MoveStack2Blob(d.attr + 72, 4, BTF_FD_OFF);
      Join(old(Out()), b, Out(), f + l, 0, true, Stack2Blob(d.attr + 72, 4, BTF_FD_OFF), 0, true);
    }

    method EmitProgPointers(d: ProgData)
      modifies `insns, `error
      ensures Appends(old(Out()), Out(), ProgPointers(d.attr, d.license, d.insns, d.funcs, d.lines, d.coreRelos, fdArray), 0, true)
    {
      hide RelStore, Appends;
      EmitThree(d.attr + 16, d.license, d.attr + 8, d.insns, d.attr + 80, d.funcs);
      ghost var a, f := Out(), RelStore(d.attr + 16, d.license) + RelStore(d.attr + 8, d.insns) + RelStore(d.attr + 80, d.funcs);
      EmitThree(d.attr + 96, d.lines, d.attr + 128, d.coreRelos, d.attr + 120, fdArray);
      ghost var g := RelStore(d.attr + 96, d.lines) + RelStore(d.attr + 128, d.coreRelos) + RelStore(d.attr + 120, fdArray);
      Join(old(Out()), a, Out(), f, 0, true, g, 0, true);
    }

    method EmitThree(off1: int, data1: int, off2: int, data2: int, off3: int, data3: int)
      modifies `insns, `error
      ensures Appends(old(Out()), Out(), RelStore(off1, data1) + RelStore(off2, data2) + RelStore(off3, data3), 0, true)
    {
      hide RelStore, Appends;
      EmitRelStore(off1, data1);
      ghost var a := Out();
      EmitRelStore(off2, data2);
      ghost var b := Out();
      Join(old(Out()), a, b, RelStore(off1, data1), 0, true, RelStore(off2, data2), 0, true);
      EmitRelStore(off3, data3);
      Join(old(Out()), b, Out(), RelStore(off1, data1) + RelStore(off2, data2), 0, true, RelStore(off3, data3), 0, true);
    }

    method EmitFindAttachTarget() returns (ghost name: nat, ghost msg: (int, int))
      requires cleanupLabel <= LABEL
      modifies `insns, `dataLen, `error
      ensures Appends(old(Out()), Out(),
                      Lookup(FindByName(name, |attachTarget| + 1, attachKind, Log(), msg), |old(insns)|, cleanupLabel, false),
                      Words(|attachTarget| + 1) + MsgWords(Log(), msg), true)
    {
      name, msg := EmitLookup(Relo(attachTarget, false, false, true, attachKind, 0));
    }

    /** The kernel function the program attaches to, if it names one. */
    method EmitAttach(attr: nat) returns (ghost name: nat, ghost msg: (int, int))
      requires cleanupLabel <= LABEL
      modifies `insns, `dataLen, `error
      ensures Appends(old(Out()), Out(),
                      IfCode(attachKind != 0, Checked(FindByName(name, |attachTarget| + 1, attachKind, Log(), msg),
                                                      |old(insns)|, cleanupLabel, AttachBind(attr))),
                      if attachKind != 0 then Words(|attachTarget| + 1) + MsgWords(Log(), msg) else 0, true)
    {
      hide FindByName;
      name, msg := 0, (0, 0);
      if attachKind == 0 {
        assert insns + [] == insns;
        return;
      }
      name, msg := EmitFindAttachTarget();
      ghost var a, g := Out(), FindByName(name, |attachTarget| + 1, attachKind, Log(), msg);
      EmitAttachBind(attr);
      Join(old(Out()), a, Out(), Lookup(g, |old(insns)|, cleanupLabel, false), Words(|attachTarget| + 1) + MsgWords(Log(), msg), true,
           AttachBind(attr), 0, true);
    }

    method EmitAttachBind(attr: nat)
      modifies `insns, `error
      ensures Appends(old(Out()), Out(), AttachBind(attr), 0, true)
    {
      Emit2(LdBlob(0, attr), LdBlobTail);
      Emit(Stx(4, 0, 7, 108));
      Emit(AluImm(RSH, 7, 32));
      Emit(Stx(4, 0, 7, 112));
      assert error == 0 ==> insns == old(insns) + AttachBind(attr);
    }

    method EmitProgFront(d: ProgData) returns (ghost name: nat, ghost msg: (int, int), ghost ds: seq<Ksym>, ghost ns: seq<Note>, ghost words: nat)
      requires Loading()
      modifies `insns, `dataLen, `error, `ksyms, `nrFdArray
      ensures Loading()
      ensures |ds| == |ns| == |relos|
      ensures error == 0 ==> AllPlaced(ds, relos)
      ensures Appends(old(Out()), Out(),
                      ProgFront(d, ProgNotes(name, msg, ds, ns, (0, 0), [], [], (0, 0)), relos, attachKind, attachTarget,
                                |old(insns)|, cleanupLabel, fdArray, Log()),
                      words, old(nrFdArray) + |relos| <= MAX_KFUNC_DESCS)
    {
      hide ProgLoadHead, Checked, FindByName, RelosCode, Slots, Distinct, AttachBind, IfCode, Words, MsgWords, AllPlaced;
      ghost var pos, ok := |insns|, nrFdArray + |relos| <= MAX_KFUNC_DESCS;
      EmitProgHead(d);
      ghost var a, f := Out(), ProgLoadHead(d.attr, d.license, d.insns, d.funcs, d.lines, d.coreRelos, fdArray);
      name, msg := EmitAttach(d.attr);
      ghost var b, x := Out(), if attachKind != 0 then Words(|attachTarget| + 1) + MsgWords(Log(), msg) else 0;
      ghost var t := ProgNotes(name, msg, [], [], (0, 0), [], [], (0, 0));
      ghost var g := AttachCode(d, t, attachKind, attachTarget, pos + |f|, cleanupLabel, Log());
      assert a.error == 0 ==> |a.insns| == pos + |f|;
      Join(old(Out()), a, b, f, 0, true, g, x, true);
      if error == 0 {
        SlotsKept(ksyms, ksyms, nrFdArray, old(dataLen), dataLen);
      }
      ds, ns, words := EmitRelos(d.insns);
      ghost var h := RelosCode(relos, ds, ns, d.insns, pos + |f + g|, cleanupLabel, fdArray, Log());
      assert b.error == 0 ==> |b.insns| == pos + |f + g|;
      Join(old(Out()), b, Out(), f + g, x, true, h, words, ok);
      words := x + words;
    }

    method EmitProgBack(d: ProgData) returns (ghost result: (int, int), ghost ms: seq<(int, int)>, ghost last: (int, int), ghost words: nat)
      requires Loading()
      modifies `insns, `dataLen, `error, `ksyms, `nrFdArray, `relos, `coreReloCnt, `attachKind
      ensures |ms| == |old(ksyms)| && ksyms == [] && relos == [] && coreReloCnt == 0 && attachKind == 0
      ensures error == 0 ==> nrFdArray == 0
      ensures Appends(old(Out()), Out(),
                      ProgBack(d, ProgNotes(0, (0, 0), [], [], result, old(ksyms), ms, last), old(attachKind), fdArray, Log()), words, true)
    {
      hide Command, KsymCloses, CloseBlob, Slots, Distinct, MsgWords, Appends;
      result := EmitCommand(5, d.attr, 140);
      ghost var a, f, x := Out(), Command(5, d.attr, 140, Log(), result), MsgWords(Log(), result);
      DataGrows(old(Out()), a, f, x, true);
      if error == 0 {
        SlotsKept(ksyms, ksyms, nrFdArray, old(dataLen), dataLen);
      }
      ms, words := CleanupRelos();
      ghost var b, g := Out(), KsymCloses(old(ksyms), fdArray, Log(), ms);
      Join(old(Out()), a, b, f, x, true, g, words, true);
      ghost var more;
      last, more := EmitAttachClose(d.attr);
      Join(old(Out()), b, Out(), f + g, x + words, true, IfCode(old(attachKind) != 0, CloseBlob(d.attr + 112, Log(), last)), more, true);
      words := x + words + more;
    }

    method EmitAttachClose(attr: nat) returns (ghost last: (int, int), ghost words: nat)
      modifies `insns, `dataLen, `error, `attachKind
      ensures attachKind == 0
      ensures Appends(old(Out()), Out(), IfCode(old(attachKind) != 0, CloseBlob(attr + 112, Log(), last)), words, true)
    {
      last, words := (0, 0), 0;
      if attachKind != 0 {
        last := EmitCloseBlob(attr + 112);
        words := MsgWords(Log(), last);
        attachKind := 0;
      } else {
        assert insns + [] == insns;
      }
    }

    /** The front of one PROG_LOAD, then its back. */
    method EmitProg(licenseLen: nat, insnCnt: nat, funcSize: nat, lineSize: nat)
      returns (ghost d: ProgData, ghost t: ProgNotes, ghost words: nat)
      requires Loading() && ksyms == [] && (error == 0 ==> nrFdArray == 0)
      modifies `insns, `dataLen, `error, `ksyms, `nrFdArray, `relos, `coreReloCnt, `attachKind
      ensures ksyms == [] && relos == [] && coreReloCnt == 0 && attachKind == 0 && (error == 0 ==> nrFdArray == 0)
      ensures error == 0 ==> LaidOut(d, old(dataLen), licenseLen, insnCnt, funcSize, lineSize, old(coreReloCnt))
      ensures |t.ds| == |t.ns| == |old(relos)| && |t.ks| == |t.ms|
      ensures error == 0 ==> AllPlaced(t.ds, old(relos))
      ensures Appends(old(Out()), Out(),
                      ProgFront(d, t, old(relos), old(attachKind), attachTarget, |old(insns)|, cleanupLabel, fdArray, Log())
                      + ProgBack(d, t, old(attachKind), fdArray, Log()),
                      words, |old(relos)| <= MAX_KFUNC_DESCS)
    {
      hide LaidOut, ProgFront, ProgBack, Slots, Distinct, AllPlaced;
      ghost var pos, rs, kind, ok := |insns|, relos, attachKind, error == 0 ==> nrFdArray + |relos| <= MAX_KFUNC_DESCS;
      var data, size := AddProgData(licenseLen, insnCnt, funcSize, lineSize);
      ghost var a := Out();
      if error == 0 {
        SlotsKept(ksyms, ksyms, nrFdArray, old(dataLen), dataLen);
      }
      ghost var name, msg, ds, ns, x := EmitProgFront(data);
      ghost var b, ks := Out(), ksyms;
      ghost var result, ms, last, y := EmitProgBack(data);
      d, t := data, ProgNotes(name, msg, ds, ns, result, ks, ms, last);
      NotesApart(d, t, rs, kind, attachTarget, pos, cleanupLabel, fdArray, Log());
      ghost var f, g := ProgFront(d, t, rs, kind, attachTarget, pos, cleanupLabel, fdArray, Log()), ProgBack(d, t, kind, fdArray, Log());
      assert a.error == 0 ==> |a.insns| == pos;
      Join(old(Out()), a, b, [], size, true, f, x, |rs| <= MAX_KFUNC_DESCS);
      assert [] + f == f;
      Join(old(Out()), b, Out(), f, size + x, |rs| <= MAX_KFUNC_DESCS, g, y, true);
      words := size + x + y;
    }

    /** PROG_LOAD: on success the descriptor stays in the program's stack slot. */
    method ProgLoad(licenseLen: nat, insnCnt: nat, funcSize: nat, lineSize: nat)
      returns (ghost d: ProgData, ghost t: ProgNotes, ghost words: nat)
      requires Valid()
      modifies `insns, `dataLen, `error, `ksyms, `nrFdArray, `relos, `coreReloCnt, `attachKind, `nrProgs
      ensures Valid()
      ensures nrProgs == old(nrProgs) + 1 && relos == [] && coreReloCnt == 0 && attachKind == 0
      ensures error == 0 ==> LaidOut(d, old(dataLen), licenseLen, insnCnt, funcSize, lineSize, old(coreReloCnt))
      ensures |t.ds| == |t.ns| == |old(relos)| && |t.ks| == |t.ms|
      ensures Appends(old(Out()), Out(),
                      Checked(ProgFront(d, t, old(relos), old(attachKind), attachTarget, |old(insns)|, cleanupLabel, fdArray, Log())
                              + ProgBack(d, t, old(attachKind), fdArray, Log()),
                              |old(insns)|, cleanupLabel, KeepInStack(ProgFdOff(old(nrProgs)))),
                      words, |old(relos)| <= MAX_KFUNC_DESCS)
    {
      hide LaidOut, ProgFront, ProgBack, Loader, TypedLoader, CommandOk, Slots, AllPlaced, Near;
      ghost var pos, rs, kind, cleanup, was := |insns|, relos, attachKind, cleanupLabel, Space();
      if error == 0 {
        NoSlots(dataLen);
      }
      d, t, words := EmitProg(licenseLen, insnCnt, funcSize, lineSize);
      ghost var mid := Out();
      EmitCheckErr();
      ghost var last := Out();
      Emit(Stx(4, 10, 7, ProgFdOff(nrProgs)));
      nrProgs := nrProgs + 1;
      ghost var f, g := ProgFront(d, t, rs, kind, attachTarget, pos, cleanup, fdArray, Log()), ProgBack(d, t, kind, fdArray, Log());
      if error == 0 {
        DataBehind(d, old(dataLen), licenseLen, insnCnt, funcSize, lineSize, old(coreReloCnt));
        ProgOk(d, t, rs, kind, attachTarget, pos, cleanup, Log(), old(nrProgs), Space());
      }
      CheckedFits(old(Out()), mid, last, Out(), f + g, words, |rs| <= MAX_KFUNC_DESCS, KeepInStack(ProgFdOff(old(nrProgs))), 0, true,
                  cleanupLabel, progSlots, Log(), msgs, was, Space());
    }

    // ----- bpf_gen__finish -----

    /** Refuses a mismatch with what was loaded; otherwise copies every program's and every map's
        descriptor to the caller and ends the program.  Zero is returned for a complete program. */
    method Finish(progCnt: nat, mapCnt: nat) returns (res: int, ghost msg: (int, int))
      requires Valid()
      modifies `insns, `dataLen, `error
      ensures res == error
      ensures progCnt < nrProgs || mapCnt != nrMaps ==> res == -EFAULT
      ensures res == 0 ==> old(error) == 0 && nrProgs <= progCnt && nrMaps == mapCnt
      ensures res == 0 ==> Complete(insns, progSlots, fdArray, Log(), msgs)
      ensures res == 0 ==> TypedLoader(insns, progSlots, Log(), |msgs|, Space().(mayExit := true))
      ensures res == 0 ==> HandsOver(old(insns), insns, progSlots, Log(), msgs, Space(), nrMaps, nrProgs, msg)
      ensures nrProgs <= progCnt && nrMaps == mapCnt ==>
                Appends(old(Out()), Out(), Finale(nrMaps, nrProgs, fdArray, Log(), msg), MsgWords(Log(), msg), true)
    {
      hide Loader, TypedLoader, CloseStack, Plain, FragmentOk, ProgMoves, MapMoves, Complete, MsgWords, Typed;
      if progCnt < nrProgs || mapCnt != nrMaps {
        error := -EFAULT;
        return error, (0, 0);
      }
      ghost var start := Out();
      msg := EmitCloseStack(BTF_FD_OFF);
      ghost var a, f, x := Out(), CloseStack(BTF_FD_OFF, Log(), msg), MsgWords(Log(), msg);
      EmitProgMoves();
      ghost var b, g := Out(), ProgMoves(nrMaps, nrProgs);
      Join(start, a, b, f, x, true, g, 0, true);
      EmitMapMoves();
      ghost var c, h := Out(), MapMoves(fdArray, nrMaps);
      Join(start, b, c, f + g, x, true, h, 0, true);
      EmitNormalExit();
      Join(start, c, Out(), f + g + h, x, true, [MovImm(0, 0), Exit], 0, true);
      res := error;
      if error == 0 {
        ClosePlain(BTF_FD_OFF, Log(), msg);
        ProgMovesPlain(nrMaps, nrProgs);
        MapMovesPlain(fdArray, nrMaps);
        PlainJoin(f, g);
        PlainJoin(f + g, h);
        Finished(start.insns, f + g + h, progSlots, fdArray, Log(), msgs);
        assert start.insns + (f + g + h) + [MovImm(0, 0), Exit] == start.insns + (f + g + h + [MovImm(0, 0), Exit]);
        ghost var whole := Space().(mayExit := true);
        FinaleTyped(nrMaps, nrProgs, fdArray, Log(), msg, whole);
        TypedGrows(start.insns, Finale(nrMaps, nrProgs, fdArray, Log(), msg), progSlots, Log(), |msgs|, Space(), whole);
      }
    }

    method EmitNormalExit()
      modifies `insns, `error
      ensures Appends(old(Out()), Out(), [MovImm(0, 0), Exit], 0, true)
    {
      ghost var start := Out();
      Emit(MovImm(0, 0));
      ghost var mid := Out();
      Emit(Exit);
      Join(start, mid, Out(), [MovImm(0, 0)], 0, true, [Exit], 0, true);
      assert [MovImm(0, 0)] + [Exit] == [MovImm(0, 0), Exit];
    }

    method EmitProgMoves()
      modifies `insns, `error
      ensures Appends(old(Out()), Out(), ProgMoves(nrMaps, nrProgs), 0, true)
    {
      var i := 0;
      assert insns + [] == insns;
      while i < nrProgs
        invariant 0 <= i <= nrProgs
        invariant Appends(old(Out()), Out(), ProgMoves(nrMaps, i), 0, true)
      {
        ghost var a := Out();
        MoveStack2Ctx(CtxProg(nrMaps, i), 4, ProgFdOff(i));
        Join(old(Out()), a, Out(), ProgMoves(nrMaps, i), 0, true, Stack2Ctx(CtxProg(nrMaps, i), 4, ProgFdOff(i)), 0, true);
        i := i + 1;
      }
    }

    method EmitMapMoves()
      modifies `insns, `error
      ensures Appends(old(Out()), Out(), MapMoves(fdArray, nrMaps), 0, true)
    {
      var i := 0;
      assert insns + [] == insns;
      while i < nrMaps
        invariant 0 <= i <= nrMaps
        invariant Appends(old(Out()), Out(), MapMoves(fdArray, i), 0, true)
      {
        ghost var a := Out();
        MoveBlob2Ctx(CtxMap(i), 4, fdArray + 4 * i);
        Join(old(Out()), a, Out(), MapMoves(fdArray, i), 0, true, Blob2Ctx(CtxMap(i), 4, fdArray + 4 * i), 0, true);
        i := i + 1;
      }
    }
  }
}

/** Instructions of the generated loader program, the code fragments the generator appends,
    and when the branches of a program are sound. */
module LoaderCode {
  // ----- Instructions -----

  datatype Cond = JEQ | JNE | JSGE | JSLE | JSLT | JSET
  datatype Alu = ADD | RSH | AND32
  datatype Func = SysClose | SysBpf | ProbeReadKernel | CopyFromUser | TracePrintk
                | FindByNameKind | KallsymsLookupName

  /** One instruction slot.  A 64-bit immediate load fills two: the first names a register and
      an offset into the data blob, the second carries no operation of its own. */
  datatype Insn =
    | MovReg(dst: nat, src: nat)
    | MovImm(dst: nat, imm: int)
    | AluImm(op: Alu, dst: nat, imm: int)
    | LdBlob(dst: nat, off: int)
    | LdBlobTail
    | Ldx(size: nat, dst: nat, src: nat, off: int)
    | Stx(size: nat, dst: nat, src: nat, off: int)
    | St(size: nat, dst: nat, off: int, imm: int)
    | Jmp(cond: Cond, reg: nat, imm: int, off: int)
    | Ja(off: int)
    | Call(func: Func)
    | Exit

  /** The offset field has sixteen signed bits. */
  function S16(x: int): int {
    var m := x % 0x1_0000;
    if m >= 0x8000 then m - 0x1_0000 else m
  }

  predicate IsSimm16(x: int) { x == S16(x) }

  // ----- Layout constants -----

  const MAX_USED_MAPS: nat := 64
  const MAX_USED_PROGS: nat := 32
  const MAX_KFUNC_DESCS: nat := 256
  const MAX_FD_ARRAY_SZ: nat := 320
  /** sizeof(struct loader_stack): btf_fd, inner_map_fd, prog_fd[32]. */
  const STACK_SZ: int := 136
  const BTF_FD_OFF: int := -136
  const INNER_MAP_FD_OFF: int := -132

  function ProgFdOff(i: nat): int { -128 + 4 * i }

  /** The loader context: 24 bytes, then 16 per map, then 4 per program. */
  function CtxMap(i: int): int { 24 + 16 * i }
  function CtxProg(maps: nat, i: nat): int { 24 + 16 * maps + 4 * i }

  // ----- Sound branches -----

  /** Both halves of every 64-bit load are there. */
  predicate PairsOk(code: seq<Insn>) {
    forall i {:trigger PairOk(code, i)} :: 0 <= i < |code| ==> PairOk(code, i)
  }

  predicate PairOk(code: seq<Insn>, i: nat)
    requires i < |code|
  {
    && (code[i].LdBlob? ==> i + 1 < |code| && code[i + 1].LdBlobTail?)
    && (code[i].LdBlobTail? ==> 0 < i && code[i - 1].LdBlob?)
  }

  /** From `pos` an error branch can still reach the label: the distance fits the offset field. */
  predicate Near(pos: int, cleanup: nat) { cleanup <= LABEL && pos - cleanup < 0x8000 }

  /** The branch at `i` of a fragment placed at `base`: an error branch asks for a negative R7 and goes
      exactly to the label, a distance that fits the offset field; any other goes forward, at most to
      the fragment's end, and never into a 64-bit load. */
  predicate BranchOk(code: seq<Insn>, base: nat, cleanup: nat, i: nat)
    requires i < |code|
  {
    match code[i]
    case Jmp(cond, reg, imm, off) =>
      if cond == JSLT then reg == 7 && imm == 0 && base + i + 1 + off == cleanup && Near(base + i, cleanup)
      else ForwardOk(code, i, off)
    case Ja(off) => ForwardOk(code, i, off)
    case _ => true
  }

  predicate ForwardOk(code: seq<Insn>, i: nat, off: int) {
    0 <= off && i + 1 + off <= |code| && (i + 1 + off < |code| ==> !code[i + 1 + off].LdBlobTail?)
  }

  predicate FragmentOk(code: seq<Insn>, base: nat, cleanup: nat) {
    && PairsOk(code)
    && forall i {:trigger BranchOk(code, base, cleanup, i)} :: 0 <= i < |code| ==> BranchOk(code, base, cleanup, i)
  }

  /** Sound fragments concatenate: what one leaves for its end, the next begins with. */
  lemma FragmentsJoin(a: seq<Insn>, b: seq<Insn>, base: nat, cleanup: nat)
    requires FragmentOk(a, base, cleanup) && FragmentOk(b, base + |a|, cleanup)
    ensures FragmentOk(a + b, base, cleanup)
  {
    var c := a + b;
    assert |b| > 0 ==> PairOk(b, 0);
    forall i | 0 <= i < |c| ensures BranchOk(c, base, cleanup, i) && PairOk(c, i) {
      if i < |a| {
        assert BranchOk(a, base, cleanup, i) && PairOk(a, i);
      } else {
        assert BranchOk(b, base + |a|, cleanup, i - |a|) && PairOk(b, i - |a|);
      }
    }
  }

  // ----- Fragments -----

  function RelStore(off: int, data: int): seq<Insn> {
    [LdBlob(0, data), LdBlobTail, LdBlob(1, off), LdBlobTail, Stx(8, 1, 0, 0)]
  }

  function Blob2Blob(off: int, size: nat, blobOff: int): seq<Insn> {
    [LdBlob(2, blobOff), LdBlobTail, Ldx(size, 0, 2, 0), LdBlob(1, off), LdBlobTail, Stx(size, 1, 0, 0)]
  }

  function Blob2Ctx(ctxOff: int, size: nat, blobOff: int): seq<Insn> {
    [LdBlob(1, blobOff), LdBlobTail, Ldx(size, 0, 1, 0), Stx(size, 6, 0, ctxOff)]
  }

  function Ctx2Blob(off: int, size: nat, ctxOff: int, checkNonZero: bool): seq<Insn> {
    [Ldx(size, 0, 6, ctxOff)]
    + (if checkNonZero then [Jmp(JEQ, 0, 0, 3)] else [])
    + [LdBlob(1, off), LdBlobTail, Stx(size, 1, 0, 0)]
  }

  function Stack2Blob(off: int, size: nat, stackOff: int): seq<Insn> {
    [Ldx(size, 0, 10, stackOff), LdBlob(1, off), LdBlobTail, Stx(size, 1, 0, 0)]
  }

  function Stack2Ctx(ctxOff: int, size: nat, stackOff: int): seq<Insn> {
    [Ldx(size, 0, 10, stackOff), Stx(size, 6, 0, ctxOff)]
  }

  function SysBpfCall(cmd: int, attr: int, attrSize: int): seq<Insn> {
    [MovImm(1, cmd), LdBlob(2, attr), LdBlobTail, MovImm(3, attrSize), Call(SysBpf), MovReg(7, 0)]
  }

  function CheckErr(pos: nat, cleanup: nat): seq<Insn> {
    [Jmp(JSLT, 7, 0, cleanup - pos - 1)]
  }

  /** A logged message of `msg.1` bytes at `msg.0`, with up to two registers. */
  function DebugRegs(reg1: int, reg2: int, msg: (int, int)): seq<Insn> {
    [LdBlob(1, msg.0), LdBlobTail, MovImm(2, msg.1)]
    + (if reg1 >= 0 then [MovReg(3, reg1)] else [])
    + (if reg2 >= 0 then [MovReg(4, reg2)] else [])
    + [Call(TracePrintk)]
  }

  function CloseR1(log: bool, msg: (int, int)): seq<Insn> {
    [Jmp(JSLE, 1, 0, if log then 8 else 2), MovReg(9, 1), Call(SysClose)]
    + (if log then DebugRegs(9, 0, msg) else [])
  }

  function CloseStack(off: int, log: bool, msg: (int, int)): seq<Insn> {
    [Ldx(4, 1, 10, off)] + CloseR1(log, msg)
  }

  function CloseBlob(off: int, log: bool, msg: (int, int)): seq<Insn> {
    [LdBlob(0, off), LdBlobTail, Ldx(4, 1, 0, 0)] + CloseR1(log, msg)
  }

  // ----- The opening and the cleanup code -----

  /** Slots before the cleanup label. */
  const LABEL: nat := 7

  function Opening(jump: int): (c: seq<Insn>)
    ensures |c| == LABEL
  {
    [MovReg(6, 1), MovReg(1, 10), AluImm(ADD, 1, -STACK_SZ), MovImm(2, STACK_SZ), MovImm(3, 0),
     Call(ProbeReadKernel), Ja(jump)]
  }

  /** Close the first `k` stack slots. */
  function StackCloses(k: nat): (c: seq<Insn>)
    ensures |c| == 3 * k
  {
    if k == 0 then []
    else StackCloses(k - 1) + [Ldx(4, 1, 10, -STACK_SZ + 4 * (k - 1)), Jmp(JSLE, 1, 0, 1), Call(SysClose)]
  }

  function CloseWidth(log: bool): nat { if log then 12 else 6 }

  /** Close the first map slots, one per message. */
  function BlobCloses(fdArray: int, log: bool, msgs: seq<(int, int)>): (c: seq<Insn>)
    ensures |c| == |msgs| * CloseWidth(log)
  {
    if msgs == [] then []
    else
      var k := |msgs| - 1;
      BlobCloses(fdArray, log, msgs[..k]) + CloseBlob(fdArray + 4 * k, log, msgs[k])
  }

  function Cleanup(progs: nat, fdArray: int, log: bool, msgs: seq<(int, int)>): seq<Insn> {
    StackCloses(2 + progs) + BlobCloses(fdArray, log, msgs) + [MovReg(0, 7), Exit]
  }

  /** The length the opening jump is given, computed by hand before the cleanup code is emitted. */
  function CleanupLength(progs: nat, maps: nat, log: bool): nat {
    ((8 + 4 * progs) / 4) * 3 + 2 + maps * (6 + if log then 6 else 0)
  }

  lemma CleanupLengthExact(progs: nat, fdArray: int, log: bool, msgs: seq<(int, int)>)
    ensures |Cleanup(progs, fdArray, log, msgs)| == CleanupLength(progs, |msgs|, log)
  {
  }

  lemma CloseR1Sound(log: bool, msg: (int, int), base: nat, cleanup: nat)
    ensures FragmentOk(CloseR1(log, msg), base, cleanup) && |CloseR1(log, msg)| == if log then 9 else 3
  {
    var c := CloseR1(log, msg);
    forall i | 0 <= i < |c| ensures BranchOk(c, base, cleanup, i) && PairOk(c, i) { }
  }

  lemma CloseBlobSound(off: int, log: bool, msg: (int, int), base: nat, cleanup: nat)
    ensures FragmentOk(CloseBlob(off, log, msg), base, cleanup) && |CloseBlob(off, log, msg)| == CloseWidth(log)
  {
    CloseR1Sound(log, msg, base + 3, cleanup);
    var c := [LdBlob(0, off), LdBlobTail, Ldx(4, 1, 0, 0)];
    forall i | 0 <= i < |c| ensures BranchOk(c, base, cleanup, i) && PairOk(c, i) { }
    FragmentsJoin(c, CloseR1(log, msg), base, cleanup);
  }

  lemma {:induction false} StackClosesSound(k: nat, base: nat, cleanup: nat)
    ensures FragmentOk(StackCloses(k), base, cleanup)
  {
    if k > 0 {
      StackClosesSound(k - 1, base, cleanup);
      var last := [Ldx(4, 1, 10, -STACK_SZ + 4 * (k - 1)), Jmp(JSLE, 1, 0, 1), Call(SysClose)];
      forall i | 0 <= i < |last| ensures BranchOk(last, base + 3 * (k - 1), cleanup, i) && PairOk(last, i) { }
      FragmentsJoin(StackCloses(k - 1), last, base, cleanup);
    }
  }

  lemma {:induction false} BlobClosesSound(fdArray: int, log: bool, msgs: seq<(int, int)>, base: nat, cleanup: nat)
    ensures FragmentOk(BlobCloses(fdArray, log, msgs), base, cleanup)
    decreases |msgs|
  {
    if msgs != [] {
      var k := |msgs| - 1;
      BlobClosesSound(fdArray, log, msgs[..k], base, cleanup);
      CloseBlobSound(fdArray + 4 * k, log, msgs[k], base + |BlobCloses(fdArray, log, msgs[..k])|, cleanup);
      FragmentsJoin(BlobCloses(fdArray, log, msgs[..k]), CloseBlob(fdArray + 4 * k, log, msgs[k]), base, cleanup);
    }
  }

  lemma CleanupSound(progs: nat, fdArray: int, log: bool, msgs: seq<(int, int)>, base: nat, cleanup: nat)
    ensures FragmentOk(Cleanup(progs, fdArray, log, msgs), base, cleanup)
  {
    var a, b := StackCloses(2 + progs), BlobCloses(fdArray, log, msgs);
    StackClosesSound(2 + progs, base, cleanup);
    BlobClosesSound(fdArray, log, msgs, base + |a|, cleanup);
    FragmentsJoin(a, b, base, cleanup);
    var c := [MovReg(0, 7), Exit];
    forall i | 0 <= i < |c| ensures BranchOk(c, base + |a + b|, cleanup, i) && PairOk(c, i) { }
    FragmentsJoin(a + b, c, base, cleanup);
  }

  // ----- Whole programs -----

  /** A program in the making: the opening, the cleanup code, and sound fragments behind it. */
  predicate Loader(code: seq<Insn>, progs: nat, fdArray: int, log: bool, msgs: seq<(int, int)>) {
    var head := Opening(S16(CleanupLength(progs, |msgs|, log))) + Cleanup(progs, fdArray, log, msgs);
    head <= code && FragmentOk(code[LABEL..], LABEL, LABEL)
  }

  /** Where the branch at `pc` goes. */
  function Target(code: seq<Insn>, pc: nat): int
    requires pc < |code| && (code[pc].Jmp? || code[pc].Ja?)
  {
    pc + 1 + code[pc].off
  }

  /** The target is an instruction of the program. */
  predicate Lands(code: seq<Insn>, t: int) {
    0 <= t < |code| && !code[t].LdBlobTail?
  }

  /** A finished program: nothing but a normal exit follows the last fragment. */
  predicate Complete(code: seq<Insn>, progs: nat, fdArray: int, log: bool, msgs: seq<(int, int)>) {
    && Loader(code, progs, fdArray, log, msgs)
    && |code| > LABEL + 2 && code[|code| - 2..] == [MovImm(0, 0), Exit]
    && FragmentOk(code[LABEL..|code| - 2], LABEL, LABEL)
  }

  /** What stands at the end of the opening and at the end of the cleanup code. */
  lemma HeadEnds(code: seq<Insn>, progs: nat, fdArray: int, log: bool, msgs: seq<(int, int)>)
    requires Loader(code, progs, fdArray, log, msgs)
    ensures var len := CleanupLength(progs, |msgs|, log);
            && len >= 2 && LABEL + len <= |code|
            && code[LABEL - 1] == Ja(S16(len)) && code[LABEL + len - 2] == MovReg(0, 7) && code[LABEL + len - 1] == Exit
  {
    var len := CleanupLength(progs, |msgs|, log);
    var opening, cleanup := Opening(S16(len)), Cleanup(progs, fdArray, log, msgs);
    var head := opening + cleanup;
    CleanupLengthExact(progs, fdArray, log, msgs);
    assert code[LABEL - 1] == head[LABEL - 1] == opening[LABEL - 1];
    assert code[LABEL + len - 1] == head[LABEL + len - 1] == cleanup[len - 1];
    assert code[LABEL + len - 2] == head[LABEL + len - 2] == cleanup[len - 2];
  }

  /** Behind the opening: error branches go exactly to the cleanup label, all others forward
      to an instruction of the program. */
  lemma BranchesLand(code: seq<Insn>, progs: nat, fdArray: int, log: bool, msgs: seq<(int, int)>, pc: nat)
    requires Complete(code, progs, fdArray, log, msgs)
    requires LABEL <= pc < |code| && (code[pc].Jmp? || code[pc].Ja?)
    ensures code[pc].Jmp? && code[pc].cond == JSLT ==> Target(code, pc) == LABEL
    ensures !(code[pc].Jmp? && code[pc].cond == JSLT) ==> Target(code, pc) > pc
    ensures Lands(code, Target(code, pc))
  {
    hide Cleanup, Opening;
    var k, i := |code| - 2, pc - LABEL;
    var f := code[LABEL..k];
    HeadEnds(code, progs, fdArray, log, msgs);
    assert code[k] == code[k..][0] && code[k + 1] == code[k..][1];
    assert f[i] == code[pc] && BranchOk(f, LABEL, LABEL, i) && PairOk(f, 0) && f[0] == code[LABEL];
    var t := i + 1 + code[pc].off;
    if 0 <= t < |f| {
      assert f[t] == code[LABEL + t];
    }
  }

  /** The opening branch lands just past the cleanup code exactly when the hand-computed
      length fits its offset field. */
  lemma OpeningLands(code: seq<Insn>, progs: nat, fdArray: int, log: bool, msgs: seq<(int, int)>)
    requires Complete(code, progs, fdArray, log, msgs)
    ensures code[LABEL - 1].Ja?
    ensures var len := CleanupLength(progs, |msgs|, log);
            && (Target(code, LABEL - 1) == LABEL + len <==> len < 0x8000)
            && (len < 0x8000 ==> Lands(code, Target(code, LABEL - 1)))
  {
    hide Cleanup, Opening;
    HeadEnds(code, progs, fdArray, log, msgs);
    var k, t := |code| - 2, LABEL + CleanupLength(progs, |msgs|, log);
    var f := code[LABEL..];
    assert code[k] == code[k..][0] && code[k + 1] == code[k..][1];
    if t < |code| {
      assert PairOk(f, t - LABEL) && f[t - LABEL - 1] == code[t - 1] && f[t - LABEL] == code[t];
    }
  }
}

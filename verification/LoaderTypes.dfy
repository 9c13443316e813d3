/** Kinds of register values along the loader's code.  Typed code uses no number as an address,
    leaves R6 and R10 alone, and writes descriptor slots only with four bytes of a number in R7. */
module LoaderTypes {
  import opened LoaderCode
  import opened LoaderOps

  // ----- Kinds -----

  /** Anything, a number, a number that is not negative, or a pointer into the data blob. */
  datatype Kind = Any | Number | Natural | Blob(off: int)

  predicate IsNumber(k: Kind) { k.Number? || k.Natural? }

  /** The kinds of R0 to R9. */
  datatype Types = Types(r0: Kind, r1: Kind, r2: Kind, r3: Kind, r4: Kind, r7: Kind, r8: Kind, r9: Kind)

  function Get(t: Types, r: nat): Kind {
    if r == 0 then t.r0 else if r == 1 then t.r1 else if r == 2 then t.r2 else if r == 3 then t.r3
    else if r == 4 then t.r4 else if r == 7 then t.r7 else if r == 8 then t.r8 else if r == 9 then t.r9 else Any
  }

  function Set(t: Types, r: nat, k: Kind): Types {
    if r == 0 then t.(r0 := k) else if r == 1 then t.(r1 := k) else if r == 2 then t.(r2 := k) else if r == 3 then t.(r3 := k)
    else if r == 4 then t.(r4 := k) else if r == 7 then t.(r7 := k) else if r == 8 then t.(r8 := k) else if r == 9 then t.(r9 := k) else t
  }

  /** Between fragments at most R7 and R8 matter. */
  function Known(k7: Kind, k8: Kind): Types { Types(Any, Any, Any, Any, Any, k7, k8, Any) }

  /** Nothing is known. */
  const BASE: Types := Known(Any, Any)

  /** Behind a command. */
  const RESULT: Types := Known(Number, Any)

  /** Behind its error branch. */
  const SUCCESS: Types := Known(Natural, Any)

  predicate Suits(need: Kind, have: Kind) { need.Any? || need == have || (need.Number? && have.Natural?) }

  predicate Weaker(need: Types, have: Types) {
    && Suits(need.r0, have.r0) && Suits(need.r1, have.r1) && Suits(need.r2, have.r2) && Suits(need.r3, have.r3)
    && Suits(need.r4, have.r4) && Suits(need.r7, have.r7) && Suits(need.r8, have.r8) && Suits(need.r9, have.r9)
  }

  // ----- Instructions -----

  /** The descriptor slots code may use: so many in the stack, so many at the start of the blob; and
      whether it may exit. */
  datatype Room = Room(slots: nat, maps: nat, mayExit: bool)

  predicate StackSlot(off: int, slots: nat) { 0 <= off + STACK_SZ < 4 * slots && off % 4 == 0 }

  predicate MapSlot(off: int, maps: nat) { 0 <= off < 4 * maps && off % 4 == 0 }

  /** Behind all map slots. */
  predicate Data(off: int) { 4 * MAX_USED_MAPS <= off }

  predicate Scratch(r: nat) { r < 10 && r != 6 }

  predicate Allowed(insn: Insn, t: Types, room: Room) {
    match insn
    case MovReg(dst, src) => Scratch(dst) && Scratch(src)
    case MovImm(dst, _) => Scratch(dst)
    case AluImm(_, dst, _) => Scratch(dst)
    case LdBlob(dst, _) => Scratch(dst)
    case LdBlobTail => true
    case Ldx(_, dst, src, off) =>
      Scratch(dst) && (src == 6 || (src == 10 && StackSlot(off, room.slots)) || (Scratch(src) && Get(t, src).Blob?))
    case Stx(size, dst, src, off) =>
      && Scratch(src)
      && (if dst == 6 then true
          else if dst == 10 then StackSlot(off, room.slots) && size == 4 && src == 7 && t.r7.Natural?
          else Scratch(dst) && Get(t, dst).Blob?
               && (Data(Get(t, dst).off + off)
                   || (MapSlot(Get(t, dst).off + off, room.maps) && size == 4 && src == 7 && t.r7.Natural?)))
    case St(_, dst, off, _) => Scratch(dst) && Get(t, dst).Blob? && Data(Get(t, dst).off + off)
    case Jmp(_, reg, _, _) => Scratch(reg) && IsNumber(Get(t, reg))
    case Ja(_) => true
    case Call(func) => (func == SysClose ==> IsNumber(t.r1)) && (func == ProbeReadKernel ==> t.r1.Blob?)
    case Exit => room.mayExit
  }

  /** The kinds behind an instruction that is no branch. */
  function After(insn: Insn, t: Types): Types {
    match insn
    case MovReg(dst, src) => Set(t, dst, Get(t, src))
    case MovImm(dst, _) => Set(t, dst, Number)
    case AluImm(op, dst, _) => Set(t, dst, if op == ADD && !IsNumber(Get(t, dst)) then Any else Number)
    case LdBlob(dst, off) => Set(t, dst, Blob(off))
    case Ldx(_, dst, _, _) => Set(t, dst, Number)
    case Call(_) => Types(Number, Any, Any, Any, Any, t.r7, t.r8, t.r9)
    case _ => t
  }

  /** The kinds behind a branch not taken: past an error branch R7 is not negative. */
  function Beyond(insn: Insn, t: Types): Types {
    if insn.Jmp? && insn.cond == JSLT && insn.reg == 7 && insn.imm == 0 then t.(r7 := Natural) else t
  }

  // ----- Code -----

  /** Control may go on at `next` with these kinds. */
  predicate Leads(t: Types, ts: seq<Types>, next: int) {
    0 <= next < |ts| && Weaker(ts[next], t)
  }

  /** The instruction at `i` of typed code.  An error branch leads out of it, to where nothing need be known. */
  predicate TypedAt(f: seq<Insn>, ts: seq<Types>, room: Room, i: nat)
    requires i < |f| < |ts|
  {
    && Allowed(f[i], ts[i], room)
    && match f[i]
       case LdBlobTail => true
       case Exit => true
       case LdBlob(_, _) => Leads(After(f[i], ts[i]), ts, i + 2)
       case Ja(off) => Leads(ts[i], ts, i + 1 + off)
       case Jmp(cond, _, _, off) => Leads(Beyond(f[i], ts[i]), ts, i + 1) && (cond != JSLT ==> Leads(ts[i], ts, i + 1 + off))
       case _ => Leads(After(f[i], ts[i]), ts, i + 1)
  }

  /** The table `ts` types `f`, from the kinds `t` to the kinds `u`. */
  predicate Table(f: seq<Insn>, ts: seq<Types>, t: Types, u: Types, room: Room) {
    && |ts| == |f| + 1 && Weaker(ts[0], t) && Weaker(u, ts[|f|])
    && forall i {:trigger TypedAt(f, ts, room, i)} :: 0 <= i < |f| ==> TypedAt(f, ts, room, i)
  }

  ghost predicate Typed(f: seq<Insn>, t: Types, u: Types, room: Room) {
    exists ts :: Table(f, ts, t, u, room)
  }

  // ----- Typed code concatenates -----

  lemma WeakerJoins(a: Types, b: Types, c: Types)
    requires Weaker(a, b) && Weaker(b, c)
    ensures Weaker(a, c)
  {
  }

  /** Control that goes on in the first of two fragments goes on the same when the second stands behind. */
  lemma LeadsOn(x: Types, a: seq<Types>, b: seq<Types>, u: Types, j: int)
    requires |a| > 0 && |b| > 0 && Weaker(b[0], u) && Weaker(u, a[|a| - 1]) && Leads(x, a, j)
    ensures Leads(x, a[..|a| - 1] + b, j)
  {
    hide Weaker;
    if j == |a| - 1 {
      WeakerJoins(u, a[j], x);
      WeakerJoins(b[0], u, x);
    }
  }

  lemma TypedLeft(f: seq<Insn>, g: seq<Insn>, s: seq<Types>, ts: seq<Types>, room: Room, i: nat)
    requires i < |f| < |s| && i < |g| < |ts| && f[i] == g[i] && s[i] == ts[i] && TypedAt(f, s, room, i)
    requires forall x, j {:trigger Leads(x, s, j)} :: Leads(x, s, j) ==> Leads(x, ts, j)
    ensures TypedAt(g, ts, room, i)
  {
    hide Leads, Allowed, After;
  }

  lemma TypedRight(f: seq<Insn>, g: seq<Insn>, s: seq<Types>, before: seq<Types>, room: Room, i: nat)
    requires i < |f| < |s| && |before| + i < |g| < |before| + |s| && f[i] == g[|before| + i] && TypedAt(f, s, room, i)
    ensures TypedAt(g, before + s, room, |before| + i)
  {
    hide Weaker, Allowed, After;
  }

  lemma TableJoin(a: seq<Insn>, s1: seq<Types>, b: seq<Insn>, s2: seq<Types>, t: Types, u: Types, v: Types, room: Room)
    requires Table(a, s1, t, u, room) && Table(b, s2, u, v, room)
    ensures Table(a + b, s1[..|a|] + s2, t, v, room)
  {
    hide TypedAt, Leads, Weaker;
    var f, ts, n := a + b, s1[..|a|] + s2, |a|;
    forall x, j | Leads(x, s1, j) ensures Leads(x, ts, j) {
      LeadsOn(x, s1, s2, u, j);
    }
    forall i | 0 <= i < |f| ensures TypedAt(f, ts, room, i) {
      if i < n {
        assert TypedAt(a, s1, room, i);
        TypedLeft(a, f, s1, ts, room, i);
      } else {
        assert TypedAt(b, s2, room, i - n);
        TypedRight(b, f, s2, s1[..n], room, i - n);
      }
    }
    if n == 0 {
      WeakerJoins(u, s1[0], t);
      WeakerJoins(s2[0], u, t);
    }
  }

  /** Typed fragments concatenate: what one leaves behind is what the next begins with. */
  lemma TypedJoin(a: seq<Insn>, b: seq<Insn>, t: Types, u: Types, v: Types, room: Room)
    requires Typed(a, t, u, room) && Typed(b, u, v, room)
    ensures Typed(a + b, t, v, room)
  {
    hide Table;
    var s1 :| Table(a, s1, t, u, room);
    var s2 :| Table(b, s2, u, v, room);
    TableJoin(a, s1, b, s2, t, u, v, room);
    TableLength(a, s1, t, u, room);
  }

  lemma TableLength(f: seq<Insn>, ts: seq<Types>, t: Types, u: Types, room: Room)
    requires Table(f, ts, t, u, room)
    ensures |ts| == |f| + 1
  {
  }

  /** Less may be asked, and more told. */
  lemma TypedLoose(f: seq<Insn>, t: Types, u: Types, t': Types, u': Types, room: Room)
    requires Typed(f, t, u, room) && Weaker(t, t') && Weaker(u', u)
    ensures Typed(f, t', u', room)
  {
    hide TypedAt, Weaker;
    var ts :| Table(f, ts, t, u, room);
    WeakerJoins(ts[0], t, t');
    WeakerJoins(u', u, ts[|f|]);
    assert Table(f, ts, t', u', room);
  }

  /** More room does no harm. */
  lemma TypedMore(f: seq<Insn>, t: Types, u: Types, room: Room, more: Room)
    requires Typed(f, t, u, room) && room.slots <= more.slots && room.maps <= more.maps && (room.mayExit ==> more.mayExit)
    ensures Typed(f, t, u, more)
  {
    hide Leads, After, Weaker;
    var ts :| Table(f, ts, t, u, room);
    forall i | 0 <= i < |f| ensures TypedAt(f, ts, more, i) {
      assert TypedAt(f, ts, room, i);
    }
    assert Table(f, ts, t, u, more);
  }

  // ----- Moves, logging, closes -----

  /** Code that needs nothing of R7 and R8 but what it leaves of them. */
  ghost predicate Keeps(f: seq<Insn>, k7: Kind, k8: Kind, room: Room) {
    Typed(f, Known(k7, k8), Known(k7, k8), room)
  }

  lemma KeepsJoin(a: seq<Insn>, b: seq<Insn>, k7: Kind, k8: Kind, room: Room)
    requires Keeps(a, k7, k8, room) && Keeps(b, k7, k8, room)
    ensures Keeps(a + b, k7, k8, room)
  {
    TypedJoin(a, b, Known(k7, k8), Known(k7, k8), Known(k7, k8), room);
  }

  lemma NothingTyped(k7: Kind, k8: Kind, room: Room)
    ensures Keeps([], k7, k8, room)
  {
    assert Table([], [Known(k7, k8)], Known(k7, k8), Known(k7, k8), room);
  }

  lemma IfTyped(cond: bool, f: seq<Insn>, k7: Kind, k8: Kind, room: Room)
    requires cond ==> Keeps(f, k7, k8, room)
    ensures Keeps(IfCode(cond, f), k7, k8, room)
  {
    hide Keeps;
    NothingTyped(k7, k8, room);
  }

  lemma RelStoreTyped(off: int, data: int, k7: Kind, k8: Kind, room: Room)
    requires Data(off)
    ensures Keeps(RelStore(off, data), k7, k8, room)
  {
    var f, t := RelStore(off, data), Known(k7, k8);
    var ts := [t, t, t, t.(r1 := Blob(off)), t.(r1 := Blob(off)), t];
    forall i | 0 <= i < |f| ensures TypedAt(f, ts, room, i) { }
    assert Table(f, ts, t, t, room);
  }

  lemma Blob2BlobTyped(off: int, size: nat, from: int, k7: Kind, k8: Kind, room: Room)
    requires Data(off)
    ensures Keeps(Blob2Blob(off, size, from), k7, k8, room)
    ensures Typed(Blob2Blob(off, size, from), Known(k7, k8), Known(k7, k8).(r0 := Number), room)
  {
    var f, t := Blob2Blob(off, size, from), Known(k7, k8);
    var n := t.(r0 := Number);
    var ts := [t, t.(r2 := Blob(from)), t.(r2 := Blob(from)), n, n.(r1 := Blob(off)), n.(r1 := Blob(off)), n];
    forall i | 0 <= i < |f| ensures TypedAt(f, ts, room, i) { }
    assert Table(f, ts, t, n, room) && Table(f, ts, t, t, room);
  }

  lemma Blob2CtxTyped(ctxOff: int, size: nat, from: int, k7: Kind, k8: Kind, room: Room)
    ensures Keeps(Blob2Ctx(ctxOff, size, from), k7, k8, room)
  {
    var f, t := Blob2Ctx(ctxOff, size, from), Known(k7, k8);
    var ts := [t, t.(r1 := Blob(from)), t.(r1 := Blob(from)), t, t];
    forall i | 0 <= i < |f| ensures TypedAt(f, ts, room, i) { }
    assert Table(f, ts, t, t, room);
  }

  lemma Ctx2BlobTyped(off: int, size: nat, ctxOff: int, check: bool, k7: Kind, k8: Kind, room: Room)
    requires Data(off)
    ensures Keeps(Ctx2Blob(off, size, ctxOff, check), k7, k8, room)
  {
    var f, t := Ctx2Blob(off, size, ctxOff, check), Known(k7, k8);
    var b := t.(r1 := Blob(off));
    var ts := if check then [t, t.(r0 := Number), t, b, b, t] else [t, t, b, b, t];
    forall i | 0 <= i < |f| ensures TypedAt(f, ts, room, i) { }
    assert Table(f, ts, t, t, room);
  }

  lemma Stack2BlobTyped(off: int, size: nat, stackOff: int, k7: Kind, k8: Kind, room: Room)
    requires Data(off) && StackSlot(stackOff, room.slots)
    ensures Keeps(Stack2Blob(off, size, stackOff), k7, k8, room)
  {
    var f, t := Stack2Blob(off, size, stackOff), Known(k7, k8);
    var ts := [t, t, t.(r1 := Blob(off)), t.(r1 := Blob(off)), t];
    forall i | 0 <= i < |f| ensures TypedAt(f, ts, room, i) { }
    assert Table(f, ts, t, t, room);
  }

  lemma Stack2CtxTyped(ctxOff: int, size: nat, stackOff: int, k7: Kind, k8: Kind, room: Room)
    requires StackSlot(stackOff, room.slots)
    ensures Keeps(Stack2Ctx(ctxOff, size, stackOff), k7, k8, room)
  {
    var f, t := Stack2Ctx(ctxOff, size, stackOff), Known(k7, k8);
    var ts := [t, t, t];
    forall i | 0 <= i < |f| ensures TypedAt(f, ts, room, i) { }
    assert Table(f, ts, t, t, room);
  }

  predicate MayLog(reg: int) { reg < 10 && reg != 6 }

  lemma DebugRegsTyped(reg1: int, reg2: int, msg: (int, int), k7: Kind, k8: Kind, room: Room)
    requires MayLog(reg1) && MayLog(reg2)
    ensures Keeps(DebugRegs(reg1, reg2, msg), k7, k8, room)
  {
    var f, t := DebugRegs(reg1, reg2, msg), Known(k7, k8);
    var ts := seq(|f| + 1, _ => t);
    forall i | 0 <= i < |f| ensures TypedAt(f, ts, room, i) { }
    assert Table(f, ts, t, t, room);
  }

  lemma DebugTyped(log: bool, reg1: int, reg2: int, msg: (int, int), k7: Kind, k8: Kind, room: Room)
    requires MayLog(reg1) && MayLog(reg2)
    ensures Keeps(Debug(log, reg1, reg2, msg), k7, k8, room)
  {
    hide Keeps, DebugRegs;
    NothingTyped(k7, k8, room);
    DebugRegsTyped(reg1, reg2, msg, k7, k8, room);
  }

  lemma CloseR1Typed(log: bool, msg: (int, int), k7: Kind, k8: Kind, room: Room)
    ensures Typed(CloseR1(log, msg), Known(k7, k8).(r1 := Number), Known(k7, k8), room)
  {
    var f, t := CloseR1(log, msg), Known(k7, k8);
    var n := t.(r1 := Number);
    if log {
      assert f == [Jmp(JSLE, 1, 0, 8), MovReg(9, 1), Call(SysClose), LdBlob(1, msg.0), LdBlobTail, MovImm(2, msg.1),
                   MovReg(3, 9), MovReg(4, 0), Call(TracePrintk)];
      hide *;
      CloseLogTyped(f, msg, n, t, room);
    } else {
      var ts := [n, n, n, t];
      forall i | 0 <= i < |f| ensures TypedAt(f, ts, room, i) { }
      assert Table(f, ts, n, t, room);
    }
  }

  lemma CloseLogTyped(f: seq<Insn>, msg: (int, int), n: Types, t: Types, room: Room)
    requires f == [Jmp(JSLE, 1, 0, 8), MovReg(9, 1), Call(SysClose), LdBlob(1, msg.0), LdBlobTail, MovImm(2, msg.1),
                   MovReg(3, 9), MovReg(4, 0), Call(TracePrintk)]
    requires n == t.(r1 := Number) && t == Known(t.r7, t.r8)
    ensures Typed(f, n, t, room)
  {
    var ts := [n, n, n, t, t, t, t, t, t, t];
    forall i | 0 <= i < |f| ensures TypedAt(f, ts, room, i) { }
    assert Table(f, ts, n, t, room);
  }

  lemma CloseStackTyped(off: int, log: bool, msg: (int, int), k7: Kind, k8: Kind, room: Room)
    requires StackSlot(off, room.slots)
    ensures Keeps(CloseStack(off, log, msg), k7, k8, room)
  {
    hide CloseR1;
    var f, t := [Ldx(4, 1, 10, off)], Known(k7, k8);
    var ts := [t, t.(r1 := Number)];
    assert TypedAt(f, ts, room, 0);
    assert Table(f, ts, t, ts[1], room);
    CloseR1Typed(log, msg, k7, k8, room);
    TypedJoin(f, CloseR1(log, msg), t, ts[1], t, room);
  }

  lemma CloseBlobTyped(off: int, log: bool, msg: (int, int), k7: Kind, k8: Kind, room: Room)
    ensures Keeps(CloseBlob(off, log, msg), k7, k8, room)
  {
    hide CloseR1;
    var f, t := [LdBlob(0, off), LdBlobTail, Ldx(4, 1, 0, 0)], Known(k7, k8);
    var ts := [t, t.(r0 := Blob(off)), t.(r0 := Blob(off)), t.(r1 := Number)];
    forall i | 0 <= i < |f| ensures TypedAt(f, ts, room, i) { }
    assert Table(f, ts, t, ts[3], room);
    CloseR1Typed(log, msg, k7, k8, room);
    TypedJoin(f, CloseR1(log, msg), t, ts[3], t, room);
  }

  // ----- Checked commands -----

  /** Code that leaves its result, a number, in R7. */
  ghost predicate Answers(f: seq<Insn>, k7: Kind, k8: Kind, room: Room) {
    Typed(f, Known(k7, k8), Known(Number, k8), room)
  }

  lemma AnswersBehind(a: seq<Insn>, b: seq<Insn>, k7: Kind, k8: Kind, room: Room)
    requires Keeps(a, k7, k8, room) && Answers(b, k7, k8, room)
    ensures Answers(a + b, k7, k8, room)
  {
    TypedJoin(a, b, Known(k7, k8), Known(k7, k8), Known(Number, k8), room);
  }

  lemma AnswersKept(a: seq<Insn>, b: seq<Insn>, k7: Kind, k8: Kind, room: Room)
    requires Answers(a, k7, k8, room) && Keeps(b, Number, k8, room)
    ensures Answers(a + b, k7, k8, room)
  {
    TypedJoin(a, b, Known(k7, k8), Known(Number, k8), Known(Number, k8), room);
  }

  lemma CommandTyped(cmd: int, attr: int, size: int, log: bool, msg: (int, int), k7: Kind, k8: Kind, room: Room)
    ensures Answers(Command(cmd, attr, size, log, msg), k7, k8, room)
  {
    hide Debug;
    var f, t := SysBpfCall(cmd, attr, size), Known(k7, k8);
    var ts := [t, t, t, t, t, t.(r0 := Number), t.(r7 := Number)];
    forall i | 0 <= i < |f| ensures TypedAt(f, ts, room, i) { }
    assert Table(f, ts, t, ts[6], room);
    DebugTyped(log, 7, -1, msg, Number, k8, room);
    AnswersKept(f, Debug(log, 7, -1, msg), k7, k8, room);
  }

  lemma CheckErrTyped(pos: nat, cleanup: nat, k8: Kind, room: Room)
    ensures Typed(CheckErr(pos, cleanup), Known(Number, k8), Known(Natural, k8), room)
    ensures Keeps(CheckErr(pos, cleanup), Number, k8, room)
  {
    var f, t := CheckErr(pos, cleanup), Known(Number, k8);
    var ts := [t, Known(Natural, k8)];
    assert TypedAt(f, ts, room, 0);
    assert Table(f, ts, t, Known(Natural, k8), room) && Table(f, ts, t, t, room);
  }

  lemma CheckedTyped(body: seq<Insn>, pos: nat, cleanup: nat, rest: seq<Insn>, room: Room)
    requires Typed(body, BASE, RESULT, room) && Typed(rest, SUCCESS, BASE, room)
    ensures Typed(Checked(body, pos, cleanup, rest), BASE, BASE, room)
  {
    hide Typed;
    var check := CheckErr(pos + |body|, cleanup);
    CheckErrTyped(pos + |body|, cleanup, Any, room);
    TypedJoin(body, check, BASE, RESULT, SUCCESS, room);
    TypedJoin(body + check, rest, BASE, SUCCESS, BASE, room);
  }

  /** What keeps R7 a number may be followed by code that does not care. */
  lemma Forget(f: seq<Insn>, k7: Kind, k8: Kind, room: Room)
    requires Keeps(f, k7, k8, room)
    ensures Typed(f, Known(k7, k8), Known(Any, k8), room) && Typed(f, Known(k7, k8), BASE, room)
  {
    hide Typed;
    TypedLoose(f, Known(k7, k8), Known(k7, k8), Known(k7, k8), Known(Any, k8), room);
    TypedLoose(f, Known(k7, k8), Known(k7, k8), Known(k7, k8), BASE, room);
  }

  lemma KeepInStackTyped(off: int, k8: Kind, room: Room)
    requires StackSlot(off, room.slots)
    ensures Keeps(KeepInStack(off), Natural, k8, room)
  {
    var f, t := KeepInStack(off), Known(Natural, k8);
    var ts := [t, t];
    assert TypedAt(f, ts, room, 0);
    assert Table(f, ts, t, t, room);
  }

  lemma KeepInBlobTyped(off: int, k8: Kind, room: Room)
    requires MapSlot(off, room.maps)
    ensures Keeps(KeepInBlob(off), Natural, k8, room)
  {
    var f, t := KeepInBlob(off), Known(Natural, k8);
    var ts := [t, t.(r1 := Blob(off)), t.(r1 := Blob(off)), t];
    forall i | 0 <= i < |f| ensures TypedAt(f, ts, room, i) { }
    assert Table(f, ts, t, t, room);
  }

  // ----- The bodies of the commands -----

  lemma LogSettingsTyped(level: int, size: int, buf: int, room: Room)
    requires Data(level) && Data(size) && Data(buf)
    ensures Keeps(LogSettings(level, size, buf), Any, Any, room)
  {
    hide Keeps, Ctx2Blob;
    var a, b, c := Ctx2Blob(level, 4, 8, false), Ctx2Blob(size, 4, 12, false), Ctx2Blob(buf, 8, 16, false);
    Ctx2BlobTyped(level, 4, 8, false, Any, Any, room);
    Ctx2BlobTyped(size, 4, 12, false, Any, Any, room);
    Ctx2BlobTyped(buf, 8, 16, false, Any, Any, room);
    KeepsJoin(a, b, Any, Any, room);
    KeepsJoin(a + b, c, Any, Any, room);
  }

  lemma LoadBtfTyped(data: int, attr: int, log: bool, msg: (int, int), room: Room)
    requires Data(attr)
    ensures Answers(LoadBtfBody(data, attr, log, msg), Any, Any, room)
  {
    hide Keeps, Answers, LogSettings, RelStore, Command;
    LogSettingsTyped(attr + 24, attr + 20, attr + 8, room);
    RelStoreTyped(attr, data, Any, Any, room);
    CommandTyped(18, attr, 28, log, msg, Any, Any, room);
    var a, b := LogSettings(attr + 24, attr + 20, attr + 8), RelStore(attr, data);
    KeepsJoin(a, b, Any, Any, room);
    AnswersBehind(a + b, Command(18, attr, 28, log, msg), Any, Any, room);
  }

  lemma MapCreateTyped(attr: int, valueTyped: bool, ofMaps: bool, idx: int, log: bool, msg: (int, int), room: Room)
    requires Data(attr) && room.slots >= 2
    ensures Answers(MapCreateBody(attr, valueTyped, ofMaps, idx, log, msg), Any, Any, room)
  {
    hide Keeps, Answers, Stack2Blob, Ctx2Blob, Command, IfCode;
    var a, b := IfCode(valueTyped, Stack2Blob(attr + 48, 4, BTF_FD_OFF)), IfCode(ofMaps, Stack2Blob(attr + 20, 4, INNER_MAP_FD_OFF));
    var c := IfCode(idx >= 0, Ctx2Blob(attr + 12, 4, CtxMap(idx) + 4, true));
    Stack2BlobTyped(attr + 48, 4, BTF_FD_OFF, Any, Any, room);
    Stack2BlobTyped(attr + 20, 4, INNER_MAP_FD_OFF, Any, Any, room);
    Ctx2BlobTyped(attr + 12, 4, CtxMap(idx) + 4, true, Any, Any, room);
    IfTyped(valueTyped, Stack2Blob(attr + 48, 4, BTF_FD_OFF), Any, Any, room);
    IfTyped(ofMaps, Stack2Blob(attr + 20, 4, INNER_MAP_FD_OFF), Any, Any, room);
    IfTyped(idx >= 0, Ctx2Blob(attr + 12, 4, CtxMap(idx) + 4, true), Any, Any, room);
    CommandTyped(0, attr, 72, log, msg, Any, Any, room);
    KeepsJoin(a, b, Any, Any, room);
    KeepsJoin(a + b, c, Any, Any, room);
    AnswersBehind(a + b + c, Command(0, attr, 72, log, msg), Any, Any, room);
  }

  lemma MapCreateTailTyped(ofMaps: bool, idx: int, log: bool, msg: (int, int), room: Room)
    requires room.slots >= 2 && (idx < 0 || idx < room.maps)
    ensures Typed(MapCreateTail(0, ofMaps, idx, log, msg), SUCCESS, BASE, room)
  {
    hide Keeps, KeepInStack, KeepInBlob, CloseStack, IfCode;
    var a, b := if idx < 0 then KeepInStack(INNER_MAP_FD_OFF) else KeepInBlob(0 + 4 * idx), CloseStack(INNER_MAP_FD_OFF, log, msg);
    if idx < 0 {
      KeepInStackTyped(INNER_MAP_FD_OFF, Any, room);
    } else {
      KeepInBlobTyped(0 + 4 * idx, Any, room);
    }
    CloseStackTyped(INNER_MAP_FD_OFF, log, msg, Natural, Any, room);
    IfTyped(ofMaps, b, Natural, Any, room);
    KeepsJoin(a, IfCode(ofMaps, b), Natural, Any, room);
    Forget(a + IfCode(ofMaps, b), Natural, Any, room);
  }

  lemma InitialValueTyped(idx: int, value: int, size: int, room: Room)
    ensures Keeps(InitialValue(idx, value, size), Any, Any, room)
  {
    var f, t := InitialValue(idx, value, size), BASE;
    var v := t.(r1 := Blob(value));
    var ts := [t, t.(r3 := Number), t, v, v, v, v.(r0 := Number), t, t, v, t];
    forall i | 0 <= i < |f| ensures TypedAt(f, ts, room, i) { }
    assert Table(f, ts, t, t, room);
  }

  lemma UpdateTyped(attr: int, key: int, value: int, mapSlot: int, log: bool, msg: (int, int), room: Room)
    requires Data(attr)
    ensures Answers(UpdateBody(attr, key, value, mapSlot, log, msg), Any, Any, room)
  {
    hide Keeps, Answers, Blob2Blob, RelStore, Command;
    var a, b, c := Blob2Blob(attr, 4, mapSlot), RelStore(attr + 8, key), RelStore(attr + 16, value);
    Blob2BlobTyped(attr, 4, mapSlot, Any, Any, room);
    RelStoreTyped(attr + 8, key, Any, Any, room);
    RelStoreTyped(attr + 16, value, Any, Any, room);
    CommandTyped(2, attr, 32, log, msg, Any, Any, room);
    KeepsJoin(a, b, Any, Any, room);
    KeepsJoin(a + b, c, Any, Any, room);
    AnswersBehind(a + b + c, Command(2, attr, 32, log, msg), Any, Any, room);
  }

  lemma MapUpdateTyped(idx: int, size: int, attr: int, key: int, value: int, mapSlot: int, log: bool, msg: (int, int), room: Room)
    requires Data(attr)
    ensures Answers(MapUpdateBody(idx, size, attr, key, value, mapSlot, log, msg), Any, Any, room)
  {
    hide Keeps, Answers, InitialValue, UpdateBody;
    InitialValueTyped(idx, value, size, room);
    UpdateTyped(attr, key, value, mapSlot, log, msg, room);
    AnswersBehind(InitialValue(idx, value, size), UpdateBody(attr, key, value, mapSlot, log, msg), Any, Any, room);
  }

  lemma MapFreezeTyped(attr: int, mapSlot: int, log: bool, msg: (int, int), room: Room)
    requires Data(attr)
    ensures Answers(MapFreezeBody(attr, mapSlot, log, msg), Any, Any, room)
  {
    hide Keeps, Answers, Blob2Blob, Command;
    Blob2BlobTyped(attr, 4, mapSlot, Any, Any, room);
    CommandTyped(22, attr, 4, log, msg, Any, Any, room);
    AnswersBehind(Blob2Blob(attr, 4, mapSlot), Command(22, attr, 4, log, msg), Any, Any, room);
  }

  lemma ProgLoadHeadTyped(attr: int, license: int, insns: int, funcs: int, lines: int, relos: int, fdArray: int, room: Room)
    requires Data(attr) && room.slots >= 1
    ensures Keeps(ProgLoadHead(attr, license, insns, funcs, lines, relos, fdArray), Any, Any, room)
  {
    hide Keeps, RelStore, LogSettings, Stack2Blob;
    var a, b, c := RelStore(attr + 16, license), RelStore(attr + 8, insns), RelStore(attr + 80, funcs);
    var d, e, f := RelStore(attr + 96, lines), RelStore(attr + 128, relos), RelStore(attr + 120, fdArray);
    var g, h := LogSettings(attr + 24, attr + 28, attr + 32), Stack2Blob(attr + 72, 4, BTF_FD_OFF);
    RelStoreTyped(attr + 16, license, Any, Any, room);
    RelStoreTyped(attr + 8, insns, Any, Any, room);
    RelStoreTyped(attr + 80, funcs, Any, Any, room);
    RelStoreTyped(attr + 96, lines, Any, Any, room);
    RelStoreTyped(attr + 128, relos, Any, Any, room);
    RelStoreTyped(attr + 120, fdArray, Any, Any, room);
    LogSettingsTyped(attr + 24, attr + 28, attr + 32, room);
    Stack2BlobTyped(attr + 72, 4, BTF_FD_OFF, Any, Any, room);
    KeepsJoin(a, b, Any, Any, room);
    KeepsJoin(a + b, c, Any, Any, room);
    KeepsJoin(d, e, Any, Any, room);
    KeepsJoin(d + e, f, Any, Any, room);
    KeepsJoin(a + b + c, d + e + f, Any, Any, room);
    KeepsJoin(a + b + c + (d + e + f), g, Any, Any, room);
    KeepsJoin(a + b + c + (d + e + f) + g, h, Any, Any, room);
  }

  lemma AttachBindTyped(attr: int, room: Room)
    requires Data(attr)
    ensures Typed(AttachBind(attr), SUCCESS, BASE, room)
  {
    var f, t := AttachBind(attr), SUCCESS;
    var b := t.(r0 := Blob(attr));
    var ts := [t, b, b, b, b.(r7 := Number), BASE];
    forall i | 0 <= i < |f| ensures TypedAt(f, ts, room, i) { }
    assert Table(f, ts, t, BASE, room);
  }

  // ----- Symbol lookups and relocations; R8 points to the instruction relocated -----

  lemma FindByNameTyped(name: int, len: int, kind: int, log: bool, msg: (int, int), k8: Kind, room: Room)
    ensures Answers(FindByName(name, len, kind, log, msg), Any, k8, room)
  {
    hide Debug;
    var t := Known(Any, k8);
    var f := [LdBlob(1, name), LdBlobTail, MovImm(2, len), MovImm(3, kind), MovImm(4, 0), Call(FindByNameKind), MovReg(7, 0)];
    var ts := [t, t, t, t, t, t, t.(r0 := Number), t.(r7 := Number)];
    forall i | 0 <= i < |f| ensures TypedAt(f, ts, room, i) { }
    assert Table(f, ts, t, ts[7], room);
    DebugTyped(log, 7, -1, msg, Number, k8, room);
    AnswersKept(f, Debug(log, 7, -1, msg), Any, k8, room);
  }

  lemma KallsymsTyped(name: int, len: int, res: int, log: bool, msg: (int, int), k8: Kind, room: Room)
    ensures Answers(Kallsyms(name, len, res, log, msg), Any, k8, room)
  {
    hide Debug;
    var f, t := KallsymsCall(name, len, res), Known(Any, k8);
    var p, q := t.(r4 := Blob(res)), t.(r7 := Blob(res));
    var ts := [t, t, t, t, t, p, p, q, q.(r0 := Number), t.(r0 := Number), t.(r7 := Number)];
    forall i | 0 <= i < |f| ensures TypedAt(f, ts, room, i) { }
    assert Table(f, ts, t, ts[10], room);
    DebugTyped(log, 7, -1, msg, Number, k8, room);
    AnswersKept(f, Debug(log, 7, -1, msg), Any, k8, room);
  }

  lemma LookupTyped(f: seq<Insn>, pos: nat, cleanup: nat, weak: bool, k8: Kind, room: Room)
    requires Answers(f, Any, k8, room)
    ensures Answers(Lookup(f, pos, cleanup, weak), Any, k8, room)
  {
    hide Keeps, Answers, CheckErr;
    CheckErrTyped(pos + |f|, cleanup, k8, room);
    IfTyped(!weak, CheckErr(pos + |f|, cleanup), Number, k8, room);
    AnswersKept(f, IfCode(!weak, CheckErr(pos + |f|, cleanup)), Any, k8, room);
  }

  /** Code that stores what R7 holds into the instruction R8 points to. */
  ghost predicate Binds(f: seq<Insn>, insn: int, room: Room) {
    Typed(f, Known(Number, Blob(insn)), Known(Any, Blob(insn)), room)
  }

  lemma KfuncBindTyped(idx: int, slot: int, insn: int, room: Room)
    requires Data(insn) && Data(slot)
    ensures Binds(KfuncBind(idx, slot), insn, room)
  {
    var t, u := Known(Number, Blob(insn)), Known(Any, Blob(insn));
    var f := [Jmp(JSGE, 7, 0, 3), St(4, 8, 4, 0), St(2, 8, 2, 0), Ja(10), Stx(4, 8, 7, 4), MovReg(9, 7), AluImm(RSH, 9, 32),
              LdBlob(0, slot), LdBlobTail, Stx(4, 0, 9, 0), Jmp(JNE, 9, 0, 2), St(2, 8, 2, 0), Ja(1), St(2, 8, 2, idx)];
    assert KfuncBind(idx, slot) == f;
    var n := u.(r9 := Number);
    var ts := [t, u, u, u, t, u, u, n, n, n.(r0 := Blob(slot)), n, u, u, u, u];
    KfuncTable(f, ts, idx, slot, t, u, n, insn, room);
    hide TypedAt, KfuncBind, KfuncStore;
    assert Table(f, ts, t, u, room);
  }

  lemma KfuncTable(f: seq<Insn>, ts: seq<Types>, idx: int, slot: int, t: Types, u: Types, n: Types, insn: int, room: Room)
    requires Data(insn) && Data(slot) && t == Known(Number, Blob(insn)) && u == Known(Any, Blob(insn)) && n == u.(r9 := Number)
    requires f == [Jmp(JSGE, 7, 0, 3), St(4, 8, 4, 0), St(2, 8, 2, 0), Ja(10), Stx(4, 8, 7, 4), MovReg(9, 7), AluImm(RSH, 9, 32),
                   LdBlob(0, slot), LdBlobTail, Stx(4, 0, 9, 0), Jmp(JNE, 9, 0, 2), St(2, 8, 2, 0), Ja(1), St(2, 8, 2, idx)]
    requires ts == [t, u, u, u, t, u, u, n, n, n.(r0 := Blob(slot)), n, u, u, u, u]
    ensures forall i {:trigger TypedAt(f, ts, room, i)} :: 0 <= i < |f| ==> TypedAt(f, ts, room, i)
  {
  }

  lemma CopyTyped(insn: int, from: int, o: int, p: int, size: nat, k8: Kind, room: Room)
    requires Data(insn) && o >= 0 && p >= 0
    ensures Keeps(Blob2Blob(insn + o, 4, from + o) + Blob2Blob(insn + p, size, from + p), Any, k8, room)
  {
    hide Keeps, Blob2Blob;
    Blob2BlobTyped(insn + o, 4, from + o, Any, k8, room);
    Blob2BlobTyped(insn + p, size, from + p, Any, k8, room);
    KeepsJoin(Blob2Blob(insn + o, 4, from + o), Blob2Blob(insn + p, size, from + p), Any, k8, room);
  }

  /** Two fields of the instruction are read for the log. */
  lemma ReadsTyped(size1: nat, off1: int, size2: nat, off2: int, insn: int, room: Room)
    ensures Keeps([Ldx(size1, 7, 8, off1), Ldx(size2, 9, 8, off2)], Any, Blob(insn), room)
  {
    var f, t := [Ldx(size1, 7, 8, off1), Ldx(size2, 9, 8, off2)], Known(Any, Blob(insn));
    var ts := [t, t, t];
    forall i | 0 <= i < |f| ensures TypedAt(f, ts, room, i) { }
    assert Table(f, ts, t, t, room);
  }

  lemma KfuncLogTyped(log: bool, slot: int, msg1: (int, int), msg2: (int, int), insn: int, room: Room)
    ensures Keeps(KfuncLog(log, slot, msg1, msg2), Any, Blob(insn), room)
  {
    var a, b := [Ldx(4, 7, 8, 4), Ldx(2, 9, 8, 2)], [LdBlob(0, slot), LdBlobTail, Ldx(4, 9, 0, 0)];
    var c, d, t := DebugRegs(7, 9, msg1), DebugRegs(9, -1, msg2), Known(Any, Blob(insn));
    var ts := [t, t, t.(r0 := Blob(slot)), t];
    forall i | 0 <= i < |b| ensures TypedAt(b, ts, room, i) { }
    assert Table(b, ts, t, t, room);
    assert Keeps(b, Any, Blob(insn), room);
    hide Keeps, DebugRegs, IfCode;
    ReadsTyped(4, 4, 2, 2, insn, room);
    DebugRegsTyped(7, 9, msg1, Any, Blob(insn), room);
    DebugRegsTyped(9, -1, msg2, Any, Blob(insn), room);
    KeepsJoin(a, c, Any, Blob(insn), room);
    KeepsJoin(a + c, b, Any, Blob(insn), room);
    KeepsJoin(a + c + b, d, Any, Blob(insn), room);
    IfTyped(log, a + c + b + d, Any, Blob(insn), room);
  }

  lemma KsymLogTyped(log: bool, msg1: (int, int), msg2: (int, int), insn: int, room: Room)
    ensures Keeps(KsymLog(log, msg1, msg2), Any, Blob(insn), room)
  {
    var a, b := [Ldx(4, 7, 8, 4), Ldx(2, 9, 8, 12)], [Ldx(1, 9, 8, 1)];
    var c, d, t := DebugRegs(7, 9, msg1), DebugRegs(9, -1, msg2), Known(Any, Blob(insn));
    var ts := [t, t];
    assert TypedAt(b, ts, room, 0);
    assert Table(b, ts, t, t, room);
    assert Keeps(b, Any, Blob(insn), room);
    hide Keeps, DebugRegs, IfCode;
    ReadsTyped(4, 4, 2, 12, insn, room);
    DebugRegsTyped(7, 9, msg1, Any, Blob(insn), room);
    DebugRegsTyped(9, -1, msg2, Any, Blob(insn), room);
    KeepsJoin(a, c, Any, Blob(insn), room);
    KeepsJoin(a + c, b, Any, Blob(insn), room);
    KeepsJoin(a + c + b, d, Any, Blob(insn), room);
    IfTyped(log, a + c + b + d, Any, Blob(insn), room);
  }

  lemma TypelessBindTyped(pos: nat, cleanup: nat, insn: int, room: Room)
    requires Data(insn)
    ensures Binds(TypelessBind(pos, cleanup), insn, room)
  {
    var f, t := TypelessBind(pos, cleanup), Known(Number, Blob(insn));
    var ts := [t, t, t, t, t, t];
    forall i | 0 <= i < |f| ensures TypedAt(f, ts, room, i) { }
    assert Table(f, ts, t, Known(Any, Blob(insn)), room);
  }

  lemma KsymBindTyped(insn: int, room: Room)
    requires Data(insn)
    ensures Binds(KsymBind(), insn, room)
  {
    var t, u := Known(Number, Blob(insn)), Known(Any, Blob(insn));
    var f := [Jmp(JSGE, 7, 0, 3), St(4, 8, 4, 0), St(4, 8, 12, 0), Ja(4), Stx(4, 8, 7, 4), AluImm(RSH, 7, 32),
              Stx(4, 8, 7, 12), Ja(3), Ldx(1, 9, 8, 1), AluImm(AND32, 9, 15), Stx(1, 8, 9, 1)];
    assert KsymBind() == f;
    hide KsymBind;
    var ts := [t, u, u, u, u, u, u, u, u, u, u, u];
    forall i | 0 <= i < |f| ensures TypedAt(f, ts, room, i) { }
    assert Table(f, ts, t, u, room);
  }

  lemma KsymCopyTyped(insn: int, from: int, room: Room)
    requires Data(insn)
    ensures Keeps(KsymCopy(insn, from), Any, Blob(insn), room)
  {
    var t := Known(Any, Blob(insn));
    var a, b := Blob2Blob(insn + 12, 4, from + 12), Blob2Blob(insn + 4, 4, from + 4);
    var n, f := t.(r0 := Number), [Jmp(JNE, 0, 0, 3)] + CLEAR_SRC;
    var ts := [n, t, t, t, t];
    forall i | 0 <= i < |f| ensures TypedAt(f, ts, room, i) { }
    assert Table(f, ts, n, t, room);
    hide Blob2Blob;
    Blob2BlobTyped(insn + 12, 4, from + 12, Any, Blob(insn), room);
    Blob2BlobTyped(insn + 4, 4, from + 4, Any, Blob(insn), room);
    TypedJoin(a, b, t, t, n, room);
    TypedJoin(a + b, f, t, n, t, room);
  }

  // ----- The cleanup code -----

  lemma {:induction false} StackClosesTyped(k: nat, room: Room)
    requires k <= room.slots
    ensures Keeps(StackCloses(k), Any, Any, room)
  {
    if k == 0 {
      NothingTyped(Any, Any, room);
    } else {
      StackClosesTyped(k - 1, room);
      var f, t := [Ldx(4, 1, 10, -STACK_SZ + 4 * (k - 1)), Jmp(JSLE, 1, 0, 1), Call(SysClose)], BASE;
      var ts := [t, t.(r1 := Number), t.(r1 := Number), t];
      forall i | 0 <= i < |f| ensures TypedAt(f, ts, room, i) { }
      assert Table(f, ts, t, t, room);
      KeepsJoin(StackCloses(k - 1), f, Any, Any, room);
    }
  }

  lemma {:induction false} BlobClosesTyped(fdArray: int, log: bool, msgs: seq<(int, int)>, room: Room)
    ensures Keeps(BlobCloses(fdArray, log, msgs), Any, Any, room)
    decreases |msgs|
  {
    hide Keeps, CloseBlob;
    if msgs == [] {
      NothingTyped(Any, Any, room);
    } else {
      var k := |msgs| - 1;
      BlobClosesTyped(fdArray, log, msgs[..k], room);
      CloseBlobTyped(fdArray + 4 * k, log, msgs[k], Any, Any, room);
      KeepsJoin(BlobCloses(fdArray, log, msgs[..k]), CloseBlob(fdArray + 4 * k, log, msgs[k]), Any, Any, room);
    }
  }

  lemma CleanupTyped(progs: nat, fdArray: int, log: bool, msgs: seq<(int, int)>, room: Room)
    requires 2 + progs <= room.slots && room.mayExit
    ensures Typed(Cleanup(progs, fdArray, log, msgs), BASE, BASE, room)
  {
    var a, b, c := StackCloses(2 + progs), BlobCloses(fdArray, log, msgs), [MovReg(0, 7), Exit];
    var ts := [BASE, BASE, BASE];
    forall i | 0 <= i < |c| ensures TypedAt(c, ts, room, i) { }
    assert Table(c, ts, BASE, BASE, room);
    assert Keeps(c, Any, Any, room);
    hide Keeps;
    StackClosesTyped(2 + progs, room);
    BlobClosesTyped(fdArray, log, msgs, room);
    KeepsJoin(a, b, Any, Any, room);
    KeepsJoin(a + b, c, Any, Any, room);
    assert Keeps(a + b + c, Any, Any, room);
    assert Cleanup(progs, fdArray, log, msgs) == a + b + c;
    KeepsIsTyped(a + b + c, room);
  }

  lemma KeepsIsTyped(f: seq<Insn>, room: Room)
    requires Keeps(f, Any, Any, room)
    ensures Typed(f, BASE, BASE, room)
  {
  }
}

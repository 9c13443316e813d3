/** The parts a loader is put together from: what a step of the generator does to its buffers, the
    code of relocations and program loads, and that it is sound. */
module LoaderParts {
  import opened LoaderCode
  import opened LoaderOps
  import opened LoaderTypes

  const INT32_MAX: nat := 0x7fff_ffff
  const INT16_MAX: int := 0x7fff

  const ENOENT: int := 2
  const E2BIG: int := 7
  const EFAULT: int := 14
  const ENOSPC: int := 28
  const EDOM: int := 33
  const ERANGE: int := 34

  /** Data grows by whole 8-byte words. */
  function Words(n: nat): nat { (n + 7) / 8 }

  // ----- What a step of the generator does to its buffers -----

  datatype Buf = Buf(insns: seq<Insn>, dataLen: nat, error: int)

  /** Programs of this many slots can still reach the cleanup label from their end. */
  const REACH: nat := 0x8000

  /** From `a` to `b`: an error sticks and freezes both buffers; without one, exactly the
      instructions `f` and 8 * `words` bytes of data were appended.  With `ok`, room is all it takes
      to succeed. */
  predicate Appends(a: Buf, b: Buf, f: seq<Insn>, words: nat, ok: bool) {
    && (a.error != 0 ==> b.error != 0 && b.insns == a.insns && b.dataLen == a.dataLen)
    && (b.error == 0 ==> a.error == 0 && b.insns == a.insns + f && b.dataLen == a.dataLen + 8 * words)
    && (a.error == 0 && ok && |a.insns| + |f| <= REACH && a.dataLen + 8 * words <= INT32_MAX ==> b.error == 0)
  }

  lemma Join(a: Buf, b: Buf, c: Buf, f: seq<Insn>, x: nat, ok: bool, g: seq<Insn>, y: nat, okToo: bool)
    requires Appends(a, b, f, x, ok) && Appends(b, c, g, y, okToo)
    ensures Appends(a, c, f + g, x + y, ok && okToo)
  {
    assert a.insns + f + g == a.insns + (f + g);
  }

  /** The second step may depend on where the first ended, short of an error. */
  lemma JoinAt(a: Buf, b: Buf, c: Buf, f: seq<Insn>, x: nat, ok: bool, g: seq<Insn>, y: nat, found: seq<Insn>, okFound: bool)
    requires Appends(a, b, f, x, ok) && Appends(b, c, found, y, okFound) && (b.error == 0 ==> found == g && (ok ==> okFound))
    ensures Appends(a, c, f + g, x + y, ok)
  {
    assert a.insns + f + g == a.insns + (f + g);
  }

  lemma GrownTo(a: Buf, b: Buf, f: seq<Insn>, words: nat, ok: bool)
    requires Appends(a, b, f, words, ok)
    ensures b.error == 0 ==> a.error == 0 && |b.insns| == |a.insns| + |f|
  {
  }

  lemma NothingAppended(a: Buf)
    ensures Appends(a, a, [], 0, true)
  {
    assert a.insns + [] == a.insns;
  }

  lemma EnoughRoom(a: Buf, b: Buf, f: seq<Insn>, words: nat, ok: bool)
    requires Appends(a, b, f, words, true)
    ensures Appends(a, b, f, words, ok)
  {
  }

  lemma DataGrows(a: Buf, b: Buf, f: seq<Insn>, words: nat, ok: bool)
    requires Appends(a, b, f, words, ok)
    ensures b.error == 0 ==> a.error == 0 && b.dataLen == a.dataLen + 8 * words
  {
  }

  lemma FailsAnyway(a: Buf, b: Buf, f: seq<Insn>, words: nat, ok: bool, g: seq<Insn>)
    requires Appends(a, b, f, words, ok) && b.error != 0
    ensures Appends(a, b, f + g, words, ok)
  {
  }

  lemma JoinData(a: Buf, b: Buf, c: Buf, x: nat, f: seq<Insn>, y: nat)
    requires Appends(a, b, [], x, true) && Appends(b, c, f, y, true)
    ensures Appends(a, c, f, x + y, true)
  {
    Join(a, b, c, [], x, true, f, y, true);
    assert [] + f == f;
  }

  // ----- External symbols of the program being loaded -----

  datatype Relo = Relo(name: string, weak: bool, typeless: bool, ld64: bool, kind: int, insnIdx: nat)

  datatype Ksym = Ksym(name: string, kind: int, ld64: bool, ref: nat, off: int, insn: int, typeless: bool)

  predicate SameSym(k: Ksym, r: Relo) { k.kind == r.kind && k.ld64 == r.ld64 && k.name == r.name }

  predicate SameKey(a: Ksym, b: Ksym) { a.kind == b.kind && a.ld64 == b.ld64 && a.name == b.name }

  /** No two descriptors stand for the same symbol, and each for at least one use of it. */
  ghost predicate Distinct(ks: seq<Ksym>) {
    && (forall i, j {:trigger SameKey(ks[i], ks[j])} :: 0 <= i < j < |ks| ==> !SameKey(ks[i], ks[j]))
    && (forall i :: 0 <= i < |ks| ==> ks[i].ref >= 1)
  }

  /** Descriptor `k` stands for the symbol of `r`, as one more use of it or as a new one. */
  predicate Got(was: seq<Ksym>, ks: seq<Ksym>, k: nat, r: Relo) {
    && k < |ks| && SameSym(ks[k], r)
    && if k < |was| then ks == was[k := was[k].(ref := was[k].ref + 1)]
       else |was| == k && (forall i {:trigger was[i]} :: 0 <= i < k ==> !SameSym(was[i], r))
            && ks == was + [Ksym(r.name, r.kind, r.ld64, 1, 0, 0, false)]
  }

  predicate HoldsSlot(k: Ksym) { !k.ld64 && k.off < MAX_FD_ARRAY_SZ }

  /** Reserved fd_array slots in use. */
  function Reserved(ks: seq<Ksym>): nat {
    if ks == [] then 0 else Reserved(ks[..|ks| - 1]) + if HoldsSlot(ks[|ks| - 1]) then 1 else 0
  }

  /** A function's slot: behind the map slots, and either reserved or in data added for it. */
  predicate SlotOk(off: int, used: int, dataLen: nat) {
    MAX_USED_MAPS <= off
    && if off < MAX_FD_ARRAY_SZ then off < MAX_USED_MAPS + used else used == MAX_KFUNC_DESCS && 4 * off < dataLen
  }

  predicate SlotAt(ks: seq<Ksym>, used: int, dataLen: nat, i: int) {
    0 <= i < |ks| && !ks[i].ld64 ==> SlotOk(ks[i].off, used, dataLen)
  }

  predicate SlotsDiffer(ks: seq<Ksym>, i: int, j: int) {
    0 <= i < j < |ks| && !ks[i].ld64 && !ks[j].ld64 ==> ks[i].off != ks[j].off
  }

  /** Functions have slots of their own, none of them a map's. */
  ghost predicate Slots(ks: seq<Ksym>, used: int, dataLen: nat) {
    && 0 <= used == Reserved(ks) <= MAX_KFUNC_DESCS
    && (forall i {:trigger SlotAt(ks, used, dataLen, i)} :: SlotAt(ks, used, dataLen, i))
    && (forall i, j {:trigger SlotsDiffer(ks, i, j)} :: SlotsDiffer(ks, i, j))
  }

  lemma RangeOfUsed(ks: seq<Ksym>, used: int, len: nat)
    requires Slots(ks, used, len)
    ensures 0 <= used <= MAX_KFUNC_DESCS
  {
  }

  lemma {:induction false} ReservedSame(a: seq<Ksym>, b: seq<Ksym>)
    requires |a| == |b| && forall i :: 0 <= i < |a| ==> HoldsSlot(a[i]) == HoldsSlot(b[i])
    ensures Reserved(a) == Reserved(b)
  {
    if a != [] {
      ReservedSame(a[..|a| - 1], b[..|b| - 1]);
    }
  }

  /** Data may grow, and uses be counted, without disturbing the slots. */
  lemma SlotsKept(was: seq<Ksym>, ks: seq<Ksym>, used: int, len: nat, len': nat)
    requires Slots(was, used, len) && len <= len'
    requires |was| == |ks| && forall i :: 0 <= i < |ks| ==> was[i].ld64 == ks[i].ld64 && was[i].off == ks[i].off
    ensures Slots(ks, used, len')
  {
    ReservedSame(was, ks);
    forall i ensures SlotAt(ks, used, len', i) {
      assert SlotAt(was, used, len, i);
    }
    forall i, j ensures SlotsDiffer(ks, i, j) {
      assert SlotsDiffer(was, i, j);
    }
  }

  /** A new symbol, with a slot of its own if it is a function. */
  lemma SlotsAdded(was: seq<Ksym>, d: Ksym, used: int, used': int, len: nat, len': nat)
    requires Slots(was, used, len) && len <= len'
    requires if d.ld64 then used' == used
             else if used == MAX_KFUNC_DESCS then used' == used && d.off >= MAX_FD_ARRAY_SZ && 4 * d.off == len < len'
             else used' == used + 1 && d.off == MAX_USED_MAPS + used
    ensures Slots(was + [d], used', len')
  {
    var ks, k := was + [d], |was|;
    assert ks[..k] == was;
    forall i ensures SlotAt(ks, used', len', i) {
      assert SlotAt(was, used, len, i);
    }
    forall i, j ensures SlotsDiffer(ks, i, j) {
      assert SlotsDiffer(was, i, j) && SlotAt(was, used, len, i);
    }
  }

  lemma GotNew(was: seq<Ksym>, ks: seq<Ksym>, k: nat, r: Relo)
    requires Got(was, ks, k, r) && k >= |was|
    ensures k == |was| && ks == was + [Ksym(r.name, r.kind, r.ld64, 1, 0, 0, false)]
  {
  }

  /** One more use of a symbol does not disturb the slots. */
  lemma GotAgain(was: seq<Ksym>, ks: seq<Ksym>, k: nat, r: Relo, used: int, len: nat, len': nat)
    requires Got(was, ks, k, r) && k < |was| && Slots(was, used, len) && len <= len'
    ensures Slots(ks, used, len')
  {
    SlotsKept(was, ks, used, len, len');
  }

  lemma LastSet(ks: seq<Ksym>, d: nat, v: Ksym)
    requires |ks| == d + 1
    ensures ks[d := v] == ks[..d] + [v] && ks[d := v][..d] == ks[..d]
  {
  }

  /** The first descriptor of a symbol has one use, every later one more. */
  lemma GotRef(was: seq<Ksym>, ks: seq<Ksym>, k: nat, r: Relo)
    requires Distinct(was) && Got(was, ks, k, r)
    ensures k < |ks| && (ks[k].ref > 1 <==> k < |was|)
  {
  }

  /** Where the data of one relocation went. */
  datatype Note = Note(name: nat, res: nat, msg0: (int, int), msg1: (int, int), msg2: (int, int))

  const NO_NOTE := Note(0, 0, (0, 0), (0, 0), (0, 0))

  function NoteWords(log: bool, n: Note): nat { MsgWords(log, n.msg0) + MsgWords(log, n.msg1) + MsgWords(log, n.msg2) }

  /** The data one relocation adds: messages, and for a new symbol its name, the address of a
      typeless one, and a slot once the reserved ones are used up. */
  function ReloWords(r: Relo, isNew: bool, used: int, log: bool, n: Note): nat {
    (if isNew then
       Words(|r.name| + 1) + (if r.ld64 && r.typeless then 1 else 0) + (if !r.ld64 && used == MAX_KFUNC_DESCS then 1 else 0)
     else 0)
    + NoteWords(log, n)
  }

  /** Descriptor `k` was used by `r`; a new one remembers the instruction at `insn`. */
  predicate Used(was: seq<Ksym>, ks: seq<Ksym>, k: nat, r: Relo, insn: int) {
    && k < |ks| && SameSym(ks[k], r)
    && if k < |was| then ks == was[k := was[k].(ref := was[k].ref + 1)]
       else |was| == k && (forall i {:trigger was[i]} :: 0 <= i < k ==> !SameSym(was[i], r))
            && |ks| == k + 1 && ks[..k] == was && ks[k].ref == 1 && ks[k].insn == insn && ks[k].typeless == (r.ld64 && r.typeless)
  }

  lemma UsedIndex(was: seq<Ksym>, ks: seq<Ksym>, k: nat, r: Relo, insn: int)
    requires Used(was, ks, k, r, insn)
    ensures k < |ks|
  {
  }

  lemma GotIsUsed(was: seq<Ksym>, got: seq<Ksym>, k: nat, r: Relo, ks: seq<Ksym>, insn: int)
    requires Got(was, got, k, r)
    requires if k < |was| then ks == got
             else |ks| == k + 1 && ks[..k] == was && SameSym(ks[k], r) && ks[k].ref == 1 && ks[k].insn == insn
                  && ks[k].typeless == (r.ld64 && r.typeless)
    ensures Used(was, ks, k, r, insn)
  {
  }

  lemma VariableUsed(was: seq<Ksym>, got: seq<Ksym>, k: nat, r: Relo, insn: int)
    requires Got(was, got, k, r) && r.ld64
    ensures k < |got|
    ensures k < |was| ==> Used(was, got, k, r, insn)
    ensures k >= |was| ==>
              && k == |was| && got[k].ref == 1
              && (if r.typeless then Used(was, got[k := got[k].(insn := insn, typeless := true)], k, r, insn)
                  else Used(was, got[k := got[k].(insn := insn)], k, r, insn))
  {
  }

  lemma VariableWords(r: Relo, used: int, log: bool, n: Note)
    requires r.ld64 && n.msg1 == n.msg2 == (0, 0)
    ensures ReloWords(r, true, used, log, n) == Words(|r.name| + 1) + (if r.typeless then 1 else 0) + MsgWords(log, n.msg0)
    ensures n == NO_NOTE ==> ReloWords(r, false, used, log, n) == 0
  {
    NoMessage(log);
    hide Words, MsgWords;
  }

  lemma UsedKeepsDistinct(was: seq<Ksym>, ks: seq<Ksym>, k: nat, r: Relo, insn: int)
    requires Distinct(was) && Used(was, ks, k, r, insn)
    ensures Distinct(ks) && (ks[k].ref > 1 <==> k < |was|)
  {
    forall i, j | 0 <= i < j < |ks| ensures !SameKey(ks[i], ks[j]) {
      if j < |was| {
        assert !SameKey(was[i], was[j]);
      } else {
        assert ks[i] == was[i] && !SameSym(was[i], r);
      }
    }
    forall i | 0 <= i < |ks| ensures ks[i].ref >= 1 {
      if i < |was| && i != k {
        assert ks[i] == was[i];
      }
    }
  }

  /** A new symbol that is not a function takes no slot. */
  lemma VariableKept(was: seq<Ksym>, ks: seq<Ksym>, k: nat, r: Relo, insn: int, used: int, len: nat, len': nat)
    requires r.ld64 && Used(was, ks, k, r, insn) && Slots(was, used, len) && len <= len'
    ensures Slots(ks, used, len')
  {
    if k < |was| {
      SlotsKept(was, ks, used, len, len');
    } else {
      SlotsAdded(was, ks[k], used, used, len, len');
      assert ks == was + [ks[k]];
    }
  }

  /** Code copied from an earlier use of the symbol, or a lookup and code that stores its result. */
  function Place(copy: bool, c: seq<Insn>, f: seq<Insn>, weak: bool, bind: seq<Insn>, pos: nat, cleanup: nat): seq<Insn> {
    if copy then c else Lookup(f, pos, cleanup, weak) + bind
  }

  lemma PlaceSound(copy: bool, c: seq<Insn>, f: seq<Insn>, weak: bool, bind: seq<Insn>, pos: nat, cleanup: nat, tail: seq<Insn>)
    requires Plain(c) && Plain(f) && Plain(bind) && Plain(tail) && Near(pos + |Place(copy, c, f, weak, bind, pos, cleanup)|, cleanup)
    ensures FragmentOk(Place(copy, c, f, weak, bind, pos, cleanup) + tail, pos, cleanup)
  {
    if copy {
      PlainJoin(c, tail);
      PlainSound(c + tail, pos, cleanup);
    } else {
      LookupSound(f, pos, cleanup, weak, bind);
      PlainSound(tail, pos + |Lookup(f, pos, cleanup, weak) + bind|, cleanup);
      FragmentsJoin(Lookup(f, pos, cleanup, weak) + bind, tail, pos, cleanup);
    }
  }

  lemma PlaceTyped(copy: bool, c: seq<Insn>, f: seq<Insn>, weak: bool, bind: seq<Insn>, pos: nat, cleanup: nat, insn: int, room: Room)
    requires Keeps(c, Any, Blob(insn), room) && Answers(f, Any, Blob(insn), room)
    requires copy || Binds(bind, insn, room)
    ensures Keeps(Place(copy, c, f, weak, bind, pos, cleanup), Any, Blob(insn), room)
  {
    hide Typed;
    if !copy {
      LookupTyped(f, pos, cleanup, weak, Blob(insn), room);
      TypedJoin(Lookup(f, pos, cleanup, weak), bind, Known(Any, Blob(insn)), Known(Number, Blob(insn)), Known(Any, Blob(insn)), room);
    }
  }

  /** A call of a kernel function.  `d` is its descriptor after this use. */
  function KfuncPlace(d: Ksym, r: Relo, insn: int, pos: nat, cleanup: nat, fdArray: int, log: bool, n: Note): seq<Insn> {
    Place(d.ref > 1, KfuncCopy(insn, d.insn), FindByName(n.name, |r.name| + 1, r.kind, log, n.msg0), r.weak,
          KfuncBind(d.off, fdArray + 4 * d.off), pos, cleanup)
  }

  lemma LaterPlace(d: Ksym, r: Relo, insn: int, pos: nat, cleanup: nat, fdArray: int, log: bool, used: int)
    requires d.ref > 1
    ensures KfuncPlace(d, r, insn, pos, cleanup, fdArray, log, NO_NOTE) == KfuncCopy(insn, d.insn)
    ensures ReloWords(r, false, used, log, NO_NOTE) == 0
  {
    hide KfuncCopy, Lookup, FindByName, KfuncBind;
  }

  function KfuncCode(d: Ksym, r: Relo, insn: int, pos: nat, cleanup: nat, fdArray: int, log: bool, n: Note): seq<Insn> {
    KfuncPlace(d, r, insn, pos, cleanup, fdArray, log, n) + KfuncLog(log, fdArray + 4 * d.off, n.msg1, n.msg2)
  }

  lemma PlaceIgnoresLog(d: Ksym, r: Relo, insn: int, pos: nat, cleanup: nat, fdArray: int, log: bool, n: Note,
                        msg1: (int, int), msg2: (int, int))
    ensures KfuncPlace(d, r, insn, pos, cleanup, fdArray, log, n.(msg1 := msg1, msg2 := msg2))
            == KfuncPlace(d, r, insn, pos, cleanup, fdArray, log, n)
    ensures TypelessPlace(d, r, insn, pos, cleanup, log, n.(msg1 := msg1, msg2 := msg2))
            == TypelessPlace(d, r, insn, pos, cleanup, log, n)
    ensures KsymPlace(d, r, insn, pos, cleanup, log, n.(msg1 := msg1, msg2 := msg2)) == KsymPlace(d, r, insn, pos, cleanup, log, n)
  {
    hide FindByName, Kallsyms, Place, TypelessCopy, TypelessBind;
  }

  lemma KfuncSound(d: Ksym, r: Relo, insn: int, pos: nat, cleanup: nat, fdArray: int, log: bool, n: Note)
    requires Near(pos + |KfuncCode(d, r, insn, pos, cleanup, fdArray, log, n)|, cleanup)
    ensures FragmentOk(KfuncCode(d, r, insn, pos, cleanup, fdArray, log, n), pos, cleanup)
  {
    hide Place, KfuncCopy, FindByName, KfuncBind, KfuncLog, Plain, FragmentOk;
    KfuncPlain(d.off, fdArray + 4 * d.off, insn, d.insn, log, n.msg1, n.msg2);
    LookupsPlain(n.name, |r.name| + 1, r.kind, n.res, log, n.msg0);
    PlaceSound(d.ref > 1, KfuncCopy(insn, d.insn), FindByName(n.name, |r.name| + 1, r.kind, log, n.msg0), r.weak,
               KfuncBind(d.off, fdArray + 4 * d.off), pos, cleanup, KfuncLog(log, fdArray + 4 * d.off, n.msg1, n.msg2));
  }

  lemma KfuncTyped(d: Ksym, r: Relo, insn: int, pos: nat, cleanup: nat, fdArray: int, log: bool, n: Note, room: Room)
    requires Data(insn) && (d.ref > 1 || Data(fdArray + 4 * d.off))
    ensures Keeps(KfuncCode(d, r, insn, pos, cleanup, fdArray, log, n), Any, Blob(insn), room)
  {
    hide Keeps, Answers, Binds, Place, Blob2Blob, FindByName, KfuncBind, KfuncLog;
    CopyTyped(insn, d.insn, 4, 2, 2, Blob(insn), room);
    FindByNameTyped(n.name, |r.name| + 1, r.kind, log, n.msg0, Blob(insn), room);
    if d.ref <= 1 {
      KfuncBindTyped(d.off, fdArray + 4 * d.off, insn, room);
    }
    PlaceTyped(d.ref > 1, KfuncCopy(insn, d.insn), FindByName(n.name, |r.name| + 1, r.kind, log, n.msg0), r.weak,
               KfuncBind(d.off, fdArray + 4 * d.off), pos, cleanup, insn, room);
    KfuncLogTyped(log, fdArray + 4 * d.off, n.msg1, n.msg2, insn, room);
    KeepsJoin(KfuncPlace(d, r, insn, pos, cleanup, fdArray, log, n), KfuncLog(log, fdArray + 4 * d.off, n.msg1, n.msg2), Any, Blob(insn), room);
  }

  /** A variable without type information. */
  function TypelessPlace(d: Ksym, r: Relo, insn: int, pos: nat, cleanup: nat, log: bool, n: Note): seq<Insn> {
    var f := Kallsyms(n.name, |r.name| + 1, n.res, log, n.msg0);
    if d.ref > 1 then TypelessCopy(insn, d.insn) else f + TypelessBind(pos + |f|, cleanup)
  }

  lemma TypelessPlaces(d: Ksym, r: Relo, insn: int, pos: nat, cleanup: nat, log: bool, n: Note)
    ensures var f := Kallsyms(n.name, |r.name| + 1, n.res, log, n.msg0);
            TypelessPlace(d, r, insn, pos, cleanup, log, n)
            == if d.ref > 1 then TypelessCopy(insn, d.insn) else f + TypelessBind(pos + |f|, cleanup)
  {
    hide Kallsyms, TypelessCopy, TypelessBind;
  }

  function TypelessCode(d: Ksym, r: Relo, insn: int, pos: nat, cleanup: nat, log: bool, n: Note): seq<Insn> {
    TypelessPlace(d, r, insn, pos, cleanup, log, n) + KsymLog(log, n.msg1, n.msg2)
  }

  lemma TypelessCodeSound(d: Ksym, r: Relo, insn: int, pos: nat, cleanup: nat, log: bool, n: Note)
    requires Near(pos + |TypelessCode(d, r, insn, pos, cleanup, log, n)|, cleanup)
    ensures FragmentOk(TypelessCode(d, r, insn, pos, cleanup, log, n), pos, cleanup)
  {
    hide Kallsyms, TypelessBind, TypelessCopy, KsymLog, Plain, FragmentOk;
    var f, tail := Kallsyms(n.name, |r.name| + 1, n.res, log, n.msg0), KsymLog(log, n.msg1, n.msg2);
    KsymPlain(insn, d.insn, log, n.msg1, n.msg2);
    LookupsPlain(n.name, |r.name| + 1, r.kind, n.res, log, n.msg0);
    if d.ref > 1 {
      PlainJoin(TypelessCopy(insn, d.insn), tail);
      PlainSound(TypelessCopy(insn, d.insn) + tail, pos, cleanup);
    } else {
      var bind := TypelessBind(pos + |f|, cleanup);
      PlainSound(f, pos, cleanup);
      TypelessLength(pos + |f|, cleanup);
      TypelessSound(pos + |f|, cleanup);
      FragmentsJoin(f, bind, pos, cleanup);
      PlainSound(tail, pos + |f + bind|, cleanup);
      FragmentsJoin(f + bind, tail, pos, cleanup);
    }
  }

  lemma TypelessTyped(d: Ksym, r: Relo, insn: int, pos: nat, cleanup: nat, log: bool, n: Note, room: Room)
    requires Data(insn)
    ensures Keeps(TypelessCode(d, r, insn, pos, cleanup, log, n), Any, Blob(insn), room)
  {
    hide Typed, Kallsyms, TypelessBind, Blob2Blob, KsymLog;
    var f := Kallsyms(n.name, |r.name| + 1, n.res, log, n.msg0);
    if d.ref > 1 {
      CopyTyped(insn, d.insn, 4, 12, 4, Blob(insn), room);
    } else {
      var bind := TypelessBind(pos + |f|, cleanup);
      KallsymsTyped(n.name, |r.name| + 1, n.res, log, n.msg0, Blob(insn), room);
      TypelessBindTyped(pos + |f|, cleanup, insn, room);
      TypedJoin(f, bind, Known(Any, Blob(insn)), Known(Number, Blob(insn)), Known(Any, Blob(insn)), room);
    }
    KsymLogTyped(log, n.msg1, n.msg2, insn, room);
    KeepsJoin(TypelessPlace(d, r, insn, pos, cleanup, log, n), KsymLog(log, n.msg1, n.msg2), Any, Blob(insn), room);
  }

  /** A typed variable. */
  function KsymPlace(d: Ksym, r: Relo, insn: int, pos: nat, cleanup: nat, log: bool, n: Note): seq<Insn> {
    Place(d.ref > 1, KsymCopy(insn, d.insn), FindByName(n.name, |r.name| + 1, r.kind, log, n.msg0), r.weak, KsymBind(), pos, cleanup)
  }

  lemma KsymPlaces(d: Ksym, r: Relo, insn: int, pos: nat, cleanup: nat, log: bool, n: Note)
    ensures KsymPlace(d, r, insn, pos, cleanup, log, n)
            == if d.ref > 1 then KsymCopy(insn, d.insn)
               else Lookup(FindByName(n.name, |r.name| + 1, r.kind, log, n.msg0), pos, cleanup, r.weak) + KsymBind()
  {
    hide KsymCopy, Lookup, FindByName, KsymBind;
  }

  function KsymCode(d: Ksym, r: Relo, insn: int, pos: nat, cleanup: nat, log: bool, n: Note): seq<Insn> {
    KsymPlace(d, r, insn, pos, cleanup, log, n) + KsymLog(log, n.msg1, n.msg2)
  }

  lemma KsymSound(d: Ksym, r: Relo, insn: int, pos: nat, cleanup: nat, log: bool, n: Note)
    requires Near(pos + |KsymCode(d, r, insn, pos, cleanup, log, n)|, cleanup)
    ensures FragmentOk(KsymCode(d, r, insn, pos, cleanup, log, n), pos, cleanup)
  {
    hide Place, KsymCopy, FindByName, KsymBind, KsymLog, Plain, FragmentOk;
    KsymPlain(insn, d.insn, log, n.msg1, n.msg2);
    LookupsPlain(n.name, |r.name| + 1, r.kind, n.res, log, n.msg0);
    PlaceSound(d.ref > 1, KsymCopy(insn, d.insn), FindByName(n.name, |r.name| + 1, r.kind, log, n.msg0), r.weak,
               KsymBind(), pos, cleanup, KsymLog(log, n.msg1, n.msg2));
  }

  lemma KsymTyped(d: Ksym, r: Relo, insn: int, pos: nat, cleanup: nat, log: bool, n: Note, room: Room)
    requires Data(insn)
    ensures Keeps(KsymCode(d, r, insn, pos, cleanup, log, n), Any, Blob(insn), room)
  {
    hide Keeps, Answers, Binds, Place, KsymCopy, FindByName, KsymBind, KsymLog;
    KsymCopyTyped(insn, d.insn, room);
    FindByNameTyped(n.name, |r.name| + 1, r.kind, log, n.msg0, Blob(insn), room);
    KsymBindTyped(insn, room);
    PlaceTyped(d.ref > 1, KsymCopy(insn, d.insn), FindByName(n.name, |r.name| + 1, r.kind, log, n.msg0), r.weak,
               KsymBind(), pos, cleanup, insn, room);
    KsymLogTyped(log, n.msg1, n.msg2, insn, room);
    KeepsJoin(KsymPlace(d, r, insn, pos, cleanup, log, n), KsymLog(log, n.msg1, n.msg2), Any, Blob(insn), room);
  }

  /** The code for the kind of symbol. */
  function SymbolCode(d: Ksym, r: Relo, insn: int, pos: nat, cleanup: nat, fdArray: int, log: bool, n: Note): seq<Insn> {
    if !r.ld64 then KfuncCode(d, r, insn, pos, cleanup, fdArray, log, n)
    else if r.typeless then TypelessCode(d, r, insn, pos, cleanup, log, n)
    else KsymCode(d, r, insn, pos, cleanup, log, n)
  }

  lemma SymbolSound(d: Ksym, r: Relo, insn: int, pos: nat, cleanup: nat, fdArray: int, log: bool, n: Note)
    requires Near(pos + |SymbolCode(d, r, insn, pos, cleanup, fdArray, log, n)|, cleanup)
    ensures FragmentOk(SymbolCode(d, r, insn, pos, cleanup, fdArray, log, n), pos, cleanup)
  {
    if !r.ld64 {
      KfuncSound(d, r, insn, pos, cleanup, fdArray, log, n);
    } else if r.typeless {
      TypelessCodeSound(d, r, insn, pos, cleanup, log, n);
    } else {
      KsymSound(d, r, insn, pos, cleanup, log, n);
    }
  }

  /** Any relocation: R8 points to the instruction. */
  function ReloCode(d: Ksym, r: Relo, insns: int, pos: nat, cleanup: nat, fdArray: int, log: bool, n: Note): seq<Insn> {
    [LdBlob(8, insns + 8 * r.insnIdx), LdBlobTail]
    + SymbolCode(d, r, insns + 8 * r.insnIdx, pos + 2, cleanup, fdArray, log, n)
  }

  lemma ReloSound(d: Ksym, r: Relo, insns: int, pos: nat, cleanup: nat, fdArray: int, log: bool, n: Note)
    requires Near(pos + |ReloCode(d, r, insns, pos, cleanup, fdArray, log, n)|, cleanup)
    ensures FragmentOk(ReloCode(d, r, insns, pos, cleanup, fdArray, log, n), pos, cleanup)
  {
    hide SymbolCode;
    var ld := [LdBlob(8, insns + 8 * r.insnIdx), LdBlobTail];
    assert |ReloCode(d, r, insns, pos, cleanup, fdArray, log, n)| == 2 + |SymbolCode(d, r, insns + 8 * r.insnIdx, pos + 2, cleanup, fdArray, log, n)|;
    forall i | 0 <= i < 2 ensures PlainAt(ld, i) { }
    PlainSound(ld, pos, cleanup);
    SymbolSound(d, r, insns + 8 * r.insnIdx, pos + 2, cleanup, fdArray, log, n);
    FragmentsJoin(ld, SymbolCode(d, r, insns + 8 * r.insnIdx, pos + 2, cleanup, fdArray, log, n), pos, cleanup);
  }

  /** A first use of a function has a slot behind the map slots. */
  predicate Placed(d: Ksym, r: Relo) { r.ld64 || MAX_USED_MAPS <= d.off }

  predicate AllPlaced(ds: seq<Ksym>, rs: seq<Relo>) {
    |ds| == |rs| && forall i {:trigger Placed(ds[i], rs[i])} :: 0 <= i < |rs| ==> Placed(ds[i], rs[i])
  }

  lemma NonePlaced()
    ensures AllPlaced([], [])
  {
  }

  lemma PlacedNext(ds: seq<Ksym>, rs: seq<Relo>, i: nat, d: Ksym)
    requires i < |rs| && AllPlaced(ds, rs[..i]) && Placed(d, rs[i])
    ensures AllPlaced(ds + [d], rs[..i + 1])
  {
    var next := i + 1;
    forall j | 0 <= j < next ensures Placed((ds + [d])[j], rs[..next][j]) {
      if j < i {
        assert Placed(ds[j], rs[..i][j]);
      }
    }
  }

  lemma SlotPlaced(ks: seq<Ksym>, used: int, len: nat, k: nat, r: Relo)
    requires Slots(ks, used, len) && k < |ks| && ks[k].ld64 == r.ld64
    ensures Placed(ks[k], r)
  {
    assert SlotAt(ks, used, len, k);
  }

  lemma ReloTyped(d: Ksym, r: Relo, insns: int, pos: nat, cleanup: nat, fdArray: int, log: bool, n: Note, room: Room)
    requires Data(insns) && fdArray == 0 && Placed(d, r)
    ensures Typed(ReloCode(d, r, insns, pos, cleanup, fdArray, log, n), BASE, BASE, room)
  {
    hide KfuncCode, TypelessCode, KsymCode, TypedAt;
    var insn := insns + 8 * r.insnIdx;
    var ld, t := [LdBlob(8, insn), LdBlobTail], Known(Any, Blob(insn));
    LoadTyped(insn, room);
    if !r.ld64 {
      KfuncTyped(d, r, insn, pos + 2, cleanup, fdArray, log, n, room);
    } else if r.typeless {
      TypelessTyped(d, r, insn, pos + 2, cleanup, log, n, room);
    } else {
      KsymTyped(d, r, insn, pos + 2, cleanup, log, n, room);
    }
    var f := SymbolCode(d, r, insn, pos + 2, cleanup, fdArray, log, n);
    hide *;
    SymbolTyped(ld, f, insn, room);
  }

  lemma LoadTyped(insn: int, room: Room)
    ensures Typed([LdBlob(8, insn), LdBlobTail], BASE, Known(Any, Blob(insn)), room)
  {
    var ld, t := [LdBlob(8, insn), LdBlobTail], Known(Any, Blob(insn));
    var ts := [BASE, t, t];
    assert TypedAt(ld, ts, room, 0) && TypedAt(ld, ts, room, 1);
    assert Table(ld, ts, BASE, t, room);
  }

  /** Behind the relocation nobody asks for R8. */
  lemma SymbolTyped(ld: seq<Insn>, f: seq<Insn>, insn: int, room: Room)
    requires Typed(ld, BASE, Known(Any, Blob(insn)), room) && Keeps(f, Any, Blob(insn), room)
    ensures Typed(ld + f, BASE, BASE, room)
  {
    hide Typed;
    Forget(f, Any, Blob(insn), room);
    TypedJoin(ld, f, BASE, Known(Any, Blob(insn)), BASE, room);
  }

  /** All relocations of a program, in order. */
  function RelosCode(rs: seq<Relo>, ds: seq<Ksym>, ns: seq<Note>, insns: int, pos: nat, cleanup: nat, fdArray: int, log: bool): seq<Insn>
    requires |rs| == |ds| == |ns|
  {
    if rs == [] then []
    else
      var k := |rs| - 1;
      var f := RelosCode(rs[..k], ds[..k], ns[..k], insns, pos, cleanup, fdArray, log);
      f + ReloCode(ds[k], rs[k], insns, pos + |f|, cleanup, fdArray, log, ns[k])
  }

  lemma {:induction false} RelosSound(rs: seq<Relo>, ds: seq<Ksym>, ns: seq<Note>, insns: int, pos: nat, cleanup: nat, fdArray: int, log: bool)
    requires |rs| == |ds| == |ns| && Near(pos + |RelosCode(rs, ds, ns, insns, pos, cleanup, fdArray, log)|, cleanup)
    ensures FragmentOk(RelosCode(rs, ds, ns, insns, pos, cleanup, fdArray, log), pos, cleanup)
    decreases |rs|
  {
    hide ReloCode;
    if rs != [] {
      var k := |rs| - 1;
      var f := RelosCode(rs[..k], ds[..k], ns[..k], insns, pos, cleanup, fdArray, log);
      RelosSound(rs[..k], ds[..k], ns[..k], insns, pos, cleanup, fdArray, log);
      ReloSound(ds[k], rs[k], insns, pos + |f|, cleanup, fdArray, log, ns[k]);
      FragmentsJoin(f, ReloCode(ds[k], rs[k], insns, pos + |f|, cleanup, fdArray, log, ns[k]), pos, cleanup);
    }
  }

  lemma {:induction false} RelosTyped(rs: seq<Relo>, ds: seq<Ksym>, ns: seq<Note>, insns: int, pos: nat, cleanup: nat, fdArray: int,
                                      log: bool, room: Room)
    requires |rs| == |ds| == |ns| && Data(insns) && fdArray == 0
    requires AllPlaced(ds, rs)
    ensures Typed(RelosCode(rs, ds, ns, insns, pos, cleanup, fdArray, log), BASE, BASE, room)
    decreases |rs|
  {
    hide ReloCode, Typed;
    if rs == [] {
      NothingTyped(Any, Any, room);
    } else {
      var k := |rs| - 1;
      var f := RelosCode(rs[..k], ds[..k], ns[..k], insns, pos, cleanup, fdArray, log);
      forall i | 0 <= i < k ensures Placed(ds[..k][i], rs[..k][i]) {
        assert Placed(ds[i], rs[i]);
      }
      assert AllPlaced(ds[..k], rs[..k]);
      RelosTyped(rs[..k], ds[..k], ns[..k], insns, pos, cleanup, fdArray, log, room);
      assert Placed(ds[k], rs[k]);
      ReloTyped(ds[k], rs[k], insns, pos + |f|, cleanup, fdArray, log, ns[k], room);
      TypedJoin(f, ReloCode(ds[k], rs[k], insns, pos + |f|, cleanup, fdArray, log, ns[k]), BASE, BASE, BASE, room);
    }
  }

  lemma NextRelo(rs: seq<Relo>, i: nat, ds: seq<Ksym>, ns: seq<Note>, d: Ksym, n: Note,
                 insns: int, pos: nat, cleanup: nat, fdArray: int, log: bool)
    requires i < |rs| && |ds| == |ns| == i
    ensures var f := RelosCode(rs[..i], ds, ns, insns, pos, cleanup, fdArray, log);
            RelosCode(rs[..i + 1], ds + [d], ns + [n], insns, pos, cleanup, fdArray, log)
            == f + ReloCode(d, rs[i], insns, pos + |f|, cleanup, fdArray, log, n)
  {
    hide ReloCode;
    assert rs[..i + 1][..i] == rs[..i] && (ds + [d])[..i] == ds && (ns + [n])[..i] == ns;
  }

  /** The code closing the module descriptors the symbols hold. */
  function KsymCloses(ks: seq<Ksym>, fdArray: int, log: bool, msgs: seq<(int, int)>): seq<Insn>
    requires |msgs| == |ks|
  {
    if ks == [] then []
    else
      var k := |ks| - 1;
      KsymCloses(ks[..k], fdArray, log, msgs[..k]) + KsymClose(ks[k], fdArray, log, msgs[k])
  }

  function KsymClose(k: Ksym, fdArray: int, log: bool, msg: (int, int)): seq<Insn> {
    if k.ld64 then IfCode(!k.typeless, CloseBlob(k.insn + 12, log, msg)) else CloseBlob(fdArray + 4 * k.off, log, msg)
  }

  lemma KsymClosePlain(k: Ksym, fdArray: int, log: bool, msg: (int, int))
    ensures Plain(KsymClose(k, fdArray, log, msg))
  {
    ClosePlain(k.insn + 12, log, msg);
    ClosePlain(fdArray + 4 * k.off, log, msg);
  }

  lemma {:induction false} KsymClosesPlain(ks: seq<Ksym>, fdArray: int, log: bool, msgs: seq<(int, int)>)
    requires |msgs| == |ks|
    ensures Plain(KsymCloses(ks, fdArray, log, msgs))
  {
    if ks != [] {
      var k := |ks| - 1;
      KsymClosesPlain(ks[..k], fdArray, log, msgs[..k]);
      KsymClosePlain(ks[k], fdArray, log, msgs[k]);
      PlainJoin(KsymCloses(ks[..k], fdArray, log, msgs[..k]), KsymClose(ks[k], fdArray, log, msgs[k]));
    }
  }

  lemma {:induction false} KsymClosesTyped(ks: seq<Ksym>, fdArray: int, log: bool, msgs: seq<(int, int)>, room: Room)
    requires |msgs| == |ks|
    ensures Keeps(KsymCloses(ks, fdArray, log, msgs), Number, Any, room)
  {
    hide Keeps, CloseBlob;
    NothingTyped(Number, Any, room);
    if ks != [] {
      var k := |ks| - 1;
      KsymClosesTyped(ks[..k], fdArray, log, msgs[..k], room);
      CloseBlobTyped(ks[k].insn + 12, log, msgs[k], Number, Any, room);
      CloseBlobTyped(fdArray + 4 * ks[k].off, log, msgs[k], Number, Any, room);
      KeepsJoin(KsymCloses(ks[..k], fdArray, log, msgs[..k]), KsymClose(ks[k], fdArray, log, msgs[k]), Number, Any, room);
    }
  }

  function MsgWords(log: bool, msg: (int, int)): nat {
    if log && msg.1 >= 0 then Words(msg.1) else 0
  }

  lemma NoMessage(log: bool)
    ensures MsgWords(log, (0, 0)) == 0
  {
  }

  function AllWords(log: bool, msgs: seq<(int, int)>): nat {
    if msgs == [] then 0 else AllWords(log, msgs[..|msgs| - 1]) + MsgWords(log, msgs[|msgs| - 1])
  }

  /** An inner map, or the next tracked map and not one too many. */
  predicate InOrder(nrMaps: nat, mapIdx: int) { mapIdx < 0 || mapIdx == nrMaps < MAX_USED_MAPS }

  /** A loader with a sound fragment behind it is a loader. */
  lemma LoaderGrows(code: seq<Insn>, f: seq<Insn>, progs: nat, fdArray: int, log: bool, msgs: seq<(int, int)>)
    requires Loader(code, progs, fdArray, log, msgs) && FragmentOk(f, |code|, LABEL)
    ensures Loader(code + f, progs, fdArray, log, msgs)
  {
    HeadEnds(code, progs, fdArray, log, msgs);
    FragmentsJoin(code[LABEL..], f, LABEL, LABEL);
    assert (code + f)[LABEL..] == code[LABEL..] + f;
  }

  /** Copies from the kernel or from user space, as the caller's flags say. */
  const COPY := [Ldx(4, 0, 6, 4), Jmp(JSET, 0, 1, 2), Call(CopyFromUser), Ja(1), Call(ProbeReadKernel)]

  /** The registers to log, and the call that logs. */
  function Trace(reg1: int, reg2: int): seq<Insn> {
    (if reg1 >= 0 then [MovReg(3, reg1)] else []) + (if reg2 >= 0 then [MovReg(4, reg2)] else []) + [Call(TracePrintk)]
  }

  lemma BlobClosesNext(fdArray: int, log: bool, ms: seq<(int, int)>, msg: (int, int))
    ensures BlobCloses(fdArray, log, ms + [msg]) == BlobCloses(fdArray, log, ms) + CloseBlob(fdArray + 4 * |ms|, log, msg)
    ensures AllWords(log, ms + [msg]) == AllWords(log, ms) + MsgWords(log, msg)
  {
    assert (ms + [msg])[..|ms|] == ms;
  }

  /** Where the data of one PROG_LOAD went: blobs at increasing addresses, none overlapping. */
  datatype ProgData = ProgData(license: nat, insns: nat, funcs: nat, lines: nat, coreRelos: nat, attr: nat)

  predicate LaidOut(d: ProgData, start: nat, licenseLen: nat, insnCnt: nat, funcSize: nat, lineSize: nat, coreRelos: nat) {
    && d.license == start && d.insns == d.license + 8 * Words(licenseLen)
    && d.funcs == d.insns + 8 * Words(8 * insnCnt) && d.lines == d.funcs + 8 * Words(funcSize)
    && d.coreRelos == d.lines + 8 * Words(lineSize) && d.attr == d.coreRelos + 8 * Words(16 * coreRelos)
  }

  /** Every part fits before the next, which is aligned. */
  lemma PartsApart(d: ProgData, start: nat, licenseLen: nat, insnCnt: nat, funcSize: nat, lineSize: nat, coreRelos: nat)
    requires LaidOut(d, start, licenseLen, insnCnt, funcSize, lineSize, coreRelos) && start % 8 == 0
    ensures d.license + licenseLen <= d.insns < d.license + licenseLen + 8 && d.insns % 8 == 0
    ensures d.insns + 8 * insnCnt == d.funcs && d.funcs + funcSize <= d.lines < d.funcs + funcSize + 8 && d.lines % 8 == 0
    ensures d.lines + lineSize <= d.coreRelos < d.lines + lineSize + 8 && d.coreRelos % 8 == 0
    ensures d.coreRelos + 16 * coreRelos == d.attr
  {
    hide Words;
    WordsCover(licenseLen);
    WholeWords(insnCnt);
    WordsCover(funcSize);
    WordsCover(lineSize);
    WholeWords(2 * coreRelos);
    StaysAligned(start, Words(licenseLen));
    StaysAligned(d.insns, insnCnt);
    StaysAligned(d.funcs, Words(funcSize));
    StaysAligned(d.lines, Words(lineSize));
  }

  lemma WordsCover(n: nat)
    ensures n <= 8 * Words(n) < n + 8
  {
  }

  lemma WholeWords(n: nat)
    ensures Words(8 * n) == n
  {
    assert (8 * n + 7) / 8 == n;
  }

  lemma StaysAligned(p: int, n: nat)
    requires p % 8 == 0
    ensures (p + 8 * n) % 8 == 0
  {
  }

  lemma DataBehind(d: ProgData, start: nat, licenseLen: nat, insnCnt: nat, funcSize: nat, lineSize: nat, coreRelos: nat)
    requires LaidOut(d, start, licenseLen, insnCnt, funcSize, lineSize, coreRelos) && 4 * MAX_FD_ARRAY_SZ <= start
    ensures Data(d.attr) && Data(d.insns)
  {
  }

  /** The messages, names and descriptors of one PROG_LOAD. */
  datatype ProgNotes = ProgNotes(name: nat, msg: (int, int), ds: seq<Ksym>, ns: seq<Note>,
                                 result: (int, int), ks: seq<Ksym>, ms: seq<(int, int)>, last: (int, int))

  /** The attribute, the function to attach to, and the relocations. */
  function ProgFront(d: ProgData, t: ProgNotes, rs: seq<Relo>, kind: int, target: string, pos: nat, cleanup: nat, fdArray: int, log: bool): seq<Insn>
    requires |rs| == |t.ds| == |t.ns|
  {
    var head := ProgLoadHead(d.attr, d.license, d.insns, d.funcs, d.lines, d.coreRelos, fdArray);
    var attach := AttachCode(d, t, kind, target, pos + |head|, cleanup, log);
    head + attach + RelosCode(rs, t.ds, t.ns, d.insns, pos + |head + attach|, cleanup, fdArray, log)
  }

  function AttachCode(d: ProgData, t: ProgNotes, kind: int, target: string, pos: nat, cleanup: nat, log: bool): seq<Insn> {
    IfCode(kind != 0, Checked(FindByName(t.name, |target| + 1, kind, log, t.msg), pos, cleanup, AttachBind(d.attr)))
  }

  /** The command, and module descriptors closed whether it succeeded or not. */
  function ProgBack(d: ProgData, t: ProgNotes, kind: int, fdArray: int, log: bool): seq<Insn>
    requires |t.ks| == |t.ms|
  {
    Command(5, d.attr, 140, log, t.result) + KsymCloses(t.ks, fdArray, log, t.ms)
    + IfCode(kind != 0, CloseBlob(d.attr + 112, log, t.last))
  }

  lemma AttachCodeSound(d: ProgData, t: ProgNotes, kind: int, target: string, pos: nat, cleanup: nat, log: bool)
    requires Near(pos + |AttachCode(d, t, kind, target, pos, cleanup, log)|, cleanup)
    ensures FragmentOk(AttachCode(d, t, kind, target, pos, cleanup, log), pos, cleanup)
  {
    hide FragmentOk, FindByName;
    if kind != 0 {
      AttachSound(t.name, |target| + 1, kind, d.attr, pos, cleanup, log, t.msg);
    }
    NothingSound(pos, cleanup);
  }

  lemma AttachTyped(d: ProgData, t: ProgNotes, kind: int, target: string, pos: nat, cleanup: nat, log: bool, room: Room)
    requires Data(d.attr)
    ensures Keeps(AttachCode(d, t, kind, target, pos, cleanup, log), Any, Any, room)
  {
    hide Typed, FindByName, Checked;
    FindByNameTyped(t.name, |target| + 1, kind, log, t.msg, Any, room);
    AttachBindTyped(d.attr, room);
    CheckedTyped(FindByName(t.name, |target| + 1, kind, log, t.msg), pos, cleanup, AttachBind(d.attr), room);
    IfTyped(kind != 0, Checked(FindByName(t.name, |target| + 1, kind, log, t.msg), pos, cleanup, AttachBind(d.attr)), Any, Any, room);
  }

  lemma NothingSound(pos: nat, cleanup: nat)
    ensures FragmentOk([], pos, cleanup)
  {
  }

  lemma ProgFrontSound(d: ProgData, t: ProgNotes, rs: seq<Relo>, kind: int, target: string, pos: nat, cleanup: nat, fdArray: int, log: bool)
    requires |rs| == |t.ds| == |t.ns| && Near(pos + |ProgFront(d, t, rs, kind, target, pos, cleanup, fdArray, log)|, cleanup)
    ensures FragmentOk(ProgFront(d, t, rs, kind, target, pos, cleanup, fdArray, log), pos, cleanup)
  {
    hide FragmentOk, Plain, ProgLoadHead, AttachCode, RelosCode;
    var head := ProgLoadHead(d.attr, d.license, d.insns, d.funcs, d.lines, d.coreRelos, fdArray);
    var attach := AttachCode(d, t, kind, target, pos + |head|, cleanup, log);
    ProgLoadHeadPlain(d.attr, d.license, d.insns, d.funcs, d.lines, d.coreRelos, fdArray);
    PlainSound(head, pos, cleanup);
    AttachCodeSound(d, t, kind, target, pos + |head|, cleanup, log);
    FragmentsJoin(head, attach, pos, cleanup);
    RelosSound(rs, t.ds, t.ns, d.insns, pos + |head + attach|, cleanup, fdArray, log);
    FragmentsJoin(head + attach, RelosCode(rs, t.ds, t.ns, d.insns, pos + |head + attach|, cleanup, fdArray, log), pos, cleanup);
  }

  lemma ProgFrontTyped(d: ProgData, t: ProgNotes, rs: seq<Relo>, kind: int, target: string, pos: nat, cleanup: nat, fdArray: int,
                       log: bool, room: Room)
    requires |rs| == |t.ds| == |t.ns| && Data(d.attr) && Data(d.insns) && fdArray == 0 && room.slots >= 1
    requires AllPlaced(t.ds, rs)
    ensures Typed(ProgFront(d, t, rs, kind, target, pos, cleanup, fdArray, log), BASE, BASE, room)
  {
    hide Typed, ProgLoadHead, AttachCode, RelosCode;
    var head := ProgLoadHead(d.attr, d.license, d.insns, d.funcs, d.lines, d.coreRelos, fdArray);
    var attach := AttachCode(d, t, kind, target, pos + |head|, cleanup, log);
    var relos := RelosCode(rs, t.ds, t.ns, d.insns, pos + |head + attach|, cleanup, fdArray, log);
    ProgLoadHeadTyped(d.attr, d.license, d.insns, d.funcs, d.lines, d.coreRelos, fdArray, room);
    AttachTyped(d, t, kind, target, pos + |head|, cleanup, log, room);
    RelosTyped(rs, t.ds, t.ns, d.insns, pos + |head + attach|, cleanup, fdArray, log, room);
    KeepsJoin(head, attach, Any, Any, room);
    TypedJoin(head + attach, relos, BASE, BASE, BASE, room);
  }

  lemma ProgBackTyped(d: ProgData, t: ProgNotes, kind: int, fdArray: int, log: bool, room: Room)
    requires |t.ks| == |t.ms|
    ensures Typed(ProgBack(d, t, kind, fdArray, log), BASE, RESULT, room)
  {
    hide Typed, Command, KsymCloses, CloseBlob;
    var command, closes := Command(5, d.attr, 140, log, t.result), KsymCloses(t.ks, fdArray, log, t.ms);
    CommandTyped(5, d.attr, 140, log, t.result, Any, Any, room);
    KsymClosesTyped(t.ks, fdArray, log, t.ms, room);
    AnswersKept(command, closes, Any, Any, room);
    CloseBlobTyped(d.attr + 112, log, t.last, Number, Any, room);
    IfTyped(kind != 0, CloseBlob(d.attr + 112, log, t.last), Number, Any, room);
    AnswersKept(command + closes, IfCode(kind != 0, CloseBlob(d.attr + 112, log, t.last)), Any, Any, room);
  }

  lemma ProgBackPlain(d: ProgData, t: ProgNotes, kind: int, fdArray: int, log: bool)
    requires |t.ks| == |t.ms|
    ensures Plain(ProgBack(d, t, kind, fdArray, log))
  {
    hide Plain, Command, KsymCloses, CloseBlob;
    var command, closes := Command(5, d.attr, 140, log, t.result), KsymCloses(t.ks, fdArray, log, t.ms);
    CommandPlain(5, d.attr, 140, log, t.result);
    KsymClosesPlain(t.ks, fdArray, log, t.ms);
    PlainJoin(command, closes);
    ClosePlain(d.attr + 112, log, t.last);
    NothingPlain();
    PlainJoin(command + closes, IfCode(kind != 0, CloseBlob(d.attr + 112, log, t.last)));
  }

  /** Front and back each depend on their own notes only. */
  lemma NotesApart(d: ProgData, t: ProgNotes, rs: seq<Relo>, kind: int, target: string, pos: nat, cleanup: nat, fdArray: int, log: bool)
    requires |rs| == |t.ds| == |t.ns| && |t.ks| == |t.ms|
    ensures ProgFront(d, t, rs, kind, target, pos, cleanup, fdArray, log)
            == ProgFront(d, ProgNotes(t.name, t.msg, t.ds, t.ns, (0, 0), [], [], (0, 0)), rs, kind, target, pos, cleanup, fdArray, log)
    ensures ProgBack(d, t, kind, fdArray, log)
            == ProgBack(d, ProgNotes(0, (0, 0), [], [], t.result, t.ks, t.ms, t.last), kind, fdArray, log)
  {
    hide ProgLoadHead, FindByName, Checked, RelosCode, Command, KsymCloses, CloseBlob;
  }

  /** With no symbols no slot is in use. */
  lemma NoSlots(dataLen: nat)
    ensures Slots([], 0, dataLen)
  {
  }

  // ----- What a finished loader tells its caller -----

  /** The first `k` programs' descriptors go to the caller's context. */
  function ProgMoves(maps: nat, k: nat): seq<Insn> {
    if k == 0 then [] else ProgMoves(maps, k - 1) + Stack2Ctx(CtxProg(maps, k - 1), 4, ProgFdOff(k - 1))
  }

  /** The first `k` maps' descriptors go to the caller's context. */
  function MapMoves(fdArray: int, k: nat): seq<Insn> {
    if k == 0 then [] else MapMoves(fdArray, k - 1) + Blob2Ctx(CtxMap(k - 1), 4, fdArray + 4 * (k - 1))
  }

  lemma {:induction false} ProgMovesPlain(maps: nat, k: nat)
    ensures Plain(ProgMoves(maps, k))
  {
    hide Plain;
    if k == 0 {
      NothingPlain();
    } else {
      ProgMovesPlain(maps, k - 1);
      MovesPlain(CtxProg(maps, k - 1), 4, ProgFdOff(k - 1), false);
      PlainJoin(ProgMoves(maps, k - 1), Stack2Ctx(CtxProg(maps, k - 1), 4, ProgFdOff(k - 1)));
    }
  }

  lemma {:induction false} MapMovesPlain(fdArray: int, k: nat)
    ensures Plain(MapMoves(fdArray, k))
  {
    hide Plain;
    if k == 0 {
      NothingPlain();
    } else {
      MapMovesPlain(fdArray, k - 1);
      MovesPlain(CtxMap(k - 1), 4, fdArray + 4 * (k - 1), false);
      PlainJoin(MapMoves(fdArray, k - 1), Blob2Ctx(CtxMap(k - 1), 4, fdArray + 4 * (k - 1)));
    }
  }

  lemma {:induction false} ProgMovesTyped(maps: nat, k: nat, room: Room)
    requires 2 + k <= room.slots
    ensures Keeps(ProgMoves(maps, k), Any, Any, room)
  {
    hide Keeps, Stack2Ctx;
    if k == 0 {
      NothingTyped(Any, Any, room);
    } else {
      ProgMovesTyped(maps, k - 1, room);
      Stack2CtxTyped(CtxProg(maps, k - 1), 4, ProgFdOff(k - 1), Any, Any, room);
      KeepsJoin(ProgMoves(maps, k - 1), Stack2Ctx(CtxProg(maps, k - 1), 4, ProgFdOff(k - 1)), Any, Any, room);
    }
  }

  lemma {:induction false} MapMovesTyped(fdArray: int, k: nat, room: Room)
    ensures Keeps(MapMoves(fdArray, k), Any, Any, room)
  {
    hide Keeps, Blob2Ctx;
    if k == 0 {
      NothingTyped(Any, Any, room);
    } else {
      MapMovesTyped(fdArray, k - 1, room);
      Blob2CtxTyped(CtxMap(k - 1), 4, fdArray + 4 * (k - 1), Any, Any, room);
      KeepsJoin(MapMoves(fdArray, k - 1), Blob2Ctx(CtxMap(k - 1), 4, fdArray + 4 * (k - 1)), Any, Any, room);
    }
  }

  /** The end of a loader: the descriptors are handed to the caller. */
  function Finale(maps: nat, progs: nat, fdArray: int, log: bool, msg: (int, int)): seq<Insn> {
    CloseStack(BTF_FD_OFF, log, msg) + ProgMoves(maps, progs) + MapMoves(fdArray, maps) + [MovImm(0, 0), Exit]
  }

  lemma FinaleTyped(maps: nat, progs: nat, fdArray: int, log: bool, msg: (int, int), room: Room)
    requires 2 + progs <= room.slots && room.mayExit
    ensures Typed(Finale(maps, progs, fdArray, log, msg), BASE, BASE, room)
  {
    var last, ts := [MovImm(0, 0), Exit], [BASE, BASE, BASE];
    forall i | 0 <= i < |last| ensures TypedAt(last, ts, room, i) { }
    assert Table(last, ts, BASE, BASE, room);
    hide Typed, CloseStack, ProgMoves, MapMoves;
    CloseStackTyped(BTF_FD_OFF, log, msg, Any, Any, room);
    ProgMovesTyped(maps, progs, room);
    MapMovesTyped(fdArray, maps, room);
    KeepsJoin(CloseStack(BTF_FD_OFF, log, msg), ProgMoves(maps, progs), Any, Any, room);
    KeepsJoin(CloseStack(BTF_FD_OFF, log, msg) + ProgMoves(maps, progs), MapMoves(fdArray, maps), Any, Any, room);
    KeepsJoin(CloseStack(BTF_FD_OFF, log, msg) + ProgMoves(maps, progs) + MapMoves(fdArray, maps), last, Any, Any, room);
  }

  /** A loader, plain code behind it and a normal exit make a complete program. */
  lemma Finished(code: seq<Insn>, f: seq<Insn>, progs: nat, fdArray: int, log: bool, msgs: seq<(int, int)>)
    requires Loader(code, progs, fdArray, log, msgs) && Plain(f)
    ensures Complete(code + f + [MovImm(0, 0), Exit], progs, fdArray, log, msgs)
  {
    var last := [MovImm(0, 0), Exit];
    HeadEnds(code, progs, fdArray, log, msgs);
    PlainSound(f, |code|, LABEL);
    LoaderGrows(code, f, progs, fdArray, log, msgs);
    forall i | 0 <= i < 2 ensures PlainAt(last, i) { }
    PlainSound(last, |code + f|, LABEL);
    LoaderGrows(code + f, last, progs, fdArray, log, msgs);
    var whole := code + f + last;
    assert whole[|whole| - 2..] == last;
    assert whole[LABEL..|whole| - 2] == (code + f)[LABEL..];
  }

  lemma NothingPlain()
    ensures Plain([])
  {
  }

  /** Room for the slots the cleanup code closes, and for those the commands so far have filled.  No
      command exits. */
  function RoomFor(progSlots: nat, nrProgs: nat, mapSlots: nat, nrMaps: nat): Room {
    Room(2 + if progSlots > nrProgs then progSlots else nrProgs, if mapSlots > nrMaps then mapSlots else nrMaps, false)
  }

  predicate Within(room: Room, more: Room) {
    room.slots <= more.slots && room.maps <= more.maps && (room.mayExit ==> more.mayExit)
  }

  /** The code behind the cleanup code is typed. */
  ghost predicate TypedLoader(code: seq<Insn>, progs: nat, log: bool, maps: nat, room: Room) {
    Behind(progs, log, maps) <= |code| && Typed(code[Behind(progs, log, maps)..], BASE, BASE, room)
  }

  function Behind(progs: nat, log: bool, maps: nat): nat { LABEL + CleanupLength(progs, maps, log) }

  lemma TypedGrows(code: seq<Insn>, f: seq<Insn>, progs: nat, log: bool, maps: nat, room: Room, more: Room)
    requires TypedLoader(code, progs, log, maps, room) && Within(room, more) && Typed(f, BASE, BASE, more)
    ensures TypedLoader(code + f, progs, log, maps, more)
  {
    hide Typed, Behind;
    var start := Behind(progs, log, maps);
    TypedMore(code[start..], BASE, BASE, room, more);
    TypedJoin(code[start..], f, BASE, BASE, BASE, more);
    assert (code + f)[start..] == code[start..] + f;
  }

  lemma NothingBehind(code: seq<Insn>, progs: nat, log: bool, maps: nat, room: Room)
    requires |code| == Behind(progs, log, maps)
    ensures TypedLoader(code, progs, log, maps, room)
  {
    assert code[Behind(progs, log, maps)..] == [];
    NothingTyped(Any, Any, room);
  }

  /** A finished program: `front`, with the slots for `progs` programs and for one map per message closed on
      failure, and behind it what hands `maps` maps and `done` programs over. */
  ghost predicate HandsOver(front: seq<Insn>, code: seq<Insn>, progs: nat, log: bool, msgs: seq<(int, int)>, room: Room,
                            maps: nat, done: nat, msg: (int, int)) {
    && code == front + Finale(maps, done, 0, log, msg) && Loader(front, progs, 0, log, msgs)
    && TypedLoader(front, progs, log, |msgs|, room) && !room.mayExit
    && Complete(code, progs, 0, log, msgs) && TypedLoader(code, progs, log, |msgs|, room.(mayExit := true))
    && 2 + progs <= room.slots && 2 + done <= room.slots
  }

  /** Short of an error these buffers hold a loader with sound and typed code behind it. */
  ghost predicate Fits(b: Buf, cleanup: nat, progs: nat, log: bool, msgs: seq<(int, int)>, room: Room) {
    b.error == 0 ==>
      && cleanup == LABEL && 4 * MAX_FD_ARRAY_SZ <= b.dataLen && b.dataLen % 8 == 0
      && Loader(b.insns, progs, 0, log, msgs) && TypedLoader(b.insns, progs, log, |msgs|, room)
  }

  lemma FitsGrown(a: Buf, b: Buf, f: seq<Insn>, words: nat, ok: bool, cleanup: nat, progs: nat, log: bool, msgs: seq<(int, int)>,
                  room: Room, more: Room)
    requires Fits(a, cleanup, progs, log, msgs, room) && Appends(a, b, f, words, ok) && Within(room, more)
    requires b.error == 0 ==> FragmentOk(f, |a.insns|, cleanup) && Typed(f, BASE, BASE, more)
    ensures Fits(b, cleanup, progs, log, msgs, more)
  {
    hide Loader, FragmentOk, Typed, TypedLoader, Within;
    if b.error == 0 {
      LoaderGrows(a.insns, f, progs, 0, log, msgs);
      TypedGrows(a.insns, f, progs, log, |msgs|, room, more);
    }
  }

  /** A command, and what follows its error branch, may stand at `pos`. */
  ghost predicate CommandOk(body: seq<Insn>, pos: nat, cleanup: nat, rest: seq<Insn>, room: Room) {
    && FragmentOk(body, pos, cleanup) && Plain(rest)
    && Typed(body, BASE, RESULT, room) && Typed(rest, SUCCESS, BASE, room)
  }

  /** The error branch and what follows it complete a checked command. */
  lemma CheckedFits(a: Buf, mid: Buf, last: Buf, c: Buf, body: seq<Insn>, words: nat, ok: bool, rest: seq<Insn>, more: nat, okToo: bool,
                    cleanup: nat, progs: nat, log: bool, msgs: seq<(int, int)>, was: Room, room: Room)
    requires Fits(a, cleanup, progs, log, msgs, was) && Within(was, room)
    requires Appends(a, mid, body, words, ok) && Appends(mid, last, CheckErr(|mid.insns|, cleanup), 0, true)
    requires Appends(last, c, rest, more, okToo)
    requires last.error == 0 ==> Near(|mid.insns|, cleanup)
    requires c.error == 0 ==> CommandOk(body, |a.insns|, cleanup, rest, room)
    ensures Fits(c, cleanup, progs, log, msgs, room)
    ensures Appends(a, c, Checked(body, |a.insns|, cleanup, rest), words + more, ok && okToo)
  {
    hide Loader, FragmentOk, Plain, Typed, TypedLoader, Within, Near;
    var check := CheckErr(|a.insns| + |body|, cleanup);
    Join(a, mid, last, body, words, ok, check, 0, true);
    Join(a, last, c, body + check, words, ok, rest, more, okToo);
    if c.error == 0 {
      CheckedSound(body, |a.insns|, cleanup, rest);
      CheckedTyped(body, |a.insns|, cleanup, rest, room);
    }
    FitsGrown(a, c, Checked(body, |a.insns|, cleanup, rest), words + more, ok && okToo, cleanup, progs, log, msgs, was, room);
  }

  /** A checked command with nothing behind the error branch. */
  lemma CheckedEnds(a: Buf, mid: Buf, c: Buf, body: seq<Insn>, words: nat, cleanup: nat, progs: nat, log: bool, msgs: seq<(int, int)>,
                    room: Room)
    requires Fits(a, cleanup, progs, log, msgs, room) && Plain(body) && (c.error == 0 ==> Answers(body, Any, Any, room))
    requires Appends(a, mid, body, words, true) && Appends(mid, c, CheckErr(|mid.insns|, cleanup), 0, true)
    requires c.error == 0 ==> Near(|mid.insns|, cleanup)
    ensures Fits(c, cleanup, progs, log, msgs, room)
    ensures Appends(a, c, Checked(body, |a.insns|, cleanup, []), words, true)
  {
    hide Fits, FragmentOk, Typed, Near;
    assert c.insns + [] == c.insns;
    PlainSound(body, |a.insns|, cleanup);
    NothingPlain();
    NothingTyped(Natural, Any, room);
    Forget([], Natural, Any, room);
    CheckedFits(a, mid, c, c, body, words, true, [], 0, true, cleanup, progs, log, msgs, room, room);
  }

  // ----- The checked commands -----

  lemma LoadBtfOk(data: int, attr: int, log: bool, msg: (int, int), pos: nat, cleanup: nat, room: Room)
    requires Data(attr) && room.slots >= 2
    ensures CommandOk(LoadBtfBody(data, attr, log, msg), pos, cleanup, KeepInStack(BTF_FD_OFF), room)
  {
    hide Plain, FragmentOk, Typed, LoadBtfBody, KeepInStack;
    LoadBtfPlain(data, attr, log, msg);
    KeepPlain(BTF_FD_OFF);
    PlainSound(LoadBtfBody(data, attr, log, msg), pos, cleanup);
    LoadBtfTyped(data, attr, log, msg, room);
    KeepInStackTyped(BTF_FD_OFF, Any, room);
    Forget(KeepInStack(BTF_FD_OFF), Natural, Any, room);
  }

  lemma MapCreateOk(attr: int, valueTyped: bool, ofMaps: bool, idx: int, log: bool, msg: (int, int), msg2: (int, int),
                    pos: nat, cleanup: nat, room: Room)
    requires Data(attr) && room.slots >= 2 && (idx < 0 || idx < room.maps)
    ensures CommandOk(MapCreateBody(attr, valueTyped, ofMaps, idx, log, msg), pos, cleanup, MapCreateTail(0, ofMaps, idx, log, msg2), room)
  {
    hide Plain, FragmentOk, Typed, MapCreateBody, MapCreateTail;
    MapCreatePlain(attr, valueTyped, ofMaps, idx, log, msg);
    MapCreateTailPlain(0, ofMaps, idx, log, msg2);
    PlainSound(MapCreateBody(attr, valueTyped, ofMaps, idx, log, msg), pos, cleanup);
    MapCreateTyped(attr, valueTyped, ofMaps, idx, log, msg, room);
    MapCreateTailTyped(ofMaps, idx, log, msg2, room);
  }

  lemma ProgOk(d: ProgData, t: ProgNotes, rs: seq<Relo>, kind: int, target: string, pos: nat, cleanup: nat, log: bool, prog: nat, room: Room)
    requires |rs| == |t.ds| == |t.ns| && |t.ks| == |t.ms| && Data(d.attr) && Data(d.insns) && prog + 3 <= room.slots
    requires AllPlaced(t.ds, rs)
    requires var f := ProgFront(d, t, rs, kind, target, pos, cleanup, 0, log) + ProgBack(d, t, kind, 0, log);
             Near(pos + |f|, cleanup)
    ensures CommandOk(ProgFront(d, t, rs, kind, target, pos, cleanup, 0, log) + ProgBack(d, t, kind, 0, log), pos, cleanup,
                      KeepInStack(ProgFdOff(prog)), room)
  {
    hide Plain, FragmentOk, Typed, ProgFront, ProgBack, KeepInStack;
    var f, g := ProgFront(d, t, rs, kind, target, pos, cleanup, 0, log), ProgBack(d, t, kind, 0, log);
    ProgFrontSound(d, t, rs, kind, target, pos, cleanup, 0, log);
    ProgBackPlain(d, t, kind, 0, log);
    PlainSound(g, pos + |f|, cleanup);
    FragmentsJoin(f, g, pos, cleanup);
    KeepPlain(ProgFdOff(prog));
    ProgFrontTyped(d, t, rs, kind, target, pos, cleanup, 0, log, room);
    ProgBackTyped(d, t, kind, 0, log, room);
    TypedJoin(f, g, BASE, BASE, RESULT, room);
    KeepInStackTyped(ProgFdOff(prog), Any, room);
    Forget(KeepInStack(ProgFdOff(prog)), Natural, Any, room);
  }
}

/** What the emitter prints and when: which names a definition mentions, and why each of them has
    been declared by the time the definition is printed. */
module DumpEmit {
  import opened BtfTypes
  import opened DumpOrder

  datatype EmitMark = NotEmitted | Emitting | Emitted

  /** What is printed, declaration by declaration. */
  datatype Event = StructFwd(id: nat) | StructDef(id: nat) | TypedefDef(id: nat) | EnumDef(id: nat) | FwdDecl(id: nat)

  // ----- What has to be declared -----

  /** What has to be declared before it is used: all definitions but `__builtin_va_list`, and all
      forward declarations. */
  ghost predicate MentionedName(ts: seq<BtfType>, va: nat, y: nat) {
    y < |ts| && (ts[y].kind == FWD || (Definition(ts, y) && !(ts[y].kind == TYPEDEF && IsVaList(ts[y], va))))
  }

  // ----- The emitter's state -----

  /** `done` holds the looked-through types whose traversal has been completed. */
  datatype Emit = Emit(marks: seq<EmitMark>, fwds: seq<bool>, done: set<nat>, log: seq<Event>)

  /** Nothing more has to be printed for this type: it is declared, traversed, or being traversed. */
  predicate Sat(ts: seq<BtfType>, e: Emit, c: nat)
    requires |ts| == |e.marks| == |e.fwds| && c < |ts|
  {
    if NamedComposite(ts[c]) then e.marks[c] != NotEmitted || e.fwds[c]
    else if IsAnyEnum(ts[c].kind) || ts[c].kind == FWD then e.marks[c] == Emitted
    else LooksThrough(ts[c]) ==> c in e.done || e.marks[c] == Emitting
  }

  ghost predicate TraversedAt(ts: seq<BtfType>, e: Emit, c: nat)
    requires |ts| == |e.marks| == |e.fwds| && c < |ts|
    requires forall i :: 0 <= i < |ts[c].refs| ==> ts[c].refs[i] < |ts|
  {
    c in e.done ==> LooksThrough(ts[c]) && forall i :: 0 <= i < |ts[c].refs| && Visits(ts[c], i) ==> Sat(ts, e, ts[c].refs[i])
  }

  /** `__builtin_va_list` is never printed, nor is an anonymous enum that is spelled out where it is used. */
  ghost predicate MarksAt(ts: seq<BtfType>, va: nat, e: Emit, c: nat)
    requires |ts| == |e.marks| == |e.fwds| && c < |ts|
  {
    var t := ts[c];
    && (t.kind == TYPEDEF ==> (c in e.done <==> e.marks[c] == Emitted))
    && (LooksThrough(t) && t.kind != TYPEDEF ==> e.marks[c] != Emitted && (!IsComposite(t.kind) ==> e.marks[c] == NotEmitted))
    && (e.marks[c] == Emitting ==> t.kind == TYPEDEF || IsComposite(t.kind))
    && (StructFwd(c) in e.log <==> NamedComposite(t) && e.fwds[c])
    && (StructDef(c) in e.log <==> NamedComposite(t) && e.marks[c] == Emitted)
    && (TypedefDef(c) in e.log <==> t.kind == TYPEDEF && !IsVaList(t, va) && (e.fwds[c] || e.marks[c] == Emitted))
    && (EnumDef(c) in e.log <==> IsAnyEnum(t.kind) && StandsAlone(ts, c) && e.marks[c] == Emitted)
    && (FwdDecl(c) in e.log <==> t.kind == FWD && e.marks[c] == Emitted)
  }

  /** `va` is the name `__builtin_va_list`. */
  predicate IsVaList(t: BtfType, va: nat) { t.name != 0 && t.name == va }

  predicate Once(log: seq<Event>, i: int, j: int) {
    0 <= i < j < |log| ==> log[i] != log[j]
  }

  /** Nothing is printed twice. */
  ghost predicate AllOnce(log: seq<Event>) {
    forall i, j {:trigger Once(log, i, j)} :: Once(log, i, j)
  }

  /** Declared by the first `j` declarations. */
  predicate DeclaredBy(log: seq<Event>, j: nat, y: nat)
    requires j <= |log|
  {
    || StructFwd(y) in log[..j] || StructDef(y) in log[..j] || TypedefDef(y) in log[..j]
    || EnumDef(y) in log[..j] || FwdDecl(y) in log[..j]
  }

  /** Every struct, union, typedef, enum and forward declaration the j-th declaration mentions is
      declared before it, other than the struct being defined. */
  ghost predicate ScopedAt(ts: seq<BtfType>, va: nat, log: seq<Event>, j: int) {
    0 <= j < |log| && log[j].StructDef? ==>
      forall y: nat :: Mentions(ts, log[j].id, y) && y != log[j].id && MentionedName(ts, va, y)
             ==> DeclaredBy(log, j, y)
  }

  ghost predicate WellScoped(ts: seq<BtfType>, va: nat, log: seq<Event>) {
    forall j {:trigger ScopedAt(ts, va, log, j)} :: ScopedAt(ts, va, log, j)
  }

  /** Every struct and union the j-th declaration needs complete is defined before it. */
  ghost predicate CompleteAt(ts: seq<BtfType>, log: seq<Event>, j: int) {
    0 <= j < |log| && log[j].StructDef? ==> forall y: nat :: Needs(ts, log[j].id, y) ==> StructDef(y) in log[..j]
  }

  ghost predicate WellFounded(ts: seq<BtfType>, log: seq<Event>) {
    forall j {:trigger CompleteAt(ts, log, j)} :: CompleteAt(ts, log, j)
  }

  /** The types the emitter can still enter. */
  ghost function Fresh(ts: seq<BtfType>, e: Emit): set<nat>
    requires |ts| == |e.marks|
  {
    set c: nat | c < |ts| && (ts[c].kind == TYPEDEF || IsComposite(ts[c].kind)) && e.marks[c] == NotEmitted
  }

  ghost predicate EmitInv(ts: seq<BtfType>, va: nat, rank: seq<nat>, e: Emit) {
    && Ranked(ts, rank) && |ts| == |e.marks| == |e.fwds| && e.marks[0] == Emitted
    && (forall c {:trigger Traversed(ts, rank, e, c)} :: 0 <= c < |ts| ==> Traversed(ts, rank, e, c))
    && (forall c {:trigger MarksAt(ts, va, e, c)} :: 0 <= c < |ts| ==> MarksAt(ts, va, e, c))
    && AllOnce(e.log)
  }

  ghost predicate Traversed(ts: seq<BtfType>, rank: seq<nat>, e: Emit, c: nat)
    requires Ranked(ts, rank) && |ts| == |e.marks| == |e.fwds| && c < |ts|
  {
    assert RankedAt(ts, rank, c);
    TraversedAt(ts, e, c)
  }

  /** Later: what is printed stays printed, and the same types are being traversed. */
  ghost predicate Later(e: Emit, e': Emit) {
    && |e.marks| == |e'.marks| && |e.fwds| == |e'.fwds| && e.done <= e'.done && e.log <= e'.log
    && (forall c :: 0 <= c < |e.marks| ==> LaterAt(e.marks, e'.marks, c))
    && (forall c :: 0 <= c < |e.fwds| && e.fwds[c] ==> e'.fwds[c])
  }

  predicate LaterAt(m: seq<EmitMark>, m': seq<EmitMark>, c: nat)
    requires c < |m| == |m'|
  {
    m[c] == m'[c] || (m[c] == NotEmitted && m'[c] == Emitted)
  }

  lemma LaterMark(e: Emit, e': Emit, c: nat)
    requires c < |e.marks| && Later(e, e')
    ensures |e.marks| == |e'.marks| && LaterAt(e.marks, e'.marks, c)
  {
  }

  lemma LaterSelf(e: Emit)
    ensures Later(e, e)
  {
  }

  lemma SatStays(ts: seq<BtfType>, e: Emit, e': Emit, c: nat)
    requires |ts| == |e.marks| == |e.fwds| && c < |ts| && Later(e, e') && Sat(ts, e, c)
    ensures Sat(ts, e', c)
  {
    assert LaterAt(e.marks, e'.marks, c);
  }

  lemma LaterTrans(e: Emit, e': Emit, e'': Emit)
    requires Later(e, e') && Later(e', e'')
    ensures Later(e, e'')
  {
    forall c | 0 <= c < |e.marks| ensures LaterAt(e.marks, e''.marks, c) {
      assert LaterAt(e.marks, e'.marks, c) && LaterAt(e'.marks, e''.marks, c);
    }
  }

  // ----- Why the scope is right -----

  lemma {:induction false} PathSat(ts: seq<BtfType>, va: nat, rank: seq<nat>, e: Emit, x: nat, p: seq<nat>)
    requires EmitInv(ts, va, rank, e) && |p| > 0 && p[0] < |ts| && Sat(ts, e, p[0])
    requires forall c :: 0 <= c < |ts| && e.marks[c] == Emitting ==> c == x
    requires x < |ts| && NamedComposite(ts[x])
    requires LeadsAlong(ts, p[0], p[|p| - 1], p)
    ensures p[|p| - 1] < |ts| && Sat(ts, e, p[|p| - 1])
    decreases |p|
  {
    if |p| > 1 {
      var rest := p[1..];
      assert MentionStep(ts, p, 0) && Traversed(ts, rank, e, p[0]) && RankedAt(ts, rank, p[0]);
      forall i | 0 <= i < |rest| - 1 ensures MentionStep(ts, rest, i) {
        assert MentionStep(ts, p, i + 1);
      }
      PathSat(ts, va, rank, e, x, rest);
    }
  }

  lemma LeadSat(ts: seq<BtfType>, va: nat, rank: seq<nat>, e: Emit, x: nat, a: nat, y: nat)
    requires EmitInv(ts, va, rank, e) && a < |ts| && Sat(ts, e, a) && Leads(ts, a, y)
    requires forall c :: 0 <= c < |ts| && e.marks[c] == Emitting ==> c == x
    requires x < |ts| && NamedComposite(ts[x])
    ensures y < |ts| == |e.marks| == |e.fwds| && Sat(ts, e, y) && MarksAt(ts, va, e, y)
  {
    hide StandsAlone;
    var p: seq<nat> :| LeadsAlong(ts, a, y, p);
    PathSat(ts, va, rank, e, x, p);
  }

  /** When the members of a struct have been dealt with and nothing else is in progress, every name
      its body mentions has been declared. */
  lemma MentionedIsDeclared(ts: seq<BtfType>, va: nat, rank: seq<nat>, e: Emit, x: nat, y: nat)
    requires EmitInv(ts, va, rank, e) && x < |ts| && NamedComposite(ts[x]) && RankedAt(ts, rank, x)
    requires forall c :: 0 <= c < |ts| && e.marks[c] == Emitting ==> c == x
    requires forall i :: 0 <= i < |ts[x].refs| ==> Sat(ts, e, ts[x].refs[i])
    requires Mentions(ts, x, y) && y != x && MentionedName(ts, va, y)
    ensures DeclaredBy(e.log, |e.log|, y)
  {
    hide StandsAlone, EmitInv, Leads, MarksAt, DeclaredBy, MentionedName;
    var a :| a in ts[x].refs && Leads(ts, a, y);
    var i :| 0 <= i < |ts[x].refs| && ts[x].refs[i] == a;
    LeadSat(ts, va, rank, e, x, a, y);
    SatIsDeclared(ts, va, e, y);
  }

  lemma SatIsDeclared(ts: seq<BtfType>, va: nat, e: Emit, y: nat)
    requires |ts| == |e.marks| == |e.fwds| && y < |ts| && Sat(ts, e, y) && MarksAt(ts, va, e, y)
    requires e.marks[y] != Emitting && MentionedName(ts, va, y)
    ensures DeclaredBy(e.log, |e.log|, y)
  {
    assert e.log[..|e.log|] == e.log;
  }

  // ----- Why enums are printed in time -----

  /** Every enum and forward declaration that stands alone and that `a` leads to has been dealt with. */
  ghost predicate Ready(ts: seq<BtfType>, marks: seq<EmitMark>, a: nat)
    requires |ts| == |marks|
  {
    forall y: nat {:trigger Leads(ts, a, y)} :: Leads(ts, a, y) && StandsAlone(ts, y) ==> marks[y] == Emitted
  }

  ghost predicate ReadyRefs(ts: seq<BtfType>, marks: seq<EmitMark>, x: nat)
    requires x < |ts| == |marks|
  {
    forall j {:trigger ts[x].refs[j]} :: 0 <= j < |ts[x].refs| && Visits(ts[x], j) ==> Ready(ts, marks, ts[x].refs[j])
  }

  lemma ReadyOn(ts: seq<BtfType>, marks: seq<EmitMark>, a: nat)
    requires a < |ts| == |marks| && Ready(ts, marks, a)
    ensures LooksThrough(ts[a]) ==> ReadyRefs(ts, marks, a)
    ensures StandsAlone(ts, a) ==> marks[a] == Emitted
  {
    hide IsMarked, Visits;
    forall j | 0 <= j < |ts[a].refs| && Visits(ts[a], j) && LooksThrough(ts[a]) ensures Ready(ts, marks, ts[a].refs[j]) {
      forall y: nat | Leads(ts, ts[a].refs[j], y) ensures Leads(ts, a, y) {
        LeadsFurther(ts, a, j, y);
      }
    }
    assert LeadsAlong(ts, a, a, [a]);
    assert Leads(ts, a, a);
  }

  lemma LeadsFurther(ts: seq<BtfType>, a: nat, j: nat, y: nat)
    requires a < |ts| && LooksThrough(ts[a]) && Visits(ts[a], j) && Leads(ts, ts[a].refs[j], y)
    ensures Leads(ts, a, y)
  {
    var p: seq<nat> :| LeadsAlong(ts, ts[a].refs[j], y, p);
    var p' := [a] + p;
    forall i | 0 <= i < |p'| - 1 ensures MentionStep(ts, p', i) {
      if i > 0 {
        assert MentionStep(ts, p, i - 1);
      }
    }
    assert LeadsAlong(ts, a, y, p');
  }

  lemma ReadyStays(ts: seq<BtfType>, m: seq<EmitMark>, m': seq<EmitMark>, x: nat)
    requires x < |ts| == |m| == |m'| && ReadyRefs(ts, m, x)
    requires forall c :: 0 <= c < |m| && m[c] == Emitted ==> m'[c] == Emitted
    ensures ReadyRefs(ts, m', x)
  {
    hide Leads, Visits;
    forall j | 0 <= j < |ts[x].refs| && Visits(ts[x], j) ensures Ready(ts, m', ts[x].refs[j]) {
      assert Ready(ts, m, ts[x].refs[j]);
    }
  }

  lemma MentionedAreReady(ts: seq<BtfType>, marks: seq<EmitMark>, x: nat)
    requires Definition(ts, x) && |marks| == |ts|
    requires forall y: nat :: ComesFirst(ts, x, y) ==> y < |ts| && marks[y] == Emitted
    ensures ReadyRefs(ts, marks, x)
  {
    hide IsMarked, Leads, Needs;
    forall j, y: nat | 0 <= j < |ts[x].refs| && Visits(ts[x], j) && Leads(ts, ts[x].refs[j], y) && StandsAlone(ts, y)
      ensures marks[y] == Emitted
    {
      assert Mentions(ts, x, y) && ComesFirst(ts, x, y);
    }
  }

  lemma DefinitionKinds(ts: seq<BtfType>, x: nat)
    requires Definition(ts, x)
    ensures NamedComposite(ts[x]) || ts[x].kind == TYPEDEF || (StandsAlone(ts, x) && (IsAnyEnum(ts[x].kind) || ts[x].kind == FWD))
  {
  }

  lemma LaterEmitted(e: Emit, e': Emit)
    requires Later(e, e')
    ensures |e.marks| == |e'.marks| && forall c :: 0 <= c < |e.marks| && e.marks[c] == Emitted ==> e'.marks[c] == Emitted
  {
    forall c | 0 <= c < |e.marks| && e.marks[c] == Emitted ensures e'.marks[c] == Emitted {
      assert LaterAt(e.marks, e'.marks, c);
    }
  }

  // ----- Steps of the emitter -----

  predicate OnlyAt(e: Emit, e': Emit, x: nat, c: nat)
    requires c < |e.marks| == |e'.marks| == |e.fwds| == |e'.fwds|
  {
    c != x ==> e'.marks[c] == e.marks[c] && e'.fwds[c] == e.fwds[c] && (c in e'.done <==> c in e.done)
  }

  /** One step deals with one type and prints at most one new declaration of it. */
  ghost predicate StepOf(e: Emit, e': Emit, x: nat) {
    && x < |e.marks| == |e'.marks| == |e.fwds| == |e'.fwds| && e.done <= e'.done
    && (forall c {:trigger OnlyAt(e, e', x, c)} :: 0 <= c < |e.marks| ==> OnlyAt(e, e', x, c))
    && (e'.log == e.log || (|e'.log| == |e.log| + 1 && e'.log[..|e.log|] == e.log && e'.log[|e.log|].id == x && e'.log[|e.log|] !in e.log))
  }

  /** A step keeps the invariant if it does so at its own type. */
  lemma StepKeeps(ts: seq<BtfType>, va: nat, rank: seq<nat>, e: Emit, e': Emit, x: nat)
    requires EmitInv(ts, va, rank, e) && x < |ts| && StepOf(e, e', x) && e'.marks[0] == Emitted
    requires MarksAt(ts, va, e', x) && Traversed(ts, rank, e', x) && (Sat(ts, e, x) ==> Sat(ts, e', x))
    ensures EmitInv(ts, va, rank, e')
  {
    forall c | 0 <= c < |ts| ensures Sat(ts, e, c) ==> Sat(ts, e', c) {
      assert OnlyAt(e, e', x, c);
    }
    forall c | 0 <= c < |ts| ensures Traversed(ts, rank, e', c) && MarksAt(ts, va, e', c) {
      assert OnlyAt(e, e', x, c) && Traversed(ts, rank, e, c) && MarksAt(ts, va, e, c) && RankedAt(ts, rank, c);
      if c != x {
        LogAt(e, e', x, c);
      }
    }
    forall i, j ensures Once(e'.log, i, j) {
      assert Once(e.log, i, j);
      if 0 <= i < j < |e'.log| {
        assert e'.log[i] == e.log[i];
      }
    }
  }

  lemma LogAt(e: Emit, e': Emit, x: nat, c: nat)
    requires StepOf(e, e', x) && c != x
    ensures StructFwd(c) in e'.log <==> StructFwd(c) in e.log
    ensures StructDef(c) in e'.log <==> StructDef(c) in e.log
    ensures TypedefDef(c) in e'.log <==> TypedefDef(c) in e.log
    ensures EnumDef(c) in e'.log <==> EnumDef(c) in e.log
    ensures FwdDecl(c) in e'.log <==> FwdDecl(c) in e.log
  {
    InGrown(e, e', x, StructFwd(c));
    InGrown(e, e', x, StructDef(c));
    InGrown(e, e', x, TypedefDef(c));
    InGrown(e, e', x, EnumDef(c));
    InGrown(e, e', x, FwdDecl(c));
  }

  lemma InGrown(e: Emit, e': Emit, x: nat, ev: Event)
    requires StepOf(e, e', x) && ev.id != x
    ensures ev in e'.log <==> ev in e.log
  {
    if e'.log != e.log {
      assert e'.log == e.log + [e'.log[|e.log|]];
    }
  }

  /** The effect of a step as a value. */
  function Set(e: Emit, x: nat, mark: EmitMark, fwd: bool, done: bool, evs: seq<Event>): Emit
    requires x < |e.marks| == |e.fwds|
  {
    Emit(e.marks[x := mark], e.fwds[x := fwd], if done then e.done + {x} else e.done, e.log + evs)
  }

  lemma SetIsStep(e: Emit, x: nat, mark: EmitMark, fwd: bool, done: bool, evs: seq<Event>)
    requires x < |e.marks| == |e.fwds|
    requires evs == [] || (|evs| == 1 && evs[0].id == x && evs[0] !in e.log)
    ensures StepOf(e, Set(e, x, mark, fwd, done, evs), x)
  {
    var e' := Set(e, x, mark, fwd, done, evs);
    forall c | 0 <= c < |e.marks| ensures OnlyAt(e, e', x, c) { }
    if evs == [] {
      assert e'.log == e.log;
    } else {
      assert e'.log[..|e.log|] == e.log;
    }
  }

  /** A type is entered, its references are dealt with, it is left. */
  lemma LaterAround(e: Emit, e1: Emit, e2: Emit, e3: Emit, x: nat)
    requires x < |e.marks| == |e.fwds| && e.marks[x] == NotEmitted
    requires e1 == Set(e, x, Emitting, e.fwds[x], false, []) && Later(e1, e2)
    requires StepOf(e2, e3, x) && e3.marks[x] != Emitting && (e2.fwds[x] ==> e3.fwds[x])
    ensures Later(e, e3)
  {
    forall c | 0 <= c < |e.marks| ensures LaterAt(e.marks, e3.marks, c) && (e.fwds[c] ==> e3.fwds[c]) {
      assert LaterAt(e1.marks, e2.marks, c) && OnlyAt(e2, e3, x, c);
    }
    assert e1.log == e.log;
    if e3.log != e2.log {
      assert e3.log == e2.log + [e3.log[|e2.log|]];
    }
  }

  /** A step that leaves no type in progress. */
  lemma LaterStep(e: Emit, e': Emit, x: nat)
    requires StepOf(e, e', x) && LaterAt(e.marks, e'.marks, x) && (e.fwds[x] ==> e'.fwds[x])
    ensures Later(e, e')
  {
    forall c | 0 <= c < |e.marks| ensures LaterAt(e.marks, e'.marks, c) && (e.fwds[c] ==> e'.fwds[c]) {
      assert OnlyAt(e, e', x, c);
    }
    if e'.log != e.log {
      assert e'.log == e.log + [e'.log[|e.log|]];
    }
  }

  lemma FewerFresh(ts: seq<BtfType>, e: Emit, e': Emit)
    requires |ts| == |e.marks| && Later(e, e')
    ensures Fresh(ts, e') <= Fresh(ts, e)
  {
    forall c | c in Fresh(ts, e') ensures c in Fresh(ts, e) {
      assert LaterAt(e.marks, e'.marks, c);
    }
  }

  /** Both properties of what is printed. */
  ghost predicate LogInv(ts: seq<BtfType>, va: nat, log: seq<Event>) {
    WellScoped(ts, va, log) && WellFounded(ts, log)
  }

  /** Printing keeps them when what is printed is no struct, or a struct whose names are declared
      and whose needs are defined. */
  lemma PrintKeeps(ts: seq<BtfType>, va: nat, log: seq<Event>, ev: Event)
    requires LogInv(ts, va, log)
    requires ev.StructDef? ==> CompleteAt(ts, log + [ev], |log|) && ScopedAt(ts, va, log + [ev], |log|)
    ensures LogInv(ts, va, log + [ev])
  {
    hide Mentions, Needs, DeclaredBy;
    var log' := log + [ev];
    forall j ensures ScopedAt(ts, va, log', j) && CompleteAt(ts, log', j) {
      assert ScopedAt(ts, va, log, j) && CompleteAt(ts, log, j);
      if 0 <= j < |log| {
        assert log'[j] == log[j];
        DeclaredSame(log, ev, j);
        assert log'[..j] == log[..j];
      }
    }
  }

  lemma DeclaredSame(log: seq<Event>, ev: Event, j: nat)
    requires j <= |log|
    ensures forall y :: DeclaredBy(log + [ev], j, y) <==> DeclaredBy(log, j, y)
  {
    assert (log + [ev])[..j] == log[..j];
  }

  /** The definition of a struct whose members have been dealt with. */
  lemma DefIsScoped(ts: seq<BtfType>, va: nat, rank: seq<nat>, e: Emit, x: nat)
    requires EmitInv(ts, va, rank, e) && x < |ts| && NamedComposite(ts[x]) && RankedAt(ts, rank, x)
    requires forall c :: 0 <= c < |ts| && e.marks[c] == Emitting ==> c == x
    requires forall i :: 0 <= i < |ts[x].refs| ==> Sat(ts, e, ts[x].refs[i])
    ensures ScopedAt(ts, va, e.log + [StructDef(x)], |e.log|)
  {
    hide Mentions, DeclaredBy, EmitInv;
    var log' := e.log + [StructDef(x)];
    assert log'[|e.log|] == StructDef(x);
    forall y: nat | Mentions(ts, x, y) && y != x && MentionedName(ts, va, y) ensures DeclaredBy(log', |e.log|, y) {
      MentionsIn(ts, x, y);
      MentionedIsDeclared(ts, va, rank, e, x, y);
      DeclaredSame(e.log, StructDef(x), |e.log|);
    }
  }

  lemma MentionsIn(ts: seq<BtfType>, x: nat, y: nat)
    requires Mentions(ts, x, y)
    ensures x < |ts| && y < |ts|
  {
  }

  // ----- The steps there are -----

  /** A step that may be taken. */
  ghost predicate StepOk(ts: seq<BtfType>, va: nat, rank: seq<nat>, e: Emit, c: nat, mark: EmitMark, fwd: bool, fin: bool, evs: seq<Event>)
    requires Ranked(ts, rank) && |ts| == |e.marks| == |e.fwds| && c < |ts|
  {
    var e' := Set(e, c, mark, fwd, fin, evs);
    && (evs == [] || (|evs| == 1 && evs[0].id == c && evs[0] !in e.log))
    && e'.marks[0] == Emitted && MarksAt(ts, va, e', c) && Traversed(ts, rank, e', c)
    && (Sat(ts, e, c) ==> Sat(ts, e', c))
    && (evs != [] && evs[0].StructDef? ==> CompleteAt(ts, e'.log, |e.log|) && ScopedAt(ts, va, e'.log, |e.log|))
  }

  /** A step prints what it prints. */
  lemma MarksAfter(ts: seq<BtfType>, va: nat, e: Emit, c: nat, mark: EmitMark, fwd: bool, fin: bool, evs: seq<Event>)
    requires |ts| == |e.marks| == |e.fwds| && c < |ts|
    ensures var l := Set(e, c, mark, fwd, fin, evs).log;
            && (StructFwd(c) in l <==> StructFwd(c) in e.log || StructFwd(c) in evs)
            && (StructDef(c) in l <==> StructDef(c) in e.log || StructDef(c) in evs)
            && (TypedefDef(c) in l <==> TypedefDef(c) in e.log || TypedefDef(c) in evs)
            && (EnumDef(c) in l <==> EnumDef(c) in e.log || EnumDef(c) in evs)
            && (FwdDecl(c) in l <==> FwdDecl(c) in e.log || FwdDecl(c) in evs)
  {
  }

  /** Integers, enums and forward declarations. */
  lemma LeafStep(ts: seq<BtfType>, va: nat, rank: seq<nat>, e: Emit, c: nat, evs: seq<Event>)
    requires EmitInv(ts, va, rank, e) && c < |ts| && e.marks[c] == NotEmitted
    requires match ts[c].kind
             case INT => evs == []
             case ENUM | ENUM64 => evs == if StandsAlone(ts, c) then [EnumDef(c)] else []
             case FWD => evs == [FwdDecl(c)]
             case _ => false
    ensures StepOk(ts, va, rank, e, c, Emitted, e.fwds[c], false, evs)
  {
    assert MarksAt(ts, va, e, c) && Traversed(ts, rank, e, c);
    MarksAfter(ts, va, e, c, Emitted, e.fwds[c], false, evs);
  }

  /** A struct or union declared but not defined. */
  lemma FwdStep(ts: seq<BtfType>, va: nat, rank: seq<nat>, e: Emit, c: nat)
    requires EmitInv(ts, va, rank, e) && c < |ts| && NamedComposite(ts[c]) && !e.fwds[c] && e.marks[c] == Emitting
    ensures StepOk(ts, va, rank, e, c, Emitting, true, false, [StructFwd(c)])
  {
    assert MarksAt(ts, va, e, c) && Traversed(ts, rank, e, c);
    MarksAfter(ts, va, e, c, Emitting, true, false, [StructFwd(c)]);
  }

  /** A typedef needed while it is being traversed: defined at once. */
  lemma EarlyTypedefStep(ts: seq<BtfType>, va: nat, rank: seq<nat>, e: Emit, c: nat)
    requires EmitInv(ts, va, rank, e) && c < |ts| && ts[c].kind == TYPEDEF && !e.fwds[c] && e.marks[c] == Emitting
    ensures StepOk(ts, va, rank, e, c, Emitting, true, false, if IsVaList(ts[c], va) then [] else [TypedefDef(c)])
  {
    assert MarksAt(ts, va, e, c) && Traversed(ts, rank, e, c);
    MarksAfter(ts, va, e, c, Emitting, true, false, if IsVaList(ts[c], va) then [] else [TypedefDef(c)]);
  }

  lemma EnterStep(ts: seq<BtfType>, va: nat, rank: seq<nat>, e: Emit, c: nat)
    requires EmitInv(ts, va, rank, e) && c < |ts| && e.marks[c] == NotEmitted && (ts[c].kind == TYPEDEF || IsComposite(ts[c].kind))
    ensures StepOk(ts, va, rank, e, c, Emitting, e.fwds[c], false, [])
  {
    assert MarksAt(ts, va, e, c) && Traversed(ts, rank, e, c) && RankedAt(ts, rank, c);
    MarksAfter(ts, va, e, c, Emitting, e.fwds[c], false, []);
  }

  lemma LeaveTypedefStep(ts: seq<BtfType>, va: nat, rank: seq<nat>, e: Emit, c: nat)
    requires EmitInv(ts, va, rank, e) && c < |ts| && ts[c].kind == TYPEDEF && e.marks[c] == Emitting
    requires RankedAt(ts, rank, c) && Sat(ts, e, ts[c].refs[0])
    ensures StepOk(ts, va, rank, e, c, Emitted, e.fwds[c], true, if e.fwds[c] || IsVaList(ts[c], va) then [] else [TypedefDef(c)])
  {
    assert MarksAt(ts, va, e, c) && Traversed(ts, rank, e, c);
    MarksAfter(ts, va, e, c, Emitted, e.fwds[c], true, if e.fwds[c] || IsVaList(ts[c], va) then [] else [TypedefDef(c)]);
  }

  /** An anonymous struct or union: it is traversed again wherever it is used. */
  lemma LeaveAnonymousStep(ts: seq<BtfType>, va: nat, rank: seq<nat>, e: Emit, c: nat)
    requires EmitInv(ts, va, rank, e) && c < |ts| && IsComposite(ts[c].kind) && ts[c].name == 0 && e.marks[c] == Emitting
    requires RankedAt(ts, rank, c) && forall i :: 0 <= i < |ts[c].refs| ==> Sat(ts, e, ts[c].refs[i])
    ensures StepOk(ts, va, rank, e, c, NotEmitted, e.fwds[c], true, [])
  {
    assert MarksAt(ts, va, e, c) && Traversed(ts, rank, e, c);
    MarksAfter(ts, va, e, c, NotEmitted, e.fwds[c], true, []);
  }

  lemma LeaveDeclaredStep(ts: seq<BtfType>, va: nat, rank: seq<nat>, e: Emit, c: nat)
    requires EmitInv(ts, va, rank, e) && c < |ts| && NamedComposite(ts[c]) && e.fwds[c] && e.marks[c] == Emitting
    ensures StepOk(ts, va, rank, e, c, NotEmitted, true, false, [])
  {
    assert MarksAt(ts, va, e, c) && Traversed(ts, rank, e, c) && RankedAt(ts, rank, c);
    MarksAfter(ts, va, e, c, NotEmitted, true, false, []);
  }

  /** A struct or union defined. */
  lemma DefStep(ts: seq<BtfType>, va: nat, rank: seq<nat>, e: Emit, c: nat)
    requires EmitInv(ts, va, rank, e) && c < |ts| && NamedComposite(ts[c]) && e.marks[c] == Emitting && RankedAt(ts, rank, c)
    requires forall d :: 0 <= d < |ts| && e.marks[d] == Emitting ==> d == c
    requires forall i :: 0 <= i < |ts[c].refs| ==> Sat(ts, e, ts[c].refs[i])
    requires forall y: nat :: Needs(ts, c, y) ==> StructDef(y) in e.log
    ensures StepOk(ts, va, rank, e, c, Emitted, e.fwds[c], false, [StructDef(c)])
  {
    hide Needs;
    assert MarksAt(ts, va, e, c) && Traversed(ts, rank, e, c);
    MarksAfter(ts, va, e, c, Emitted, e.fwds[c], false, [StructDef(c)]);
    DefIsScoped(ts, va, rank, e, c);
    var log' := e.log + [StructDef(c)];
    assert log'[..|e.log|] == e.log && log'[|e.log|] == StructDef(c);
  }

  /** Pointers, arrays, modifiers and prototypes, once their references are dealt with. */
  lemma LookedStep(ts: seq<BtfType>, va: nat, rank: seq<nat>, e: Emit, c: nat)
    requires EmitInv(ts, va, rank, e) && c < |ts| && LooksThrough(ts[c]) && ts[c].kind != TYPEDEF && !IsComposite(ts[c].kind)
    requires RankedAt(ts, rank, c) && forall i :: 0 <= i < |ts[c].refs| && Visits(ts[c], i) ==> Sat(ts, e, ts[c].refs[i])
    ensures StepOk(ts, va, rank, e, c, NotEmitted, e.fwds[c], true, []) && e.marks[c] == NotEmitted
  {
    assert MarksAt(ts, va, e, c) && Traversed(ts, rank, e, c);
    MarksAfter(ts, va, e, c, NotEmitted, e.fwds[c], true, []);
  }

  lemma TakenStep(ts: seq<BtfType>, va: nat, rank: seq<nat>, e: Emit, c: nat, mark: EmitMark, fwd: bool, fin: bool, evs: seq<Event>)
    requires EmitInv(ts, va, rank, e) && LogInv(ts, va, e.log) && c < |ts| && StepOk(ts, va, rank, e, c, mark, fwd, fin, evs)
    ensures var e' := Set(e, c, mark, fwd, fin, evs);
            EmitInv(ts, va, rank, e') && LogInv(ts, va, e'.log) && StepOf(e, e', c)
  {
    hide WellScoped, WellFounded, MarksAt, Traversed, Sat, CompleteAt, ScopedAt, Ranked;
    var e' := Set(e, c, mark, fwd, fin, evs);
    SetIsStep(e, c, mark, fwd, fin, evs);
    StepKeeps(ts, va, rank, e, e', c);
    if evs != [] {
      assert evs == [evs[0]];
      PrintKeeps(ts, va, e.log, evs[0]);
    } else {
      assert e'.log == e.log;
    }
  }

  /** What the mark of a type says by itself. */
  lemma AsMarked(ts: seq<BtfType>, va: nat, rank: seq<nat>, e: Emit, c: nat)
    requires EmitInv(ts, va, rank, e) && c < |ts|
    ensures e.marks[c] != NotEmitted ==> Sat(ts, e, c)
    ensures e.marks[c] == Emitting ==> ts[c].kind == TYPEDEF || IsComposite(ts[c].kind)
  {
    assert MarksAt(ts, va, e, c);
  }

  lemma EnteredFresh(ts: seq<BtfType>, e: Emit, c: nat)
    requires |ts| == |e.marks| == |e.fwds| && c in Fresh(ts, e)
    ensures Fresh(ts, Set(e, c, Emitting, e.fwds[c], false, [])) < Fresh(ts, e)
  {
    var e' := Set(e, c, Emitting, e.fwds[c], false, []);
    assert c !in Fresh(ts, e');
    forall d | d in Fresh(ts, e') ensures d in Fresh(ts, e) { }
  }

  lemma StartEmit(ts: seq<BtfType>, va: nat, rank: seq<nat>, e: Emit)
    requires Ranked(ts, rank) && |ts| == |e.marks| == |e.fwds| && e.done == {} && e.log == []
    requires forall x :: 0 <= x < |ts| ==> e.marks[x] == (if x == 0 then Emitted else NotEmitted) && !e.fwds[x]
    ensures EmitInv(ts, va, rank, e) && LogInv(ts, va, e.log)
  {
  }

  predicate Printed(ts: seq<BtfType>, va: nat, log: seq<Event>, x: nat)
    requires x < |ts|
  {
    match ts[x].kind
    case STRUCT | UNION => StructDef(x) in log
    case TYPEDEF => IsVaList(ts[x], va) || TypedefDef(x) in log
    case FWD => FwdDecl(x) in log
    case _ => EnumDef(x) in log
  }

  /** A definition that has been dealt with at the top has been printed. */
  lemma EmittedIsPrinted(ts: seq<BtfType>, va: nat, rank: seq<nat>, e: Emit, x: nat)
    requires EmitInv(ts, va, rank, e) && Definition(ts, x) && e.marks[x] == Emitted
    ensures Printed(ts, va, e.log, x)
  {
    assert MarksAt(ts, va, e, x);
  }

  /** When all that is queued has been printed, so has a definition that was ordered. */
  lemma OrderedIsPrinted(ts: seq<BtfType>, va: nat, rank: seq<nat>, m: seq<Mark>, q: seq<nat>, e: Emit, x: nat)
    requires OrderInv(ts, rank, m, q) && EmitInv(ts, va, rank, e) && Definition(ts, x)
    requires if ts[x].kind == TYPEDEF then m[x] == Ordered else Settled(ts, rank, m, x, false)
    requires forall i :: 0 <= i < |q| ==> PrintedAt(ts, e.marks, q, i)
    ensures Printed(ts, va, e.log, x) && !Needs(ts, x, x)
  {
    hide OrderInv, EmitInv, Definition, Needs;
    OrderedIsQueued(ts, rank, m, q, x);
    var k :| 0 <= k < |q| && q[k] == x;
    assert PrintedAt(ts, e.marks, q, k);
    EmittedIsPrinted(ts, va, rank, e, x);
    QueuedNeedsNotItself(ts, rank, m, q, x);
  }

  /** What was asked for, kind by kind. */
  lemma AskedIsPrinted(ts: seq<BtfType>, va: nat, rank: seq<nat>, m: seq<Mark>, q: seq<nat>, e: Emit, x: nat)
    requires OrderInv(ts, rank, m, q) && EmitInv(ts, va, rank, e) && x < |ts| && Settled(ts, rank, m, x, false)
    requires ts[x].kind == TYPEDEF ==> m[x] == Ordered
    requires forall i :: 0 <= i < |q| ==> PrintedAt(ts, e.marks, q, i)
    ensures NamedComposite(ts[x]) ==> StructDef(x) in e.log && !Needs(ts, x, x)
    ensures ts[x].kind == TYPEDEF && !IsVaList(ts[x], va) ==> TypedefDef(x) in e.log
    ensures IsAnyEnum(ts[x].kind) && (ts[x].name != 0 || !IsMarked(ts, x)) ==> EnumDef(x) in e.log
    ensures ts[x].kind == FWD && (ts[x].name != 0 || !IsMarked(ts, x)) ==> FwdDecl(x) in e.log
  {
    hide OrderInv, EmitInv, IsMarked, Needs;
    if Definition(ts, x) {
      OrderedIsPrinted(ts, va, rank, m, q, e, x);
    }
  }

  /** The k-th queued definition has been printed. */
  predicate PrintedAt(ts: seq<BtfType>, marks: seq<EmitMark>, q: seq<nat>, k: nat) {
    k < |q| && |marks| == |ts| && q[k] < |ts| && marks[q[k]] == Emitted
  }
}

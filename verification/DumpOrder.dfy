/** The order in which C definitions are queued: what has to be complete before what, and why a
    depth-first search that stops at pointers to named types respects it. */
module DumpOrder {
  import opened BtfTypes

  const EINVAL: int := 22
  const ELOOP: int := 40

  datatype Mark = NotOrdered | Ordering | Ordered

  // ----- What a type needs -----

  predicate IsModifier(k: Kind) { k in {VOLATILE, CONST, RESTRICT, TYPE_TAG} }

  predicate NamedComposite(t: BtfType) { IsComposite(t.kind) && t.name != 0 }

  /** Kinds that only lead on to another type. */
  predicate LeadsOn(k: Kind) { k in {PTR, TYPEDEF, ARRAY} || IsModifier(k) }

  /** The search visits these of a type's references: not an array's index type. */
  predicate Visits(t: BtfType, i: nat) {
    i < |t.refs| && (IsComposite(t.kind) || t.kind == FUNC_PROTO || (LeadsOn(t.kind) && i == 0))
  }

  predicate RankedAt(ts: seq<BtfType>, rank: seq<nat>, x: nat)
    requires x < |ts| == |rank|
  {
    && WellFormed(ts[x])
    && (forall i :: 0 <= i < |ts[x].refs| ==> ts[x].refs[i] < |ts|)
    && (LeadsOn(ts[x].kind) ==> rank[ts[x].refs[0]] < rank[x])
    && (ts[x].kind == FUNC_PROTO ==> forall i :: 0 <= i < |ts[x].refs| ==> rank[ts[x].refs[i]] < rank[x])
  }

  /** Every cycle of references the search follows goes through a struct or union: the others
      descend in `rank`.  Type zero is void. */
  ghost predicate Ranked(ts: seq<BtfType>, rank: seq<nat>) {
    && 0 < |ts| == |rank| && ts[0] == VOID
    && forall x {:trigger RankedAt(ts, rank, x)} :: 0 <= x < |ts| ==> RankedAt(ts, rank, x)
  }

  /** A type in a role: `weak` says it is reached through a pointer, where a named struct or union
      may stay incomplete. */
  datatype Role = Role(id: nat, weak: bool)

  /** A type in the first role needs one in the second.  Arrays need complete elements, however they
      are reached; functions never need complete types; an anonymous struct or union is spelled out
      where it is used, so it needs its members even behind a pointer. */
  predicate NeedsNext(ts: seq<BtfType>, a: Role, b: Role) {
    && a.id < |ts| && !NamedComposite(ts[a.id])
    && (exists i :: 0 <= i < |ts[a.id].refs| && Visits(ts[a.id], i) && ts[a.id].refs[i] == b.id)
    && match ts[a.id].kind
       case PTR | FUNC_PROTO => b.weak
       case ARRAY | STRUCT | UNION => !b.weak
       case _ => b.weak == a.weak
  }

  predicate NeedStep(ts: seq<BtfType>, p: seq<Role>, i: int) {
    0 <= i < |p| - 1 && NeedsNext(ts, p[i], p[i + 1])
  }

  ghost predicate NeedPath(ts: seq<BtfType>, p: seq<Role>) {
    |p| > 0 && forall i {:trigger NeedStep(ts, p, i)} :: 0 <= i < |p| - 1 ==> NeedStep(ts, p, i)
  }

  /** A member of `x` needs `y` complete, along `p`. */
  ghost predicate NeedsAlong(ts: seq<BtfType>, x: nat, y: nat, p: seq<Role>) {
    && x < |ts| && y < |ts| && IsComposite(ts[x].kind) && NamedComposite(ts[y])
    && NeedPath(ts, p) && !p[0].weak && p[0].id in ts[x].refs && p[|p| - 1] == Role(y, false)
  }

  ghost predicate Needs(ts: seq<BtfType>, x: nat, y: nat) {
    exists p: seq<Role> :: NeedsAlong(ts, x, y, p)
  }

  // ----- What a type mentions -----

  /** A type spelled out where it is used, or a typedef: its own references are mentioned too. */
  predicate LooksThrough(t: BtfType) {
    LeadsOn(t.kind) || t.kind == FUNC_PROTO || (IsComposite(t.kind) && t.name == 0)
  }

  predicate MentionStep(ts: seq<BtfType>, p: seq<nat>, i: int) {
    && 0 <= i < |p| - 1 && p[i] < |ts| && LooksThrough(ts[p[i]])
    && exists j :: 0 <= j < |ts[p[i]].refs| && Visits(ts[p[i]], j) && ts[p[i]].refs[j] == p[i + 1]
  }

  /** From `a`, through pointers, arrays, modifiers, prototypes, typedefs and anonymous structs, to `y`. */
  ghost predicate LeadsAlong(ts: seq<BtfType>, a: nat, y: nat, p: seq<nat>) {
    && |p| > 0 && p[0] == a && p[|p| - 1] == y && y < |ts|
    && forall i {:trigger MentionStep(ts, p, i)} :: 0 <= i < |p| - 1 ==> MentionStep(ts, p, i)
  }

  ghost predicate Leads(ts: seq<BtfType>, a: nat, y: nat) {
    exists p: seq<nat> :: LeadsAlong(ts, a, y, p)
  }

  /** The definition of the struct, union or typedef `x` mentions `y`. */
  ghost predicate Mentions(ts: seq<BtfType>, x: nat, y: nat) {
    && x < |ts| && y < |ts| && (IsComposite(ts[x].kind) || ts[x].kind == TYPEDEF)
    && exists a :: a in ts[x].refs && Leads(ts, a, y)
  }

  /** An enum or forward declaration that is printed on its own: it has a name, or nothing refers to it
      other than as a result. */
  ghost predicate StandsAlone(ts: seq<BtfType>, y: nat) {
    y < |ts| && (IsAnyEnum(ts[y].kind) || ts[y].kind == FWD) && (ts[y].name != 0 || !IsMarked(ts, y))
  }

  /** What is printed as a definition of its own. */
  ghost predicate Definition(ts: seq<BtfType>, x: nat) {
    x < |ts| && (NamedComposite(ts[x]) || ts[x].kind == TYPEDEF || StandsAlone(ts, x))
  }

  /** `y` has to be printed before the definition of `x`. */
  ghost predicate ComesFirst(ts: seq<BtfType>, x: nat, y: nat) {
    Needs(ts, x, y) || (Mentions(ts, x, y) && StandsAlone(ts, y))
  }

  // ----- Loops -----

  /** The search goes from one role on to another: through pointers, arrays, typedefs, modifiers and
      prototypes, and into a struct or union unless it is a named one behind a pointer.  What a
      prototype mentions is behind a pointer too, but for a prototype not reached through one the
      search, taken literally, does not see it so. */
  predicate DigsTo(ts: seq<BtfType>, literal: bool, a: Role, b: Role) {
    && a.id < |ts| && (NamedComposite(ts[a.id]) ==> !a.weak)
    && (exists i :: 0 <= i < |ts[a.id].refs| && Visits(ts[a.id], i) && ts[a.id].refs[i] == b.id)
    && match ts[a.id].kind
       case PTR => b.weak
       case FUNC_PROTO => if literal then b.weak == a.weak else b.weak
       case ARRAY | STRUCT | UNION => !b.weak
       case _ => b.weak == a.weak
  }

  predicate DigStep(ts: seq<BtfType>, literal: bool, p: seq<Role>, i: int) {
    0 <= i < |p| - 1 && DigsTo(ts, literal, p[i], p[i + 1])
  }

  ghost predicate Dig(ts: seq<BtfType>, literal: bool, p: seq<Role>) {
    |p| > 0 && forall i {:trigger DigStep(ts, literal, p, i)} :: 0 <= i < |p| - 1 ==> DigStep(ts, literal, p, i)
  }

  /** A struct or union in a role where it has to be complete. */
  predicate Entered(ts: seq<BtfType>, r: Role) {
    r.id < |ts| && IsComposite(ts[r.id].kind) && !(r.weak && ts[r.id].name != 0)
  }

  ghost predicate LoopAlong(ts: seq<BtfType>, literal: bool, p: seq<Role>, i: int) {
    Dig(ts, literal, p) && 0 <= i < |p| - 1 && p[i].id == p[|p| - 1].id && Entered(ts, p[|p| - 1])
  }

  /** From `a` the search comes to a struct or union that has to be complete inside itself. */
  ghost predicate LoopsFrom(ts: seq<BtfType>, literal: bool, a: Role) {
    exists p: seq<Role>, i :: LoopAlong(ts, literal, p, i) && p[0] == a
  }

  ghost predicate SelfLoop(ts: seq<BtfType>, x: nat) {
    exists p: seq<Role> :: LoopAlong(ts, false, p, 0) && p[0].id == x
  }

  /** Only pointers, and functions, which the search does not enter, refer to prototypes. */
  ghost predicate ProtosBehindPointers(ts: seq<BtfType>) {
    forall x, i {:trigger ts[x].refs[i]} :: 0 <= x < |ts| && 0 <= i < |ts[x].refs| ==>
      ts[x].refs[i] < |ts| && (ts[ts[x].refs[i]].kind == FUNC_PROTO ==> ts[x].kind in {PTR, FUNC})
  }

  /** Then the two readings coincide. */
  lemma ReadingsAgree(ts: seq<BtfType>, a: Role)
    requires ProtosBehindPointers(ts) && a.id < |ts| && (ts[a.id].kind == FUNC_PROTO ==> a.weak)
    ensures LoopsFrom(ts, true, a) <==> LoopsFrom(ts, false, a)
  {
    LoopEitherWay(ts, true, false, a);
    LoopEitherWay(ts, false, true, a);
  }

  lemma LoopEitherWay(ts: seq<BtfType>, literal: bool, other: bool, a: Role)
    requires ProtosBehindPointers(ts) && a.id < |ts| && (ts[a.id].kind == FUNC_PROTO ==> a.weak)
    ensures LoopsFrom(ts, literal, a) ==> LoopsFrom(ts, other, a)
  {
    if LoopsFrom(ts, literal, a) {
      var p: seq<Role>, k :| LoopAlong(ts, literal, p, k) && p[0] == a;
      forall i | 0 <= i < |p| - 1 ensures DigStep(ts, other, p, i) {
        assert DigStep(ts, literal, p, i);
        if i > 0 {
          assert DigStep(ts, literal, p, i - 1);
          var j :| 0 <= j < |ts[p[i - 1].id].refs| && Visits(ts[p[i - 1].id], j) && ts[p[i - 1].id].refs[j] == p[i].id;
        }
      }
      assert LoopAlong(ts, other, p, k);
    }
  }

  // ----- What is settled -----

  /** Everything the type needs in this role is marked as ordered. */
  ghost predicate Settled(ts: seq<BtfType>, rank: seq<nat>, m: seq<Mark>, x: nat, weak: bool)
    requires Ranked(ts, rank) && |m| == |ts| && x < |ts|
    decreases rank[x]
  {
    assert RankedAt(ts, rank, x);
    m[x] == Ordered
    || match ts[x].kind
       case PTR => Settled(ts, rank, m, ts[x].refs[0], true)
       case ARRAY => Settled(ts, rank, m, ts[x].refs[0], false)
       case TYPEDEF | VOLATILE | CONST | RESTRICT | TYPE_TAG => Settled(ts, rank, m, ts[x].refs[0], weak)
       case FUNC_PROTO => forall i :: 0 <= i < |ts[x].refs| ==> Settled(ts, rank, m, ts[x].refs[i], true)
       case STRUCT | UNION => weak && ts[x].name != 0
       case _ => false
  }

  /** Marks only advance. */
  predicate Advanced(m: seq<Mark>, m': seq<Mark>) {
    |m| == |m'| && forall x :: 0 <= x < |m| && m[x] == Ordered ==> m'[x] == Ordered
  }

  lemma {:induction false} SettledStays(ts: seq<BtfType>, rank: seq<nat>, m: seq<Mark>, m': seq<Mark>, x: nat, weak: bool)
    requires Ranked(ts, rank) && |m| == |ts| && x < |ts| && Advanced(m, m') && Settled(ts, rank, m, x, weak)
    ensures Settled(ts, rank, m', x, weak)
    decreases rank[x]
  {
    assert RankedAt(ts, rank, x);
    if m[x] != Ordered {
      match ts[x].kind
      case PTR => SettledStays(ts, rank, m, m', ts[x].refs[0], true);
      case ARRAY => SettledStays(ts, rank, m, m', ts[x].refs[0], false);
      case TYPEDEF | VOLATILE | CONST | RESTRICT | TYPE_TAG => SettledStays(ts, rank, m, m', ts[x].refs[0], weak);
      case FUNC_PROTO =>
        forall i | 0 <= i < |ts[x].refs| ensures Settled(ts, rank, m', ts[x].refs[i], true) {
          SettledStays(ts, rank, m, m', ts[x].refs[i], true);
        }
      case _ =>
    }
  }

  /** What is settled on its own is settled behind a pointer. */
  lemma {:induction false} SettledWeakly(ts: seq<BtfType>, rank: seq<nat>, m: seq<Mark>, x: nat)
    requires Ranked(ts, rank) && |m| == |ts| && x < |ts| && Settled(ts, rank, m, x, false)
    ensures Settled(ts, rank, m, x, true)
    decreases rank[x]
  {
    assert RankedAt(ts, rank, x);
    if m[x] != Ordered && (ts[x].kind == TYPEDEF || IsModifier(ts[x].kind)) {
      SettledWeakly(ts, rank, m, ts[x].refs[0]);
    }
  }

  // ----- What the marks mean -----

  /** An ordered type has all it needs; arrays, modifiers and prototypes are never marked. */
  ghost predicate DoneAt(ts: seq<BtfType>, rank: seq<nat>, m: seq<Mark>, x: nat)
    requires Ranked(ts, rank) && |m| == |ts| && x < |ts|
  {
    assert RankedAt(ts, rank, x);
    m[x] == Ordered ==>
      match ts[x].kind
      case STRUCT | UNION => forall i :: 0 <= i < |ts[x].refs| ==> Settled(ts, rank, m, ts[x].refs[i], false)
      case PTR => Settled(ts, rank, m, ts[x].refs[0], true)
      case TYPEDEF => Settled(ts, rank, m, ts[x].refs[0], false)
      case ARRAY | VOLATILE | CONST | RESTRICT | TYPE_TAG | FUNC_PROTO => false
      case _ => true
  }

  ghost predicate AllDone(ts: seq<BtfType>, rank: seq<nat>, m: seq<Mark>)
    requires Ranked(ts, rank) && |m| == |ts|
  {
    forall x {:trigger DoneAt(ts, rank, m, x)} :: 0 <= x < |ts| ==> DoneAt(ts, rank, m, x)
  }

  ghost predicate NamedQueued(ts: seq<BtfType>, m: seq<Mark>, q: seq<nat>, x: nat)
    requires x < |ts| == |m|
  {
    m[x] == Ordered && Definition(ts, x) ==> x in q
  }

  /** Every definition that is ordered has been queued: named structs and unions, typedefs, and the
      enums and forward declarations that stand alone. */
  ghost predicate AllQueued(ts: seq<BtfType>, m: seq<Mark>, q: seq<nat>)
    requires |ts| == |m|
  {
    forall x {:trigger NamedQueued(ts, m, q, x)} :: 0 <= x < |ts| ==> NamedQueued(ts, m, q, x)
  }

  ghost predicate QueuedAt(ts: seq<BtfType>, m: seq<Mark>, q: seq<nat>, i: int)
    requires |ts| == |m|
  {
    0 <= i < |q| ==> 0 < q[i] < |ts| && Definition(ts, q[i]) && (ts[q[i]].kind != TYPEDEF ==> m[q[i]] == Ordered)
  }

  /** Only definitions are queued; all but typedefs are then ordered. */
  ghost predicate QueueOk(ts: seq<BtfType>, m: seq<Mark>, q: seq<nat>)
    requires |ts| == |m|
  {
    forall i {:trigger QueuedAt(ts, m, q, i)} :: QueuedAt(ts, m, q, i)
  }

  predicate Apart(ts: seq<BtfType>, q: seq<nat>, i: int, j: int) {
    0 <= i < j < |q| && q[i] == q[j] ==> q[i] < |ts| && ts[q[i]].kind == TYPEDEF
  }

  /** Nothing but a typedef is queued twice. */
  ghost predicate NoRepeats(ts: seq<BtfType>, q: seq<nat>) {
    forall i, j {:trigger Apart(ts, q, i, j)} :: Apart(ts, q, i, j)
  }

  ghost predicate TopoAt(ts: seq<BtfType>, q: seq<nat>, i: int) {
    0 <= i < |q| ==> forall y :: ComesFirst(ts, q[i], y) ==> y in q[..i]
  }

  /** Everything in the queue comes after all it needs, and after the enums and forward declarations
      it mentions. */
  ghost predicate Topological(ts: seq<BtfType>, q: seq<nat>) {
    forall i {:trigger TopoAt(ts, q, i)} :: TopoAt(ts, q, i)
  }

  ghost predicate LoopFreeAt(ts: seq<BtfType>, m: seq<Mark>, x: nat)
    requires x < |ts| == |m|
  {
    m[x] == Ordered ==> !SelfLoop(ts, x)
  }

  ghost predicate AllLoopFree(ts: seq<BtfType>, m: seq<Mark>)
    requires |ts| == |m|
  {
    forall x {:trigger LoopFreeAt(ts, m, x)} :: 0 <= x < |ts| ==> LoopFreeAt(ts, m, x)
  }

  /** The state of the search: the marks, and everything queued since the beginning. */
  ghost predicate OrderInv(ts: seq<BtfType>, rank: seq<nat>, m: seq<Mark>, q: seq<nat>) {
    && Ranked(ts, rank) && |m| == |ts| && m[0] == Ordered
    && AllDone(ts, rank, m) && AllQueued(ts, m, q) && QueueOk(ts, m, q) && NoRepeats(ts, q) && Topological(ts, q)
    && AllLoopFree(ts, m)
  }

  // ----- Why the order is right -----

  /** From a settled role every role it needs is settled. */
  lemma NeedKeepsSettled(ts: seq<BtfType>, rank: seq<nat>, m: seq<Mark>, a: Role, b: Role)
    requires Ranked(ts, rank) && |m| == |ts| && AllDone(ts, rank, m)
    requires NeedsNext(ts, a, b) && Settled(ts, rank, m, a.id, a.weak)
    ensures b.id < |ts| && Settled(ts, rank, m, b.id, b.weak)
  {
    assert RankedAt(ts, rank, a.id) && DoneAt(ts, rank, m, a.id);
    var refs := ts[a.id].refs;
    var i :| 0 <= i < |refs| && Visits(ts[a.id], i) && refs[i] == b.id;
    if m[a.id] == Ordered && ts[a.id].kind == TYPEDEF && b.weak {
      SettledWeakly(ts, rank, m, b.id);
    }
  }

  lemma {:induction false} PathSettled(ts: seq<BtfType>, rank: seq<nat>, m: seq<Mark>, p: seq<Role>)
    requires Ranked(ts, rank) && |m| == |ts| && AllDone(ts, rank, m)
    requires NeedPath(ts, p) && p[0].id < |ts| && Settled(ts, rank, m, p[0].id, p[0].weak)
    ensures p[|p| - 1].id < |ts| && Settled(ts, rank, m, p[|p| - 1].id, p[|p| - 1].weak)
    decreases |p|
  {
    if |p| > 1 {
      var rest := p[1..];
      assert NeedStep(ts, p, 0);
      NeedKeepsSettled(ts, rank, m, p[0], p[1]);
      forall i | 0 <= i < |rest| - 1 ensures NeedStep(ts, rest, i) {
        assert NeedStep(ts, p, i + 1);
      }
      PathSettled(ts, rank, m, rest);
    }
  }

  /** When the members of a struct are settled, everything it needs has been queued. */
  lemma NeededIsQueued(ts: seq<BtfType>, rank: seq<nat>, m: seq<Mark>, q: seq<nat>, x: nat, y: nat)
    requires Ranked(ts, rank) && |m| == |ts| && x < |ts| && AllDone(ts, rank, m) && AllQueued(ts, m, q)
    requires RankedAt(ts, rank, x) && forall i :: 0 <= i < |ts[x].refs| ==> Settled(ts, rank, m, ts[x].refs[i], false)
    requires Needs(ts, x, y)
    ensures y in q
  {
    var p: seq<Role> :| NeedsAlong(ts, x, y, p);
    var i :| 0 <= i < |ts[x].refs| && ts[x].refs[i] == p[0].id;
    PathSettled(ts, rank, m, p);
    assert NamedQueued(ts, m, q, y);
  }

  /** From a settled type every type it leads to is settled, so an enum or forward declaration is ordered. */
  lemma {:induction false} LeadsSettled(ts: seq<BtfType>, rank: seq<nat>, m: seq<Mark>, p: seq<nat>, y: nat, weak: bool)
    requires Ranked(ts, rank) && |m| == |ts| && AllDone(ts, rank, m)
    requires |p| > 0 && LeadsAlong(ts, p[0], y, p) && p[0] < |ts| && Settled(ts, rank, m, p[0], weak)
    ensures StandsAlone(ts, y) ==> m[y] == Ordered
    decreases |p|
  {
    hide Ranked, AllDone, StandsAlone;
    if |p| > 1 {
      var a, rest := ts[p[0]].kind, p[1..];
      assert MentionStep(ts, p, 0);
      var next := Role(p[1], if a == PTR || a == FUNC_PROTO then true else if a == ARRAY || IsComposite(a) then false else weak);
      DigKeepsSettled(ts, rank, m, Role(p[0], weak), next);
      forall i | 0 <= i < |rest| - 1 ensures MentionStep(ts, rest, i) {
        assert MentionStep(ts, p, i + 1);
      }
      LeadsSettled(ts, rank, m, rest, y, next.weak);
    } else {
      AloneIsOrdered(ts, rank, m, y, weak);
    }
  }

  lemma AloneIsOrdered(ts: seq<BtfType>, rank: seq<nat>, m: seq<Mark>, y: nat, weak: bool)
    requires Ranked(ts, rank) && |m| == |ts| && y < |ts| && Settled(ts, rank, m, y, weak)
    ensures StandsAlone(ts, y) ==> m[y] == Ordered
  {
  }

  /** When all that `x` refers to is settled, everything that has to come first has been queued. */
  lemma FirstIsQueued(ts: seq<BtfType>, rank: seq<nat>, m: seq<Mark>, q: seq<nat>, x: nat, y: nat)
    requires OrderInv(ts, rank, m, q) && x < |ts| && CanFinish(ts, rank, m, x) && ComesFirst(ts, x, y)
    ensures y in q
  {
    hide Ranked, AllDone, AllQueued, QueueOk, NoRepeats, Topological, AllLoopFree, Needs, Leads, StandsAlone;
    RankedHere(ts, rank, x);
    if Needs(ts, x, y) {
      NeedsComposite(ts, x, y);
      NeededIsQueued(ts, rank, m, q, x, y);
    } else {
      var a :| a in ts[x].refs && Leads(ts, a, y);
      MentionIsQueued(ts, rank, m, q, a, y);
    }
  }

  lemma RankedHere(ts: seq<BtfType>, rank: seq<nat>, x: nat)
    requires Ranked(ts, rank) && x < |ts|
    ensures |rank| == |ts| && RankedAt(ts, rank, x)
  {
  }

  lemma MentionIsQueued(ts: seq<BtfType>, rank: seq<nat>, m: seq<Mark>, q: seq<nat>, a: nat, y: nat)
    requires Ranked(ts, rank) && |m| == |ts| && AllDone(ts, rank, m) && AllQueued(ts, m, q)
    requires a < |ts| && Settled(ts, rank, m, a, false) && Leads(ts, a, y) && StandsAlone(ts, y)
    ensures y in q
  {
    hide Ranked, AllDone, StandsAlone, LeadsAlong;
    var p: seq<nat> :| LeadsAlong(ts, a, y, p);
    LeadsFrom(ts, a, y, p);
    LeadsSettled(ts, rank, m, p, y, false);
    assert NamedQueued(ts, m, q, y);
  }

  lemma LeadsFrom(ts: seq<BtfType>, a: nat, y: nat, p: seq<nat>)
    requires LeadsAlong(ts, a, y, p)
    ensures |p| > 0 && p[0] == a && p[|p| - 1] == y < |ts|
  {
  }

  // ----- Why a finished search means there is no loop -----

  lemma DigKeepsSettled(ts: seq<BtfType>, rank: seq<nat>, m: seq<Mark>, a: Role, b: Role)
    requires Ranked(ts, rank) && |m| == |ts| && AllDone(ts, rank, m)
    requires DigsTo(ts, false, a, b) && Settled(ts, rank, m, a.id, a.weak)
    ensures b.id < |ts| && Settled(ts, rank, m, b.id, b.weak)
  {
    assert RankedAt(ts, rank, a.id) && DoneAt(ts, rank, m, a.id);
    var refs := ts[a.id].refs;
    var i :| 0 <= i < |refs| && Visits(ts[a.id], i) && refs[i] == b.id;
    if m[a.id] == Ordered && ts[a.id].kind == TYPEDEF && b.weak {
      SettledWeakly(ts, rank, m, b.id);
    }
  }

  lemma {:induction false} DigSettled(ts: seq<BtfType>, rank: seq<nat>, m: seq<Mark>, p: seq<Role>, k: nat)
    requires Ranked(ts, rank) && |m| == |ts| && AllDone(ts, rank, m)
    requires Dig(ts, false, p) && k < |p| && p[k].id < |ts| && Settled(ts, rank, m, p[k].id, p[k].weak)
    ensures p[|p| - 1].id < |ts| && Settled(ts, rank, m, p[|p| - 1].id, p[|p| - 1].weak)
    decreases |p| - k
  {
    if k < |p| - 1 {
      assert DigStep(ts, false, p, k);
      DigKeepsSettled(ts, rank, m, p[k], p[k + 1]);
      DigSettled(ts, rank, m, p, k + 1);
    }
  }

  /** The members of a struct are settled, and it is not yet ordered: it is not among what they need. */
  lemma SettledMembersNoLoop(ts: seq<BtfType>, rank: seq<nat>, m: seq<Mark>, x: nat)
    requires Ranked(ts, rank) && |m| == |ts| && AllDone(ts, rank, m) && x < |ts| && m[x] != Ordered
    requires IsComposite(ts[x].kind) ==>
               RankedAt(ts, rank, x) && forall i :: 0 <= i < |ts[x].refs| ==> Settled(ts, rank, m, ts[x].refs[i], false)
    ensures !SelfLoop(ts, x)
  {
    forall p: seq<Role> | p != [] && p[0].id == x ensures !LoopAlong(ts, false, p, 0) {
      if Dig(ts, false, p) && |p| > 1 && IsComposite(ts[x].kind) {
        assert DigStep(ts, false, p, 0);
        DigSettled(ts, rank, m, p, 1);
      }
    }
  }

  /** What is settled leads to no loop. */
  lemma SettledNoLoop(ts: seq<BtfType>, rank: seq<nat>, m: seq<Mark>, q: seq<nat>, a: Role)
    requires OrderInv(ts, rank, m, q) && a.id < |ts| && Settled(ts, rank, m, a.id, a.weak)
    ensures !LoopsFrom(ts, false, a)
  {
    forall p: seq<Role>, i | 0 <= i < |p| - 1 && p[0] == a ensures !LoopAlong(ts, false, p, i) {
      if LoopAlong(ts, false, p, i) {
        DigSettled(ts, rank, m, p, 0);
        assert m[p[i].id] == Ordered && LoopFreeAt(ts, m, p[i].id);
        LoopTail(ts, p, i);
      }
    }
  }

  lemma LoopTail(ts: seq<BtfType>, p: seq<Role>, i: nat)
    requires LoopAlong(ts, false, p, i)
    ensures SelfLoop(ts, p[i].id)
  {
    var rest := p[i..];
    forall k | 0 <= k < |rest| - 1 ensures DigStep(ts, false, rest, k) {
      assert DigStep(ts, false, p, i + k);
    }
    assert LoopAlong(ts, false, rest, 0);
  }

  // ----- Where the search stands -----

  predicate PathHas(p: seq<Role>, x: nat) {
    exists i :: 0 <= i < |p| - 1 && p[i].id == x
  }

  predicate OpenAt(ts: seq<BtfType>, m: seq<Mark>, p: seq<Role>, x: int) {
    0 <= x < |m| == |ts| && m[x] == Ordering ==> IsComposite(ts[x].kind) && PathHas(p, x)
  }

  /** The search has come to `here` along `p`, through all it has entered and not finished. */
  ghost predicate Trail(ts: seq<BtfType>, m: seq<Mark>, p: seq<Role>, here: Role) {
    && |m| == |ts| && Dig(ts, true, p) && p[|p| - 1] == here
    && forall x {:trigger OpenAt(ts, m, p, x)} :: OpenAt(ts, m, p, x)
  }

  /** Nothing is left half-ordered that was not before. */
  predicate Closes(m: seq<Mark>, m': seq<Mark>) {
    |m| == |m'| && forall x :: 0 <= x < |m| && m'[x] == Ordering ==> m[x] == Ordering
  }

  lemma StartTrail(ts: seq<BtfType>, m: seq<Mark>, here: Role)
    requires |m| == |ts| && forall x :: 0 <= x < |m| ==> m[x] != Ordering
    ensures Trail(ts, m, [here], here)
  {
  }

  lemma TrailGrows(ts: seq<BtfType>, m: seq<Mark>, m': seq<Mark>, p: seq<Role>, here: Role, next: Role)
    requires Trail(ts, m, p, here) && DigsTo(ts, true, here, next) && |m'| == |m|
    requires forall x :: 0 <= x < |m| && m'[x] == Ordering ==> m[x] == Ordering || (x == here.id && IsComposite(ts[x].kind))
    ensures Trail(ts, m', p + [next], next) && (p + [next])[0] == p[0]
  {
    var p' := p + [next];
    forall i | 0 <= i < |p'| - 1 ensures DigStep(ts, true, p', i) {
      if i < |p| - 1 {
        assert DigStep(ts, true, p, i);
      }
    }
    forall x ensures OpenAt(ts, m', p', x) {
      assert OpenAt(ts, m, p, x);
      if 0 <= x < |m| && m'[x] == Ordering {
        if m[x] == Ordering {
          var i :| 0 <= i < |p| - 1 && p[i].id == x;
          assert p'[i].id == x;
        } else {
          assert p'[|p| - 1].id == x;
        }
      }
    }
  }

  /** On to what a pointer, array, typedef or modifier refers to. */
  lemma TrailFollows(ts: seq<BtfType>, rank: seq<nat>, m: seq<Mark>, p: seq<Role>, here: Role, weak: bool)
    requires Trail(ts, m, p, here) && here.id < |ts| == |rank| && RankedAt(ts, rank, here.id) && LeadsOn(ts[here.id].kind)
    requires weak == (ts[here.id].kind == PTR || (ts[here.id].kind != ARRAY && here.weak))
    ensures var next := Role(ts[here.id].refs[0], weak);
            Trail(ts, m, p + [next], next) && (p + [next])[0] == p[0]
  {
    assert Visits(ts[here.id], 0);
    TrailGrows(ts, m, m, p, here, Role(ts[here.id].refs[0], weak));
  }

  /** Meeting a type again that has to be complete and is not finished closes a loop. */
  lemma LoopMet(ts: seq<BtfType>, m: seq<Mark>, p: seq<Role>, here: Role)
    requires Trail(ts, m, p, here) && here.id < |ts| && m[here.id] == Ordering
    ensures IsComposite(ts[here.id].kind)
    ensures !(here.weak && ts[here.id].name != 0) ==> LoopsFrom(ts, true, p[0])
  {
    assert OpenAt(ts, m, p, here.id);
    var i :| 0 <= i < |p| - 1 && p[i].id == here.id;
    assert Entered(ts, here) ==> LoopAlong(ts, true, p, i);
  }

  ghost predicate HasUnknown(ts: seq<BtfType>) {
    exists i :: 0 < i < |ts| && ts[i].kind == UNKN
  }

  /** Why an ordering fails. */
  ghost predicate Fails(ts: seq<BtfType>, from: Role, r: int) {
    (r == -ELOOP && LoopsFrom(ts, true, from)) || (r == -EINVAL && HasUnknown(ts))
  }

  // ----- Steps of the search -----

  /** A mark never goes back. */
  predicate Forward(m: seq<Mark>, m': seq<Mark>) {
    |m| == |m'| && forall x :: 0 <= x < |m| ==> (m[x] == NotOrdered || m'[x] == m[x])
  }

  /** The composites the search has not entered. */
  ghost function Unentered(ts: seq<BtfType>, m: seq<Mark>): set<nat>
    requires |ts| == |m|
  {
    set x: nat | x < |ts| && IsComposite(ts[x].kind) && m[x] == NotOrdered
  }

  lemma FewerUnentered(ts: seq<BtfType>, m: seq<Mark>, m': seq<Mark>)
    requires |ts| == |m| && Forward(m, m')
    ensures Unentered(ts, m') <= Unentered(ts, m)
  {
  }

  lemma DoneStays(ts: seq<BtfType>, rank: seq<nat>, m: seq<Mark>, m': seq<Mark>, x: nat)
    requires Ranked(ts, rank) && |m| == |ts| && x < |ts| && Advanced(m, m') && DoneAt(ts, rank, m, x)
    requires m'[x] == m[x] || m'[x] != Ordered
    ensures DoneAt(ts, rank, m', x)
  {
    assert RankedAt(ts, rank, x);
    if m[x] == Ordered {
      match ts[x].kind
      case STRUCT | UNION =>
        forall i | 0 <= i < |ts[x].refs| ensures Settled(ts, rank, m', ts[x].refs[i], false) {
          SettledStays(ts, rank, m, m', ts[x].refs[i], false);
        }
      case PTR => SettledStays(ts, rank, m, m', ts[x].refs[0], true);
      case TYPEDEF => SettledStays(ts, rank, m, m', ts[x].refs[0], false);
      case _ =>
    }
  }

  /** Entering a type changes nothing that is known. */
  lemma EnterKeeps(ts: seq<BtfType>, rank: seq<nat>, m: seq<Mark>, q: seq<nat>, x: nat)
    requires OrderInv(ts, rank, m, q) && x < |ts| && m[x] == NotOrdered
    ensures OrderInv(ts, rank, m[x := Ordering], q)
  {
    var m' := m[x := Ordering];
    forall y | 0 <= y < |ts| ensures DoneAt(ts, rank, m', y) && NamedQueued(ts, m', q, y) {
      assert DoneAt(ts, rank, m, y) && NamedQueued(ts, m, q, y);
      DoneStays(ts, rank, m, m', y);
    }
    forall i ensures QueuedAt(ts, m', q, i) {
      assert QueuedAt(ts, m, q, i);
    }
    forall y | 0 <= y < |ts| ensures LoopFreeAt(ts, m', y) {
      assert LoopFreeAt(ts, m, y);
    }
  }

  /** What it takes to mark a type as ordered. */
  ghost predicate CanFinish(ts: seq<BtfType>, rank: seq<nat>, m: seq<Mark>, x: nat)
    requires Ranked(ts, rank) && |m| == |ts| && x < |ts|
  {
    assert RankedAt(ts, rank, x);
    match ts[x].kind
    case STRUCT | UNION => forall i :: 0 <= i < |ts[x].refs| ==> Settled(ts, rank, m, ts[x].refs[i], false)
    case PTR => Settled(ts, rank, m, ts[x].refs[0], true)
    case TYPEDEF => Settled(ts, rank, m, ts[x].refs[0], false)
    case ARRAY | VOLATILE | CONST | RESTRICT | TYPE_TAG | FUNC_PROTO => false
    case _ => true
  }

  /** Marking a type as ordered, and queueing it if it is a definition, keeps the order right. */
  lemma FinishKeeps(ts: seq<BtfType>, rank: seq<nat>, m: seq<Mark>, q: seq<nat>, x: nat, q': seq<nat>)
    requires OrderInv(ts, rank, m, q) && x < |ts| && m[x] != Ordered && CanFinish(ts, rank, m, x)
    requires if q' == q then !Definition(ts, x) else q' == q + [x] && 0 < x && Definition(ts, x)
    ensures OrderInv(ts, rank, m[x := Ordered], q')
  {
    hide NoRepeats, Topological, Definition;
    var m' := m[x := Ordered];
    forall y | 0 <= y < |ts| ensures DoneAt(ts, rank, m', y) {
      assert DoneAt(ts, rank, m, y);
      if y != x {
        DoneStays(ts, rank, m, m', y);
      } else {
        FinishIsDone(ts, rank, m, x);
      }
    }
    forall y | 0 <= y < |ts| ensures NamedQueued(ts, m', q', y) {
      assert NamedQueued(ts, m, q, y);
      assert q' != q ==> q'[|q|] == x;
    }
    forall i ensures QueuedAt(ts, m', q', i) {
      assert QueuedAt(ts, m, q, i);
    }
    assert RankedAt(ts, rank, x);
    SettledMembersNoLoop(ts, rank, m, x);
    forall y | 0 <= y < |ts| ensures LoopFreeAt(ts, m', y) {
      assert LoopFreeAt(ts, m, y);
    }
    if q' != q {
      PushNoRepeats(ts, m, q, x);
      PushTopological(ts, rank, m, q, x);
    }
  }

  lemma FinishIsDone(ts: seq<BtfType>, rank: seq<nat>, m: seq<Mark>, x: nat)
    requires Ranked(ts, rank) && |m| == |ts| && x < |ts| && CanFinish(ts, rank, m, x)
    ensures DoneAt(ts, rank, m[x := Ordered], x)
  {
    var m' := m[x := Ordered];
    assert RankedAt(ts, rank, x);
    match ts[x].kind
    case STRUCT | UNION =>
      forall i | 0 <= i < |ts[x].refs| ensures Settled(ts, rank, m', ts[x].refs[i], false) {
        SettledStays(ts, rank, m, m', ts[x].refs[i], false);
      }
    case PTR => SettledStays(ts, rank, m, m', ts[x].refs[0], true);
    case TYPEDEF => SettledStays(ts, rank, m, m', ts[x].refs[0], false);
    case _ =>
  }

  lemma PushNoRepeats(ts: seq<BtfType>, m: seq<Mark>, q: seq<nat>, x: nat)
    requires |ts| == |m| && x < |ts| && m[x] != Ordered && QueueOk(ts, m, q) && NoRepeats(ts, q)
    ensures NoRepeats(ts, q + [x])
  {
    forall i, j ensures Apart(ts, q + [x], i, j) {
      assert Apart(ts, q, i, j) && QueuedAt(ts, m, q, i);
    }
  }

  lemma PushTopological(ts: seq<BtfType>, rank: seq<nat>, m: seq<Mark>, q: seq<nat>, x: nat)
    requires OrderInv(ts, rank, m, q) && x < |ts| && CanFinish(ts, rank, m, x)
    ensures Topological(ts, q + [x])
  {
    hide ComesFirst, AllDone, AllQueued, QueueOk, NoRepeats;
    var q' := q + [x];
    forall i ensures TopoAt(ts, q', i) {
      assert TopoAt(ts, q, i);
      if 0 <= i < |q| {
        assert q'[..i] == q[..i] && q'[i] == q[i];
      } else if i == |q| {
        assert q'[..i] == q;
        forall y | ComesFirst(ts, x, y) ensures y in q {
          FirstIsQueued(ts, rank, m, q, x, y);
        }
      }
    }
  }

  /** A typedef that was already ordered may be queued again. */
  lemma PushKnownTypedef(ts: seq<BtfType>, rank: seq<nat>, m: seq<Mark>, q: seq<nat>, x: nat)
    requires OrderInv(ts, rank, m, q) && x < |ts| && ts[x].kind == TYPEDEF && m[x] == Ordered
    ensures OrderInv(ts, rank, m, q + [x])
  {
    assert DoneAt(ts, rank, m, x);
    assert Definition(ts, x);
    hide ComesFirst, Definition;
    var q' := q + [x];
    forall y | 0 <= y < |ts| ensures NamedQueued(ts, m, q', y) {
      assert NamedQueued(ts, m, q, y);
    }
    forall i ensures QueuedAt(ts, m, q', i) && TopoAt(ts, q', i) {
      assert QueuedAt(ts, m, q, i) && TopoAt(ts, q, i);
      if 0 <= i < |q| {
        assert q'[..i] == q[..i] && q'[i] == q[i];
      } else if i == |q| {
        forall y | ComesFirst(ts, x, y) ensures y in q {
          FirstIsQueued(ts, rank, m, q, x, y);
        }
      }
    }
    forall i, j ensures Apart(ts, q', i, j) {
      assert Apart(ts, q, i, j);
    }
  }

  lemma NeedsComposite(ts: seq<BtfType>, x: nat, y: nat)
    requires Needs(ts, x, y)
    ensures x < |ts| && y < |ts| && IsComposite(ts[x].kind) && NamedComposite(ts[y])
  {
  }

  // ----- References -----

  /** The references that are marked: all but a prototype's result. */
  function MarkedRefs(t: BtfType): seq<nat> {
    if t.kind == FUNC_PROTO && t.refs != [] then t.refs[1..] else t.refs
  }

  /** One of the first `n` types marks `x`. */
  ghost predicate MarkedBy(ts: seq<BtfType>, x: nat, n: nat)
    requires n <= |ts|
  {
    exists i :: 0 < i < n && x in MarkedRefs(ts[i])
  }

  ghost predicate IsMarked(ts: seq<BtfType>, x: nat) {
    MarkedBy(ts, x, |ts|)
  }

  ghost predicate IsReferenced(ts: seq<BtfType>, x: nat) {
    exists i :: 0 <= i < |ts| && x in ts[i].refs
  }

  lemma MoreMarked(ts: seq<BtfType>, x: nat, n: nat)
    requires 0 < n < |ts|
    ensures MarkedBy(ts, x, n + 1) <==> MarkedBy(ts, x, n) || x in MarkedRefs(ts[n])
  {
  }

  /** Some prototype returns `x`, and nothing else refers to it. */
  ghost predicate OnlyReturned(ts: seq<BtfType>, x: nat) {
    && (exists i :: 0 <= i < |ts| && ts[i].kind == FUNC_PROTO && x in ts[i].refs)
    && (forall i, j {:trigger ts[i].refs[j]} :: 0 <= i < |ts| && 0 <= j < |ts[i].refs| && ts[i].refs[j] == x ==>
          ts[i].kind == FUNC_PROTO && j == 0)
  }

  /** The marked types are the types some type refers to, but for those that are only ever returned. */
  lemma MarkedIffReferenced(ts: seq<BtfType>, rank: seq<nat>, x: nat)
    requires Ranked(ts, rank)
    ensures IsMarked(ts, x) <==> IsReferenced(ts, x) && !OnlyReturned(ts, x)
  {
    hide MarkedRefs;
    if IsMarked(ts, x) {
      var i :| 0 < i < |ts| && x in MarkedRefs(ts[i]);
      MarkedIsReference(ts[i], x);
    }
    if IsReferenced(ts, x) && !OnlyReturned(ts, x) {
      var k :| 0 <= k < |ts| && x in ts[k].refs;
      var i, j :| 0 <= i < |ts| && 0 <= j < |ts[i].refs| && ts[i].refs[j] == x && !(ts[i].kind == FUNC_PROTO && j == 0);
      assert RankedAt(ts, rank, i) && i > 0;
      ReferenceIsMarked(ts[i], j);
    }
  }

  lemma MarkedIsReference(t: BtfType, x: nat)
    requires x in MarkedRefs(t)
    ensures x in t.refs && exists j :: 0 <= j < |t.refs| && t.refs[j] == x && !(t.kind == FUNC_PROTO && j == 0)
  {
    var j :| 0 <= j < |MarkedRefs(t)| && MarkedRefs(t)[j] == x;
    assert t.refs[if t.kind == FUNC_PROTO && t.refs != [] then j + 1 else j] == x;
  }

  lemma ReferenceIsMarked(t: BtfType, j: nat)
    requires j < |t.refs| && !(t.kind == FUNC_PROTO && j == 0)
    ensures t.refs[j] in MarkedRefs(t)
  {
    assert MarkedRefs(t)[if t.kind == FUNC_PROTO then j - 1 else j] == t.refs[j];
  }

  /** For instance: an anonymous enum that a prototype returns. */
  lemma ReturnedIsNotMarked()
    ensures var proto := BtfType(0, FUNC_PROTO, false, 0, 0, [2], []);
            var ts := [VOID, proto, BtfType(0, ENUM, false, 0, 4, [], [])];
            Ranked(ts, [0, 1, 0]) && IsReferenced(ts, 2) && !IsMarked(ts, 2)
  {
    var proto := BtfType(0, FUNC_PROTO, false, 0, 0, [2], []);
    var ts := [VOID, proto, BtfType(0, ENUM, false, 0, 4, [], [])];
    assert RankedAt(ts, [0, 1, 0], 0) && RankedAt(ts, [0, 1, 0], 1) && RankedAt(ts, [0, 1, 0], 2);
    assert 2 in ts[1].refs;
    assert MarkedRefs(ts[1]) == [] && MarkedRefs(ts[2]) == [];
  }

  // ----- What a call of the search answers -----

  /** Both the queue and the history have grown, by the same ids, all of them from `s`. */
  predicate Pushed(h: seq<nat>, q: seq<nat>, h': seq<nat>, q': seq<nat>, s: set<nat>) {
    h <= h' && q' == q + h'[|h|..] && forall i :: |h| <= i < |h'| ==> h'[i] in s
  }

  lemma NothingPushed(h: seq<nat>, q: seq<nat>, s: set<nat>)
    ensures Pushed(h, q, h, q, s)
  {
  }

  lemma OnePushed(h: seq<nat>, q: seq<nat>, x: nat, s: set<nat>)
    requires x in s
    ensures Pushed(h, q, h + [x], q + [x], s)
  {
  }

  lemma PushedTrans(h: seq<nat>, q: seq<nat>, h1: seq<nat>, q1: seq<nat>, h2: seq<nat>, q2: seq<nat>, s: set<nat>)
    requires Pushed(h, q, h1, q1, s) && Pushed(h1, q1, h2, q2, s)
    ensures Pushed(h, q, h2, q2, s)
  {
  }

  // ----- What a type leads to -----

  ghost predicate VisitStep(ts: seq<BtfType>, p: seq<nat>, i: nat)
    requires i + 1 < |p|
  {
    p[i] < |ts| && exists j: nat :: Visits(ts[p[i]], j) && ts[p[i]].refs[j] == p[i + 1]
  }

  /** From `x` through whatever its definition and theirs refer to, to `y`. */
  ghost predicate Reaches(ts: seq<BtfType>, x: nat, y: nat) {
    exists p: seq<nat> :: ReachesAlong(ts, x, y, p)
  }

  ghost predicate ReachesAlong(ts: seq<BtfType>, x: nat, y: nat, p: seq<nat>) {
    && |p| > 0 && p[0] == x && p[|p| - 1] == y
    && forall i {:trigger VisitStep(ts, p, i)} :: 0 <= i < |p| - 1 ==> VisitStep(ts, p, i)
  }

  lemma ReachesSelf(ts: seq<BtfType>, x: nat)
    ensures Reaches(ts, x, x)
  {
    assert ReachesAlong(ts, x, x, [x]);
  }

  lemma ReachesOn(ts: seq<BtfType>, x: nat, y: nat, j: nat)
    requires Reaches(ts, x, y) && y < |ts| && Visits(ts[y], j)
    ensures Reaches(ts, x, ts[y].refs[j])
  {
    var p :| ReachesAlong(ts, x, y, p);
    var p' := p + [ts[y].refs[j]];
    forall i | 0 <= i < |p'| - 1 ensures VisitStep(ts, p', i) {
      if i < |p| - 1 {
        assert VisitStep(ts, p, i);
      } else {
        assert p'[i] == y && p'[i + 1] == ts[y].refs[j];
      }
    }
    assert ReachesAlong(ts, x, ts[y].refs[j], p');
  }

  /** A set of types with all they refer to. */
  ghost predicate Within(ts: seq<BtfType>, s: set<nat>) {
    forall x: nat, j: nat {:trigger WithinAt(ts, s, x, j)} :: WithinAt(ts, s, x, j)
  }

  predicate WithinAt(ts: seq<BtfType>, s: set<nat>, x: nat, j: nat) {
    x in s && x < |ts| && Visits(ts[x], j) ==> ts[x].refs[j] in s
  }

  lemma WithinOn(ts: seq<BtfType>, s: set<nat>, x: nat, j: nat)
    requires Within(ts, s) && x in s && x < |ts| && Visits(ts[x], j)
    ensures ts[x].refs[j] in s
  {
    assert WithinAt(ts, s, x, j);
  }

  ghost function ReachedFrom(ts: seq<BtfType>, x: nat): set<nat> {
    set y: nat | y < |ts| && Reaches(ts, x, y)
  }

  lemma ReachedWithin(ts: seq<BtfType>, rank: seq<nat>, x: nat)
    requires Ranked(ts, rank) && x < |ts|
    ensures Within(ts, ReachedFrom(ts, x)) && x in ReachedFrom(ts, x)
  {
    hide Reaches;
    ReachesSelf(ts, x);
    forall y: nat, j: nat ensures WithinAt(ts, ReachedFrom(ts, x), y, j) {
      if y in ReachedFrom(ts, x) && Visits(ts[y], j) {
        assert RankedAt(ts, rank, y);
        ReachesOn(ts, x, y, j);
      }
    }
  }

  /** A call that came from `from` to `here` turned marks `m` into `m'` and the queue into `q'`.  It
      failed for a reason, or `here` is settled: if `r` is one, as if no pointer led to it. */
  ghost predicate Answer(ts: seq<BtfType>, rank: seq<nat>, m: seq<Mark>, m': seq<Mark>, q': seq<nat>, here: Role, from: Role, r: int) {
    && r <= 1 && |m| == |ts| && Forward(m, m') && here.id < |ts|
    && if r < 0 then Fails(ts, from, r)
       else
         && OrderInv(ts, rank, m', q') && Closes(m, m')
         && Settled(ts, rank, m', here.id, here.weak) && (r > 0 ==> Settled(ts, rank, m', here.id, false))
  }

  lemma AnswerKnown(ts: seq<BtfType>, rank: seq<nat>, m: seq<Mark>, q: seq<nat>, here: Role, from: Role)
    requires OrderInv(ts, rank, m, q) && here.id < |ts| && m[here.id] == Ordered
    ensures Answer(ts, rank, m, m, q, here, from, 1)
  {
  }

  /** A named struct behind a pointer need not be looked at. */
  lemma AnswerWeak(ts: seq<BtfType>, rank: seq<nat>, m: seq<Mark>, q: seq<nat>, here: Role, from: Role)
    requires OrderInv(ts, rank, m, q) && here.id < |ts| && NamedComposite(ts[here.id]) && here.weak
    ensures Answer(ts, rank, m, m, q, here, from, 0)
  {
  }

  /** A type that is being ordered: fine for a named struct behind a pointer, else a loop. */
  lemma AnswerOpen(ts: seq<BtfType>, rank: seq<nat>, m: seq<Mark>, q: seq<nat>, p: seq<Role>, here: Role)
    requires OrderInv(ts, rank, m, q) && Trail(ts, m, p, here) && here.id < |ts| && m[here.id] == Ordering
    ensures Answer(ts, rank, m, m, q, here, p[0],
                   if IsComposite(ts[here.id].kind) && here.weak && ts[here.id].name != 0 then 0 else -ELOOP)
  {
    LoopMet(ts, m, p, here);
  }

  lemma AnswerMarked(ts: seq<BtfType>, rank: seq<nat>, m: seq<Mark>, m': seq<Mark>, q': seq<nat>, here: Role, from: Role, r: int)
    requires |m| == |ts| && here.id < |ts| && Forward(m, m') && Closes(m, m') && OrderInv(ts, rank, m', q')
    requires m'[here.id] == Ordered && (r == 0 || r == 1)
    ensures Answer(ts, rank, m, m', q', here, from, r)
  {
  }

  lemma AnswerUnknown(ts: seq<BtfType>, rank: seq<nat>, m: seq<Mark>, q: seq<nat>, here: Role, from: Role)
    requires OrderInv(ts, rank, m, q) && here.id < |ts| && m[here.id] != Ordered && ts[here.id].kind == UNKN
    ensures Answer(ts, rank, m, m, q, here, from, -EINVAL)
  {
  }

  /** An array or a modifier has the answer of what it refers to. */
  lemma AnswerThrough(ts: seq<BtfType>, rank: seq<nat>, m: seq<Mark>, m': seq<Mark>, q': seq<nat>, here: Role, next: Role, from: Role, r: int)
    requires Ranked(ts, rank) && here.id < |ts| && (ts[here.id].kind == ARRAY || IsModifier(ts[here.id].kind))
    requires RankedAt(ts, rank, here.id) && next == Role(ts[here.id].refs[0], ts[here.id].kind != ARRAY && here.weak)
    requires Answer(ts, rank, m, m', q', next, from, r)
    ensures Answer(ts, rank, m, m', q', here, from, r)
  {
  }

  lemma AnswerShrinks(ts: seq<BtfType>, rank: seq<nat>, m: seq<Mark>, m': seq<Mark>, q': seq<nat>, here: Role, from: Role, r: int)
    requires Answer(ts, rank, m, m', q', here, from, r)
    ensures |m| == |m'| == |ts| && Unentered(ts, m') <= Unentered(ts, m)
  {
    FewerUnentered(ts, m, m');
  }

  /** The first `i` members of the struct being ordered are settled. */
  ghost predicate Members(ts: seq<BtfType>, rank: seq<nat>, m: seq<Mark>, m': seq<Mark>, q: seq<nat>, id: nat, i: nat) {
    && OrderInv(ts, rank, m', q) && |m| == |ts| && id < |ts| && i <= |ts[id].refs|
    && Forward(m, m') && m'[id] == Ordering && Closes(m[id := Ordering], m') && RankedAt(ts, rank, id)
    && forall j :: 0 <= j < i ==> Settled(ts, rank, m', ts[id].refs[j], false)
  }

  lemma NextMember(ts: seq<BtfType>, rank: seq<nat>, m: seq<Mark>, n: seq<Mark>, m': seq<Mark>, q: seq<nat>, q': seq<nat>,
                   id: nat, i: nat, from: Role, r: int)
    requires Members(ts, rank, m, n, q, id, i) && i < |ts[id].refs| && r >= 0
    requires Answer(ts, rank, n, m', q', Role(ts[id].refs[i], false), from, r)
    ensures Members(ts, rank, m, m', q', id, i + 1)
  {
    hide OrderInv;
    assert Ranked(ts, rank) && |n| == |ts| by {
      AnswerRanked(ts, rank, n, m', q', Role(ts[id].refs[i], false), from, r);
    }
    forall j | 0 <= j < i ensures Settled(ts, rank, m', ts[id].refs[j], false) {
      SettledStays(ts, rank, n, m', ts[id].refs[j], false);
    }
  }

  lemma StartMembers(ts: seq<BtfType>, rank: seq<nat>, m: seq<Mark>, q: seq<nat>, id: nat)
    requires |m| == |ts| && id < |ts| && m[id] == NotOrdered && OrderInv(ts, rank, m[id := Ordering], q)
    ensures Members(ts, rank, m, m[id := Ordering], q, id, 0)
  {
    assert RankedAt(ts, rank, id);
  }

  lemma MemberTrail(ts: seq<BtfType>, rank: seq<nat>, m: seq<Mark>, n: seq<Mark>, q: seq<nat>, p: seq<Role>, here: Role, i: nat)
    requires Trail(ts, m, p, here) && Entered(ts, here) && Members(ts, rank, m, n, q, here.id, i) && i < |ts[here.id].refs|
    ensures var next := Role(ts[here.id].refs[i], false);
            next.id < |ts| && Trail(ts, n, p + [next], next) && (p + [next])[0] == p[0]
  {
    assert Visits(ts[here.id], i);
    TrailGrows(ts, m, n, p, here, Role(ts[here.id].refs[i], false));
  }

  lemma FailedMember(ts: seq<BtfType>, rank: seq<nat>, m: seq<Mark>, n: seq<Mark>, m': seq<Mark>, q: seq<nat>, q': seq<nat>,
                     id: nat, weak: bool, i: nat, from: Role, r: int)
    requires Members(ts, rank, m, n, q, id, i) && i < |ts[id].refs| && r < 0
    requires Answer(ts, rank, n, m', q', Role(ts[id].refs[i], false), from, r)
    ensures Answer(ts, rank, m, m', q', Role(id, weak), from, r)
  {
  }

  lemma FinishMembers(ts: seq<BtfType>, rank: seq<nat>, m: seq<Mark>, n: seq<Mark>, q: seq<nat>, id: nat)
    requires id < |ts| == |m| && IsComposite(ts[id].kind) && m[id] == NotOrdered && Members(ts, rank, m, n, q, id, |ts[id].refs|)
    ensures OrderInv(ts, rank, n, q) && CanFinish(ts, rank, n, id) && n[id] == Ordering
    ensures Forward(m, n[id := Ordered]) && Closes(m, n[id := Ordered])
  {
  }

  lemma AnswerRanked(ts: seq<BtfType>, rank: seq<nat>, m: seq<Mark>, m': seq<Mark>, q': seq<nat>, here: Role, from: Role, r: int)
    requires Answer(ts, rank, m, m', q', here, from, r) && r >= 0
    ensures Ranked(ts, rank) && |m| == |ts|
  {
  }

  /** The first `i` types a prototype mentions are settled as behind a pointer. */
  ghost predicate Params(ts: seq<BtfType>, rank: seq<nat>, m: seq<Mark>, m': seq<Mark>, q: seq<nat>, id: nat, i: nat) {
    && OrderInv(ts, rank, m', q) && |m| == |ts| && id < |ts| && i <= |ts[id].refs|
    && Forward(m, m') && Closes(m, m') && RankedAt(ts, rank, id)
    && forall j :: 0 <= j < i ==> Settled(ts, rank, m', ts[id].refs[j], true)
  }

  lemma NextParam(ts: seq<BtfType>, rank: seq<nat>, m: seq<Mark>, n: seq<Mark>, m': seq<Mark>, q: seq<nat>, q': seq<nat>,
                  id: nat, i: nat, weak: bool, from: Role, r: int)
    requires Params(ts, rank, m, n, q, id, i) && i < |ts[id].refs| && r >= 0
    requires Answer(ts, rank, n, m', q', Role(ts[id].refs[i], weak), from, r)
    ensures Params(ts, rank, m, m', q', id, i + 1)
  {
    hide OrderInv;
    AnswerRanked(ts, rank, n, m', q', Role(ts[id].refs[i], weak), from, r);
    if !weak {
      SettledWeakly(ts, rank, m', ts[id].refs[i]);
    }
    forall j | 0 <= j < i ensures Settled(ts, rank, m', ts[id].refs[j], true) {
      SettledStays(ts, rank, n, m', ts[id].refs[j], true);
    }
  }

  lemma StartParams(ts: seq<BtfType>, rank: seq<nat>, m: seq<Mark>, q: seq<nat>, id: nat)
    requires OrderInv(ts, rank, m, q) && id < |ts|
    ensures Params(ts, rank, m, m, q, id, 0)
  {
    assert RankedAt(ts, rank, id);
  }

  lemma ParamTrail(ts: seq<BtfType>, rank: seq<nat>, m: seq<Mark>, n: seq<Mark>, q: seq<nat>, p: seq<Role>, here: Role, i: nat)
    requires here.id < |ts| && ts[here.id].kind == FUNC_PROTO
    requires Trail(ts, m, p, here) && Params(ts, rank, m, n, q, here.id, i) && i < |ts[here.id].refs|
    ensures var next := Role(ts[here.id].refs[i], here.weak);
            next.id < |ts| && Trail(ts, n, p + [next], next) && (p + [next])[0] == p[0]
  {
    assert Visits(ts[here.id], i);
    TrailGrows(ts, m, n, p, here, Role(ts[here.id].refs[i], here.weak));
  }

  lemma FailedParam(ts: seq<BtfType>, rank: seq<nat>, m: seq<Mark>, n: seq<Mark>, m': seq<Mark>, q: seq<nat>, q': seq<nat>,
                    id: nat, weak: bool, i: nat, from: Role, r: int)
    requires Params(ts, rank, m, n, q, id, i) && i < |ts[id].refs| && r < 0
    requires Answer(ts, rank, n, m', q', Role(ts[id].refs[i], weak), from, r)
    ensures Answer(ts, rank, m, m', q', Role(id, weak), from, r)
  {
  }

  lemma AnswerProto(ts: seq<BtfType>, rank: seq<nat>, m: seq<Mark>, m': seq<Mark>, q': seq<nat>, here: Role, from: Role, r: int)
    requires here.id < |ts| && ts[here.id].kind == FUNC_PROTO && (r == 0 || r == 1)
    requires Params(ts, rank, m, m', q', here.id, |ts[here.id].refs|)
    ensures Answer(ts, rank, m, m', q', here, from, r)
  {
  }

  // ----- Reading the invariant -----

  lemma StartOrder(ts: seq<BtfType>, rank: seq<nat>, m: seq<Mark>)
    requires Ranked(ts, rank) && |m| == |ts| && forall x :: 0 <= x < |m| ==> m[x] == if x == 0 then Ordered else NotOrdered
    ensures OrderInv(ts, rank, m, [])
  {
    assert !SelfLoop(ts, 0);
  }

  lemma OrderedIsQueued(ts: seq<BtfType>, rank: seq<nat>, m: seq<Mark>, q: seq<nat>, x: nat)
    requires OrderInv(ts, rank, m, q) && Definition(ts, x)
    requires if ts[x].kind == TYPEDEF then m[x] == Ordered else Settled(ts, rank, m, x, false)
    ensures x in q
  {
    assert NamedQueued(ts, m, q, x);
  }

  lemma QueuedIsDefinition(ts: seq<BtfType>, rank: seq<nat>, m: seq<Mark>, q: seq<nat>, i: nat)
    requires OrderInv(ts, rank, m, q) && i < |q|
    ensures 0 < q[i] < |ts| && Definition(ts, q[i])
  {
    assert QueuedAt(ts, m, q, i);
  }

  lemma NeededEarlier(ts: seq<BtfType>, rank: seq<nat>, m: seq<Mark>, q: seq<nat>, i: nat, y: nat)
    requires OrderInv(ts, rank, m, q) && i < |q| && ComesFirst(ts, q[i], y)
    ensures y < |ts| && Definition(ts, y) && y in q[..i]
    ensures exists k :: 0 <= k < i && q[k] == y
  {
    assert TopoAt(ts, q, i);
    var k :| 0 <= k < |q[..i]| && q[..i][k] == y;
    assert q[k] == y;
  }

  /** Nothing that was queued needs itself: embedding cycles are refused. */
  lemma QueuedNeedsNotItself(ts: seq<BtfType>, rank: seq<nat>, m: seq<Mark>, q: seq<nat>, x: nat)
    requires OrderInv(ts, rank, m, q) && x in q
    ensures !Needs(ts, x, x)
  {
    var i :| 0 <= i < |q| && q[i] == x;
    if Needs(ts, x, x) {
      NeedsComposite(ts, x, x);
      QueuedOnce(ts, q, i);
      NeededEarlier(ts, rank, m, q, i, x);
    }
  }

  lemma QueuedOnce(ts: seq<BtfType>, q: seq<nat>, i: nat)
    requires NoRepeats(ts, q) && i < |q| && q[i] < |ts| && ts[q[i]].kind != TYPEDEF
    ensures forall k :: 0 <= k < i ==> q[k] != q[i]
  {
    forall k | 0 <= k < i ensures q[k] != q[i] {
      assert Apart(ts, q, k, i);
    }
  }
}

/** The dumper: orders the definitions a type depends on, then prints them. */
module Dump {
  import opened BtfTypes
  import opened DumpOrder
  import opened DumpEmit

  /** The dumper of one type section.  Its states persist over calls. */
  class Dumper {
    const types: seq<BtfType>
    const vaList: nat
    const orderMarks: array<Mark>
    const emitMarks: array<EmitMark>
    const fwds: array<bool>
    const referenced: array<bool>
    var lastId: nat
    var queue: seq<nat>
    var out: seq<Event>

    // Why the search ends; everything ever queued; the types fully traversed by the emitter.
    ghost const rank: seq<nat>
    ghost var history: seq<nat>
    ghost var done: set<nat>

    // All the current call may print, and where in the log it has started.
    ghost var asked: set<nat>
    ghost var start: nat

    ghost predicate Layout() {
      && Ranked(types, rank) && 1 < |types|
      && orderMarks.Length == emitMarks.Length == fwds.Length == referenced.Length == |types|
      && fwds != referenced
    }

    ghost function EmitState(): Emit
      reads this, emitMarks, fwds
    {
      Emit(emitMarks[..], fwds[..], done, out)
    }

    /** The types some type refers to, other than as a result, are known. */
    ghost predicate Counted()
      requires Layout()
      reads referenced
    {
      forall x :: 0 <= x < |types| ==> (referenced[x] <==> IsMarked(types, x))
    }

    // ----- Ordering -----

    /** `id` and all it refers to may be printed. */
    ghost predicate Asked(id: nat)
      reads `asked
    {
      Within(types, asked) && id in asked
    }

    lemma AskedOn(id: nat, j: nat)
      requires Asked(id) && id < |types| && Visits(types[id], j)
      ensures Asked(types[id].refs[j])
    {
      WithinOn(types, asked, id, j);
    }

    /** Puts what `id` needs into the queue, and `id` itself if it is a definition.  One: what refers
        to `id` may be defined now; zero: it is enough to declare what `id` leads to. */
    method OrderType(id: nat, throughPtr: bool, ghost path: seq<Role>) returns (r: int)
      requires Layout() && Counted() && id < |types| && Asked(id) && OrderInv(types, rank, orderMarks[..], history)
      requires Trail(types, orderMarks[..], path, Role(id, throughPtr))
      modifies orderMarks, `queue, `history
      ensures Answer(types, rank, old(orderMarks[..]), orderMarks[..], history, Role(id, throughPtr), path[0], r)
      ensures r >= 0 && !throughPtr && types[id].kind == TYPEDEF ==> orderMarks[id] == Ordered
      ensures Pushed(old(history), old(queue), history, queue, asked)
      decreases Unentered(types, orderMarks[..]), rank[id], 1
    {
      ghost var m, here, from := orderMarks[..], Role(id, throughPtr), path[0];
      hide Definition, IsMarked, OrderInv, Trail, Answer, Forward, Closes, Settled, Pushed, Asked, CanFinish;
      NothingPushed(history, queue, asked);
      assert RankedAt(types, rank, id);
      if orderMarks[id] == Ordered {
        AnswerKnown(types, rank, m, history, here, from);
        return 1;
      }
      var t := types[id];
      if orderMarks[id] == Ordering {
        AnswerOpen(types, rank, m, history, path, here);
        return if IsComposite(t.kind) && throughPtr && t.name != 0 then 0 else -ELOOP;
      }
      match t.kind
      case INT | FLOAT =>
        FinishLeaf(id, false, here, from, 0);
        r := 0;
      case PTR =>
        r := OrderPointer(id, throughPtr, path);
      case ARRAY =>
        TrailFollows(types, rank, m, path, here, false);
        AskedOn(id, 0);
        r := OrderType(t.refs[0], false, path + [Role(t.refs[0], false)]);
        AnswerThrough(types, rank, m, orderMarks[..], history, here, Role(t.refs[0], false), from, r);
      case STRUCT | UNION =>
        if throughPtr && t.name != 0 {
          AnswerWeak(types, rank, m, history, here, from);
          return 0;
        }
        r := OrderComposite(id, throughPtr, Unentered(types, orderMarks[..]), path);
      case ENUM | ENUM64 | FWD =>
        FinishLeaf(id, t.name != 0 || !referenced[id], here, from, 1);
        r := 1;
      case TYPEDEF =>
        r := OrderTypedef(id, throughPtr, path);
      case VOLATILE | CONST | RESTRICT | TYPE_TAG =>
        TrailFollows(types, rank, m, path, here, throughPtr);
        AskedOn(id, 0);
        r := OrderType(t.refs[0], throughPtr, path + [Role(t.refs[0], throughPtr)]);
        AnswerThrough(types, rank, m, orderMarks[..], history, here, Role(t.refs[0], throughPtr), from, r);
      case FUNC_PROTO =>
        r := OrderProto(id, throughPtr, path);
      case FUNC | VAR | DATASEC | DECL_TAG =>
        FinishLeaf(id, false, here, from, 0);
        r := 0;
      case _ =>
        r := -EINVAL;
        AnswerUnknown(types, rank, m, history, here, from);
    }

    /** A type that nothing has to precede. */
    method FinishLeaf(id: nat, push: bool, ghost here: Role, ghost from: Role, ghost r: int)
      requires Layout() && id < |types| && here.id == id && Asked(id) && OrderInv(types, rank, orderMarks[..], history)
      requires types[id].kind in {INT, FLOAT, ENUM, ENUM64, FWD, FUNC, VAR, DATASEC, DECL_TAG}
      requires orderMarks[id] == NotOrdered && (r == 0 || r == 1)
      requires if push then 0 < id && Definition(types, id) else !Definition(types, id)
      modifies orderMarks, `queue, `history
      ensures Answer(types, rank, old(orderMarks[..]), orderMarks[..], history, here, from, r)
      ensures Pushed(old(history), old(queue), history, queue, asked)
    {
      hide Definition, OrderInv, Answer, Forward, Closes, Pushed, Asked;
      ghost var m := orderMarks[..];
      Finish(id, push);
      AnswerMarked(types, rank, m, orderMarks[..], history, here, from, r);
    }

    /** Marks a type as ordered and, if it is a definition to be printed, queues it. */
    method Finish(id: nat, push: bool)
      requires Layout() && id < |types| && OrderInv(types, rank, orderMarks[..], history)
      requires orderMarks[id] == Ordered || CanFinish(types, rank, orderMarks[..], id)
      requires orderMarks[id] == Ordered && push ==> types[id].kind == TYPEDEF
      requires push ==> Asked(id)
      requires if push then 0 < id && Definition(types, id) else orderMarks[id] == Ordered || !Definition(types, id)
      modifies orderMarks, `queue, `history
      ensures orderMarks[..] == old(orderMarks[..])[id := Ordered]
      ensures Closes(old(orderMarks[..]), orderMarks[..])
      ensures old(orderMarks[id]) == NotOrdered ==> Forward(old(orderMarks[..]), orderMarks[..])
      ensures Pushed(old(history), old(queue), history, queue, asked) && history == old(history) + if push then [id] else []
      ensures OrderInv(types, rank, orderMarks[..], history)
    {
      hide Definition, AllDone, AllQueued, QueueOk, NoRepeats, Topological, AllLoopFree, Trail, LoopsFrom;
      ghost var m, q := orderMarks[..], history;
      NothingPushed(history, queue, asked);
      if push {
        OnePushed(history, queue, id, asked);
        queue := queue + [id];
        history := history + [id];
      }
      orderMarks[id] := Ordered;
      assert orderMarks[..] == m[id := Ordered];
      if m[id] != Ordered {
        FinishKeeps(types, rank, m, q, id, history);
      } else {
        assert orderMarks[..] == m;
        if push {
          PushKnownTypedef(types, rank, m, q, id);
        }
      }
    }

    /** A struct or union, named or not: all members first. */
    method OrderComposite(id: nat, ghost weak: bool, ghost before: set<nat>, ghost path: seq<Role>) returns (r: int)
      requires Layout() && Counted() && id < |types| && Asked(id) && OrderInv(types, rank, orderMarks[..], history)
      requires Trail(types, orderMarks[..], path, Role(id, weak)) && Entered(types, Role(id, weak))
      requires IsComposite(types[id].kind) && orderMarks[id] == NotOrdered && before == Unentered(types, orderMarks[..])
      modifies orderMarks, `queue, `history
      ensures Answer(types, rank, old(orderMarks[..]), orderMarks[..], history, Role(id, weak), path[0], r)
      ensures Pushed(old(history), old(queue), history, queue, asked)
      decreases before, rank[id], 0
    {
      ghost var m, from := orderMarks[..], path[0];
      hide OrderInv, Trail, LoopsFrom, Settled, Members, Answer, Forward, Closes, Pushed, Asked;
      NothingPushed(history, queue, asked);
      EnterKeeps(types, rank, m, history, id);
      orderMarks[id] := Ordering;
      assert orderMarks[..] == m[id := Ordering];
      assert id in before && id !in Unentered(types, orderMarks[..]);
      assert Unentered(types, orderMarks[..]) <= before;
      StartMembers(types, rank, m, history, id);
      var refs, i := types[id].refs, 0;
      while i < |refs|
        invariant Members(types, rank, m, orderMarks[..], history, id, i) && i <= |refs|
        invariant Unentered(types, orderMarks[..]) < before
        invariant Pushed(old(history), old(queue), history, queue, asked)
      {
        ghost var n, q, qs, next := orderMarks[..], history, queue, Role(refs[i], false);
        MemberTrail(types, rank, m, n, q, path, Role(id, weak), i);
        AskedOn(id, i);
        var err := OrderType(refs[i], false, path + [next]);
        PushedTrans(old(history), old(queue), q, qs, history, queue, asked);
        AnswerShrinks(types, rank, n, orderMarks[..], history, next, from, err);
        if err < 0 {
          FailedMember(types, rank, m, n, orderMarks[..], q, history, id, weak, i, from, err);
          return err;
        }
        NextMember(types, rank, m, n, orderMarks[..], q, history, id, i, from, err);
        i := i + 1;
      }
      FinishMembers(types, rank, m, orderMarks[..], history, id);
      ghost var q, qs := history, queue;
      Finish(id, types[id].name != 0);
      PushedTrans(old(history), old(queue), q, qs, history, queue, asked);
      r := 1;
      AnswerMarked(types, rank, m, orderMarks[..], history, Role(id, weak), from, r);
    }

    /** A pointer: marked even if the call fails. */
    method OrderPointer(id: nat, ghost weak: bool, ghost path: seq<Role>) returns (r: int)
      requires Layout() && Counted() && id < |types| && Asked(id) && OrderInv(types, rank, orderMarks[..], history)
      requires types[id].kind == PTR && orderMarks[id] == NotOrdered
      requires Trail(types, orderMarks[..], path, Role(id, weak))
      modifies orderMarks, `queue, `history
      ensures Answer(types, rank, old(orderMarks[..]), orderMarks[..], history, Role(id, weak), path[0], r)
      ensures Pushed(old(history), old(queue), history, queue, asked)
      decreases Unentered(types, orderMarks[..]), rank[id], 0
    {
      hide AllDone, AllQueued, QueueOk, NoRepeats, Topological, AllLoopFree, Trail, LoopsFrom, Pushed, Asked;
      assert RankedAt(types, rank, id);
      ghost var m := orderMarks[..];
      TrailFollows(types, rank, m, path, Role(id, weak), true);
      AskedOn(id, 0);
      r := OrderType(types[id].refs[0], true, path + [Role(types[id].refs[0], true)]);
      if r >= 0 {
        ghost var q, qs := history, queue;
        Finish(id, false);
        PushedTrans(old(history), old(queue), q, qs, history, queue, asked);
      } else {
        orderMarks[id] := Ordered;
      }
    }

    /** A typedef is queued unless its target may stay incomplete here. */
    method OrderTypedef(id: nat, throughPtr: bool, ghost path: seq<Role>) returns (r: int)
      requires Layout() && Counted() && id < |types| && Asked(id) && OrderInv(types, rank, orderMarks[..], history)
      requires Trail(types, orderMarks[..], path, Role(id, throughPtr))
      requires types[id].kind == TYPEDEF && orderMarks[id] == NotOrdered
      modifies orderMarks, `queue, `history
      ensures r >= 0 && !throughPtr ==> orderMarks[id] == Ordered
      ensures Answer(types, rank, old(orderMarks[..]), orderMarks[..], history, Role(id, throughPtr), path[0], r)
      ensures Pushed(old(history), old(queue), history, queue, asked)
      decreases Unentered(types, orderMarks[..]), rank[id], 0
    {
      hide AllDone, AllQueued, QueueOk, NoRepeats, Topological, AllLoopFree, Trail, LoopsFrom, Pushed, Asked;
      assert RankedAt(types, rank, id);
      ghost var m, next := orderMarks[..], Role(types[id].refs[0], throughPtr);
      TrailGrows(types, m, m, path, Role(id, throughPtr), next);
      AskedOn(id, 0);
      var isStrong := OrderType(types[id].refs[0], throughPtr, path + [next]);
      if isStrong < 0 {
        return isStrong;
      }
      if throughPtr && isStrong == 0 {
        return 0;
      }
      ghost var q, qs := history, queue;
      Finish(id, true);
      PushedTrans(old(history), old(queue), q, qs, history, queue, asked);
      r := 1;
    }

    /** A prototype: the result, then the parameters. */
    method OrderProto(id: nat, throughPtr: bool, ghost path: seq<Role>) returns (r: int)
      requires Layout() && Counted() && id < |types| && Asked(id) && OrderInv(types, rank, orderMarks[..], history)
      requires Trail(types, orderMarks[..], path, Role(id, throughPtr))
      requires types[id].kind == FUNC_PROTO && orderMarks[id] == NotOrdered
      modifies orderMarks, `queue, `history
      ensures Answer(types, rank, old(orderMarks[..]), orderMarks[..], history, Role(id, throughPtr), path[0], r)
      ensures Pushed(old(history), old(queue), history, queue, asked)
      decreases Unentered(types, orderMarks[..]), rank[id], 0
    {
      ghost var m, here, from := orderMarks[..], Role(id, throughPtr), path[0];
      hide OrderInv, Trail, LoopsFrom, Settled, Params, Pushed, Asked;
      assert RankedAt(types, rank, id);
      StartParams(types, rank, m, history, id);
      var refs := types[id].refs;
      ghost var q := history;
      TrailGrows(types, m, m, path, here, Role(refs[0], throughPtr));
      AskedOn(id, 0);
      var err := OrderType(refs[0], throughPtr, path + [Role(refs[0], throughPtr)]);
      if err < 0 {
        return err;
      }
      FewerUnentered(types, m, orderMarks[..]);
      NextParam(types, rank, m, m, orderMarks[..], q, history, id, 0, throughPtr, from, err);
      var isStrong, i := err > 0, 1;
      while i < |refs|
        invariant 1 <= i <= |refs| && Params(types, rank, m, orderMarks[..], history, id, i)
        invariant Unentered(types, orderMarks[..]) <= Unentered(types, m)
        invariant Pushed(old(history), old(queue), history, queue, asked)
      {
        ghost var n, qs := orderMarks[..], queue;
        q := history;
        ParamTrail(types, rank, m, n, q, path, here, i);
        AskedOn(id, i);
        err := OrderType(refs[i], throughPtr, path + [Role(refs[i], throughPtr)]);
        FewerUnentered(types, n, orderMarks[..]);
        PushedTrans(old(history), old(queue), q, qs, history, queue, asked);
        if err < 0 {
          FailedParam(types, rank, m, n, orderMarks[..], q, history, id, throughPtr, i, from, err);
          return err;
        }
        NextParam(types, rank, m, n, orderMarks[..], q, history, id, i, throughPtr, from, err);
        if err > 0 {
          isStrong := true;
        }
        i := i + 1;
      }
      r := if isStrong then 1 else 0;
      AnswerProto(types, rank, m, orderMarks[..], history, here, from, r);
    }

    // ----- Emission -----

    ghost predicate Printing()
      reads this, emitMarks, fwds
    {
      Layout() && EmitInv(types, vaList, rank, EmitState()) && LogInv(types, vaList, out) && OnlyAsked()
    }

    /** The current call has printed nothing but what it was asked for and what that refers to. */
    ghost predicate OnlyAsked()
      reads `asked, `start, `out
    {
      start <= |out| && forall i :: start <= i < |out| ==> out[i].id in asked
    }

    /** Sets the state of one type and prints at most one declaration of it. */
    method Step(id: nat, mark: EmitMark, fwd: bool, ghost fin: bool, evs: seq<Event>)
      requires Printing() && id < |types| && id in asked
      requires StepOk(types, vaList, rank, EmitState(), id, mark, fwd, fin, evs)
      modifies emitMarks, fwds, `out, `done
      ensures EmitState() == Set(old(EmitState()), id, mark, fwd, fin, evs)
      ensures Printing() && StepOf(old(EmitState()), EmitState(), id)
    {
      hide EmitInv, WellScoped, WellFounded, StepOk;
      ghost var e := EmitState();
      emitMarks[id] := mark;
      fwds[id] := fwd;
      out := out + evs;
      done := if fin then done + {id} else done;
      assert EmitState() == Set(e, id, mark, fwd, fin, evs);
      TakenStep(types, vaList, rank, e, id, mark, fwd, fin, evs);
    }

    /** Prints what has to be declared before `id` can be used inside the definition of `cont`, or
        with no container the definition of `id` itself. */
    method EmitType(id: nat, cont: nat)
      requires Printing() && id < |types| && Asked(id) && cont < |types|
      requires cont != 0 ==> emitMarks[cont] == Emitting
      requires if cont == 0 then AtTop(id) else Ready(types, emitMarks[..], id)
      modifies emitMarks, fwds, `out, `done
      ensures Printing() && Later(old(EmitState()), EmitState()) && Sat(types, EmitState(), id)
      ensures cont == 0 ==> emitMarks[id] == Emitted
      decreases Fresh(types, EmitState()), rank[id], 2
    {
      hide EmitInv, WellScoped, WellFounded, StepOk, Ready, Definition, StandsAlone, Needs;
      if cont != 0 {
        ReadyOn(types, emitMarks[..], id);
      } else {
        DefinitionKinds(types, id);
      }
      ghost var e := EmitState();
      assert RankedAt(types, rank, id);
      AsMarked(types, vaList, rank, e, id);
      if emitMarks[id] == Emitted {
        return;
      }
      var t := types[id];
      if emitMarks[id] == Emitting {
        EmitAgain(id, cont);
        return;
      }
      match t.kind
      case INT =>
        LeafStep(types, vaList, rank, e, id, []);
        Step(id, Emitted, fwds[id], false, []);
        LaterStep(e, EmitState(), id);
      case ENUM | ENUM64 =>
        var evs := if cont == 0 then [EnumDef(id)] else [];
        LeafStep(types, vaList, rank, e, id, evs);
        Step(id, Emitted, fwds[id], false, evs);
        LaterStep(e, EmitState(), id);
      case PTR | VOLATILE | CONST | RESTRICT | TYPE_TAG | ARRAY =>
        AskedOn(id, 0);
        EmitType(t.refs[0], cont);
        EmitLooked(id, e);
      case FWD =>
        LeafStep(types, vaList, rank, e, id, [FwdDecl(id)]);
        Step(id, Emitted, fwds[id], false, [FwdDecl(id)]);
        LaterStep(e, EmitState(), id);
      case TYPEDEF =>
        EmitTypedef(id, Fresh(types, e));
      case STRUCT | UNION =>
        EmitStruct(id, cont, Fresh(types, e));
      case FUNC_PROTO =>
        EmitProto(id, cont);
      case _ =>
    }

    /** Nothing is in progress, and everything a struct to be defined needs has been. */
    ghost predicate AtTop(id: nat)
      requires Layout() && id < |types|
      reads this, emitMarks
    {
      && id > 0 && Definition(types, id) && ReadyRefs(types, emitMarks[..], id) && (forall c :: 0 <= c < |types| ==> emitMarks[c] != Emitting)
      && (forall y: nat :: Needs(types, id, y) ==> StructDef(y) in out)
    }

    /** A type met again while it is being dealt with. */
    method EmitAgain(id: nat, cont: nat)
      requires Printing() && id < |types| && Asked(id) && cont < |types| && emitMarks[id] == Emitting
      modifies emitMarks, fwds, `out, `done
      ensures Printing() && Later(old(EmitState()), EmitState()) && emitMarks[id] == Emitting
    {
      hide EmitInv, WellScoped, WellFounded, StepOk;
      ghost var e := EmitState();
      if fwds[id] {
        return;
      }
      var t := types[id];
      match t.kind
      case STRUCT | UNION =>
        if id == cont || t.name == 0 {
          return;
        }
        FwdStep(types, vaList, rank, e, id);
        Step(id, Emitting, true, false, [StructFwd(id)]);
        LaterStep(e, EmitState(), id);
      case TYPEDEF =>
        var evs := if IsVaList(t, vaList) then [] else [TypedefDef(id)];
        EarlyTypedefStep(types, vaList, rank, e, id);
        Step(id, Emitting, true, false, evs);
        LaterStep(e, EmitState(), id);
      case _ =>
    }

    /** Records that the references of a pointer, array, modifier or prototype are dealt with. */
    ghost method EmitLooked(id: nat, e: Emit)
      requires Printing() && id < |types| && LooksThrough(types[id]) && types[id].kind != TYPEDEF && !IsComposite(types[id].kind)
      requires Later(e, EmitState()) && RankedAt(types, rank, id)
      requires forall i :: 0 <= i < |types[id].refs| && Visits(types[id], i) ==> Sat(types, EmitState(), types[id].refs[i])
      modifies `done
      ensures Printing() && Later(e, EmitState()) && Sat(types, EmitState(), id)
    {
      hide EmitInv, WellScoped, WellFounded, StepOk;
      var e1 := EmitState();
      LookedStep(types, vaList, rank, e1, id);
      done := done + {id};
      assert EmitState() == Set(e1, id, NotEmitted, fwds[id], true, []);
      SetIsStep(e1, id, NotEmitted, fwds[id], true, []);
      TakenStep(types, vaList, rank, e1, id, NotEmitted, fwds[id], true, []);
      LaterStep(e1, EmitState(), id);
      LaterTrans(e, e1, EmitState());
    }

    /** A typedef: what it names, then its definition unless that was needed earlier. */
    method EmitTypedef(id: nat, ghost before: set<nat>)
      requires Printing() && id < |types| && Asked(id) && types[id].kind == TYPEDEF && emitMarks[id] == NotEmitted
      requires ReadyRefs(types, emitMarks[..], id)
      requires before == Fresh(types, EmitState())
      modifies emitMarks, fwds, `out, `done
      ensures Printing() && Later(old(EmitState()), EmitState()) && Sat(types, EmitState(), id)
      ensures emitMarks[id] == Emitted
      decreases before, rank[id], 0
    {
      hide EmitInv, WellScoped, WellFounded, StepOk, Ready;
      ghost var e := EmitState();
      assert RankedAt(types, rank, id);
      EnterStep(types, vaList, rank, e, id);
      Step(id, Emitting, fwds[id], false, []);
      ghost var e1 := EmitState();
      assert e1.marks[id] == Emitting && id in before && id !in Fresh(types, e1);
      EnteredFresh(types, e, id);
      ReadyStays(types, e.marks, e1.marks, id);
      AskedOn(id, 0);
      EmitType(types[id].refs[0], id);
      ghost var e2 := EmitState();
      assert LaterAt(e1.marks, e2.marks, id);
      var evs := if fwds[id] || IsVaList(types[id], vaList) then [] else [TypedefDef(id)];
      LeaveTypedefStep(types, vaList, rank, e2, id);
      Step(id, Emitted, fwds[id], true, evs);
      LaterAround(e, e1, e2, EmitState(), id);
    }

    /** A struct or union: its definition at the top, its members where it is spelled out, and a
        forward declaration anywhere else. */
    method EmitStruct(id: nat, cont: nat, ghost before: set<nat>)
      requires Printing() && id < |types| && Asked(id) && cont < |types| && IsComposite(types[id].kind) && emitMarks[id] == NotEmitted
      requires cont != 0 ==> emitMarks[cont] == Emitting
      requires cont == 0 ==> AtTop(id)
      requires cont == 0 || types[id].name == 0 ==> ReadyRefs(types, emitMarks[..], id)
      requires before == Fresh(types, EmitState())
      modifies emitMarks, fwds, `out, `done
      ensures Printing() && Later(old(EmitState()), EmitState()) && Sat(types, EmitState(), id)
      ensures cont == 0 ==> emitMarks[id] == Emitted
      decreases before, rank[id], 1
    {
      hide EmitInv, WellScoped, WellFounded, StepOk, Ready, StandsAlone, Needs, Visits;
      if cont == 0 {
        DefinitionKinds(types, id);
      }
      ghost var e := EmitState();
      assert RankedAt(types, rank, id);
      EnterStep(types, vaList, rank, e, id);
      Step(id, Emitting, fwds[id], false, []);
      ghost var e1 := EmitState();
      assert id in before;
      EnteredFresh(types, e, id);
      var t := types[id];
      if cont == 0 || t.name == 0 {
        ReadyStays(types, e.marks, e1.marks, id);
        EmitMembers(id, if t.name == 0 then cont else id, before);
      } else if !fwds[id] && id != cont {
        FwdStep(types, vaList, rank, e1, id);
        Step(id, Emitting, true, false, [StructFwd(id)]);
        LaterStep(e1, EmitState(), id);
      }
      ghost var e2 := EmitState();
      assert LaterAt(e1.marks, e2.marks, id) && (e1.fwds[id] ==> e2.fwds[id]);
      if cont == 0 {
        forall d | 0 <= d < |types| && e2.marks[d] == Emitting ensures d == id {
          assert LaterAt(e1.marks, e2.marks, d);
        }
        DefStep(types, vaList, rank, e2, id);
        Step(id, Emitted, fwds[id], false, [StructDef(id)]);
      } else if t.name == 0 {
        LeaveAnonymousStep(types, vaList, rank, e2, id);
        Step(id, NotEmitted, fwds[id], true, []);
      } else {
        LeaveDeclaredStep(types, vaList, rank, e2, id);
        Step(id, NotEmitted, fwds[id], false, []);
      }
      LaterAround(e, e1, e2, EmitState(), id);
    }

    method EmitMembers(id: nat, cont: nat, ghost before: set<nat>)
      requires Printing() && id < |types| && Asked(id) && 0 < cont < |types| && emitMarks[cont] == Emitting
      requires Fresh(types, EmitState()) < before && RankedAt(types, rank, id)
      requires IsComposite(types[id].kind) && ReadyRefs(types, emitMarks[..], id)
      modifies emitMarks, fwds, `out, `done
      ensures Printing() && Later(old(EmitState()), EmitState())
      ensures forall j :: 0 <= j < |types[id].refs| ==> Sat(types, EmitState(), types[id].refs[j])
      decreases before, rank[id], 0
    {
      hide EmitInv, LogInv, Later, Sat, Fresh, Ready;
      ghost var e := EmitState();
      LaterSelf(e);
      var refs, i := types[id].refs, 0;
      while i < |refs|
        invariant 0 <= i <= |refs| && Printing() && Later(e, EmitState())
        invariant Fresh(types, EmitState()) <= Fresh(types, e)
        invariant forall j :: 0 <= j < i ==> Sat(types, EmitState(), refs[j])
      {
        ghost var e1 := EmitState();
        LaterMark(e, e1, cont);
        LaterEmitted(e, e1);
        ReadyStays(types, e.marks, e1.marks, id);
        AskedOn(id, i);
        EmitType(refs[i], cont);
        FewerFresh(types, e1, EmitState());
        LaterTrans(e, e1, EmitState());
        forall j | 0 <= j < i ensures Sat(types, EmitState(), refs[j]) {
          SatStays(types, e1, EmitState(), refs[j]);
        }
        i := i + 1;
      }
    }

    /** A prototype: the result, then the parameters. */
    method EmitProto(id: nat, cont: nat)
      requires Printing() && id < |types| && Asked(id) && types[id].kind == FUNC_PROTO
      requires 0 < cont < |types| && emitMarks[cont] == Emitting && ReadyRefs(types, emitMarks[..], id)
      modifies emitMarks, fwds, `out, `done
      ensures Printing() && Later(old(EmitState()), EmitState()) && Sat(types, EmitState(), id)
      decreases Fresh(types, EmitState()), rank[id], 0
    {
      hide EmitInv, LogInv, Later, Sat, Fresh, Ready;
      ghost var e := EmitState();
      LaterSelf(e);
      assert RankedAt(types, rank, id);
      var refs, i := types[id].refs, 0;
      while i < |refs|
        invariant 0 <= i <= |refs| && Printing() && Later(e, EmitState())
        invariant Fresh(types, EmitState()) <= Fresh(types, e)
        invariant forall j :: 0 <= j < i ==> Sat(types, EmitState(), refs[j])
      {
        ghost var e1 := EmitState();
        LaterMark(e, e1, cont);
        LaterEmitted(e, e1);
        ReadyStays(types, e.marks, e1.marks, id);
        AskedOn(id, i);
        EmitType(refs[i], cont);
        FewerFresh(types, e1, EmitState());
        LaterTrans(e, e1, EmitState());
        forall j | 0 <= j < i ensures Sat(types, EmitState(), refs[j]) {
          SatStays(types, e1, EmitState(), refs[j]);
        }
        i := i + 1;
      }
      EmitLooked(id, e);
    }

    // ----- The public calls -----

    /** A dumper that has not looked at the types yet. */
    constructor (types: seq<BtfType>, vaList: nat, ghost rank: seq<nat>)
      requires Ranked(types, rank) && 1 < |types|
      ensures Layout() && this.types == types && this.vaList == vaList && this.rank == rank
      ensures lastId == 0 && queue == [] && out == [] && history == [] && done == {} && asked == {} && start == 0
      ensures forall x :: 0 <= x < |types| ==> orderMarks[x] == NotOrdered && emitMarks[x] == NotEmitted && !fwds[x] && !referenced[x]
      ensures fresh(orderMarks) && fresh(emitMarks) && fresh(fwds) && fresh(referenced)
    {
      this.types, this.vaList, this.rank := types, vaList, rank;
      lastId, queue, out, history, done, asked, start := 0, [], [], [], {}, {}, 0;
      orderMarks := new Mark[|types|](_ => NotOrdered);
      emitMarks := new EmitMark[|types|](_ => NotEmitted);
      fwds := new bool[|types|](_ => false);
      referenced := new bool[|types|](_ => false);
    }

    /** Every call so far succeeded: both states are sound, all that was queued has been printed, and
        nothing is in progress. */
    ghost predicate Valid()
      reads this, orderMarks, emitMarks, fwds, referenced
    {
      && Printing() && lastId == |types| - 1
      && OrderInv(types, rank, orderMarks[..], history) && !HasUnknown(types)
      && (forall x :: 0 <= x < |types| ==> orderMarks[x] != Ordering && emitMarks[x] != Emitting)
      && (forall i :: 0 <= i < |history| ==> PrintedAt(types, emitMarks[..], history, i))
      && Counted()
    }

    /** Marks every type some type refers to other than as a prototype's result. */
    method MarkReferenced() returns (r: int)
      requires Layout() && lastId == 0 && forall x :: 0 <= x < |types| ==> !referenced[x]
      modifies referenced
      ensures r == if exists i :: 0 < i < |types| && types[i].kind == UNKN then -EINVAL else 0
      ensures r == 0 ==> forall x :: 0 <= x < |types| ==> (referenced[x] <==> IsMarked(types, x))
    {
      var i := 1;
      while i < |types|
        invariant 1 <= i <= |types|
        invariant forall k :: 0 < k < i ==> types[k].kind != UNKN
        invariant forall x :: 0 <= x < |types| ==> (referenced[x] <==> MarkedBy(types, x, i))
      {
        if types[i].kind == UNKN {
          return -EINVAL;
        }
        assert RankedAt(types, rank, i);
        var refs, j := MarkedRefs(types[i]), 0;
        while j < |refs|
          invariant 0 <= j <= |refs|
          invariant forall x :: 0 <= x < |types| ==> (referenced[x] <==> MarkedBy(types, x, i) || x in refs[..j])
        {
          referenced[refs[j]] := true;
          assert refs[..j + 1] == refs[..j] + [refs[j]];
          j := j + 1;
        }
        assert refs[..j] == refs;
        forall x | 0 <= x < |types| ensures referenced[x] <==> MarkedBy(types, x, i + 1) {
          MoreMarked(types, x, i);
        }
        i := i + 1;
      }
      r := 0;
    }

    /** As constructed. */
    ghost predicate Blank()
      reads this, orderMarks, emitMarks, fwds, referenced
    {
      && Layout() && lastId == 0 && queue == [] && out == [] && history == [] && done == {} && start == 0
      && forall x :: 0 <= x < |types| ==> orderMarks[x] == NotOrdered && emitMarks[x] == NotEmitted && !fwds[x] && !referenced[x]
    }

    /** Void needs no definition; a type of no known kind is refused. */
    method Resize() returns (r: int)
      requires Blank() || Valid()
      modifies orderMarks, emitMarks, referenced, `lastId
      ensures r == 0 ==> Valid()
      ensures old(lastId) != 0 ==> r == 0 && unchanged(this, orderMarks, emitMarks, fwds, referenced)
      ensures old(lastId) == 0 ==> r == if exists i :: 0 < i < |types| && types[i].kind == UNKN then -EINVAL else 0
    {
      if |types| - 1 <= lastId {
        return 0;
      }
      if lastId == 0 {
        orderMarks[0] := Ordered;
        emitMarks[0] := Emitted;
      }
      r := MarkReferenced();
      if r != 0 {
        return;
      }
      lastId := |types| - 1;
      StartOrder(types, rank, orderMarks[..]);
      StartEmit(types, vaList, rank, EmitState());
    }

    /** Prints the definition of `id` and of everything needed for it that has not been printed yet. */
    method DumpType(id: nat) returns (r: int)
      requires Valid()
      modifies this, orderMarks, emitMarks, fwds, referenced
      ensures id >= |types| ==> r == -EINVAL && Valid() && out == old(out)
      ensures id < |types| ==> r == 0 || r == -ELOOP
      ensures r == 0 ==> Valid() && old(out) <= out && id < |types| && !LoopsFrom(types, false, Role(id, false))
      ensures r == -ELOOP ==> LoopsFrom(types, true, Role(id, false)) && out == old(out)
      ensures r == 0 ==> forall i :: |old(out)| <= i < |out| ==> Reaches(types, id, out[i].id)
      ensures id < |types| && ProtosBehindPointers(types) && types[id].kind != FUNC_PROTO ==>
                (r == 0 <==> !LoopsFrom(types, false, Role(id, false)))
      ensures r == 0 && NamedComposite(types[id]) ==> StructDef(id) in out && !Needs(types, id, id)
      ensures r == 0 && types[id].kind == TYPEDEF && !IsVaList(types[id], vaList) ==> TypedefDef(id) in out
      ensures r == 0 && IsAnyEnum(types[id].kind) && (types[id].name != 0 || !IsMarked(types, id)) ==> EnumDef(id) in out
      ensures r == 0 && types[id].kind == FWD && (types[id].name != 0 || !IsMarked(types, id)) ==> FwdDecl(id) in out
    {
      hide EmitInv, LogInv, OrderInv, IsMarked, LoopsFrom, ProtosBehindPointers, Needs, Settled, Definition, StandsAlone, Reaches,
        Within, ReachedFrom, Pushed, PrintedAt;
      if id >= |types| {
        return -EINVAL;
      }
      r := Resize();
      if r != 0 {
        return r;
      }
      ghost var before := history;
      r := BuildQueue(id);
      if r < 0 {
        return r;
      }
      EmitQueue(before);
      r := 0;
      OnlyReached(id);
      AskedIsPrinted(types, vaList, rank, orderMarks[..], history, EmitState(), id);
    }

    /** The queue of what `id` needs and what has not been queued by an earlier call, all of it reached from `id`. */
    method BuildQueue(id: nat) returns (r: int)
      requires Valid() && id < |types|
      modifies orderMarks, `queue, `history, `asked, `start
      ensures r <= 1 && (r < 0 ==> r == -ELOOP && LoopsFrom(types, true, Role(id, false)))
      ensures asked == ReachedFrom(types, id) && Within(types, asked) && start == |out| && Printing()
      ensures r >= 0 ==>
                && !LoopsFrom(types, false, Role(id, false)) && OrderInv(types, rank, orderMarks[..], history)
                && Settled(types, rank, orderMarks[..], id, false) && (types[id].kind == TYPEDEF ==> orderMarks[id] == Ordered)
                && Pushed(old(history), [], history, queue, asked)
                && forall x :: 0 <= x < |types| ==> orderMarks[x] != Ordering
      ensures ProtosBehindPointers(types) && types[id].kind != FUNC_PROTO ==>
                (r >= 0 <==> !LoopsFrom(types, false, Role(id, false)))
    {
      hide EmitInv, LogInv, OrderInv, LoopsFrom, ProtosBehindPointers, Settled, Reaches, Within, Pushed, PrintedAt, Trail;
      queue := [];
      asked, start := ReachedFrom(types, id), |out|;
      ReachedWithin(types, rank, id);
      if ProtosBehindPointers(types) && types[id].kind != FUNC_PROTO {
        ReadingsAgree(types, Role(id, false));
      }
      StartTrail(types, orderMarks[..], Role(id, false));
      r := OrderType(id, false, [Role(id, false)]);
      if r >= 0 {
        SettledNoLoop(types, rank, orderMarks[..], history, Role(id, false));
      }
    }

    lemma OnlyReached(id: nat)
      requires OnlyAsked() && asked == ReachedFrom(types, id)
      ensures forall i :: start <= i < |out| ==> Reaches(types, id, out[i].id)
    {
      hide Reaches;
    }

    method EmitQueue(ghost before: seq<nat>)
      requires Printing() && lastId == |types| - 1 && OrderInv(types, rank, orderMarks[..], history)
      requires Pushed(before, [], history, queue, asked) && Within(types, asked)
      requires forall x :: 0 <= x < |types| ==> emitMarks[x] != Emitting
      requires forall i :: 0 <= i < |before| ==> PrintedAt(types, emitMarks[..], before, i)
      modifies emitMarks, fwds, `out, `done
      ensures Printing() && old(out) <= out
      ensures forall x :: 0 <= x < |types| ==> emitMarks[x] != Emitting
      ensures forall i :: 0 <= i < |history| ==> PrintedAt(types, emitMarks[..], history, i)
    {
      hide EmitInv, WellScoped, WellFounded, AllDone, AllQueued, QueueOk, NoRepeats, Topological, Definition, StandsAlone,
        Leads, Ready;
      var i := 0;
      ghost var base, start := |before|, out;
      forall k | 0 <= k < base ensures PrintedAt(types, emitMarks[..], history, k) {
        assert PrintedAt(types, emitMarks[..], before, k) && history[k] == before[k];
      }
      while i < |queue|
        invariant 0 <= i <= |queue| && Printing() && start <= out
        invariant forall x :: 0 <= x < |types| ==> emitMarks[x] != Emitting
        invariant forall k :: 0 <= k < base + i ==> PrintedAt(types, emitMarks[..], history, k)
      {
        ghost var e, x := EmitState(), queue[i];
        assert x == history[base + i];
        QueuedIsDefinition(types, rank, orderMarks[..], history, base + i);
        forall y: nat | ComesFirst(types, x, y) ensures y < |types| && Definition(types, y) && emitMarks[y] == Emitted {
          NeededEarlier(types, rank, orderMarks[..], history, base + i, y);
          var k :| 0 <= k < base + i && history[k] == y;
          assert PrintedAt(types, e.marks, history, k);
        }
        forall y: nat | Needs(types, x, y) ensures StructDef(y) in out {
          assert ComesFirst(types, x, y);
          EmittedIsPrinted(types, vaList, rank, e, y);
          NeedsComposite(types, x, y);
        }
        MentionedAreReady(types, emitMarks[..], x);
        EmitType(queue[i], 0);
        forall c | 0 <= c < |types| ensures emitMarks[c] != Emitting && (e.marks[c] == Emitted ==> emitMarks[c] == Emitted) {
          assert LaterAt(e.marks, EmitState().marks, c);
        }
        forall k | 0 <= k < base + i + 1 ensures PrintedAt(types, emitMarks[..], history, k) {
          if k < base + i {
            assert PrintedAt(types, e.marks, history, k);
          }
        }
        i := i + 1;
      }
    }
  }
}

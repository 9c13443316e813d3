/** State and reasoning of the reference pass, which rewrites type records in place. */
module RefPass {
  import opened BtfTypes
  import opened BtfEqual
  import opened CanonMap
  import opened DedupTable
  import opened GraphEquiv

  /** Everything but the reference kinds is mapped already. */
  ghost predicate RefStage(T: seq<BtfType>, M: seq<nat>) {
    |M| == |T| && forall x {:trigger SlotStage(T, M, x)} :: 0 <= x < |T| ==> SlotStage(T, M, x)
  }

  predicate SlotStage(T: seq<BtfType>, M: seq<nat>, x: nat)
    requires x < |M| == |T|
  {
    Mapped(M, x) || (RefKind(T[x].kind) && (M[x] == UNPROCESSED_ID || M[x] == IN_PROGRESS_ID))
  }

  /** The references of `x` have been replaced by the roots of the input's references. */
  ghost predicate RefsResolved(T: seq<BtfType>, M: seq<nat>, cur: seq<BtfType>, x: nat, k: nat)
    requires Closed(T) && MapInv(T, M) && |cur| == |T| && x < |T|
  {
    && k <= |T[x].refs| == |cur[x].refs|
    && forall i :: 0 <= i < k ==>
         Mapped(M, T[x].refs[i]) && cur[x].refs[i] == Resolve(T, M, T[x].refs[i])
  }

  /** The records `cur` against the input `T`: only references of reference kinds differ, and
      the finished ones hold roots. */
  ghost predicate RefInv(T: seq<BtfType>, M: seq<nat>, cur: seq<BtfType>)
    requires Closed(T) && MapInv(T, M)
  {
    |cur| == |T| && forall x {:trigger RecordOk(T, M, cur, x)} :: 0 <= x < |T| ==> RecordOk(T, M, cur, x)
  }

  ghost predicate RecordOk(T: seq<BtfType>, M: seq<nat>, cur: seq<BtfType>, x: nat)
    requires Closed(T) && MapInv(T, M) && x < |cur| == |T|
  {
    && Shape(cur[x]) == Shape(T[x]) && |cur[x].refs| == |T[x].refs| && WellFormed(cur[x])
    && (forall i :: 0 <= i < |cur[x].refs| ==> cur[x].refs[i] < |T|)
    && (M[x] != IN_PROGRESS_ID && !(RefKind(T[x].kind) && Mapped(M, x)) ==> cur[x] == T[x])
    && (RefKind(T[x].kind) && Mapped(M, x) ==> RefsResolved(T, M, cur, x, |T[x].refs|))
  }

  lemma RecordKind(T: seq<BtfType>, M: seq<nat>, cur: seq<BtfType>, x: nat)
    requires Closed(T) && MapInv(T, M) && RefInv(T, M, cur) && x < |T|
    ensures cur[x].kind == T[x].kind && cur[x].name == T[x].name && IsForward(cur[x]) == IsForward(T[x])
    ensures WellFormed(cur[x]) && Shape(cur[x]) == Shape(T[x]) && |cur[x].refs| == |T[x].refs|
  {
    assert RecordOk(T, M, cur, x);
    assert WellFormed(T[x]);
    ShapeDeterminesRefs(cur[x], T[x]);
  }

  ghost function Unprocessed(M: seq<nat>): set<nat> {
    set x | 0 <= x < |M| && M[x] == UNPROCESSED_ID
  }

  /** Behind the composite pass only reference kinds are unmapped. */
  lemma BehindStructs(T: seq<BtfType>, M: seq<nat>)
    requires Closed(T) && MapInv(T, M) && StructStage(T, M, |T|)
    ensures RefStage(T, M)
  {
    forall x | 0 <= x < |T| ensures SlotStage(T, M, x) {
      assert x > 0 ==> StructOk(T, M, |T|, x);
    }
  }

  /** In this stage the root of a mapped type is self-mapped. */
  lemma {:induction false} MappedRoot(T: seq<BtfType>, M: seq<nat>, z: nat)
    requires MapInv(T, M) && RefStage(T, M) && z < |T| && Mapped(M, z)
    ensures M[Resolve(T, M, z)] == Resolve(T, M, z)
    decreases Rank(T, M, z)
  {
    assert LinkOk(T, M, z);
    if M[z] != z {
      assert SlotStage(T, M, M[z]);
      MappedRoot(T, M, M[z]);
    }
  }

  /** A step of the pass leaves the roots of mapped types alone. */
  lemma {:induction false} RootsStable(T: seq<BtfType>, M: seq<nat>, N: seq<nat>, z: nat)
    requires MapInv(T, M) && RefStage(T, M) && MapInv(T, N) && |N| == |M|
    requires forall x :: 0 <= x < |M| && Mapped(M, x) ==> N[x] == M[x]
    requires z < |T| && Mapped(M, z)
    ensures Resolve(T, N, z) == Resolve(T, M, z)
    decreases Rank(T, M, z)
  {
    assert LinkOk(T, M, z);
    if M[z] != z {
      assert SlotStage(T, M, M[z]);
      RootsStable(T, M, N, M[z]);
    }
  }

  lemma ResolvedStable(T: seq<BtfType>, M: seq<nat>, N: seq<nat>, cur: seq<BtfType>, x: nat, k: nat)
    requires Closed(T) && MapInv(T, M) && RefStage(T, M) && MapInv(T, N)
    requires forall y :: 0 <= y < |M| && Mapped(M, y) ==> N[y] == M[y]
    requires |cur| == |T| && x < |T| && |cur[x].refs| == |T[x].refs| && k <= |T[x].refs|
    requires RefsResolved(T, M, cur, x, k)
    ensures RefsResolved(T, N, cur, x, k)
  {
    forall i | 0 <= i < k
      ensures Mapped(N, T[x].refs[i]) && cur[x].refs[i] == Resolve(T, N, T[x].refs[i])
    {
      RootsStable(T, M, N, T[x].refs[i]);
    }
  }

  lemma ResolvedThrough(T: seq<BtfType>, M: seq<nat>, N: seq<nat>, cur: seq<BtfType>, cur': seq<BtfType>, x: nat, k: nat)
    requires Closed(T) && MapInv(T, M) && RefStage(T, M) && MapInv(T, N)
    requires forall y :: 0 <= y < |M| && Mapped(M, y) ==> N[y] == M[y]
    requires |cur| == |cur'| == |T| && x < |T| && cur'[x] == cur[x]
    requires |cur[x].refs| == |T[x].refs| && k <= |T[x].refs|
    requires RefsResolved(T, M, cur, x, k)
    ensures RefsResolved(T, N, cur', x, k)
  {
    ResolvedStable(T, M, N, cur, x, k);
  }

  /** A step that maps no mapped type elsewhere keeps the record of any type it leaves alone. */
  lemma RecordStable(T: seq<BtfType>, M: seq<nat>, N: seq<nat>, cur: seq<BtfType>, x: nat)
    requires Closed(T) && MapInv(T, M) && RefStage(T, M) && MapInv(T, N) && RefInv(T, M, cur)
    requires forall y :: 0 <= y < |M| && Mapped(M, y) ==> N[y] == M[y]
    requires x < |T| && (N[x] == M[x] || N[x] == IN_PROGRESS_ID)
    ensures RecordOk(T, N, cur, x)
  {
    assert RecordOk(T, M, cur, x);
    if RefKind(T[x].kind) && Mapped(M, x) {
      ResolvedStable(T, M, N, cur, x, |T[x].refs|);
    }
  }

  /** Entering a type: it becomes in progress. */
  lemma EnterKeeps(T: seq<BtfType>, M: seq<nat>, cur: seq<BtfType>, id: nat)
    requires Closed(T) && MapInv(T, M) && RefStage(T, M) && RefInv(T, M, cur)
    requires 0 < id < |T| && M[id] == UNPROCESSED_ID
    ensures var N := M[id := IN_PROGRESS_ID];
            && MapInv(T, N) && RefStage(T, N) && RefInv(T, N, cur)
            && cur[id] == T[id]
            && RefsResolved(T, N, cur, id, 0)
  {
    var N := M[id := IN_PROGRESS_ID];
    MarkKeepsInv(T, M, id, IN_PROGRESS_ID);
    forall x | 0 <= x < |T| ensures SlotStage(T, N, x) {
      assert SlotStage(T, M, x);
    }
    forall x | 0 <= x < |T| ensures RecordOk(T, N, cur, x) {
      RecordStable(T, M, N, cur, x);
    }
    assert RecordOk(T, M, cur, id);
  }

  lemma EnterShrinks(M: seq<nat>, id: nat)
    requires id < |M| && M[id] == UNPROCESSED_ID
    ensures Unprocessed(M[id := IN_PROGRESS_ID]) < Unprocessed(M)
  {
    assert id in Unprocessed(M) && id !in Unprocessed(M[id := IN_PROGRESS_ID]);
  }

  lemma EnterTable(cur: seq<BtfType>, M: seq<nat>, table: Table, id: nat)
    requires TableInv(cur, M, table) && id < |M| <= MAX_NR_TYPES && M[id] == UNPROCESSED_ID
    ensures TableInv(cur, M[id := IN_PROGRESS_ID], table)
  {
    var N := M[id := IN_PROGRESS_ID];
    forall e | e in table ensures EntryOk(cur, N, e) {
      assert EntryOk(cur, M, e);
    }
    forall x | 0 <= x < |cur| ensures FiledOk(cur, N, table, x) {
      assert FiledOk(cur, M, table, x);
    }
  }

  /** Rewriting one reference of the type in progress. */
  lemma RewriteKeeps(T: seq<BtfType>, M: seq<nat>, cur: seq<BtfType>, id: nat, i: nat)
    requires Closed(T) && MapInv(T, M) && RefInv(T, M, cur)
    requires 0 < id < |T| && M[id] == IN_PROGRESS_ID && i < |T[id].refs| == |cur[id].refs|
    requires RefsResolved(T, M, cur, id, i) && Mapped(M, T[id].refs[i])
    ensures var cur' := cur[id := SetRef(cur[id], i, Resolve(T, M, T[id].refs[i]))];
            && RefInv(T, M, cur')
            && RefsResolved(T, M, cur', id, i + 1)
            && cur'[id].refs[i + 1..] == cur[id].refs[i + 1..]
  {
    var r := Resolve(T, M, T[id].refs[i]);
    var cur' := cur[id := SetRef(cur[id], i, r)];
    forall x | 0 <= x < |T| ensures RecordOk(T, M, cur', x) {
      assert RecordOk(T, M, cur, x);
      if x != id && RefKind(T[x].kind) && Mapped(M, x) {
        assert RefsResolved(T, M, cur', x, |T[x].refs|);
      }
    }
  }

  lemma TableIgnores(cur: seq<BtfType>, cur': seq<BtfType>, M: seq<nat>, table: Table, id: nat)
    requires TableInv(cur, M, table) && id < |cur| == |cur'| && M[id] > MAX_NR_TYPES
    requires |cur| <= MAX_NR_TYPES
    requires forall x :: 0 <= x < |cur| && x != id ==> cur'[x] == cur[x]
    ensures TableInv(cur', M, table)
  {
    forall e | e in table ensures EntryOk(cur', M, e) {
      assert EntryOk(cur, M, e);
    }
    forall x | 0 <= x < |cur| ensures FiledOk(cur', M, table, x) {
      assert FiledOk(cur, M, table, x);
    }
    forall e, f | e in table && f in table ensures PairOk(cur', e, f) {
      assert PairOk(cur, e, f) && EntryOk(cur, M, e) && EntryOk(cur, M, f);
    }
  }

  lemma ChildrenThroughRoots(T: seq<BtfType>, M: seq<nat>, cur: seq<BtfType>, a: nat, b: nat, i: nat, n: nat)
    requires Closed(T) && MapInv(T, M) && MapSame(T, M) && |cur| == |T|
    requires a < |T| && b < |T| && |cur[a].refs| == |T[a].refs| && |cur[b].refs| == |T[b].refs|
    requires cur[a] == cur[b] && i < |T[a].refs|
    requires RefsResolved(T, M, cur, a, |T[a].refs|) && RefsResolved(T, M, cur, b, |T[b].refs|)
    ensures Unfold(T, T[a].refs[i], n) == Unfold(T, T[b].refs[i], n)
  {
    var x, y := T[a].refs[i], T[b].refs[i];
    ResolveKeepsMeaning(T, M, x);
    ResolveKeepsMeaning(T, M, y);
    var r := Resolve(T, M, x);
    assert cur[a].refs[i] == r == Resolve(T, M, y);
    assert Unfold(T, x, n) == Unfold(T, r, n);
    assert Unfold(T, y, n) == Unfold(T, r, n);
  }

  lemma AllChildrenThroughRoots(T: seq<BtfType>, M: seq<nat>, cur: seq<BtfType>, a: nat, b: nat, n: nat)
    requires Closed(T) && MapInv(T, M) && MapSame(T, M) && |cur| == |T|
    requires a < |T| && b < |T| && |cur[a].refs| == |T[a].refs| && |cur[b].refs| == |T[b].refs|
    requires cur[a] == cur[b]
    requires RefsResolved(T, M, cur, a, |T[a].refs|) && RefsResolved(T, M, cur, b, |T[b].refs|)
    ensures forall i :: 0 <= i < |T[a].refs| ==> Unfold(T, T[a].refs[i], n) == Unfold(T, T[b].refs[i], n)
  {
    forall i | 0 <= i < |T[a].refs| ensures Unfold(T, T[a].refs[i], n) == Unfold(T, T[b].refs[i], n) {
      ChildrenThroughRoots(T, M, cur, a, b, i, n);
    }
  }

  /** Two finished types with equal records mean the same. */
  lemma EqualResolvedSame(T: seq<BtfType>, M: seq<nat>, cur: seq<BtfType>, a: nat, b: nat)
    requires Closed(T) && MapInv(T, M) && MapSame(T, M) && |cur| == |T|
    requires a < |T| && b < |T| && |cur[a].refs| == |T[a].refs| && |cur[b].refs| == |T[b].refs|
    requires RefKind(T[a].kind) && RefKind(T[b].kind) && Shape(cur[a]) == Shape(T[a]) && Shape(cur[b]) == Shape(T[b]) && cur[a] == cur[b]
    requires RefsResolved(T, M, cur, a, |T[a].refs|) && RefsResolved(T, M, cur, b, |T[b].refs|)
    ensures SameMeaning(T, a, T, b)
  {
    forall n: nat ensures Unfold(T, a, n) == Unfold(T, b, n) {
      if n > 0 {
        AllChildrenThroughRoots(T, M, cur, a, b, n - 1);
        UnfoldStep(T, a, T, b, n - 1);
      }
    }
  }

  /** Leaving a type: it gets its representative, itself or an equal filed type. */
  lemma LeaveKeeps(T: seq<BtfType>, M: seq<nat>, cur: seq<BtfType>, id: nat, y: nat)
    requires Closed(T) && MapInv(T, M) && RefStage(T, M) && RefInv(T, M, cur)
    requires 0 < id < |T| && y < |T| && M[id] == IN_PROGRESS_ID && RefKind(T[id].kind)
    requires |cur[id].refs| == |T[id].refs| && RefsResolved(T, M, cur, id, |T[id].refs|)
    requires y != id ==> cur[y] == cur[id] && M[y] == y
    ensures var N := M[id := y];
            MapInv(T, N) && RefStage(T, N) && RefInv(T, N, cur)
  {
    var N := M[id := y];
    RecordKind(T, M, cur, id);
    RecordKind(T, M, cur, y);
    LinkKeepsInv(T, M, id, y);
    forall x | 0 <= x < |T| ensures SlotStage(T, N, x) {
      assert SlotStage(T, M, x);
    }
    forall x | 0 <= x < |T| ensures RecordOk(T, N, cur, x) {
      if x == id {
        ResolvedStable(T, M, N, cur, id, |T[id].refs|);
        assert RecordOk(T, M, cur, id);
      } else {
        RecordStable(T, M, N, cur, x);
      }
    }
  }

  lemma LeaveTable(cur: seq<BtfType>, M: seq<nat>, table: Table, id: nat, y: nat)
    requires TableInv(cur, M, table) && 0 < id < |cur| <= MAX_NR_TYPES && y < |cur|
    requires M[id] == IN_PROGRESS_ID && RefKind(cur[id].kind) && WellFormed(cur[id])
    requires y == id ==> NotFiled(cur, table, cur[id])
    ensures TableInv(cur, M[id := y], if y == id then table + multiset{(Signature(cur[id]), id)} else table)
  {
    if y == id {
      TableAdded(cur, M, table, id);
    } else {
      TableLinked(cur, M, table, id, y);
    }
  }

  // ----- Cycles of reference kinds -----

  /** `b` is referred to by the reference kind `a` and is itself of a reference kind. */
  ghost predicate RefEdge(T: seq<BtfType>, a: nat, b: nat) {
    a < |T| && b < |T| && RefKind(T[a].kind) && RefKind(T[b].kind) && b in T[a].refs
  }

  ghost predicate RefPath(T: seq<BtfType>, p: seq<nat>) {
    forall i :: 0 <= i < |p| - 1 ==> RefEdge(T, p[i], p[i + 1])
  }

  ghost predicate RefCycle(T: seq<BtfType>) {
    exists p :: |p| > 1 && RefPath(T, p) && p[0] == p[|p| - 1]
  }

  /** Finishing times grow along reversed edges of finished types. */
  ghost predicate FinishOrder(T: seq<BtfType>, M: seq<nat>, rank: seq<nat>, clock: nat) {
    && |rank| == |M| == |T|
    && forall x {:trigger FinishedOk(T, M, rank, clock, x)} :: 0 <= x < |T| ==> FinishedOk(T, M, rank, clock, x)
  }

  ghost predicate FinishedOk(T: seq<BtfType>, M: seq<nat>, rank: seq<nat>, clock: nat, x: nat)
    requires x < |rank| == |M| == |T|
  {
    RefKind(T[x].kind) && Mapped(M, x) ==>
      && rank[x] < clock
      && forall y: nat :: RefEdge(T, x, y) ==> Mapped(M, y) && rank[y] < rank[x]
  }

  lemma FinishEnter(T: seq<BtfType>, M: seq<nat>, rank: seq<nat>, clock: nat, id: nat)
    requires FinishOrder(T, M, rank, clock) && id < |T| && M[id] == UNPROCESSED_ID
    ensures FinishOrder(T, M[id := IN_PROGRESS_ID], rank, clock)
  {
    var N := M[id := IN_PROGRESS_ID];
    forall x | 0 <= x < |T| ensures FinishedOk(T, N, rank, clock, x) {
      assert FinishedOk(T, M, rank, clock, x);
    }
  }

  lemma FinishNext(T: seq<BtfType>, M: seq<nat>, rank: seq<nat>, clock: nat, id: nat, y: nat)
    requires FinishOrder(T, M, rank, clock) && id < |T| && M[id] > MAX_NR_TYPES && RefKind(T[id].kind)
    requires y <= MAX_NR_TYPES
    requires forall i :: 0 <= i < |T[id].refs| ==> T[id].refs[i] < |T| && Mapped(M, T[id].refs[i])
    ensures FinishOrder(T, M[id := y], rank[id := clock], clock + 1)
  {
    var N, rank', next := M[id := y], rank[id := clock], clock + 1;
    forall x | 0 <= x < |T| ensures FinishedOk(T, N, rank', next, x) {
      assert FinishedOk(T, M, rank, clock, x);
      if x == id {
        forall b: nat | RefEdge(T, id, b) ensures Mapped(N, b) && rank'[b] < clock {
          var i :| 0 <= i < |T[id].refs| && T[id].refs[i] == b;
          assert FinishedOk(T, M, rank, clock, b);
        }
      }
    }
  }

  /** Finished types lie on no cycle. */
  lemma {:induction false} RankFalls(T: seq<BtfType>, M: seq<nat>, rank: seq<nat>, clock: nat, p: seq<nat>)
    requires FinishOrder(T, M, rank, clock) && RefStage(T, M)
    requires forall x :: 0 <= x < |T| ==> Mapped(M, x)
    requires |p| > 1 && RefPath(T, p)
    ensures p[0] < |T| && p[|p| - 1] < |T| && rank[p[|p| - 1]] < rank[p[0]]
  {
    assert RefEdge(T, p[0], p[1]);
    assert FinishedOk(T, M, rank, clock, p[0]);
    if |p| > 2 {
      var q := p[1..];
      forall i | 0 <= i < |q| - 1 ensures RefEdge(T, q[i], q[i + 1]) {
        assert RefEdge(T, p[i + 1], p[i + 2]);
      }
      RankFalls(T, M, rank, clock, q);
    }
  }

  lemma FinishedMeansAcyclic(T: seq<BtfType>, M: seq<nat>, rank: seq<nat>, clock: nat)
    requires FinishOrder(T, M, rank, clock) && RefStage(T, M)
    requires forall x :: 0 <= x < |T| ==> Mapped(M, x)
    ensures !RefCycle(T)
  {
    if RefCycle(T) {
      var p :| |p| > 1 && RefPath(T, p) && p[0] == p[|p| - 1];
      RankFalls(T, M, rank, clock, p);
    }
  }

  /** The types in progress form a path of reference kinds leading to the type entered next. */
  ghost predicate StackOk(T: seq<BtfType>, M: seq<nat>, stack: seq<nat>) {
    && |M| == |T|
    && (forall i :: 0 <= i < |stack| ==> stack[i] < |T|)
    && RefPath(T, stack)
    && (forall x :: 0 <= x < |T| && M[x] == IN_PROGRESS_ID ==> x in stack)
  }

  /** Meeting a type in progress closes a cycle. */
  lemma LoopFound(T: seq<BtfType>, M: seq<nat>, stack: seq<nat>, id: nat)
    requires StackOk(T, M, stack) && id < |T| && M[id] == IN_PROGRESS_ID
    requires |stack| > 0 && RefEdge(T, stack[|stack| - 1], id)
    ensures RefCycle(T)
  {
    var k :| 0 <= k < |stack| && stack[k] == id;
    var p := stack[k..] + [id];
    forall i | 0 <= i < |p| - 1 ensures RefEdge(T, p[i], p[i + 1]) {
      if i + 1 < |stack| - k {
        assert RefEdge(T, stack[k + i], stack[k + i + 1]);
      }
    }
    assert |p| > 1 && RefPath(T, p) && p[0] == p[|p| - 1];
  }

  // ----- The whole state between steps -----

  ghost predicate RefState(T: seq<BtfType>, M: seq<nat>, cur: seq<BtfType>, table: Table, rank: seq<nat>, clock: nat)
    requires Closed(T)
  {
    && MapInv(T, M) && (OneDefinition(T) ==> MapSame(T, M))
    && RefStage(T, M) && RefInv(T, M, cur) && TableInv(cur, M, table)
    && FinishOrder(T, M, rank, clock)
  }

  lemma EnterState(T: seq<BtfType>, M: seq<nat>, cur: seq<BtfType>, table: Table, rank: seq<nat>, clock: nat, id: nat)
    requires Closed(T) && RefState(T, M, cur, table, rank, clock)
    requires 0 < id < |T| && M[id] == UNPROCESSED_ID
    ensures RefState(T, M[id := IN_PROGRESS_ID], cur, table, rank, clock) && cur[id] == T[id]
    ensures RefsResolved(T, M[id := IN_PROGRESS_ID], cur, id, 0)
  {
    EnterKeeps(T, M, cur, id);
    EnterTable(cur, M, table, id);
    FinishEnter(T, M, rank, clock, id);
    if OneDefinition(T) {
      MarkKeepsMeaning(T, M, id, IN_PROGRESS_ID);
    }
  }

  lemma RewriteState(T: seq<BtfType>, M: seq<nat>, cur: seq<BtfType>, table: Table, rank: seq<nat>, clock: nat,
                     id: nat, i: nat)
    requires Closed(T) && RefState(T, M, cur, table, rank, clock)
    requires 0 < id < |T| && M[id] == IN_PROGRESS_ID && i < |T[id].refs| == |cur[id].refs|
    requires RefsResolved(T, M, cur, id, i) && Mapped(M, T[id].refs[i])
    ensures var cur' := cur[id := SetRef(cur[id], i, Resolve(T, M, T[id].refs[i]))];
            && RefState(T, M, cur', table, rank, clock)
            && RefsResolved(T, M, cur', id, i + 1)
            && cur'[id].refs[i + 1..] == cur[id].refs[i + 1..]
  {
    RewriteKeeps(T, M, cur, id, i);
    TableIgnores(cur, cur[id := SetRef(cur[id], i, Resolve(T, M, T[id].refs[i]))], M, table, id);
  }

  lemma FiledIsCanonical(T: seq<BtfType>, M: seq<nat>, cur: seq<BtfType>, table: Table, id: nat, y: nat)
    requires Closed(T) && MapInv(T, M) && RefInv(T, M, cur) && TableInv(cur, M, table)
    requires id < |T| && y < |T| && RefKind(T[id].kind) && WellFormed(cur[id])
    requires y != id ==> cur[y] == cur[id] && (Signature(cur[id]), y) in table
    ensures RefKind(cur[id].kind) && WellFormed(cur[id]) && |cur[id].refs| == |T[id].refs|
    ensures y != id ==> M[y] == y
  {
    RecordKind(T, M, cur, id);
    if y != id {
      assert EntryOk(cur, M, (Signature(cur[id]), y));
    }
  }

  lemma LeaveState(T: seq<BtfType>, M: seq<nat>, cur: seq<BtfType>, table: Table, rank: seq<nat>, clock: nat,
                   id: nat, y: nat)
    requires Closed(T) && RefState(T, M, cur, table, rank, clock)
    requires 0 < id < |T| && y < |T| && M[id] == IN_PROGRESS_ID && RefKind(T[id].kind)
    requires |cur[id].refs| == |T[id].refs| && RefsResolved(T, M, cur, id, |T[id].refs|)
    requires WellFormed(cur[id])
    requires y == id ==> NotFiled(cur, table, cur[id])
    requires y != id ==> cur[y] == cur[id] && (Signature(cur[id]), y) in table
    ensures M[id := y][y] == y
    ensures RefState(T, M[id := y], cur, if y == id then table + multiset{(Signature(cur[id]), id)} else table,
                     rank[id := clock], clock + 1)
  {
    FiledIsCanonical(T, M, cur, table, id, y);
    LeaveKeeps(T, M, cur, id, y);
    assert OneDefinition(T) ==> MapSame(T, M[id := y]) by {
      if OneDefinition(T) {
        if y != id {
          RecordKind(T, M, cur, id);
          assert RecordOk(T, M, cur, y);
          EqualResolvedSame(T, M, cur, id, y);
        }
        LinkKeepsMeaning(T, M, id, y);
      }
    }
    LeaveTable(cur, M, table, id, y);
    FinishNext(T, M, rank, clock, id, y);
  }

  lemma StartState(T: seq<BtfType>, M: seq<nat>, table: Table, rank: seq<nat>)
    requires Closed(T) && MapInv(T, M) && (OneDefinition(T) ==> MapSame(T, M))
    requires StructStage(T, M, |T|) && TableInv(T, M, table) && |rank| == |T|
    ensures RefState(T, M, T, table, rank, 0)
    ensures forall x :: 0 <= x < |T| ==> M[x] != IN_PROGRESS_ID
  {
    forall x | 0 <= x < |T| ensures SlotStage(T, M, x) && M[x] != IN_PROGRESS_ID {
      if x > 0 {
        assert StructOk(T, M, |T|, x);
      }
    }
    forall x | 0 <= x < |T| ensures RecordOk(T, M, T, x) {
      assert WellFormed(T[x]);
      if x > 0 {
        assert StructOk(T, M, |T|, x);
      }
    }
    forall x | 0 <= x < |T| ensures FinishedOk(T, M, rank, 0, x) {
      if x > 0 {
        assert StructOk(T, M, |T|, x);
      }
    }
  }
}

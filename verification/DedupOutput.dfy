/** Compaction, renumbering, and what the finished output promises. */
module DedupOutput {
  import opened BtfTypes
  import opened BtfEqual
  import opened CanonMap
  import opened DedupTable
  import opened GraphEquiv
  import opened RefPass

  // ----- Dense new ids -----

  /** How many of the first `k` ids are their own representatives. */
  function CountCanon(M: seq<nat>, k: nat): nat
    requires k <= |M|
  {
    if k == 0 then 0 else CountCanon(M, k - 1) + (if M[k - 1] == k - 1 then 1 else 0)
  }

  lemma {:induction false} CountGrows(M: seq<nat>, j: nat, k: nat)
    requires j <= k <= |M|
    ensures CountCanon(M, j) <= CountCanon(M, k)
    ensures CountCanon(M, k) - CountCanon(M, j) <= k - j
    ensures j < k && M[j] == j ==> CountCanon(M, j) < CountCanon(M, k)
    decreases k
  {
    if j < k {
      CountGrows(M, j, k - 1);
    }
  }

  /** Every dense id below the count belongs to exactly one survivor. */
  lemma {:induction false} CountHits(M: seq<nat>, k: nat, v: nat) returns (x: nat)
    requires k <= |M| && v < CountCanon(M, k)
    ensures x < k && M[x] == x && CountCanon(M, x) == v
    decreases k
  {
    if v < CountCanon(M, k - 1) {
      x := CountHits(M, k - 1, v);
    } else {
      x := k - 1;
    }
  }

  /** Survivors get dense ids in their original order; the others keep the marker. */
  ghost predicate Renumbered(M: seq<nat>, H: seq<nat>, k: nat) {
    && k <= |M| == |H|
    && forall x {:trigger SlotNumber(M, H, x)} :: 0 <= x < k ==> SlotNumber(M, H, x)
  }

  predicate SlotNumber(M: seq<nat>, H: seq<nat>, x: nat)
    requires x < |M| == |H|
  {
    H[x] == if M[x] == x then CountCanon(M, x) else UNPROCESSED_ID
  }

  /** Survivors among the first `k` have been copied down; nothing at or above the write
      position has been overwritten. */
  ghost predicate CopiedDown(M: seq<nat>, before: seq<BtfType>, after: seq<BtfType>, k: nat) {
    && k <= |M| == |before| == |after|
    && (forall x {:trigger CopyOk(M, before, after, x)} :: 0 <= x < k ==> CopyOk(M, before, after, x))
    && (forall y :: CountCanon(M, k) <= y < |after| ==> after[y] == before[y])
  }

  ghost predicate CopyOk(M: seq<nat>, before: seq<BtfType>, after: seq<BtfType>, x: nat)
    requires x < |M| == |before| == |after|
  {
    M[x] == x ==> CountCanon(M, x) < |after| && after[CountCanon(M, x)] == before[x]
  }

  /** The survivor read next has not been overwritten yet. */
  lemma NotOverwritten(M: seq<nat>, before: seq<BtfType>, after: seq<BtfType>, k: nat)
    requires CopiedDown(M, before, after, k) && k < |M|
    ensures CountCanon(M, k) <= k && after[k] == before[k]
  {
    CountGrows(M, 0, k);
  }

  /** Copying it down overwrites nothing that is still needed. */
  lemma CopyStep(M: seq<nat>, before: seq<BtfType>, after: seq<BtfType>, k: nat)
    requires CopiedDown(M, before, after, k) && k < |M| && M[k] == k
    requires CountCanon(M, k) <= k && after[k] == before[k]
    ensures CopiedDown(M, before, after[CountCanon(M, k) := after[k]], k + 1)
  {
    var next, c := k + 1, CountCanon(M, k);
    var after' := after[c := after[k]];
    assert CountCanon(M, next) == c + 1;
    forall x | 0 <= x < next ensures CopyOk(M, before, after', x) {
      if x < k {
        assert CopyOk(M, before, after, x);
        CountGrows(M, x, k);
      }
    }
  }

  lemma SkipStep(M: seq<nat>, before: seq<BtfType>, after: seq<BtfType>, k: nat)
    requires CopiedDown(M, before, after, k) && k < |M| && M[k] != k
    ensures CopiedDown(M, before, after, k + 1)
  {
    var next := k + 1;
    assert CountCanon(M, next) == CountCanon(M, k);
    forall x | 0 <= x < next ensures CopyOk(M, before, after, x) {
      if x < k {
        assert CopyOk(M, before, after, x);
      }
    }
  }

  lemma NumberStep(M: seq<nat>, H: seq<nat>, k: nat, v: nat)
    requires Renumbered(M, H, k) && k < |M|
    requires v == if M[k] == k then CountCanon(M, k) else UNPROCESSED_ID
    ensures Renumbered(M, H[k := v], k + 1)
  {
    var H', next := H[k := v], k + 1;
    forall x | 0 <= x < next ensures SlotNumber(M, H', x) {
      if x < k {
        assert SlotNumber(M, H, x);
      }
    }
  }

  // ----- Remapping references -----

  /** The final id of an input type. */
  ghost function NewId(T: seq<BtfType>, M: seq<nat>, H: seq<nat>, x: nat): nat
    requires MapInv(T, M) && |H| == |M| && x < |M|
  {
    H[Resolve(T, M, x)]
  }

  /** The first `k` references of `t` have been rewritten to final ids. */
  ghost predicate RefsRemapped(T: seq<BtfType>, M: seq<nat>, H: seq<nat>, s: BtfType, t: BtfType, k: nat)
    requires MapInv(T, M) && |H| == |M|
  {
    && Shape(t) == Shape(s) && k <= |s.refs| == |t.refs|
    && (forall i :: 0 <= i < |s.refs| ==> s.refs[i] < |T|)
    && (forall i :: 0 <= i < k ==> t.refs[i] == NewId(T, M, H, s.refs[i]))
    && (forall i :: k <= i < |s.refs| ==> t.refs[i] == s.refs[i])
  }

  /** All types are mapped: the state after the reference pass. */
  ghost predicate AllMapped(M: seq<nat>) {
    forall x {:trigger Mapped(M, x)} :: 0 <= x < |M| ==> Mapped(M, x)
  }

  /** Remapping cannot fail, and lands on the copy of the root. */
  lemma NewIdInRange(T: seq<BtfType>, M: seq<nat>, H: seq<nat>, x: nat)
    requires MapInv(T, M) && AllMapped(M) && Renumbered(M, H, |M|) && x < |M|
    ensures M[Resolve(T, M, x)] == Resolve(T, M, x)
    ensures NewId(T, M, H, x) == CountCanon(M, Resolve(T, M, x)) < CountCanon(M, |M|) <= |M|
  {
    var r := Resolve(T, M, x);
    assert Mapped(M, r) && SlotNumber(M, H, r);
    CountGrows(M, r, |M|);
    CountGrows(M, 0, |M|);
  }

  // ----- The output -----

  /** `out` is the finished type section: the survivors of `cur`, in order, with final ids. */
  ghost predicate IsOutput(T: seq<BtfType>, M: seq<nat>, cur: seq<BtfType>, H: seq<nat>, out: seq<BtfType>)
    requires MapInv(T, M)
  {
    && |cur| == |T| && AllMapped(M) && Renumbered(M, H, |M|)
    && |out| == CountCanon(M, |M|)
    && forall x {:trigger OutOk(T, M, cur, H, out, x)} :: 0 <= x < |T| ==> OutOk(T, M, cur, H, out, x)
  }

  ghost predicate OutOk(T: seq<BtfType>, M: seq<nat>, cur: seq<BtfType>, H: seq<nat>, out: seq<BtfType>, x: nat)
    requires MapInv(T, M) && x < |cur| == |T| == |H|
  {
    M[x] == x ==> H[x] < |out| && RefsRemapped(T, M, H, cur[x], out[H[x]], |cur[x].refs|)
  }

  /** Where the references of an output record lead: to the final ids of the input's references. */
  lemma OutRefs(T: seq<BtfType>, M: seq<nat>, cur: seq<BtfType>, H: seq<nat>, out: seq<BtfType>, r: nat)
    requires Closed(T) && MapInv(T, M) && RefInv(T, M, cur) && IsOutput(T, M, cur, H, out)
    requires r < |T| && M[r] == r
    ensures H[r] < |out| && Shape(out[H[r]]) == Shape(T[r]) && |out[H[r]].refs| == |T[r].refs|
    ensures forall i :: 0 <= i < |T[r].refs| ==> out[H[r]].refs[i] == NewId(T, M, H, T[r].refs[i])
  {
    assert OutOk(T, M, cur, H, out, r) && RecordOk(T, M, cur, r) && Mapped(M, r);
    forall i | 0 <= i < |T[r].refs|
      ensures out[H[r]].refs[i] == NewId(T, M, H, T[r].refs[i])
    {
      if RefKind(T[r].kind) {
        assert Root(M, cur[r].refs[i]);
      }
    }
  }

  lemma OutputClosed(T: seq<BtfType>, M: seq<nat>, cur: seq<BtfType>, H: seq<nat>, out: seq<BtfType>)
    requires Closed(T) && MapInv(T, M) && RefInv(T, M, cur) && IsOutput(T, M, cur, H, out)
    ensures Closed(out)
  {
    forall v | 0 <= v < |out|
      ensures WellFormed(out[v]) && forall i :: 0 <= i < |out[v].refs| ==> out[v].refs[i] < |out|
    {
      var r := CountHits(M, |M|, v);
      assert SlotNumber(M, H, r);
      OutRefs(T, M, cur, H, out, r);
      assert WellFormed(T[r]);
      ShapeKeepsWellFormed(T[r], out[v]);
      forall i | 0 <= i < |out[v].refs| ensures out[v].refs[i] < |out| {
        NewIdInRange(T, M, H, T[r].refs[i]);
      }
    }
    assert SlotNumber(M, H, 0);
    CountGrows(M, 0, |M|);
    OutRefs(T, M, cur, H, out, 0);
    assert Shape(out[0]) == VOID && out[0].refs == [];
  }

  lemma ShapeKeepsWellFormed(s: BtfType, t: BtfType)
    requires WellFormed(s) && Shape(s) == Shape(t) && |s.refs| == |t.refs|
    ensures WellFormed(t)
  {
    assert Shape(t).items == t.items && Shape(s).items == s.items;
  }

  /** Deduplication preserves meaning: if all definitions of what is declared forward mean the same,
      every input id and its final id unfold alike at every depth. */
  lemma {:induction false} MeaningPreserved(T: seq<BtfType>, M: seq<nat>, cur: seq<BtfType>, H: seq<nat>,
                                            out: seq<BtfType>, x: nat, n: nat)
    requires Closed(T) && OneDefinition(T) && MapInv(T, M) && MapSame(T, M) && RefInv(T, M, cur)
    requires IsOutput(T, M, cur, H, out) && Closed(out) && x < |T|
    ensures NewId(T, M, H, x) < |out|
    ensures Unfold(T, x, n) == Unfold(out, NewId(T, M, H, x), n)
    decreases n, 2
  {
    NewIdInRange(T, M, H, x);
    if n > 0 {
      var r := Resolve(T, M, x);
      ResolveKeepsMeaning(T, M, x);
      assert Unfold(T, x, n) == Unfold(T, r, n) && Mapped(M, r);
      if IsForward(T[r]) {
        ForwardPreserved(T, M, cur, H, out, r, n);
      } else {
        DefinitionPreserved(T, M, cur, H, out, r, n);
      }
    }
  }

  lemma {:induction false} DefinitionPreserved(T: seq<BtfType>, M: seq<nat>, cur: seq<BtfType>, H: seq<nat>,
                                               out: seq<BtfType>, r: nat, n: nat)
    requires Closed(T) && OneDefinition(T) && MapInv(T, M) && MapSame(T, M) && RefInv(T, M, cur)
    requires IsOutput(T, M, cur, H, out) && Closed(out) && r < |T| && M[r] == r && !IsForward(T[r]) && n > 0
    ensures H[r] < |out| && Unfold(T, r, n) == Unfold(out, H[r], n)
    decreases n, 0
  {
    OutRefs(T, M, cur, H, out, r);
    ShapeDeterminesRefs(T[r], out[H[r]]);
    ChildrenPreserved(T, M, cur, H, out, r, n - 1);
    UnfoldStep(T, r, out, H[r], n - 1);
  }

  /** A surviving forward means the same in the output: what it declares survives too, or is defined nowhere. */
  lemma {:induction false} ForwardPreserved(T: seq<BtfType>, M: seq<nat>, cur: seq<BtfType>, H: seq<nat>,
                                            out: seq<BtfType>, r: nat, n: nat)
    requires Closed(T) && OneDefinition(T) && MapInv(T, M) && MapSame(T, M) && RefInv(T, M, cur)
    requires IsOutput(T, M, cur, H, out) && Closed(out) && r < |T| && M[r] == r && IsForward(T[r]) && n > 0
    ensures H[r] < |out| && Unfold(T, r, n) == Unfold(out, H[r], n)
    decreases n, 1
  {
    OutRefs(T, M, cur, H, out, r);
    ShapeDeterminesRefs(T[r], out[H[r]]);
    var b := Bare(T[r]);
    if Defining(out, b, 0) == b {
      NotDefined(T, M, cur, H, out, b);
      assert Unfold(T, r, n) == Node(Shape(b), []) == Unfold(out, H[r], n);
    } else {
      var v :| 0 <= v < |out| && out[v] == Defining(out, b, 0);
      var d := CountHits(M, |M|, v);
      assert SlotNumber(M, H, d);
      OutRefs(T, M, cur, H, out, d);
      ShapeDeterminesRefs(T[d], out[v]);
      ForwardMeans(T, r, d);
      DefinitionPreserved(T, M, cur, H, out, d, n);
      SameRead(out, v, H[r]);
      assert Unfold(T, r, n) == Unfold(T, d, n) == Unfold(out, v, n) == Unfold(out, H[r], n);
    }
  }

  /** What is not defined in the output was not defined in the input. */
  lemma NotDefined(T: seq<BtfType>, M: seq<nat>, cur: seq<BtfType>, H: seq<nat>, out: seq<BtfType>, b: BtfType)
    requires Closed(T) && MapInv(T, M) && RefInv(T, M, cur) && IsOutput(T, M, cur, H, out) && Closed(out)
    requires IsForward(b) && Defining(out, b, 0) == b
    ensures Defining(T, b, 0) == b
  {
    NoneDefining(out, b, 0);
    forall d | 0 <= d < |T| ensures !Declares(b, T[d]) {
      if Declares(b, T[d]) {
        DefinitionSurvives(T, M, cur, H, out, b, d);
        assert false;
      }
    }
  }

  lemma DefinitionSurvives(T: seq<BtfType>, M: seq<nat>, cur: seq<BtfType>, H: seq<nat>, out: seq<BtfType>, b: BtfType, d: nat)
    requires Closed(T) && MapInv(T, M) && RefInv(T, M, cur) && IsOutput(T, M, cur, H, out) && Closed(out)
    requires d < |T| && Declares(b, T[d])
    ensures NewId(T, M, H, d) < |out| && Declares(b, out[NewId(T, M, H, d)])
  {
    var r := Resolve(T, M, d);
    NewIdInRange(T, M, H, d);
    assert Mapped(M, r);
    OutRefs(T, M, cur, H, out, r);
    ShapeDeterminesRefs(T[r], out[H[r]]);
  }

  lemma {:induction false} ChildrenPreserved(T: seq<BtfType>, M: seq<nat>, cur: seq<BtfType>, H: seq<nat>,
                                             out: seq<BtfType>, r: nat, n: nat)
    requires Closed(T) && OneDefinition(T) && MapInv(T, M) && MapSame(T, M) && RefInv(T, M, cur)
    requires IsOutput(T, M, cur, H, out) && Closed(out) && r < |T| && M[r] == r
    ensures H[r] < |out| && |out[H[r]].refs| == |T[r].refs|
    ensures forall i :: 0 <= i < |T[r].refs| ==> Unfold(T, T[r].refs[i], n) == Unfold(out, out[H[r]].refs[i], n)
    decreases n, 3
  {
    OutRefs(T, M, cur, H, out, r);
    forall i | 0 <= i < |T[r].refs| ensures Unfold(T, T[r].refs[i], n) == Unfold(out, out[H[r]].refs[i], n) {
      MeaningPreserved(T, M, cur, H, out, T[r].refs[i], n);
    }
  }

  /** Maximal sharing: no two surviving primitive or reference types have equal records,
      whatever the collisions in the table were. */
  lemma MaximalSharing(T: seq<BtfType>, M: seq<nat>, cur: seq<BtfType>, table: Table, H: seq<nat>,
                       out: seq<BtfType>, a: nat, b: nat)
    requires Closed(T) && MapInv(T, M) && RefInv(T, M, cur) && TableInv(cur, M, table)
    requires IsOutput(T, M, cur, H, out)
    requires a < |out| && b < |out| && a != b && (PrimKind(out[a].kind) || RefKind(out[a].kind))
    ensures out[a] != out[b]
  {
    var r := CountHits(M, |M|, a);
    var s := CountHits(M, |M|, b);
    assert SlotNumber(M, H, r) && SlotNumber(M, H, s);
    assert OutOk(T, M, cur, H, out, r);
    RecordKind(T, M, cur, r);
    assert Shape(out[a]).kind == out[a].kind && Shape(cur[r]).kind == cur[r].kind;
    SurvivorsDiffer(cur, M, table, r, s);
    if out[a] == out[b] {
      EqualOutputs(T, M, cur, H, out, r, s);
      assert false;
    }
  }

  /** The table holds every survivor of these kinds, and no two equal ones. */
  lemma SurvivorsDiffer(cur: seq<BtfType>, M: seq<nat>, table: Table, r: nat, s: nat)
    requires TableInv(cur, M, table) && r < |M| && s < |M| && r != s && M[r] == r && M[s] == s
    requires Filed(cur[r].kind)
    ensures cur[r] != cur[s]
  {
    assert FiledOk(cur, M, table, r) && FiledOk(cur, M, table, s);
    if Filed(cur[s].kind) {
      assert PairOk(cur, (Signature(cur[r]), r), (Signature(cur[s]), s));
    }
  }

  /** Of several composites with equal input records, at most one survives. */
  lemma CompositesDiffer(T: seq<BtfType>, M: seq<nat>, cur: seq<BtfType>, table: Table, r: nat, s: nat)
    requires Closed(T) && MapInv(T, M) && RefInv(T, M, cur) && TableInv(cur, M, table)
    requires r < |M| && s < |M| && r != s && M[r] == r && M[s] == s && IsComposite(T[r].kind)
    ensures T[r] != T[s]
  {
    RecordKind(T, M, cur, r);
    SurvivorsDiffer(cur, M, table, r, s);
    assert RecordOk(T, M, cur, r) && RecordOk(T, M, cur, s);
  }

  /** Equal output records come from equal records: renumbering is injective on roots. */
  lemma EqualOutputs(T: seq<BtfType>, M: seq<nat>, cur: seq<BtfType>, H: seq<nat>, out: seq<BtfType>, r: nat, s: nat)
    requires Closed(T) && MapInv(T, M) && RefInv(T, M, cur) && IsOutput(T, M, cur, H, out)
    requires r < |M| && s < |M| && M[r] == r && M[s] == s && H[r] < |out| && H[s] < |out| && out[H[r]] == out[H[s]]
    requires PrimKind(T[r].kind) || RefKind(T[r].kind)
    ensures cur[r] == cur[s]
  {
    assert OutOk(T, M, cur, H, out, r) && OutOk(T, M, cur, H, out, s);
    assert Shape(out[H[r]]) == Shape(cur[r]) && Shape(out[H[s]]) == Shape(cur[s]);
    RecordKind(T, M, cur, r);
    RecordKind(T, M, cur, s);
    assert Shape(cur[r]).kind == cur[r].kind && Shape(cur[s]).kind == cur[s].kind;
    forall i | 0 <= i < |cur[r].refs| ensures cur[r].refs[i] == cur[s].refs[i] {
      SurvivorRefs(T, M, cur, H, r, i);
      SurvivorRefs(T, M, cur, H, s, i);
      NumbersInjective(M, H, cur[r].refs[i], cur[s].refs[i]);
    }
    assert cur[r].refs == cur[s].refs;
    assert cur[r] == Shape(cur[r]).(refs := cur[r].refs) == cur[s];
  }

  /** References kept by a surviving primitive or reference type are roots. */
  lemma SurvivorRefs(T: seq<BtfType>, M: seq<nat>, cur: seq<BtfType>, H: seq<nat>, r: nat, i: nat)
    requires Closed(T) && MapInv(T, M) && RefInv(T, M, cur) && AllMapped(M) && Renumbered(M, H, |M|)
    requires r < |T| && M[r] == r && (PrimKind(T[r].kind) || RefKind(T[r].kind)) && i < |cur[r].refs|
    ensures cur[r].refs[i] < |T| && M[cur[r].refs[i]] == cur[r].refs[i]
    ensures NewId(T, M, H, cur[r].refs[i]) == H[cur[r].refs[i]]
  {
    assert RecordOk(T, M, cur, r) && Mapped(M, r) && WellFormed(T[r]);
    assert RefKind(T[r].kind);
    NewIdInRange(T, M, H, T[r].refs[i]);
  }

  lemma NumbersInjective(M: seq<nat>, H: seq<nat>, x: nat, y: nat)
    requires Renumbered(M, H, |M|) && x < |M| && y < |M| && M[x] == x && M[y] == y && H[x] == H[y]
    ensures x == y
  {
    assert SlotNumber(M, H, x) && SlotNumber(M, H, y);
    if x < y {
      CountGrows(M, x, y);
    } else if y < x {
      CountGrows(M, y, x);
    }
  }

  // ----- When types of one meaning share one output type -----

  /** Uniform forwards, none of a name that structs and unions share, no variables or data sections, which are
      never merged, and no composite with twins in its graph. */
  ghost predicate Tidy(T: seq<BtfType>, rk: seq<nat>)
    requires Closed(T) && EmbedRanked(T, rk)
  {
    && Uniform(T)
    && (forall x {:trigger TidyAt(T, rk, x)} :: 0 <= x < |T| ==> TidyAt(T, rk, x))
    && forall f, d {:trigger OneKindAt(T, f, d)} :: 0 <= f < |T| && 0 <= d < |T| ==> OneKindAt(T, f, d)
  }

  predicate OneKindAt(T: seq<BtfType>, f: nat, d: nat)
    requires f < |T| && d < |T|
  {
    T[f].kind == FWD && IsComposite(T[d].kind) && T[f].name == T[d].name ==> T[d].kind == FwdKind(T[f])
  }

  ghost predicate TidyAt(T: seq<BtfType>, rk: seq<nat>, x: nat)
    requires Closed(T) && EmbedRanked(T, rk) && x < |T|
  {
    T[x].kind !in {VAR, DATASEC} && (IsComposite(T[x].kind) ==> !HasTwins(T, rk, x))
  }

  /** The state a successful reference pass leaves. */
  ghost predicate RefsDone(T: seq<BtfType>, M: seq<nat>, cur: seq<BtfType>, table: Table, rank: seq<nat>, clock: nat)
    requires Closed(T)
  {
    && MapInv(T, M) && MapSame(T, M) && RefInv(T, M, cur) && TableInv(cur, M, table)
    && AllMapped(M) && FinishOrder(T, M, rank, clock)
    && forall x :: 0 < x < |T| ==> T[x].kind != UNKN
  }

  /** Reference kinds are taken in the order in which they were finished, all others first. */
  function Order(T: seq<BtfType>, rank: seq<nat>, x: nat): nat
    requires x < |T| == |rank|
  {
    if RefKind(T[x].kind) then rank[x] + 1 else 0
  }

  lemma SameThroughRoot(T: seq<BtfType>, M: seq<nat>, x: nat, y: nat)
    requires Closed(T) && MapInv(T, M) && MapSame(T, M) && x < |T| && y < |T| && SameMeaning(T, x, T, y)
    ensures SameMeaning(T, x, T, Resolve(T, M, x)) && SameMeaning(T, x, T, Resolve(T, M, y))
    ensures SameMeaning(T, Resolve(T, M, x), T, Resolve(T, M, y))
  {
    var r, s := Resolve(T, M, x), Resolve(T, M, y);
    ResolveKeepsMeaning(T, M, x);
    ResolveKeepsMeaning(T, M, y);
    forall n: nat ensures Unfold(T, x, n) == Unfold(T, s, n) && Unfold(T, r, n) == Unfold(T, s, n) {
      assert Unfold(T, x, n) == Unfold(T, y, n) && Unfold(T, y, n) == Unfold(T, s, n) && Unfold(T, x, n) == Unfold(T, r, n);
    }
  }

  /** Survivors of a filed kind with equal records are one. */
  lemma SurvivorsOne(T: seq<BtfType>, M: seq<nat>, cur: seq<BtfType>, table: Table, r: nat, s: nat)
    requires Closed(T) && MapInv(T, M) && RefInv(T, M, cur) && TableInv(cur, M, table)
    requires r < |T| && s < |T| && M[r] == r && M[s] == s && Filed(T[r].kind) && cur[r] == cur[s]
    ensures r == s
  {
    RecordKind(T, M, cur, r);
    if r != s {
      SurvivorsDiffer(cur, M, table, r, s);
    }
  }

  /** What the passes have done about forwards: those left have no one definition left. */
  ghost predicate ForwardsDone(T: seq<BtfType>, M: seq<nat>)
    requires MapInv(T, M)
  {
    FwdsSettled(T, M) && EnumsSettled(T, M, |T|)
  }

  /** In a tidy section a forward that survives is defined nowhere. */
  lemma SurvivorUndefined(T: seq<BtfType>, M: seq<nat>, rk: seq<nat>, r: nat)
    requires Closed(T) && EmbedRanked(T, rk) && MapInv(T, M) && AllMapped(M) && ForwardsDone(T, M) && Apart(T, rk, M) && Tidy(T, rk)
    requires r < |T| && M[r] == r && IsForward(T[r])
    ensures Read(T, T[r]) == Bare(T[r])
  {
    if d: nat :| d < |T| && Declares(T[r], T[d]) {
      if T[r].kind == FWD {
        OnlyDefinition(T, M, rk, r, d);
        assert false;
      } else {
        SettledFull(T, M, r, d);
        assert false;
      }
    }
  }

  lemma SettledFull(T: seq<BtfType>, M: seq<nat>, r: nat, d: nat)
    requires MapInv(T, M) && EnumsSettled(T, M, |T|) && r < |T| && d < |T| && IsEnumFwd(T[r]) && Declares(T[r], T[d])
    ensures Full(T, M, r)
  {
    assert EnumSettled(T, M, r, d);
  }

  /** The definitions of a forward have one representative. */
  lemma OnlyDefinition(T: seq<BtfType>, M: seq<nat>, rk: seq<nat>, r: nat, d: nat)
    requires Closed(T) && EmbedRanked(T, rk) && MapInv(T, M) && AllMapped(M) && Apart(T, rk, M) && Tidy(T, rk)
    requires r < |T| && d < |T| && T[r].kind == FWD && Declares(T[r], T[d])
    ensures OnlyComposite(T, M, Resolve(T, M, d), T[r].name) && T[Resolve(T, M, d)].kind == FwdKind(T[r])
  {
    var c := Resolve(T, M, d);
    assert Mapped(M, c) && TidyAt(T, rk, c);
    forall y | CanonComposite(T, M, y, T[r].name) ensures y == c {
      assert OneKindAt(T, r, y) && TidyAt(T, rk, y) && ApartAt(T, rk, M, c, y);
      DefinitionsAgree(T, r, c, y);
    }
  }

  /** Two survivors of one meaning, one of them a forward. */
  lemma ForwardRoots(T: seq<BtfType>, M: seq<nat>, cur: seq<BtfType>, table: Table, rk: seq<nat>, r: nat, s: nat)
    requires Closed(T) && EmbedRanked(T, rk) && MapInv(T, M) && AllMapped(M) && ForwardsDone(T, M) && Apart(T, rk, M) && Tidy(T, rk)
    requires RefInv(T, M, cur) && TableInv(cur, M, table)
    requires r < |T| && s < |T| && M[r] == r && M[s] == s && IsForward(T[r]) && SameMeaning(T, r, T, s)
    ensures r == s
  {
    SurvivorUndefined(T, M, rk, r);
    ReadShapes(T, r, s);
    BareShape(T[r], Read(T, T[s]));
    if IsForward(T[s]) {
      SurvivorUndefined(T, M, rk, s);
      assert AlikeAt(T, r, s);
      PrimRecords(T, M, cur, r, s);
      SurvivorsOne(T, M, cur, table, r, s);
    }
  }

  lemma BareShape(f: BtfType, t: BtfType)
    requires IsForward(f) && Shape(Bare(f)) == Shape(t)
    ensures IsForward(t) && Bare(t) == Bare(f)
  {
    assert Shape(Bare(f)).kind == Bare(f).kind && Shape(t).kind == t.kind && Shape(t).vlen == t.vlen && Shape(t).name == t.name;
    assert Shape(t).kflag == t.kflag && Shape(Bare(f)).kflag == Bare(f).kflag && Shape(Bare(f)).vlen == 0;
  }

  lemma Reversed(T: seq<BtfType>, a: nat, b: nat)
    requires Closed(T) && a < |T| && b < |T| && SameMeaning(T, a, T, b)
    ensures SameMeaning(T, b, T, a)
  {
    forall n: nat ensures Unfold(T, b, n) == Unfold(T, a, n) {
      assert Unfold(T, a, n) == Unfold(T, b, n);
    }
  }

  /** In a tidy section types of one meaning have one representative. */
  lemma {:induction false} SameRoots(T: seq<BtfType>, M: seq<nat>, cur: seq<BtfType>, table: Table, rk: seq<nat>,
                                     rank: seq<nat>, clock: nat, x: nat, y: nat)
    requires Closed(T) && EmbedRanked(T, rk) && RefsDone(T, M, cur, table, rank, clock) && Apart(T, rk, M) && Tidy(T, rk)
    requires ForwardsDone(T, M)
    requires x < |T| && y < |T| && SameMeaning(T, x, T, y)
    ensures Resolve(T, M, x) == Resolve(T, M, y)
    decreases Order(T, rank, x), 1
  {
    var r, s := Resolve(T, M, x), Resolve(T, M, y);
    SameThroughRoot(T, M, x, y);
    assert Mapped(M, r) && Mapped(M, s) && TidyAt(T, rk, r) && TidyAt(T, rk, s);
    if IsForward(T[r]) {
      ForwardRoots(T, M, cur, table, rk, r, s);
      return;
    } else if IsForward(T[s]) {
      Reversed(T, r, s);
      ForwardRoots(T, M, cur, table, rk, s, r);
      return;
    }
    SameKind(T, r, s);
    if T[r].kind == UNKN {
      assert r == 0 && s == 0;
    } else if IsComposite(T[r].kind) {
      assert ApartAt(T, rk, M, r, s);
    } else if RefKind(T[r].kind) {
      SameKind(T, x, r);
      RootRefs(T, M, cur, table, rk, rank, clock, x, r);
      RootRefs(T, M, cur, table, rk, rank, clock, x, s);
      SameRecords(T, M, cur, r, s);
      SurvivorsOne(T, M, cur, table, r, s);
    } else {
      PrimRecords(T, M, cur, r, s);
      SurvivorsOne(T, M, cur, table, r, s);
    }
  }

  /** A root of the meaning of `x` refers to the roots of what `x` refers to. */
  lemma {:induction false} RootRefs(T: seq<BtfType>, M: seq<nat>, cur: seq<BtfType>, table: Table, rk: seq<nat>,
                                    rank: seq<nat>, clock: nat, x: nat, r: nat)
    requires Closed(T) && EmbedRanked(T, rk) && RefsDone(T, M, cur, table, rank, clock) && Apart(T, rk, M) && Tidy(T, rk)
    requires ForwardsDone(T, M)
    requires x < |T| && r < |T| && RefKind(T[x].kind) && RefKind(T[r].kind) && SameMeaning(T, x, T, r)
    ensures |cur[r].refs| == |T[x].refs| && Shape(cur[r]) == Shape(T[x])
    ensures forall i :: 0 <= i < |T[x].refs| ==> cur[r].refs[i] == Resolve(T, M, T[x].refs[i])
    decreases Order(T, rank, x), 0
  {
    SameMeaningCompares(T, x, r);
    assert RecordOk(T, M, cur, r) && Mapped(M, r) && Mapped(M, x) && FinishedOk(T, M, rank, clock, x);
    forall i | 0 <= i < |T[x].refs| ensures cur[r].refs[i] == Resolve(T, M, T[x].refs[i]) {
      var b := T[x].refs[i];
      if RefKind(T[b].kind) {
        assert RefEdge(T, x, b);
      }
      SameRoots(T, M, cur, table, rk, rank, clock, b, T[r].refs[i]);
    }
  }

  lemma SameRecords(T: seq<BtfType>, M: seq<nat>, cur: seq<BtfType>, r: nat, s: nat)
    requires Closed(T) && MapInv(T, M) && RefInv(T, M, cur) && r < |T| && s < |T|
    requires Shape(cur[r]) == Shape(cur[s]) && |cur[r].refs| == |cur[s].refs|
    requires forall i :: 0 <= i < |cur[r].refs| ==> cur[r].refs[i] == cur[s].refs[i]
    ensures cur[r] == cur[s]
  {
    assert cur[r].refs == cur[s].refs;
    assert cur[r] == Shape(cur[r]).(refs := cur[r].refs) && cur[s] == Shape(cur[s]).(refs := cur[s].refs);
  }

  /** Types of one meaning without references have equal records. */
  lemma PrimRecords(T: seq<BtfType>, M: seq<nat>, cur: seq<BtfType>, r: nat, s: nat)
    requires Closed(T) && MapInv(T, M) && RefInv(T, M, cur) && r < |T| && s < |T| && Shape(T[r]) == Shape(T[s])
    requires PrimKind(T[r].kind) && Mapped(M, r) && Mapped(M, s)
    ensures cur[r] == cur[s]
  {
    ShapeDeterminesRefs(T[r], T[s]);
    assert RecordOk(T, M, cur, r) && RecordOk(T, M, cur, s);
    assert WellFormed(T[r]) && WellFormed(T[s]);
    assert T[r].refs == [] && T[s].refs == [];
    assert T[r] == Shape(T[r]).(refs := []) && T[s] == Shape(T[s]).(refs := []);
  }

  /** In a tidy section two types share one output type if and only if they mean the same. */
  lemma SharedIffSame(T: seq<BtfType>, M: seq<nat>, cur: seq<BtfType>, table: Table, H: seq<nat>, out: seq<BtfType>,
                      rk: seq<nat>, rank: seq<nat>, clock: nat, x: nat, y: nat)
    requires Closed(T) && EmbedRanked(T, rk) && RefsDone(T, M, cur, table, rank, clock) && Apart(T, rk, M) && Tidy(T, rk)
    requires ForwardsDone(T, M)
    requires IsOutput(T, M, cur, H, out) && x < |T| && y < |T|
    ensures NewId(T, M, H, x) == NewId(T, M, H, y) <==> SameMeaning(T, x, T, y)
  {
    if SameMeaning(T, x, T, y) {
      SameRoots(T, M, cur, table, rk, rank, clock, x, y);
    }
    if NewId(T, M, H, x) == NewId(T, M, H, y) {
      OutputClosed(T, M, cur, H, out);
      forall n: nat ensures Unfold(T, x, n) == Unfold(T, y, n) {
        MeaningPreserved(T, M, cur, H, out, x, n);
        MeaningPreserved(T, M, cur, H, out, y, n);
      }
    }
  }
}

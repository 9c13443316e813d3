/** In-place deduplication of the types of a BTF section. */
module Dedup {
  import opened BtfTypes
  import opened BtfEqual
  import opened CanonMap
  import opened GraphEquiv
  import opened DedupTable
  import opened RefPass
  import opened DedupOutput

  const ELOOP := -40

  // ----- The list of touched hypothetical slots -----

  ghost predicate Distinct(s: seq<nat>) {
    forall i, j :: 0 <= i < j < |s| ==> s[i] != s[j]
  }

  /** The list holds exactly the set slots, each once. */
  ghost predicate ListsSetSlots(list: seq<nat>, H: seq<nat>) {
    && Distinct(list)
    && (forall k :: 0 <= k < |H| ==> (k in list <==> H[k] <= MAX_NR_TYPES))
    && (forall i :: 0 <= i < |list| ==> list[i] < |H|)
  }

  lemma {:induction false} DistinctBounded(s: seq<nat>, n: nat)
    requires Distinct(s) && forall i :: 0 <= i < |s| ==> s[i] < n
    ensures |s| <= n
    decreases n
  {
    assert |s| == 0 || s[0] < n;
    if i :| 0 <= i < |s| && s[i] == n - 1 {
      var t := s[..i] + s[i + 1..];
      forall j | 0 <= j < |t| ensures t[j] < n - 1 {
        assert t[j] == if j < i then s[j] else s[j + 1];
      }
      DistinctBounded(t, n - 1);
    } else if n > 0 {
      DistinctBounded(s, n - 1);
    }
  }

  /** Every pair added since `H0` has been checked all the way down. */
  ghost predicate NewMatched(T: seq<BtfType>, M: seq<nat>, rk: seq<nat>, H0: seq<nat>, H: seq<nat>)
    requires Closed(T) && MapInv(T, M) && EmbedRanked(T, rk) && HypotOk(T, H) && |H0| == |H|
  {
    forall k :: 0 <= k < |T| && H0[k] > MAX_NR_TYPES ==> Matched(T, M, rk, H, k)
  }

  lemma NewMatchedSelf(T: seq<BtfType>, M: seq<nat>, rk: seq<nat>, H: seq<nat>)
    requires Closed(T) && MapInv(T, M) && EmbedRanked(T, rk) && HypotOk(T, H)
    ensures Extends(H, H) && NewMatched(T, M, rk, H, H)
  {
  }

  lemma NewMatchedCompose(T: seq<BtfType>, M: seq<nat>, rk: seq<nat>, H1: seq<nat>, H2: seq<nat>, H3: seq<nat>)
    requires Closed(T) && MapInv(T, M) && EmbedRanked(T, rk) && HypotOk(T, H2) && HypotOk(T, H3)
    requires |H1| == |T| && Extends(H1, H2) && Extends(H2, H3)
    requires NewMatched(T, M, rk, H1, H2) && NewMatched(T, M, rk, H2, H3)
    ensures Extends(H1, H3) && NewMatched(T, M, rk, H1, H3)
  {
    forall k | 0 <= k < |T| && H1[k] > MAX_NR_TYPES ensures Matched(T, M, rk, H3, k) {
      assert Matched(T, M, rk, H2, k);
      if H2[k] <= MAX_NR_TYPES {
        MatchedKept(T, M, rk, H2, H3, k);
      }
    }
  }

  /** Once its children are done, the pair itself counts as checked. */
  lemma CloseNode(T: seq<BtfType>, M: seq<nat>, rk: seq<nat>, H0: seq<nat>, H: seq<nat>, c: nat, k: nat)
    requires Closed(T) && MapInv(T, M) && EmbedRanked(T, rk) && HypotOk(T, H)
    requires |H0| == |T| && c < |T| && k < |T| && H0[k] > MAX_NR_TYPES
    requires Extends(H0[k := c], H) && NewMatched(T, M, rk, H0[k := c], H)
    requires LocalMatch(T[c], T[k])
    requires T[c].kind == T[k].kind ==>
               |T[c].refs| == |T[k].refs| && ChildrenRelated(T, M, rk, H, c, k, |T[k].refs|)
    ensures Extends(H0, H) && NewMatched(T, M, rk, H0, H)
  {
    assert H0[k := c][k] <= MAX_NR_TYPES;
    assert H[k] == c;
    assert Matched(T, M, rk, H, k);
    forall j | 0 <= j < |T| && H0[j] > MAX_NR_TYPES ensures Matched(T, M, rk, H, j) {
      if j != k { assert H0[k := c][j] > MAX_NR_TYPES; }
    }
  }


  lemma SameThrough(T: seq<BtfType>, a: nat, b: nat, c: nat, d: nat)
    requires Closed(T) && a < |T| && b < |T| && c < |T| && d < |T|
    requires SameMeaning(T, b, T, a) && SameMeaning(T, b, T, c) && SameMeaning(T, c, T, d)
    ensures SameMeaning(T, a, T, d)
  {
    forall n: nat ensures Unfold(T, a, n) == Unfold(T, d, n) {
      assert Unfold(T, b, n) == Unfold(T, a, n);
      assert Unfold(T, b, n) == Unfold(T, c, n);
      assert Unfold(T, c, n) == Unfold(T, d, n);
    }
  }

  lemma EqualTypesSame(T: seq<BtfType>, a: nat, b: nat)
    requires Closed(T) && a < |T| && b < |T| && T[a] == T[b]
    ensures SameMeaning(T, a, T, b)
  {
    forall n: nat ensures Unfold(T, a, n) == Unfold(T, b, n) { }
  }

  /** None of the first `i` candidates is the record `t`. */
  ghost predicate NoneEqual(T: seq<BtfType>, cs: seq<nat>, i: nat, t: BtfType) {
    i <= |cs| && forall j :: 0 <= j < i ==> cs[j] < |T| && T[cs[j]] != t
  }

  lemma NoneEqualStep(T: seq<BtfType>, cs: seq<nat>, i: nat, t: BtfType)
    requires NoneEqual(T, cs, i, t) && i < |cs| && cs[i] < |T| && T[cs[i]] != t
    ensures NoneEqual(T, cs, i + 1, t)
  {
  }

  lemma NoneEqualInTable(T: seq<BtfType>, M: seq<nat>, table: Table, cs: seq<nat>, t: BtfType)
    requires TableInv(T, M, table) && NoneEqual(T, cs, |cs|, t) && WellFormed(t)
    requires forall x :: (Signature(t), x) in table ==> x in cs
    ensures NotFiled(T, table, t)
  {
    forall e | e in table ensures e.1 < |T| && T[e.1] != t {
      assert EntryOk(T, M, e);
      if e.0 == Signature(t) {
        assert e.1 in cs;
      }
    }
  }

  /** `y` is merged with `x` if they mean the same, but for twins in the graph of `x`. */
  ghost predicate NotSame(T: seq<BtfType>, rk: seq<nat>, x: nat, y: nat)
    requires Closed(T) && EmbedRanked(T, rk) && x < |T|
  {
    y < |T| && (Uniform(T) && IsComposite(T[y].kind) && SameMeaning(T, x, T, y) ==> HasTwins(T, rk, x))
  }

  ghost predicate NoneSame(T: seq<BtfType>, rk: seq<nat>, cs: seq<nat>, i: nat, x: nat)
    requires Closed(T) && EmbedRanked(T, rk) && x < |T|
  {
    i <= |cs| && forall j {:trigger cs[j]} :: 0 <= j < i ==> NotSame(T, rk, x, cs[j])
  }

  /** No survivor of the meaning of `x`, but for twins in its graph. */
  ghost predicate NoSurvivor(T: seq<BtfType>, rk: seq<nat>, M: seq<nat>, x: nat)
    requires Closed(T) && EmbedRanked(T, rk) && x < |T|
  {
    |M| == |T| && forall y {:trigger NotSame(T, rk, x, y)} :: 0 <= y < |T| && y != x && IsComposite(T[y].kind) && M[y] == y ==> NotSame(T, rk, x, y)
  }

  lemma NoneSameStart(T: seq<BtfType>, rk: seq<nat>, cs: seq<nat>, x: nat)
    requires Closed(T) && EmbedRanked(T, rk) && x < |T|
    ensures NoneSame(T, rk, cs, 0, x)
  {
  }

  lemma NoneSameStep(T: seq<BtfType>, rk: seq<nat>, cs: seq<nat>, i: nat, x: nat)
    requires Closed(T) && EmbedRanked(T, rk) && x < |T| && NoneSame(T, rk, cs, i, x) && i < |cs| && NotSame(T, rk, x, cs[i])
    ensures NoneSame(T, rk, cs, i + 1, x)
  {
    hide NotSame;
  }

  lemma DifferentShape(T: seq<BtfType>, rk: seq<nat>, x: nat, y: nat)
    requires Closed(T) && EmbedRanked(T, rk) && x < |T| && y < |T| && IsComposite(T[x].kind)
    requires !ShallowEqualStruct(T[x], T[y])
    ensures NotSame(T, rk, x, y)
  {
    if IsComposite(T[y].kind) && SameMeaning(T, x, T, y) {
      SameKind(T, x, y);
      ShallowChecksDecideShape(T[x], T[y]);
    }
  }

  /** All survivors are filed, those of one meaning under one hash. */
  lemma NoneSameInTable(T: seq<BtfType>, rk: seq<nat>, M: seq<nat>, table: Table, cs: seq<nat>, x: nat)
    requires Closed(T) && EmbedRanked(T, rk) && TableInv(T, M, table) && x < |T| && IsComposite(T[x].kind)
    requires NoneSame(T, rk, cs, |cs|, x) && forall y :: (Signature(T[x]), y) in table ==> y in cs
    ensures NoSurvivor(T, rk, M, x)
  {
    forall y | 0 <= y < |T| && y != x && IsComposite(T[y].kind) && M[y] == y ensures NotSame(T, rk, x, y) {
      assert FiledOk(T, M, table, y);
      if SameMeaning(T, x, T, y) {
        SameKind(T, x, y);
        ShallowChecksDecideShape(T[x], T[y]);
        ChecksImplyEqualHash(T[x], T[y]);
        assert y in cs;
      }
    }
  }

  ghost predicate MappedKept(M: seq<nat>, N: seq<nat>) {
    |M| == |N| && forall x {:trigger N[x]} :: 0 <= x < |M| && M[x] <= MAX_NR_TYPES ==> N[x] == M[x]
  }

  /** Composites are all mapped before the reference pass. */
  lemma ApartBehindRefs(T: seq<BtfType>, rk: seq<nat>, M: seq<nat>, N: seq<nat>)
    requires Closed(T) && EmbedRanked(T, rk) && StructStage(T, M, |T|) && MappedKept(M, N)
    requires Uniform(T) ==> Apart(T, rk, M)
    ensures Uniform(T) ==> Apart(T, rk, N)
  {
    if Uniform(T) {
      forall x | 0 <= x < |T| && IsComposite(T[x].kind) && N[x] == x ensures M[x] == x {
        assert x > 0 && StructOk(T, M, |T|, x);
      }
      ApartKept(T, rk, M, N);
    }
  }

  /** Before the composite pass no composite survives. */
  lemma NoneApart(T: seq<BtfType>, rk: seq<nat>, M: seq<nat>)
    requires Closed(T) && EmbedRanked(T, rk) && PrimStage(T, M, |T|) && |T| <= MAX_NR_TYPES
    ensures Apart(T, rk, M)
  {
    forall a, b | 0 <= a < |T| && 0 <= b < |T| ensures ApartAt(T, rk, M, a, b) {
      assert a > 0 ==> PrimOk(T, M, |T|, a);
    }
  }

  lemma ApartBehindFwds(T: seq<BtfType>, rk: seq<nat>, M: seq<nat>, N: seq<nat>)
    requires Closed(T) && EmbedRanked(T, rk) && |M| == |T| && FwdsResolved(T, M, N, |T|)
    requires Uniform(T) ==> Apart(T, rk, M)
    ensures Uniform(T) ==> Apart(T, rk, N)
  {
    if Uniform(T) {
      ApartKept(T, rk, M, N);
    }
  }

  lemma MergeFewer(T: seq<BtfType>, M: seq<nat>, N: seq<nat>)
    requires |M| == |T| && OnlyMerged(T, M, N)
    ensures FewerRoots(M, N)
  {
  }

  /** No type has become its own representative. */
  ghost predicate FewerRoots(M: seq<nat>, N: seq<nat>) {
    |M| == |N| && forall x {:trigger N[x]} :: 0 <= x < |M| && N[x] == x ==> M[x] == x
  }

  lemma ApartFewer(T: seq<BtfType>, rk: seq<nat>, M: seq<nat>, N: seq<nat>)
    requires Closed(T) && EmbedRanked(T, rk) && FewerRoots(M, N) && |M| == |T|
    requires Uniform(T) ==> Apart(T, rk, M)
    ensures Uniform(T) ==> Apart(T, rk, N)
  {
    if Uniform(T) {
      ApartKept(T, rk, M, N);
    }
  }

  lemma ApartMore(T: seq<BtfType>, rk: seq<nat>, M: seq<nat>, x: nat)
    requires Closed(T) && EmbedRanked(T, rk) && x < |M| == |T| && NoSurvivor(T, rk, M, x)
    requires Uniform(T) ==> Apart(T, rk, M)
    ensures Uniform(T) ==> Apart(T, rk, M[x := x])
  {
    if Uniform(T) {
      forall y | 0 <= y < |T| && y != x && IsComposite(T[y].kind) && M[y] == y ensures NotSame(T, rk, x, y) { }
      ApartAdded(T, rk, M, x);
    }
  }

  /** A run of the reference pass touches only types it has found unprocessed (and the
      record of `ex`), and leaves none of them in progress if it succeeds. */
  ghost predicate RefFrame(M: seq<nat>, N: seq<nat>, cur: seq<BtfType>, cur': seq<BtfType>, ex: int, done: bool) {
    && |M| == |N| == |cur| == |cur'|
    && (forall x :: 0 <= x < |M| && M[x] != UNPROCESSED_ID ==> N[x] == M[x] && (x != ex ==> cur'[x] == cur[x]))
    && (done ==> forall x :: 0 <= x < |M| && N[x] == IN_PROGRESS_ID ==> M[x] == IN_PROGRESS_ID)
  }

  lemma FrameCompose(M: seq<nat>, N: seq<nat>, L: seq<nat>, a: seq<BtfType>, b: seq<BtfType>, c: seq<BtfType>,
                     ex: int, done: bool)
    requires RefFrame(M, N, a, b, ex, true) && RefFrame(N, L, b, c, -1, done)
    ensures RefFrame(M, L, a, c, ex, done)
  {
  }

  lemma FrameRewrite(M: seq<nat>, N: seq<nat>, a: seq<BtfType>, b: seq<BtfType>, ex: nat, t: BtfType)
    requires RefFrame(M, N, a, b, ex, true) && ex < |b|
    ensures RefFrame(M, N, a, b[ex := t], ex, true)
  {
  }

  lemma FrameShrinks(M: seq<nat>, N: seq<nat>, a: seq<BtfType>, b: seq<BtfType>, ex: int)
    requires RefFrame(M, N, a, b, ex, true)
    ensures Unprocessed(N) <= Unprocessed(M)
  {
  }

  /** The frame of the whole visit of `id`, from that of what happened while it was in progress. */
  lemma FrameEnd(M: seq<nat>, L: seq<nat>, a: seq<BtfType>, c: seq<BtfType>, id: nat, y: nat)
    requires id < |M| && M[id] == UNPROCESSED_ID && y <= MAX_NR_TYPES
    requires RefFrame(M[id := IN_PROGRESS_ID], L, a, c, id, true)
    ensures RefFrame(M, L[id := y], a, c, -1, true)
  {
    var M1 := M[id := IN_PROGRESS_ID];
    forall x | 0 <= x < |M| && M[x] != UNPROCESSED_ID ensures L[id := y][x] == M[x] && c[x] == a[x] {
      assert M1[x] == M[x];
    }
  }

  lemma FrameFailed(M: seq<nat>, L: seq<nat>, a: seq<BtfType>, c: seq<BtfType>, id: nat)
    requires id < |M| && M[id] == UNPROCESSED_ID
    requires RefFrame(M[id := IN_PROGRESS_ID], L, a, c, id, false)
    ensures RefFrame(M, L, a, c, -1, false)
  {
    var M1 := M[id := IN_PROGRESS_ID];
    forall x | 0 <= x < |M| && M[x] != UNPROCESSED_ID ensures L[x] == M[x] && c[x] == a[x] {
      assert M1[x] == M[x];
    }
  }

  lemma StackGrows(T: seq<BtfType>, M0: seq<nat>, M: seq<nat>, stack: seq<nat>, id: nat, i: nat)
    requires Closed(T) && |M0| == |M| == |T| && StackOk(T, M0, stack) && id < |T| && RefKind(T[id].kind)
    requires |stack| > 0 ==> RefEdge(T, stack[|stack| - 1], id)
    requires forall x :: 0 <= x < |M| && M[x] == IN_PROGRESS_ID ==> x == id || M0[x] == IN_PROGRESS_ID
    requires i < |T[id].refs|
    ensures StackOk(T, M, stack + [id])
    ensures RefKind(T[T[id].refs[i]].kind) ==> RefEdge(T, (stack + [id])[|stack|], T[id].refs[i])
  {
    var s := stack + [id];
    forall j | 0 <= j < |s| - 1 ensures RefEdge(T, s[j], s[j + 1]) {
      if j + 1 < |stack| {
        assert RefEdge(T, stack[j], stack[j + 1]);
      }
    }
    forall x | 0 <= x < |T| && M[x] == IN_PROGRESS_ID ensures x in s {
      assert s[|stack|] == id;
      if x != id {
        assert x in stack;
      }
    }
  }

  /** The order in which a record's references are walked: an array's index type comes first. */
  function VisitOrder(t: BtfType): (order: seq<nat>)
    requires WellFormed(t)
    ensures |order| == |t.refs|
    ensures forall r :: 0 <= r < |order| ==> order[r] < |order| && r in order
  {
    if t.kind == ARRAY then
      assert [1, 0][1] == 0;
      [1, 0]
    else
      var order := seq(|t.refs|, i => i);
      IdentityIn(order);
      order
  }

  lemma IdentityIn(order: seq<nat>)
    requires forall r :: 0 <= r < |order| ==> order[r] == r
    ensures forall r :: 0 <= r < |order| ==> r in order
  {
    forall r | 0 <= r < |order| ensures r in order {
      assert order[r] == r;
    }
  }

  function StartSlot(k: Kind, id: nat): nat {
    if k == VAR || k == DATASEC then id else UNPROCESSED_ID
  }

  lemma StartIsReady(T: seq<BtfType>, M: seq<nat>)
    requires Closed(T) && 0 < |M| == |T| <= MAX_NR_TYPES && M[0] == 0
    requires forall x :: 0 < x < |T| ==> M[x] == StartSlot(T[x].kind, x)
    ensures MapInv(T, M) && MapSame(T, M) && TableInv(T, M, multiset{}) && PrimStage(T, M, 1)
  {
    forall x | 0 <= x < |T| ensures SlotSame(T, M, x) && FiledOk(T, M, multiset{}, x) { }
    forall x | 0 < x < |T| ensures PrimOk(T, M, 1, x) { }
  }

  class Dedup {
    const n: nat
    const types: array<BtfType>
    const canonMap: array<nat>
    const hypotMap: array<nat>
    var hypotList: seq<nat>
    var table: Table
    /** Number of types left, void included, once the section has been compacted. */
    var nr: nat

    /** The input, and a witness that by-value embedding is well-founded in it. */
    ghost const orig: seq<BtfType>
    ghost const rk: seq<nat>
    /** Finishing times of the reference pass. */
    ghost var rank: seq<nat>
    ghost var clock: nat
    /** The forwards that an accepted walk has met opposite a definition. */
    ghost var met: set<nat>

    /** Set up the map: void, variables and data sections are their own representatives. */
    constructor (input: array<BtfType>, ghost embed: seq<nat>)
      requires input.Length <= MAX_NR_TYPES && Closed(input[..]) && EmbedRanked(input[..], embed)
      ensures Initial() && types == input && orig == old(input[..])
      ensures fresh(canonMap) && fresh(hypotMap)
    {
      n, types, nr := input.Length, input, input.Length;
      orig, rk := input[..], embed;
      canonMap := new nat[input.Length](i => UNPROCESSED_ID);
      hypotMap := new nat[input.Length](i => UNPROCESSED_ID);
      hypotList, table := [], multiset{};
      rank, clock, met := [], 0, {};
      new;
      canonMap[0] := 0;
      var i := 1;
      while i < n
        invariant 1 <= i <= n && canonMap[0] == 0 && types[..] == orig
        invariant hypotList == [] && table == multiset{} && met == {}
        invariant forall x :: 0 < x < i ==> canonMap[x] == StartSlot(orig[x].kind, x)
        invariant forall x :: i <= x < n ==> canonMap[x] == UNPROCESSED_ID
        invariant forall x :: 0 <= x < n ==> hypotMap[x] == UNPROCESSED_ID
      {
        canonMap[i] := StartSlot(types[i].kind, i);
        i := i + 1;
      }
      StartIsReady(orig, canonMap[..]);
    }

    /** The state before the first pass. */
    ghost predicate Initial()
      reads this, types, canonMap, hypotMap
    {
      && MapValid() && HypotValid() && Unchanged() && TableValid() && TableBelow(1)
      && PrimStage(orig, canonMap[..], 1) && met == {}
    }

    ghost predicate Layout()
    {
      && types.Length == n && canonMap.Length == n && hypotMap.Length == n
      && canonMap != hypotMap && types as object != canonMap && types as object != hypotMap
      && |orig| == n <= MAX_NR_TYPES
      && Closed(orig) && EmbedRanked(orig, rk)
    }

    /** The invariant of the canonical map, in every state of every pass. */
    ghost predicate MapValid()
      reads canonMap
    {
      && Layout()
      && MapInv(orig, canonMap[..])
      && (OneDefinition(orig) ==> MapSame(orig, canonMap[..]))
    }

    ghost predicate HypotValid()
      reads `hypotList, hypotMap
    {
      && Layout()
      && HypotOk(orig, hypotMap[..])
      && ListsSetSlots(hypotList, hypotMap[..])
    }

    /** Type records are still the input's: true up to the reference pass. */
    ghost predicate Unchanged()
      reads types
    {
      Layout() && types[..] == orig
    }

    /** Every forward that an accepted walk has met opposite a definition ends at a definition. */
    ghost predicate MetResolved()
      requires MapValid()
      reads canonMap, `met
    {
      forall f {:trigger f in met} :: f in met ==> f < n && orig[f].kind == FWD && Defined(orig, canonMap[..], f)
    }

    /** After a merge the forwards of the walk are resolved too. */
    lemma MetGrows(M: seq<nat>, all: set<nat>)
      requires all == met + MetIn(orig, hypotMap[..])
      requires MapValid() && HypotValid() && MapInv(orig, M) && DefinedStays(orig, M, canonMap[..])
      requires forall f {:trigger f in met} :: f in met ==> f < n && orig[f].kind == FWD && Defined(orig, M, f)
      requires forall k :: 0 <= k < n && hypotMap[k] <= MAX_NR_TYPES ==> PairDefined(orig, canonMap[..], hypotMap[k], k)
      ensures forall f {:trigger f in all} :: f in all ==> f < n && orig[f].kind == FWD && Defined(orig, canonMap[..], f)
    {
      hide Resolve, MapInv;
      forall f | f in MetIn(orig, hypotMap[..]) ensures Defined(orig, canonMap[..], f) {
        var k :| 0 <= k < n && hypotMap[k] < n && FwdMeetsDef(orig, hypotMap[k], k) && (f == k || f == hypotMap[k]);
        assert PairDefined(orig, canonMap[..], hypotMap[k], k);
      }
    }

    lemma MetStays(M: seq<nat>)
      requires MapValid() && MapInv(orig, M) && DefinedStays(orig, M, canonMap[..])
      requires forall f :: f in met ==> f < n && orig[f].kind == FWD && Defined(orig, M, f)
      ensures MetResolved()
    {
    }

    // ----- Chasing the map -----

    method ResolveTypeId(id: nat) returns (r: nat)
      requires MapValid() && id < n
      ensures r == Resolve(orig, canonMap[..], id)
    {
      r := id;
      while canonMap[r] <= MAX_NR_TYPES && canonMap[r] != r
        invariant r < n && Resolve(orig, canonMap[..], r) == Resolve(orig, canonMap[..], id)
        decreases Rank(orig, canonMap[..], r)
      {
        assert LinkOk(orig, canonMap[..], r);
        r := canonMap[r];
      }
    }

    method ResolveFwdId(id: nat) returns (r: nat)
      requires MapValid() && Unchanged() && id < n
      ensures r == ResolveFwd(orig, canonMap[..], id)
    {
      if types[id].kind != FWD {
        return id;
      }
      var t := ResolveTypeId(id);
      assert types[t] == orig[t];
      if types[t].kind != FWD {
        return t;
      }
      r := id;
    }

    // ----- The hypothetical map -----

    method HypotMapAdd(from: nat, to: nat)
      requires HypotValid() && from < n && to < n && hypotMap[from] > MAX_NR_TYPES
      modifies hypotMap, `hypotList
      ensures HypotValid()
      ensures hypotMap[..] == old(hypotMap[..])[from := to]
      ensures hypotList == old(hypotList) + [from]
    {
      hypotList := hypotList + [from];
      hypotMap[from] := to;
    }

    /** Clearing restores the all-unprocessed map by visiting only the listed slots. */
    method ClearHypotMap()
      requires HypotValid()
      modifies hypotMap, `hypotList
      ensures HypotValid() && hypotList == []
      ensures forall k :: 0 <= k < n ==> hypotMap[k] > MAX_NR_TYPES
      ensures old(hypotList) == [] ==> hypotMap[..] == old(hypotMap[..])
      ensures forall k :: 0 <= k < n ==>
                hypotMap[k] == if k in old(hypotList) then UNPROCESSED_ID else old(hypotMap[k])
    {
      var i := 0;
      while i < |hypotList|
        invariant 0 <= i <= |hypotList|
        invariant hypotList == old(hypotList)
        invariant forall k :: 0 <= k < n ==>
                    hypotMap[k] == if k in hypotList[..i] then UNPROCESSED_ID else old(hypotMap[k])
      {
        assert hypotList[..i + 1] == hypotList[..i] + [hypotList[i]];
        hypotMap[hypotList[i]] := UNPROCESSED_ID;
        i := i + 1;
      }
      assert hypotList[..i] == hypotList;
      hypotList := [];
    }

    // ----- Graph equivalence -----

    /** The walk has to look at this pair: it is neither merged nor recorded yet. */
    ghost predicate FreshPair(cand: nat, canon: nat, H: seq<nat>)
      requires MapValid() && cand < n && canon < n && |H| == n
      reads canonMap
    {
      && Resolve(orig, canonMap[..], cand) != Resolve(orig, canonMap[..], canon)
      && H[ResolveFwd(orig, canonMap[..], canon)] > MAX_NR_TYPES
    }

    /** Side-by-side walk of the graphs of `cand` and `canon0`.  A positive answer certifies
        every hypothetical pair the walk has added; any other is refuted by a pair it has reached. */
    method IsEquiv(cand: nat, canon0: nat, ghost root: nat) returns (eq: int)
      requires MapValid() && HypotValid() && Unchanged() && cand < n && canon0 < n && root < n
      modifies hypotMap, `hypotList
      ensures HypotValid() && old(hypotList) <= hypotList && (eq >= 0 || eq == EINVAL)
      ensures Extends(old(hypotMap[..]), hypotMap[..])
      ensures eq <= 0 ==> Refuted(orig, canonMap[..], rk, hypotMap[..], cand, canon0, eq)
      ensures eq > 0 ==>
                && Related(orig, canonMap[..], rk, hypotMap[..], cand, canon0)
                && NewMatched(orig, canonMap[..], rk, old(hypotMap[..]), hypotMap[..])
      ensures Traced(orig, root, old(hypotMap[..]), cand, canon0, hypotMap[..])
      ensures FreshPair(cand, canon0, old(hypotMap[..])) ==>
                && |hypotList| > |old(hypotList)|
                && hypotList[|old(hypotList)|] == ResolveFwd(orig, canonMap[..], canon0)
                && hypotMap[hypotList[|old(hypotList)|]] == cand
      decreases n - |hypotList|, 0
    {
      hide NewMatched, Matched, LocalMatch, Traced, MapSame, OneDefinition, IdenticalStructs, IdenticalArrays, Represents, Root;
      NewMatchedSelf(orig, canonMap[..], rk, hypotMap[..]);
      TracedStart(root, hypotMap[..], cand, canon0);
      var a := ResolveTypeId(cand);
      var b := ResolveTypeId(canon0);
      if a == b {
        return 1;
      }
      var canon := ResolveFwdId(canon0);
      var h := hypotMap[canon];
      if h <= MAX_NR_TYPES {
        if h == cand || IdenticalArrays(types[..], h, cand) || IdenticalStructs(types[..], rk, h, cand) {
          return 1;
        }
        assert Diverges(orig, canonMap[..], rk, hypotMap[..], cand, canon0, 0, []);
        return 0;
      }
      ghost var M := canonMap[..];
      ghost var H0 := hypotMap[..];
      HypotMapAdd(canon, cand);
      DistinctBounded(hypotList, n);
      eq := CompareRecords(cand, canon, H0, root);
      TracedFrom(root, H0, cand, canon0, canon, hypotMap[..]);
      assert ResolveFwd(orig, M, canon0) == canon;
      if eq <= 0 {
        PairRefutes(orig, M, rk, hypotMap[..], cand, canon0, eq);
      }
    }

    lemma TracedFrom(root: nat, H0: seq<nat>, cand: nat, canon0: nat, canon: nat, H: seq<nat>)
      requires MapValid() && root < n && |H0| == n && cand < n && canon0 < n && canon == ResolveFwd(orig, canonMap[..], canon0)
      requires Traced(orig, root, H0[canon := cand], cand, canon, H)
      ensures Traced(orig, root, H0, cand, canon0, H)
    {
      if Uniform(orig) && Walked(orig, root, H0) && GoodPair(orig, root, cand, canon0) {
        GoodResolved(orig, canonMap[..], root, cand, canon0);
        WalkedAdd(orig, root, H0, cand, canon);
      }
    }

    /** The pair just recorded: compare the two records, then walk their references. */
    method CompareRecords(cand: nat, canon: nat, ghost H0: seq<nat>, ghost root: nat) returns (eq: int)
      requires MapValid() && HypotValid() && Unchanged() && cand < n && canon < n && root < n
      requires |H0| == n && H0[canon] > MAX_NR_TYPES && hypotMap[..] == H0[canon := cand]
      requires |hypotList| <= n
      modifies hypotMap, `hypotList
      ensures HypotValid() && old(hypotList) <= hypotList && (eq >= 0 || eq == EINVAL)
      ensures Extends(H0, hypotMap[..])
      ensures hypotMap[canon] == cand
      ensures eq > 0 ==> NewMatched(orig, canonMap[..], rk, H0, hypotMap[..])
      ensures eq <= 0 ==> PairRefuted(orig, canonMap[..], rk, hypotMap[..], cand, canon, eq)
      ensures Traced(orig, root, H0[canon := cand], cand, canon, hypotMap[..])
      decreases n - |hypotList|, 2
    {
      eq := LocalCheck(types[cand], types[canon]);
      if eq <= 0 {
        return;
      }
      LocalMatchShape(orig[cand], orig[canon]);
      if types[cand].kind != types[canon].kind {
        CloseNode(orig, canonMap[..], rk, H0, hypotMap[..], cand, canon);
        return;
      }
      eq := IsEquivRefs(cand, canon, VisitOrder(types[cand]), H0, root);
    }

    /** Walk the references of the pair just recorded, in the given order. */
    method IsEquivRefs(cand: nat, canon: nat, order: seq<nat>, ghost H0: seq<nat>, ghost root: nat) returns (eq: int)
      requires MapValid() && HypotValid() && Unchanged() && cand < n && canon < n && root < n
      requires |H0| == n && H0[canon] > MAX_NR_TYPES && hypotMap[..] == H0[canon := cand]
      requires LocalMatch(orig[cand], orig[canon]) && orig[cand].kind == orig[canon].kind
      requires |orig[cand].refs| == |orig[canon].refs| == |order|
      requires forall i :: 0 <= i < |order| ==> order[i] < |order|
      requires forall r :: 0 <= r < |order| ==> r in order
      requires |hypotList| <= n
      modifies hypotMap, `hypotList
      ensures HypotValid() && old(hypotList) <= hypotList && (eq >= 0 || eq == EINVAL)
      ensures Extends(H0, hypotMap[..])
      ensures hypotMap[canon] == cand
      ensures eq > 0 ==> NewMatched(orig, canonMap[..], rk, H0, hypotMap[..])
      ensures eq <= 0 ==> RefutedBelow(orig, canonMap[..], rk, hypotMap[..], cand, canon, eq)
      ensures Traced(orig, root, H0[canon := cand], cand, canon, hypotMap[..])
      decreases n - |hypotList|, 1
    {
      hide Related, NewMatched, LocalMatch, MapInv, MapSame, OneDefinition, Matched, Refuted, Traced;
      ghost var M, H1 := canonMap[..], hypotMap[..];
      NewMatchedSelf(orig, M, rk, H1);
      TracedStart(root, H1, cand, canon);
      var i := 0;
      while i < |order|
        invariant 0 <= i <= |order| && HypotValid() && old(hypotList) <= hypotList
        invariant Extends(H1, hypotMap[..]) && NewMatched(orig, M, rk, H1, hypotMap[..])
        invariant Traced(orig, root, H1, cand, canon, hypotMap[..])
        invariant forall j :: 0 <= j < i ==>
                    Related(orig, M, rk, hypotMap[..], orig[cand].refs[order[j]], orig[canon].refs[order[j]])
      {
        ghost var H2 := hypotMap[..];
        eq := IsEquiv(types[cand].refs[order[i]], types[canon].refs[order[i]], root);
        TracedOn(root, H1, H2, cand, canon, order[i], hypotMap[..]);
        if eq <= 0 {
          assert hypotMap[canon] == H1[canon];
          return;
        }
        ghost var H3 := hypotMap[..];
        NewMatchedCompose(orig, M, rk, H1, H2, H3);
        forall j | 0 <= j <= i
          ensures Related(orig, M, rk, H3, orig[cand].refs[order[j]], orig[canon].refs[order[j]])
        {
          if j < i {
            RelatedKept(orig, M, rk, H2, H3, orig[cand].refs[order[j]], orig[canon].refs[order[j]]);
          }
        }
        i := i + 1;
      }
      forall r | 0 <= r < |order|
        ensures Related(orig, M, rk, hypotMap[..], orig[cand].refs[r], orig[canon].refs[r])
      {
        assert r in order;
      }
      CloseNode(orig, M, rk, H0, hypotMap[..], cand, canon);
      eq := 1;
    }

    lemma TracedStart(root: nat, H: seq<nat>, cand: nat, canon: nat)
      requires Layout() && root < n
      ensures Traced(orig, root, H, cand, canon, H)
    {
    }

    /** The walk goes on with a reference of the pair. */
    lemma TracedOn(root: nat, H1: seq<nat>, H2: seq<nat>, cand: nat, canon: nat, r: nat, H3: seq<nat>)
      requires Layout() && root < n && cand < n && canon < n && r < |orig[cand].refs| && r < |orig[canon].refs|
      requires Traced(orig, root, H1, cand, canon, H2)
      requires Traced(orig, root, H2, orig[cand].refs[r], orig[canon].refs[r], H3)
      ensures Traced(orig, root, H1, cand, canon, H3)
    {
      if Uniform(orig) && GoodPair(orig, root, cand, canon) {
        GoodChild(orig, root, cand, canon, r);
      }
    }

    // ----- Linking -----

    /** A type becomes its own representative. */
    method SelfMark(id: nat)
      requires MapValid() && 0 < id < n && canonMap[id] > MAX_NR_TYPES
      modifies canonMap
      ensures MapValid() && canonMap[..] == old(canonMap[..])[id := id]
      ensures forall z :: 0 <= z < n ==> Resolve(orig, canonMap[..], z) == Resolve(orig, old(canonMap[..]), z)
    {
      ghost var M := canonMap[..];
      LinkKeepsInv(orig, M, id, id);
      if OneDefinition(orig) {
        LinkKeepsMeaning(orig, M, id, id);
      }
      canonMap[id] := id;
      assert canonMap[..] == M[id := id];
      forall z | 0 <= z < n ensures Resolve(orig, M[id := id], z) == Resolve(orig, M, z) {
        RemarkKeepsRoots(orig, M, id, id, z);
      }
    }

    /** Record the representative found for an unmapped type. */
    method SetLink(id: nat, y: nat)
      requires MapValid() && 0 < id < n && y < n && y != id && canonMap[id] > MAX_NR_TYPES
      requires Represents(orig[id], orig[y])
      requires if IsForward(orig[id]) then IsForward(orig[y]) ==> y < id else canonMap[y] == y
      requires OneDefinition(orig) ==> SameMeaning(orig, id, orig, y)
      modifies canonMap
      ensures MapValid() && canonMap[..] == old(canonMap[..])[id := y]
    {
      ghost var M := canonMap[..];
      LinkKeepsInv(orig, M, id, y);
      if OneDefinition(orig) {
        LinkKeepsMeaning(orig, M, id, y);
      }
      canonMap[id] := y;
      assert canonMap[..] == M[id := y];
    }

    /** Put one root under another.  The two trees become one; nothing else moves. */
    method Link(x: nat, y: nat)
      requires MapValid() && 0 < x < n && y < n
      requires Root(canonMap[..], x) && Root(canonMap[..], y) && x != y
      requires Represents(orig[x], orig[y])
      requires if IsForward(orig[x]) then IsForward(orig[y]) ==> y < x else canonMap[y] == y && canonMap[x] != x
      requires OneDefinition(orig) ==> SameMeaning(orig, x, orig, y)
      modifies canonMap
      ensures MapValid() && canonMap[..] == old(canonMap[..])[x := y]
      ensures forall z :: 0 <= z < n ==>
                Resolve(orig, canonMap[..], z) ==
                (if Resolve(orig, old(canonMap[..]), z) == x then y else Resolve(orig, old(canonMap[..]), z))
    {
      ghost var M := canonMap[..];
      LinkKeepsInv(orig, M, x, y);
      if OneDefinition(orig) {
        LinkKeepsMeaning(orig, M, x, y);
      }
      canonMap[x] := y;
      assert canonMap[..] == M[x := y];
      forall z | 0 <= z < n
        ensures Resolve(orig, M[x := y], z) == (if Resolve(orig, M, z) == x then y else Resolve(orig, M, z))
      {
        LinkJoins(orig, M, x, y, z);
      }
    }

    /** An unmapped composite `t` paired with a self-mapped composite `c`. */
    ghost predicate Mergeable(M: seq<nat>, t: nat, c: nat)
      requires Layout() && |M| == n
    {
      t < n && c < n && IsComposite(orig[t].kind) && IsComposite(orig[c].kind) && M[t] > MAX_NR_TYPES && M[c] == c
    }

    /** Use the pairs of a finished walk: resolve forwards in either direction, and map
        composites whose counterpart already has a representative. */
    method MergeHypotMap()
      requires MapValid() && HypotValid() && Unchanged()
      requires forall k :: 0 <= k < n && hypotMap[k] <= MAX_NR_TYPES ==> LocalMatch(orig[hypotMap[k]], orig[k])
      requires OneDefinition(orig) ==>
                 forall k :: 0 <= k < n && hypotMap[k] <= MAX_NR_TYPES ==> SameMeaning(orig, hypotMap[k], orig, k)
      modifies canonMap
      ensures MapValid() && OnlyMerged(orig, old(canonMap[..]), canonMap[..])
      ensures DefinedStays(orig, old(canonMap[..]), canonMap[..])
      ensures forall k :: 0 <= k < n && hypotMap[k] <= MAX_NR_TYPES ==> PairDefined(orig, canonMap[..], hypotMap[k], k)
      ensures |hypotList| > 0 && Mergeable(old(canonMap[..]), hypotMap[hypotList[0]], hypotList[0]) ==>
                canonMap[hypotMap[hypotList[0]]] == hypotList[0]
    {
      hide Resolve, Defined, DefinedStays, PairDefined, Represents, LocalMatch, Closed, EmbedRanked, MapInv, MapSame, OneDefinition;
      ghost var M0 := canonMap[..];
      DefinedSelf(orig, M0);
      NoneMerged(orig, M0);
      var i := 0;
      while i < |hypotList|
        invariant 0 <= i <= |hypotList| && MapValid() && HypotValid()
        invariant OnlyMerged(orig, M0, canonMap[..]) && DefinedStays(orig, M0, canonMap[..])
        invariant forall j :: 0 <= j < i ==> PairDefined(orig, canonMap[..], hypotMap[hypotList[j]], hypotList[j])
        invariant i == 0 ==> canonMap[..] == M0
        invariant i > 0 && Mergeable(M0, hypotMap[hypotList[0]], hypotList[0]) ==>
                    canonMap[hypotMap[hypotList[0]]] == hypotList[0]
      {
        var canonTypeId := hypotList[i];
        assert canonTypeId in hypotList;
        var targTypeId := hypotMap[canonTypeId];
        var t := ResolveTypeId(targTypeId);
        var c := ResolveTypeId(canonTypeId);
        ghost var M := canonMap[..];
        MergePair(targTypeId, canonTypeId, t, c);
        DefinedTrans(orig, M0, M, canonMap[..]);
        MergedTrans(orig, M0, M, canonMap[..]);
        forall j | 0 <= j < i ensures PairDefined(orig, canonMap[..], hypotMap[hypotList[j]], hypotList[j]) {
          PairStays(orig, M, canonMap[..], hypotMap[hypotList[j]], hypotList[j]);
        }
        i := i + 1;
      }
      forall k | 0 <= k < n && hypotMap[k] <= MAX_NR_TYPES ensures PairDefined(orig, canonMap[..], hypotMap[k], k) {
        assert k in hypotList;
        ghost var j :| 0 <= j < |hypotList| && hypotList[j] == k;
        assert PairDefined(orig, canonMap[..], hypotMap[hypotList[j]], hypotList[j]);
      }
    }


    lemma PairMeans(targ: nat, canon: nat)
      requires MapValid() && targ < n && canon < n && LocalMatch(orig[targ], orig[canon])
      requires OneDefinition(orig) ==> SameMeaning(orig, targ, orig, canon)
      ensures var t, c := Resolve(orig, canonMap[..], targ), Resolve(orig, canonMap[..], canon);
              && (orig[t].kind != FWD && orig[c].kind == FWD ==>
                    Represents(orig[c], orig[t]) && !IsForward(orig[t]) && IsComposite(orig[t].kind))
              && (orig[t].kind == FWD && orig[c].kind != FWD ==>
                    Represents(orig[t], orig[c]) && !IsForward(orig[c]) && IsComposite(orig[c].kind))
              && (IsComposite(orig[t].kind) && orig[c].kind != FWD ==> Represents(orig[t], orig[c]))
              && (OneDefinition(orig) ==> SameMeaning(orig, t, orig, c))
    {
      MergeIsLegal(orig, canonMap[..], targ, canon);
      if OneDefinition(orig) {
        ResolveKeepsMeaning(orig, canonMap[..], targ);
        ResolveKeepsMeaning(orig, canonMap[..], canon);
        SameThrough(orig, Resolve(orig, canonMap[..], targ), targ, canon, Resolve(orig, canonMap[..], canon));
      }
    }

    method MergePair(ghost targ: nat, ghost canon: nat, t: nat, c: nat)
      requires MapValid() && Unchanged() && targ < n && canon < n
      requires LocalMatch(orig[targ], orig[canon])
      requires OneDefinition(orig) ==> SameMeaning(orig, targ, orig, canon)
      requires t == Resolve(orig, canonMap[..], targ) && c == Resolve(orig, canonMap[..], canon)
      modifies canonMap
      ensures MapValid() && OnlyMerged(orig, old(canonMap[..]), canonMap[..])
      ensures DefinedStays(orig, old(canonMap[..]), canonMap[..]) && PairDefined(orig, canonMap[..], targ, canon)
      ensures Mergeable(old(canonMap[..]), targ, canon) ==> canonMap[targ] == canon
    {
      PairMeans(targ, canon);
      MergeRoots(t, c);
    }

    method MergeRoots(t: nat, c: nat)
      requires MapValid() && Unchanged() && t < n && c < n
      requires Root(canonMap[..], t) && Root(canonMap[..], c)
      requires orig[t].kind != FWD && orig[c].kind == FWD ==>
                 Represents(orig[c], orig[t]) && !IsForward(orig[t]) && IsComposite(orig[t].kind)
      requires orig[t].kind == FWD && orig[c].kind != FWD ==>
                 Represents(orig[t], orig[c]) && !IsForward(orig[c]) && IsComposite(orig[c].kind)
      requires IsComposite(orig[t].kind) && orig[c].kind != FWD ==> Represents(orig[t], orig[c])
      requires OneDefinition(orig) ==> SameMeaning(orig, t, orig, c)
      modifies canonMap
      ensures MapValid() && OnlyMerged(orig, old(canonMap[..]), canonMap[..])
      ensures DefinedStays(orig, old(canonMap[..]), canonMap[..])
      // the tree of a forward joins that of a definition, whichever side it is on
      ensures orig[t].kind != FWD && orig[c].kind == FWD ==> Joined(old(canonMap[..]), c, t)
      ensures orig[t].kind == FWD && orig[c].kind != FWD ==> Joined(old(canonMap[..]), t, c)
      ensures Mergeable(old(canonMap[..]), t, c) ==> canonMap[t] == c
    {
      ghost var M := canonMap[..];
      var tKind, cKind := types[t].kind, types[c].kind;
      if tKind != FWD && cKind == FWD {
        Link(c, t);
        MergedOne(orig, M, c, t);
        JoinStays(orig, M, canonMap[..], c, t);
      } else if tKind == FWD && cKind != FWD {
        Link(t, c);
        MergedOne(orig, M, t, c);
        JoinStays(orig, M, canonMap[..], t, c);
      } else if IsComposite(tKind) && cKind != FWD && canonMap[c] <= MAX_NR_TYPES && canonMap[t] > MAX_NR_TYPES {
        Link(t, c);
        MergedOne(orig, M, t, c);
        JoinStays(orig, M, canonMap[..], t, c);
      } else {
        DefinedSelf(orig, M);
      }
    }

    /** The tree of `x` has been put under `y`. */
    ghost predicate Joined(M: seq<nat>, x: nat, y: nat)
      requires MapValid() && MapInv(orig, M)
      reads canonMap
    {
      forall z :: 0 <= z < n ==> Resolve(orig, canonMap[..], z) == if Resolve(orig, M, z) == x then y else Resolve(orig, M, z)
    }

    // ----- The candidate table -----

    ghost predicate TableValid()
      reads `table, types, canonMap
    {
      Layout() && TableInv(types[..], canonMap[..], table)
    }

    method TableAdd(h: nat, id: nat)
      modifies `table
      ensures table == old(table) + multiset{(h, id)}
    {
      table := table + multiset{(h, id)};
    }

    /** The ids filed under `h`, in no particular order. */
    method Candidates(h: nat) returns (cs: seq<nat>)
      ensures forall j :: 0 <= j < |cs| ==> (h, cs[j]) in table
      ensures forall x :: (h, x) in table ==> x in cs
    {
      cs := [];
      var left := table;
      while left != multiset{}
        invariant left <= table
        invariant forall x :: (h, x) in table && (h, x) !in left ==> x in cs
        invariant forall j :: 0 <= j < |cs| ==> (h, cs[j]) in table
        decreases |left|
      {
        var e :| e in left;
        left := left - multiset{e};
        if e.0 == h {
          cs := cs + [e.1];
        }
      }
    }

    /** Look for a filed record equal to the one of `id`. */
    method FindEqual(id: nat) returns (newId: nat)
      requires TableValid() && id < n && WellFormed(types[id])
      requires PrimKind(types[id].kind) || RefKind(types[id].kind)
      requires forall e :: e in table ==> e.1 != id
      ensures newId == id ==> NotFiled(types[..], table, types[id])
      ensures newId != id ==> newId < n && types[newId] == types[id] && (Signature(types[id]), newId) in table
    {
      var t := types[id];
      var h := Signature(t);
      var cs := Candidates(h);
      var i := 0;
      while i < |cs|
        invariant NoneEqual(types[..], cs, i, t)
      {
        assert EntryOk(types[..], canonMap[..], (h, cs[i]));
        TableEqualIsEquality(t, types[cs[i]]);
        if TableEqual(t, types[cs[i]]) {
          return cs[i];
        }
        NoneEqualStep(types[..], cs, i, t);
        i := i + 1;
      }
      newId := id;
      NoneEqualInTable(types[..], canonMap[..], table, cs, t);
    }

    // ----- Primitive types -----

    ghost predicate TableBelow(lim: nat)
      reads `table
    {
      forall e :: e in table ==> e.1 < lim
    }

    lemma FiledBefore(id: nat)
      requires MapValid() && Unchanged() && TableValid() && TableBelow(id)
      requires 0 < id < n && PrimStage(orig, canonMap[..], id) && PrimKind(orig[id].kind)
      ensures canonMap[id] == UNPROCESSED_ID
      ensures forall y :: 0 <= y < n && (Signature(orig[id]), y) in table ==>
                y < id && (!IsForward(orig[y]) ==> canonMap[y] == y)
    {
      assert PrimOk(orig, canonMap[..], id, id);
      forall y | 0 <= y < n && (Signature(orig[id]), y) in table
        ensures y < id && (!IsForward(orig[y]) ==> canonMap[y] == y)
      {
        assert EntryOk(orig, canonMap[..], (Signature(orig[id]), y));
      }
    }

    method PrimType(id: nat) returns (err: int)
      requires MapValid() && Unchanged() && TableValid() && TableBelow(id)
      requires 0 < id < n && PrimStage(orig, canonMap[..], id) && EnumsSettled(orig, canonMap[..], id)
      modifies canonMap, `table
      ensures MapValid() && (err == 0 || err == EINVAL)
      ensures err == 0 ==> TableValid() && TableBelow(id + 1) && PrimStage(orig, canonMap[..], id + 1)
      ensures err == 0 ==> EnumsSettled(orig, canonMap[..], id + 1)
      ensures err < 0 <==> orig[id].kind == UNKN
    {
      hide MapValid, TableValid, TableBelow, EnumsSettled, PrimStage, Resolve;
      match types[id].kind {
        case CONST | VOLATILE | RESTRICT | PTR | TYPEDEF | ARRAY | STRUCT | UNION
           | FUNC | FUNC_PROTO | VAR | DATASEC | DECL_TAG | TYPE_TAG =>
          SkipPrim(id);
          err := 0;
        case INT | FWD | FLOAT =>
          PrimPlain(id);
          err := 0;
        case ENUM | ENUM64 =>
          PrimEnum(id);
          err := 0;
        case UNKN =>
          err := EINVAL;
      }
    }

    lemma SkipPrim(id: nat)
      requires MapValid() && TableBelow(id) && 0 < id < n && !PrimKind(orig[id].kind) && orig[id].kind != UNKN
      requires PrimStage(orig, canonMap[..], id) && EnumsSettled(orig, canonMap[..], id)
      ensures TableBelow(id + 1) && PrimStage(orig, canonMap[..], id + 1) && EnumsSettled(orig, canonMap[..], id + 1)
    {
      PrimStageSkip(orig, canonMap[..], id);
      SettledSkip(orig, canonMap[..], id);
    }

    method PrimPlain(id: nat)
      requires MapValid() && Unchanged() && TableValid() && TableBelow(id)
      requires 0 < id < n && PrimStage(orig, canonMap[..], id) && orig[id].kind in {INT, FWD, FLOAT}
      requires EnumsSettled(orig, canonMap[..], id)
      modifies canonMap, `table
      ensures MapValid() && TableValid() && TableBelow(id + 1) && PrimStage(orig, canonMap[..], id + 1)
      ensures EnumsSettled(orig, canonMap[..], id + 1)
    {
      FiledBefore(id);
      var newId := FindEqual(id);
      EqualTypesSame(orig, id, newId);
      CommitPrim(id, newId);
    }

    method PrimEnum(id: nat)
      requires MapValid() && Unchanged() && TableValid() && TableBelow(id)
      requires 0 < id < n && PrimStage(orig, canonMap[..], id) && IsAnyEnum(orig[id].kind)
      requires EnumsSettled(orig, canonMap[..], id)
      modifies canonMap, `table
      ensures MapValid() && TableValid() && TableBelow(id + 1) && PrimStage(orig, canonMap[..], id + 1)
      ensures EnumsSettled(orig, canonMap[..], id + 1)
    {
      ghost var M := canonMap[..];
      FiledBefore(id);
      var newId := FindEnum(id);
      PrimStageKept(orig, M, canonMap[..], id);
      SettledKept(orig, M, canonMap[..], id);
      if OneDefinition(orig) && newId != id {
        EnumMeans(id, newId);
      }
      CommitPrim(id, newId);
    }

    /** An enum means what it is represented by. */
    lemma EnumMeans(id: nat, newId: nat)
      requires Layout() && OneDefinition(orig) && id < n && newId < n && IsAnyEnum(orig[id].kind) && Represents(orig[id], orig[newId])
      requires !IsForward(orig[id]) ==> orig[newId] == orig[id]
      ensures SameMeaning(orig, id, orig, newId)
    {
      if Declares(orig[id], orig[newId]) {
        ForwardMeans(orig, id, newId);
      } else {
        SameRead(orig, id, newId);
      }
    }

    /** What a look-up has found for enum `id`: nothing equal, or a representative. */
    ghost predicate EnumAnswer(id: nat, newId: nat)
      requires Layout() && 0 < id < n && newId < n
      reads canonMap
    {
      && newId < id && Represents(orig[id], orig[newId])
      && (!IsForward(orig[id]) ==> orig[newId] == orig[id] && canonMap[newId] == newId)
    }

    /** Find a filed enum equal to `id`, or compatible with it if `id` is a forward; a
        filed forward that is compatible with a full `id` is redirected to `id`. */
    method FindEnum(id: nat) returns (newId: nat)
      requires MapValid() && Unchanged() && TableValid() && TableBelow(id)
      requires 0 < id < n && IsAnyEnum(orig[id].kind) && canonMap[id] == UNPROCESSED_ID
      modifies canonMap
      ensures MapValid() && TableValid() && OnlyRedirected(orig, old(canonMap[..]), canonMap[..], id)
      ensures newId == id ==> NotFiled(orig, table, orig[id])
      ensures newId < n && (newId != id ==> EnumAnswer(id, newId))
      ensures FullStays(orig, old(canonMap[..]), canonMap[..])
      ensures newId == id ==> EnumsTaken(orig, canonMap[..], table, id)
    {
      hide Resolve, FullStays, CompatEnum, EqualEnum, MapInv, MapSame, OneDefinition, NotFiled, TableInv, OnlyRedirected;
      FullSelf(orig, canonMap[..]);
      NoneRedirected(orig, canonMap[..], id);
      ghost var M := canonMap[..];
      var h := Signature(types[id]);
      var cs := Candidates(h);
      var i := 0;
      while i < |cs|
        invariant NoneEqual(orig, cs, i, orig[id]) && MapValid() && TableValid()
        invariant 0 <= i <= |cs| && canonMap[id] == UNPROCESSED_ID && OnlyRedirected(orig, M, canonMap[..], id) && FullStays(orig, M, canonMap[..])
        invariant forall j {:trigger cs[j]} :: 0 <= j < i ==> cs[j] < n && TakenAt(orig, canonMap[..], table, id, cs[j])
      {
        FiledCandidate(id, cs[i]);
        ghost var N := canonMap[..];
        var hit := TryEnum(id, cs[i]);
        FullTrans(orig, M, N, canonMap[..]);
        if hit {
          return cs[i];
        }
        if CompatEnum(orig[id], orig[cs[i]]) {
          RedirectStep(orig, M, N, id, cs[i]);
        }
        forall j | 0 <= j <= i ensures TakenAt(orig, canonMap[..], table, id, cs[j]) {
          assert j < i ==> TakenAt(orig, N, table, id, cs[j]);
        }
        NoneEqualStep(orig, cs, i, orig[id]);
        i := i + 1;
      }
      newId := id;
      SettledAll(orig, canonMap[..], cs, table, id);
      NoneEqualInTable(orig, canonMap[..], table, cs, orig[id]);
    }

    lemma FiledCandidate(id: nat, c: nat)
      requires TableValid() && TableBelow(id) && Unchanged() && id < n && (Signature(orig[id]), c) in table
      ensures 0 < c < id && c < n && WellFormed(orig[c]) && (!IsForward(orig[c]) ==> canonMap[c] == c)
    {
      assert EntryOk(orig, canonMap[..], (Signature(orig[id]), c));
    }

    method TryEnum(id: nat, candId: nat) returns (hit: bool)
      requires MapValid() && Unchanged() && TableValid()
      requires 0 < candId < id < n && IsAnyEnum(orig[id].kind) && canonMap[id] == UNPROCESSED_ID
      requires !IsForward(orig[candId]) ==> canonMap[candId] == candId
      modifies canonMap
      ensures MapValid() && TableValid()
      ensures hit ==> canonMap[..] == old(canonMap[..]) && EnumAnswer(id, candId)
      ensures !hit ==>
                && orig[candId] != orig[id]
                && canonMap[..] ==
                   if CompatEnum(orig[id], orig[candId]) then old(canonMap[..])[candId := id] else old(canonMap[..])
      ensures !hit && CompatEnum(orig[id], orig[candId]) ==> IsEnumFwd(orig[candId]) && !IsEnumFwd(orig[id])
      ensures FullStays(orig, old(canonMap[..]), canonMap[..])
    {
      FullSelf(orig, canonMap[..]);
      var t, cand := types[id], types[candId];
      TableEqualIsEquality(t, cand);
      if EqualEnum(t, cand) {
        return true;
      }
      if CompatEnum(t, cand) {
        if IsEnumFwd(t) {
          return true;
        }
        RedirectEnumFwd(candId, id);
      }
      hit := false;
    }

    /** Point a filed enum forward at the full enum just found. */
    method RedirectEnumFwd(fwd: nat, full: nat)
      requires MapValid() && Unchanged() && TableValid()
      requires 0 < fwd < n && full < n && fwd != full && IsEnumFwd(orig[fwd])
      requires IsAnyEnum(orig[full].kind) && !IsEnumFwd(orig[full]) && orig[fwd].name == orig[full].name
      modifies canonMap
      ensures MapValid() && TableValid() && canonMap[..] == old(canonMap[..])[fwd := full]
      ensures FullStays(orig, old(canonMap[..]), canonMap[..])
    {
      ghost var M := canonMap[..];
      LinkKeepsInv(orig, M, fwd, full);
      RedirectStays(orig, M, fwd, full);
      canonMap[fwd] := full;
      assert canonMap[..] == M[fwd := full];
      TableKept(orig, M, M[fwd := full], table);
      if OneDefinition(orig) {
        ForwardMeans(orig, fwd, full);
        LinkKeepsMeaning(orig, M, fwd, full);
      }
    }

    method CommitPrim(id: nat, newId: nat)
      requires MapValid() && Unchanged() && TableValid() && TableBelow(id)
      requires 0 < id < n && PrimKind(orig[id].kind) && PrimStage(orig, canonMap[..], id)
      requires newId == id ==> NotFiled(orig, table, orig[id])
      requires newId != id ==>
                 && newId < id && Represents(orig[id], orig[newId])
                 && (!IsForward(orig[id]) ==> orig[newId] == orig[id] && canonMap[newId] == newId)
      requires OneDefinition(orig) && newId != id ==> SameMeaning(orig, id, orig, newId)
      requires EnumsSettled(orig, canonMap[..], id)
      requires newId == id && IsAnyEnum(orig[id].kind) ==> EnumsTaken(orig, canonMap[..], table, id)
      modifies canonMap, `table
      ensures MapValid() && TableValid() && TableBelow(id + 1) && PrimStage(orig, canonMap[..], id + 1)
      ensures EnumsSettled(orig, canonMap[..], id + 1)
    {
      hide Resolve, EnumsSettled, EnumsTaken;
      ghost var M, filed := canonMap[..], table;
      PrimStageStep(orig, canonMap[..], id, newId);
      FiledBefore(id);
      if newId == id {
        TableAdded(orig, canonMap[..], table, id);
        SelfMark(id);
        TableAdd(Signature(types[id]), id);
      } else {
        TableLinked(orig, canonMap[..], table, id, newId);
        SetLink(id, newId);
      }
      SettledNext(M, filed, id, newId);
    }

    lemma SettledNext(M: seq<nat>, filed: Table, id: nat, newId: nat)
      requires MapValid() && MapInv(orig, M) && PrimStage(orig, M, id) && TableInv(orig, M, filed) && EnumsSettled(orig, M, id)
      requires 0 < id < n && newId <= id && M[id] > MAX_NR_TYPES && canonMap[..] == M[id := newId]
      requires Represents(orig[id], orig[newId]) && (!IsForward(orig[id]) ==> orig[newId] == orig[id])
      requires newId == id && IsAnyEnum(orig[id].kind) ==> EnumsTaken(orig, M, filed, id)
      ensures EnumsSettled(orig, canonMap[..], id + 1)
    {
      hide Resolve, EnumsSettled, EnumsTaken, PrimStage, TableInv, Represents, MapInv, MapSame;
      if IsAnyEnum(orig[id].kind) {
        EnumSettledNext(orig, M, filed, id, newId);
      } else {
        OtherSettledNext(orig, M, id, newId);
      }
    }

    method PrimTypes() returns (err: int)
      requires MapValid() && Unchanged() && TableValid() && TableBelow(1) && PrimStage(orig, canonMap[..], 1)
      modifies canonMap, `table
      ensures MapValid()
      ensures err == 0 || err == EINVAL
      ensures err < 0 <==> exists x :: 0 < x < n && orig[x].kind == UNKN
      ensures err >= 0 ==> TableValid() && StructStage(orig, canonMap[..], 1) && StaysApart()
      ensures err >= 0 ==> EnumsSettled(orig, canonMap[..], n)
    {
      hide EnumsSettled, Resolve;
      NoneSettled(orig, canonMap[..]);
      var i := 1;
      while i < n
        invariant 1 <= i <= n && MapValid() && TableValid() && TableBelow(i) && PrimStage(orig, canonMap[..], i)
        invariant EnumsSettled(orig, canonMap[..], i)
      {
        err := PrimType(i);
        if err != 0 {
          return;
        }
        i := i + 1;
      }
      forall x | 0 < x < n ensures orig[x].kind != UNKN {
        assert PrimOk(orig, canonMap[..], n, x);
      }
      PrimStageDone(orig, canonMap[..]);
      NoneApart(orig, rk, canonMap[..]);
      err := 0;
    }

    // ----- Composites -----

    method StructType(id: nat) returns (err: int)
      requires MapValid() && HypotValid() && Unchanged() && TableValid()
      requires 0 < id < n && StructStage(orig, canonMap[..], id) && StaysApart() && MetResolved()
      modifies canonMap, hypotMap, `hypotList, `table, `met
      ensures MapValid() && MetResolved() && old(met) <= met && EnumsKept(orig, old(canonMap[..]), canonMap[..])
      ensures HypotValid() && (err == 0 || (err == EINVAL && HasUnwalkable(orig)))
      ensures err == 0 ==> TableValid() && StructStage(orig, canonMap[..], id + 1) && StaysApart()
    {
      hide Apart, NoSurvivor, FewerRoots, Resolve, Defined, DefinedStays, Represents, MapSame, OneDefinition, Uniform;
      ghost var M := canonMap[..];
      if canonMap[id] <= MAX_NR_TYPES || !IsComposite(types[id].kind) {
        StructStageSkip(orig, canonMap[..], id);
        return 0;
      }
      var cand;
      err, cand := FindStruct(id);
      if err < 0 {
        return;
      }
      err := 0;
      if cand != id {
        StructStageStep(orig, canonMap[..], id, cand);
        TableKept(orig, canonMap[..], canonMap[..][id := cand], table);
        ApartFewer(orig, rk, M, canonMap[..]);
        ghost var N := canonMap[..];
        canonMap[id] := cand;
        assert canonMap[..] == N;
      } else {
        StructStageStep(orig, canonMap[..], id, id);
        TableAdded(orig, canonMap[..], table, id);
        ApartMore(orig, rk, M, id);
        SelfMark(id);
        SameStays(orig, M, canonMap[..]);
        MetStays(M);
        TableAdd(Signature(types[id]), id);
      }
    }

    /** If forwards are uniform, of two surviving composites of one meaning one has twins in its graph. */
    ghost predicate StaysApart()
      requires Layout()
      reads canonMap
    {
      Uniform(orig) ==> Apart(orig, rk, canonMap[..])
    }

    /** Look for a filed composite whose graph is equivalent to that of `id`, and merge what
        the walk has found.  The merge has then already put `id` under the answer, so that
        the caller's own store of it changes nothing. */
    method FindStruct(id: nat) returns (err: int, found: nat)
      requires MapValid() && HypotValid() && Unchanged() && TableValid()
      requires 0 < id < n && StructStage(orig, canonMap[..], id)
      requires canonMap[id] > MAX_NR_TYPES && IsComposite(orig[id].kind) && MetResolved()
      modifies canonMap, hypotMap, `hypotList, `met
      ensures MapValid() && MetResolved() && EnumsKept(orig, old(canonMap[..]), canonMap[..])
      ensures met == if err == 0 && found != id then old(met) + MetIn(orig, hypotMap[..]) else old(met)
      ensures HypotValid() && (err == 0 || (err == EINVAL && HasUnwalkable(orig)))
      ensures err == 0 ==> found < n && TableValid() && StructStage(orig, canonMap[..], id)
      ensures err == 0 && found == id ==>
                && canonMap[..] == old(canonMap[..]) && NotFiled(orig, table, orig[id])
                && NoSurvivor(orig, rk, canonMap[..], id)
      ensures err == 0 && found != id ==>
                canonMap[id] == found && canonMap[found] == found && FewerRoots(old(canonMap[..]), canonMap[..])
    {
      hide Refuted, Related, StructStage, NotFiled, MapInv, HypotOk, OnlyMerged, NoSurvivor, FewerRoots, NotSame, NoneSame, Resolve,
        MetIn, Defined, HasUnwalkable, EnumsKept, MapSame, OneDefinition, Uniform, TableInv, ListsSetSlots, Mergeable, EmbedRanked;
      ghost var M := canonMap[..];
      EnumsKeptSelf(orig, M);
      var t := types[id];
      var h := Signature(t);
      var cs := Candidates(h);
      var i := 0;
      NoneSameStart(orig, rk, cs, id);
      while i < |cs|
        invariant 0 <= i <= |cs| && HypotValid() && canonMap[..] == M && NoneEqual(orig, cs, i, orig[id])
        invariant NoneSame(orig, rk, cs, i, id) && MetResolved() && met == old(met)
      {
        var candId := cs[i];
        CandidateMerges(id, candId);
        if ShallowEqualStruct(t, types[candId]) {
          err := TryStruct(id, candId);
          if err < 0 {
            assert canonMap[..] == M;
            return err, id;
          }
          if err > 0 {
            Accepted(M, id, candId);
            return 0, candId;
          }
        } else {
          DifferentShape(orig, rk, id, candId);
        }
        NoneEqualStep(orig, cs, i, orig[id]);
        NoneSameStep(orig, rk, cs, i, id);
        i := i + 1;
      }
      NoneEqualInTable(orig, M, table, cs, orig[id]);
      NoneSameInTable(orig, rk, M, table, cs, id);
      err, found := 0, id;
    }

    lemma CandidateMerges(id: nat, c: nat)
      requires MapValid() && Unchanged() && TableValid() && 0 < id < n && IsComposite(orig[id].kind)
      requires canonMap[id] > MAX_NR_TYPES && (Signature(orig[id]), c) in table
      ensures 0 < c < n && c != id && WellFormed(orig[c])
      ensures ShallowEqualStruct(orig[id], orig[c]) ==> Mergeable(canonMap[..], id, c)
    {
      assert EntryOk(orig, canonMap[..], (Signature(orig[id]), c));
    }

    lemma Accepted(M: seq<nat>, id: nat, c: nat)
      requires MapValid() && |M| == n && 0 < id < n && StructStage(orig, M, id) && TableInv(orig, M, table)
      requires OnlyMerged(orig, M, canonMap[..]) && Mergeable(M, id, c)
      ensures StructStage(orig, canonMap[..], id) && TableInv(orig, canonMap[..], table)
      ensures FewerRoots(M, canonMap[..]) && EnumsKept(orig, M, canonMap[..]) && canonMap[c] == c
    {
      MergeKeepsStage(orig, M, canonMap[..], table, id);
      MergeFewer(orig, M, canonMap[..]);
      RootKept(orig, M, canonMap[..], c);
      MergedKeepsEnums(orig, M, canonMap[..]);
    }

    method TryStruct(id: nat, candId: nat) returns (eq: int)
      requires MapValid() && HypotValid() && Unchanged() && 0 < id < n && candId < n && id != candId
      requires Mergeable(canonMap[..], id, candId) && MetResolved()
      modifies canonMap, hypotMap, `hypotList, `met
      ensures MapValid() && HypotValid() && OnlyMerged(orig, old(canonMap[..]), canonMap[..]) && MetResolved()
      ensures met == if eq > 0 then old(met) + MetIn(orig, hypotMap[..]) else old(met)
      ensures eq >= 0 || (eq == EINVAL && HasUnwalkable(orig))
      ensures eq <= 0 ==>
                && canonMap[..] == old(canonMap[..])
                && Refuted(orig, canonMap[..], rk, hypotMap[..], id, candId, eq)
      ensures eq == 0 ==> orig[id] != orig[candId] && NotSame(orig, rk, id, candId)
      ensures eq > 0 ==> canonMap[id] == candId
    {
      hide Resolve, ResolveFwd, Defined, DefinedStays, PairDefined, MetIn, HasTwins, Related, MapSame, Matched, Traced, HasUnwalkable,
        Diverges, FreshPair, OnlyMerged;
      ClearHypotMap();
      ghost var H0 := hypotMap[..];
      FreshStart(id, candId, H0);
      ghost var M := canonMap[..];
      NoneMerged(orig, M);
      eq := IsEquiv(id, candId, id);
      assert canonMap[..] == M && MetResolved();
      if eq > 0 {
        WalkCertifies(orig, canonMap[..], rk, hypotMap[..], id, candId);
        MergeHypotMap();
        ghost var all := met + MetIn(orig, hypotMap[..]);
        MetGrows(M, all);
        met := all;
      } else if eq == 0 {
        EqualRecordsAccepted(orig, canonMap[..], rk, hypotMap[..], id, candId);
        RefusalHasTwins(id, candId, H0);
      } else {
        ghost var path :| Diverges(orig, canonMap[..], rk, hypotMap[..], id, candId, eq, path);
        FailureMeansUnwalkable(orig, canonMap[..], rk, hypotMap[..], id, candId, eq, path);
      }
    }

    lemma FreshStart(id: nat, candId: nat, H0: seq<nat>)
      requires MapValid() && |H0| == n && Mergeable(canonMap[..], id, candId) && id != candId
      requires forall k :: 0 <= k < n ==> H0[k] > MAX_NR_TYPES
      ensures FreshPair(id, candId, H0) && ResolveFwd(orig, canonMap[..], candId) == candId
    {
    }

    /** Refused although of one meaning: there are twins. */
    lemma RefusalHasTwins(id: nat, candId: nat, H0: seq<nat>)
      requires MapValid() && HypotValid() && id < n && candId < n && |H0| == n
      requires forall k :: 0 <= k < n ==> H0[k] > MAX_NR_TYPES
      requires Traced(orig, id, H0, id, candId, hypotMap[..])
      requires Refuted(orig, canonMap[..], rk, hypotMap[..], id, candId, 0)
      ensures Uniform(orig) && SameMeaning(orig, id, orig, candId) ==> HasTwins(orig, rk, id)
    {
      if Uniform(orig) && SameMeaning(orig, id, orig, candId) {
        GraphOfSelf(orig, id);
        assert Walked(orig, id, H0) && GoodPair(orig, id, id, candId);
        var path :| Diverges(orig, canonMap[..], rk, hypotMap[..], id, candId, 0, path);
        RefusalOfSameMeaning(orig, canonMap[..], rk, hypotMap[..], id, id, candId, path);
      }
    }

    method StructTypes() returns (err: int)
      requires MapValid() && HypotValid() && Unchanged() && TableValid() && StructStage(orig, canonMap[..], 1)
      requires StaysApart() && MetResolved()
      modifies canonMap, hypotMap, `hypotList, `table, `met
      ensures MapValid() && MetResolved() && old(met) <= met && EnumsKept(orig, old(canonMap[..]), canonMap[..])
      ensures HypotValid() && (err == 0 || (err == EINVAL && HasUnwalkable(orig)))
      ensures err == 0 ==> TableValid() && StructStage(orig, canonMap[..], n) && StaysApart()
    {
      ghost var M0 := canonMap[..];
      var i := 1;
      while i < n
        invariant 1 <= i <= n && MapValid() && HypotValid() && TableValid() && StructStage(orig, canonMap[..], i)
        invariant StaysApart() && MetResolved() && old(met) <= met && EnumsKept(orig, M0, canonMap[..])
      {
        ghost var M := canonMap[..];
        err := StructType(i);
        EnumsKeptTrans(orig, M0, M, canonMap[..]);
        if err != 0 {
          return;
        }
        i := i + 1;
      }
      err := 0;
    }

    // ----- Remaining forwards -----

    /** Names of the canonical composites, with 0 for a name that several share. */
    method FillUniqueNames() returns (names: map<nat, nat>)
      requires MapValid() && Unchanged()
      ensures NamesOk(orig, canonMap[..], names, n)
    {
      names := map[];
      var x := 1;
      while x < n
        invariant 1 <= x <= n && NamesOk(orig, canonMap[..], names, x)
      {
        NamesStep(orig, canonMap[..], names, x);
        var t := types[x];
        if IsComposite(t.kind) && canonMap[x] == x {
          if t.name !in names {
            names := names[t.name := x];
          } else {
            names := names[t.name := 0];
          }
        }
        x := x + 1;
      }
    }

    method ResolveFwdType(names: map<nat, nat>, id: nat, ghost M0: seq<nat>)
      requires MapValid() && Unchanged() && TableValid() && 0 < id < n
      requires |M0| == n && NamesOk(orig, M0, names, n) && FwdsResolved(orig, M0, canonMap[..], id)
      requires StructStage(orig, canonMap[..], n)
      modifies canonMap
      ensures MapValid() && TableValid()
      ensures FwdsResolved(orig, M0, canonMap[..], id + 1) && StructStage(orig, canonMap[..], n)
      ensures DefinedStays(orig, old(canonMap[..]), canonMap[..])
    {
      var t := types[id];
      ghost var N := canonMap[..];
      DefinedSelf(orig, N);
      NamesDecide(orig, M0, names, t.name);
      if t.kind != FWD || canonMap[id] != id {
        FwdsStay(orig, M0, N, id);
        return;
      }
      if t.name !in names || names[t.name] == 0 || types[names[t.name]].kind != FwdKind(t) {
        FwdsStay(orig, M0, N, id);
        return;
      }
      LinkFwd(id, names[t.name]);
      FwdsStep(orig, M0, N, id, names[t.name]);
    }

    method LinkFwd(id: nat, comp: nat)
      requires MapValid() && Unchanged() && TableValid() && 0 < id < n && comp < n
      requires StructStage(orig, canonMap[..], n)
      requires orig[id].kind == FWD && orig[comp].kind == FwdKind(orig[id]) && orig[comp].name == orig[id].name
      requires canonMap[id] == id && canonMap[comp] == comp
      modifies canonMap
      ensures MapValid() && TableValid() && StructStage(orig, canonMap[..], n)
      ensures canonMap[..] == old(canonMap[..])[id := comp] && DefinedStays(orig, old(canonMap[..]), canonMap[..])
    {
      ghost var M := canonMap[..];
      TableKept(orig, M, M[id := comp], table);
      ghost var N := M[id := comp];
      forall x | 0 < x < n ensures StructOk(orig, N, n, x) {
        assert StructOk(orig, M, n, x);
      }
      if OneDefinition(orig) {
        ForwardMeans(orig, id, comp);
      }
      Link(id, comp);
      JoinStays(orig, M, canonMap[..], id, comp);
    }

    method ResolveFwds()
      requires MapValid() && Unchanged() && TableValid() && StructStage(orig, canonMap[..], n) && MetResolved()
      modifies canonMap
      ensures MapValid() && TableValid() && StructStage(orig, canonMap[..], n) && MetResolved()
      ensures FwdsResolved(orig, old(canonMap[..]), canonMap[..], n)
    {
      ghost var M0 := canonMap[..];
      DefinedSelf(orig, M0);
      var names := FillUniqueNames();
      var i := 1;
      while i < n
        invariant 1 <= i <= n && MapValid() && TableValid() && StructStage(orig, canonMap[..], n)
        invariant FwdsResolved(orig, M0, canonMap[..], i) && DefinedStays(orig, M0, canonMap[..])
      {
        ghost var M := canonMap[..];
        ResolveFwdType(names, i, M0);
        DefinedTrans(orig, M0, M, canonMap[..]);
        i := i + 1;
      }
      MetStays(M0);
    }

    // ----- Reference types -----

    ghost predicate RefReady()
      reads types, canonMap, `table, `rank, `clock
    {
      Layout() && RefState(orig, canonMap[..], types[..], table, rank, clock)
    }

    /** Deduplicate what `id` refers to, rewrite its references to their roots, and then
        look for an equal record.  Returns the representative of `id`. */
    method RefType(id: nat, ghost stack: seq<nat>) returns (r: int)
      requires RefReady() && id < n && StackOk(orig, canonMap[..], stack)
      requires |stack| > 0 && RefKind(orig[id].kind) ==> RefEdge(orig, stack[|stack| - 1], id)
      modifies types, canonMap, `table, `rank, `clock
      ensures MapValid()
      ensures r >= 0 ==> RefReady() && Mapped(canonMap[..], id) && r == Resolve(orig, canonMap[..], id)
      ensures r < 0 ==> r == ELOOP && RefCycle(orig)
      ensures RefFrame(old(canonMap[..]), canonMap[..], old(types[..]), types[..], -1, r >= 0)
      decreases Unprocessed(canonMap[..]), 0
    {
      assert SlotStage(orig, canonMap[..], id);
      if canonMap[id] == IN_PROGRESS_ID {
        LoopFound(orig, canonMap[..], stack, id);
        return ELOOP;
      }
      if canonMap[id] <= MAX_NR_TYPES {
        r := ResolveTypeId(id);
        return;
      }
      r := RefVisit(id, stack);
    }

    method RefVisit(id: nat, ghost stack: seq<nat>) returns (r: int)
      requires RefReady() && id < n && canonMap[id] == UNPROCESSED_ID && RefKind(orig[id].kind)
      requires StackOk(orig, canonMap[..], stack) && (|stack| > 0 ==> RefEdge(orig, stack[|stack| - 1], id))
      modifies types, canonMap, `table, `rank, `clock
      ensures MapValid()
      ensures r >= 0 ==> RefReady() && r < n && canonMap[id] == r && canonMap[r] == r
      ensures r < 0 ==> r == ELOOP && RefCycle(orig)
      ensures RefFrame(old(canonMap[..]), canonMap[..], old(types[..]), types[..], -1, r >= 0)
      decreases Unprocessed(canonMap[..]), -1
    {
      ghost var M0, T0 := canonMap[..], types[..];
      EnterShrinks(M0, id);
      Enter(id);
      r := RefChildren(id, stack, M0);
      if r < 0 {
        FrameFailed(M0, canonMap[..], T0, types[..], id);
        return;
      }
      ghost var M3 := canonMap[..];
      r := FinishRef(id);
      FrameEnd(M0, M3, T0, types[..], id, r);
    }

    /** All references of `id` are rewritten: find or become the representative. */
    method FinishRef(id: nat) returns (r: nat)
      requires RefReady() && id < n && canonMap[id] == IN_PROGRESS_ID && RefKind(orig[id].kind)
      requires RefsResolved(orig, canonMap[..], types[..], id, |orig[id].refs|)
      modifies canonMap, `table, `rank, `clock
      ensures RefReady() && r < n
      ensures canonMap[..] == old(canonMap[..])[id := r] && canonMap[r] == r
    {
      hide RefState, TableInv, Resolve;
      TableBeforeLeave(id);
      r := FindEqual(id);
      LeaveState(orig, canonMap[..], types[..], table, rank, clock, id, r);
      Leave(id, r);
    }

    /** Visit the references of the type in progress, in place. */
    method RefChildren(id: nat, ghost stack: seq<nat>, ghost M0: seq<nat>) returns (r: int)
      requires RefReady() && id < n && |M0| == n && M0[id] == UNPROCESSED_ID && RefKind(orig[id].kind)
      requires canonMap[..] == M0[id := IN_PROGRESS_ID] && types[id] == orig[id]
      requires StackOk(orig, M0, stack) && (|stack| > 0 ==> RefEdge(orig, stack[|stack| - 1], id))
      requires RefsResolved(orig, canonMap[..], types[..], id, 0)
      modifies types, canonMap, `table, `rank, `clock
      ensures MapValid()
      ensures r >= 0 ==> RefReady() && RefsResolved(orig, canonMap[..], types[..], id, |orig[id].refs|)
      ensures r < 0 ==> r == ELOOP && RefCycle(orig)
      ensures RefFrame(old(canonMap[..]), canonMap[..], old(types[..]), types[..], id, r >= 0)
      decreases Unprocessed(canonMap[..]), 2
    {
      ghost var M1, T1 := canonMap[..], types[..];
      var i := 0;
      r := 0;
      while i < |types[id].refs|
        invariant i <= |orig[id].refs| == |types[id].refs| && r >= 0
        invariant RefReady() && canonMap[id] == IN_PROGRESS_ID
        invariant RefsResolved(orig, canonMap[..], types[..], id, i)
        invariant types[id].refs[i..] == orig[id].refs[i..]
        invariant RefFrame(M1, canonMap[..], T1, types[..], id, true)
      {
        r := RefChild(id, i, stack, M0, M1, T1);
        if r < 0 {
          return;
        }
        i := i + 1;
      }
    }

    method RefChild(id: nat, i: nat, ghost stack: seq<nat>, ghost M0: seq<nat>, ghost M1: seq<nat>, ghost T1: seq<BtfType>)
      returns (r: int)
      requires RefReady() && id < n && |M0| == n && M0[id] == UNPROCESSED_ID && RefKind(orig[id].kind)
      requires M1 == M0[id := IN_PROGRESS_ID] && canonMap[id] == IN_PROGRESS_ID
      requires StackOk(orig, M0, stack) && (|stack| > 0 ==> RefEdge(orig, stack[|stack| - 1], id))
      requires i < |orig[id].refs| == |types[id].refs|
      requires RefsResolved(orig, canonMap[..], types[..], id, i)
      requires types[id].refs[i..] == orig[id].refs[i..]
      requires RefFrame(M1, canonMap[..], T1, types[..], id, true)
      modifies types, canonMap, `table, `rank, `clock
      ensures MapValid()
      ensures r >= 0 ==>
                && RefReady() && canonMap[id] == IN_PROGRESS_ID
                && |types[id].refs| == |orig[id].refs|
                && RefsResolved(orig, canonMap[..], types[..], id, i + 1)
                && types[id].refs[i + 1..] == orig[id].refs[i + 1..]
      ensures r < 0 ==> r == ELOOP && RefCycle(orig)
      ensures RefFrame(M1, canonMap[..], T1, types[..], id, r >= 0)
      decreases Unprocessed(M1), 1
    {
      hide MapInv, MapSame, OneDefinition, FinishOrder, TableInv;
      ghost var M2, T2 := canonMap[..], types[..];
      assert types[id].refs[i] == types[id].refs[i..][0] == orig[id].refs[i..][0] == orig[id].refs[i];
      StackGrows(orig, M0, M2, stack, id, i);
      FrameShrinks(M1, M2, T1, T2, id);
      r := RefType(types[id].refs[i], stack + [id]);
      FrameCompose(M1, M2, canonMap[..], T1, T2, types[..], id, r >= 0);
      if r < 0 {
        return;
      }
      ResolvedThrough(orig, M2, canonMap[..], T2, types[..], id, i);
      ghost var T3 := types[..];
      Rewrite(id, i, r);
      FrameRewrite(M1, canonMap[..], T1, T3, id, types[id]);
    }

    method Enter(id: nat)
      requires RefReady() && id < n && canonMap[id] == UNPROCESSED_ID
      modifies canonMap
      ensures RefReady() && canonMap[..] == old(canonMap[..])[id := IN_PROGRESS_ID]
      ensures RefsResolved(orig, canonMap[..], types[..], id, 0) && types[id] == orig[id]
    {
      ghost var M, T := canonMap[..], types[..];
      EnterState(orig, M, T, table, rank, clock, id);
      canonMap[id] := IN_PROGRESS_ID;
      assert canonMap[..] == M[id := IN_PROGRESS_ID] && types[..] == T;
    }

    method Rewrite(id: nat, i: nat, r: nat)
      requires RefReady() && id < n && canonMap[id] == IN_PROGRESS_ID && i < |orig[id].refs|
      requires RefsResolved(orig, canonMap[..], types[..], id, i)
      requires Mapped(canonMap[..], orig[id].refs[i]) && r == Resolve(orig, canonMap[..], orig[id].refs[i])
      modifies types
      ensures RefReady() && types[..] == old(types[..])[id := types[id]]
      ensures RefsResolved(orig, canonMap[..], types[..], id, i + 1)
      ensures types[id].refs[i + 1..] == old(types[id].refs[i + 1..])
    {
      ghost var cur, M := types[..], canonMap[..];
      RewriteState(orig, M, cur, table, rank, clock, id, i);
      types[id] := SetRef(types[id], i, r);
      assert types[..] == cur[id := SetRef(cur[id], i, r)] && canonMap[..] == M;
    }

    /** Store the representative of the type in progress, filing it if it is its own. */
    method Leave(id: nat, newId: nat)
      requires Layout() && 0 < id < n && newId < n && WellFormed(types[id]) && |rank| == n
      requires RefState(orig, canonMap[..][id := newId], types[..],
                        if newId == id then table + multiset{(Signature(types[id]), id)} else table,
                        rank[id := clock], clock + 1)
      modifies canonMap, `table, `rank, `clock
      ensures RefReady() && canonMap[..] == old(canonMap[..])[id := newId]
    {
      ghost var M, T := canonMap[..], types[..];
      canonMap[id] := newId;
      assert canonMap[..] == M[id := newId] && types[..] == T;
      if newId == id {
        TableAdd(Signature(types[id]), id);
      }
      rank, clock := rank[id := clock], clock + 1;
    }

    lemma TableBeforeLeave(id: nat)
      requires RefReady() && id < n && canonMap[id] == IN_PROGRESS_ID && RefKind(orig[id].kind)
      ensures TableValid() && WellFormed(types[id]) && RefKind(types[id].kind) && |rank| == n
      ensures forall e :: e in table ==> e.1 != id
    {
      RecordKind(orig, canonMap[..], types[..], id);
      forall e | e in table ensures e.1 != id {
        assert EntryOk(types[..], canonMap[..], e);
      }
    }

    method RefTypes() returns (err: int)
      requires MapValid() && TableValid() && Unchanged() && StructStage(orig, canonMap[..], n)
      modifies types, canonMap, `table, `rank, `clock
      ensures MapValid()
      ensures err == 0 || err == ELOOP
      ensures err == ELOOP <==> RefCycle(orig)
      ensures err == 0 ==> RefReady() && AllMapped(canonMap[..])
      ensures MappedKept(old(canonMap[..]), canonMap[..])
    {
      rank, clock := seq(n, i => 0), 0;
      StartState(orig, canonMap[..], table, rank);
      var i := 1;
      while i < n
        invariant 1 <= i <= n && RefReady()
        invariant forall x :: 0 <= x < n ==> canonMap[x] != IN_PROGRESS_ID
        invariant forall x :: 0 <= x < i ==> canonMap[x] <= MAX_NR_TYPES
        invariant MappedKept(old(canonMap[..]), canonMap[..])
      {
        ghost var M := canonMap[..];
        var r := RefType(i, []);
        StillMapped(old(canonMap[..]), M, canonMap[..]);
        if r < 0 {
          return r;
        }
        FrameMapped(M, canonMap[..], i);
        i := i + 1;
      }
      FinishedMeansAcyclic(orig, canonMap[..], rank, clock);
      err := 0;
    }

    lemma StillMapped(L: seq<nat>, M: seq<nat>, N: seq<nat>)
      requires MappedKept(L, M) && |M| == |N| && forall x :: 0 <= x < |M| && M[x] != UNPROCESSED_ID ==> N[x] == M[x]
      ensures MappedKept(L, N)
    {
    }

    lemma FrameMapped(M: seq<nat>, N: seq<nat>, i: nat)
      requires |M| == |N| && i < |M|
      requires forall x :: 0 <= x < |M| && M[x] != UNPROCESSED_ID ==> N[x] == M[x]
      requires forall x :: 0 <= x < |M| && N[x] == IN_PROGRESS_ID ==> M[x] == IN_PROGRESS_ID
      requires forall x :: 0 <= x < |M| ==> M[x] != IN_PROGRESS_ID
      requires forall x :: 0 <= x < i ==> M[x] <= MAX_NR_TYPES
      requires N[i] <= MAX_NR_TYPES
      ensures forall x :: 0 <= x < |N| ==> N[x] != IN_PROGRESS_ID
      ensures forall x :: 0 <= x < i + 1 ==> N[x] <= MAX_NR_TYPES
    {
    }

    // ----- Compaction -----

    /** Copy the survivors down over the others, in place; `hypotMap` now holds their new ids. */
    method CompactTypes()
      requires Layout()
      modifies types, hypotMap, `nr
      ensures nr == CountCanon(canonMap[..], n) <= n
      ensures Renumbered(canonMap[..], hypotMap[..], n)
      ensures CopiedDown(canonMap[..], old(types[..]), types[..], n)
    {
      ghost var M, cur := canonMap[..], types[..];
      var next := 0;
      var id := 0;
      while id < n
        invariant id <= n && next == CountCanon(M, id) && canonMap[..] == M
        invariant Renumbered(M, hypotMap[..], id)
        invariant CopiedDown(M, cur, types[..], id)
      {
        NotOverwritten(M, cur, types[..], id);
        ghost var H, T := hypotMap[..], types[..];
        if canonMap[id] != id {
          NumberStep(M, H, id, UNPROCESSED_ID);
          SkipStep(M, cur, T, id);
          hypotMap[id] := UNPROCESSED_ID;
          assert hypotMap[..] == H[id := UNPROCESSED_ID] && types[..] == T;
        } else {
          NumberStep(M, H, id, next);
          CopyStep(M, cur, T, id);
          types[next] := types[id];
          hypotMap[id] := next;
          assert hypotMap[..] == H[id := next] && types[..] == T[next := T[id]];
          next := next + 1;
        }
        id := id + 1;
      }
      CountGrows(M, 0, n);
      nr := next;
    }

    // ----- Final ids -----

    method RemapTypeId(id: nat) returns (err: int, newId: nat)
      requires MapValid() && AllMapped(canonMap[..]) && Renumbered(canonMap[..], hypotMap[..], n) && id < n
      ensures err == 0 && newId == NewId(orig, canonMap[..], hypotMap[..], id)
    {
      var r := ResolveTypeId(id);
      newId := hypotMap[r];
      NewIdInRange(orig, canonMap[..], hypotMap[..], id);
      err := if newId > MAX_NR_TYPES then EINVAL else 0;
    }

    /** Rewrite the references of one output record, in place. */
    method RemapType(v: nat) returns (err: int)
      requires MapValid() && AllMapped(canonMap[..]) && Renumbered(canonMap[..], hypotMap[..], n) && v < n
      requires forall i :: 0 <= i < |types[v].refs| ==> types[v].refs[i] < n
      modifies types
      ensures err == 0
      ensures types[..] == old(types[..])[v := types[v]]
      ensures RefsRemapped(orig, canonMap[..], hypotMap[..], old(types[v]), types[v], |types[v].refs|)
    {
      ghost var t0, T0 := types[v], types[..];
      var i := 0;
      while i < |types[v].refs|
        invariant i <= |types[v].refs| && types[..] == T0[v := types[v]]
        invariant RefsRemapped(orig, canonMap[..], hypotMap[..], t0, types[v], i)
      {
        var newId;
        err, newId := RemapTypeId(types[v].refs[i]);
        if err != 0 {
          return;
        }
        types[v] := SetRef(types[v], i, newId);
        i := i + 1;
      }
      err := 0;
    }

    method RemapTypes(ghost cur: seq<BtfType>) returns (err: int)
      requires MapValid() && AllMapped(canonMap[..]) && Renumbered(canonMap[..], hypotMap[..], n)
      requires nr == CountCanon(canonMap[..], n) <= n
      requires RefInv(orig, canonMap[..], cur) && CopiedDown(canonMap[..], cur, types[..], n)
      modifies types
      ensures err == 0
      ensures IsOutput(orig, canonMap[..], cur, hypotMap[..], types[..nr])
    {
      ghost var M, H, T0 := canonMap[..], hypotMap[..], types[..];
      var v := 0;
      while v < nr
        invariant v <= nr
        invariant forall w :: v <= w < n ==> types[w] == T0[w]
        invariant forall w :: 0 <= w < v ==> RefsRemapped(orig, M, H, T0[w], types[w], |T0[w].refs|)
      {
        SurvivorInRange(M, cur, T0, v);
        err := RemapType(v);
        v := v + 1;
      }
      forall x | 0 <= x < n ensures OutOk(orig, M, cur, H, types[..nr], x) {
        if M[x] == x {
          assert CopyOk(M, cur, T0, x) && SlotNumber(M, H, x);
          CountGrows(M, x, n);
        }
      }
      err := 0;
    }

    lemma SurvivorInRange(M: seq<nat>, cur: seq<BtfType>, T0: seq<BtfType>, v: nat)
      requires Layout() && MapInv(orig, M) && RefInv(orig, M, cur) && CopiedDown(M, cur, T0, n)
      requires v < CountCanon(M, n)
      ensures v < n && forall i :: 0 <= i < |T0[v].refs| ==> T0[v].refs[i] < n
    {
      var x := CountHits(M, n, v);
      assert CopyOk(M, cur, T0, x) && RecordOk(orig, M, cur, x);
    }

    // ----- The whole run -----

    /** The final id of an input type. */
    ghost function FinalId(x: nat): nat
      requires MapValid() && x < n
      reads canonMap, hypotMap
    {
      NewId(orig, canonMap[..], hypotMap[..], x)
    }

    ghost predicate IsFinalId(v: nat)
      requires MapValid()
      reads canonMap, hypotMap
    {
      exists x :: 0 <= x < n && FinalId(x) == v
    }

    ghost predicate SharedRight(x: nat, y: nat)
      requires MapValid() && x < n && y < n
      reads canonMap, hypotMap
    {
      FinalId(x) == FinalId(y) <==> SameMeaning(orig, x, orig, y)
    }

    ghost predicate HasFinal(x: nat)
      requires MapValid() && x < n
      reads this, types, canonMap, hypotMap
    {
      FinalId(x) < nr <= types.Length && Represents(orig[x], types[FinalId(x)])
    }

    ghost predicate EnumEnds(x: nat, y: nat)
      requires MapValid() && x < n && y < n
      reads this, types, canonMap, hypotMap
    {
      IsEnumFwd(orig[x]) && FullEnum(orig[y]) && orig[x].name == orig[y].name ==>
        FinalId(x) < nr <= types.Length && FullEnum(types[FinalId(x)])
    }

    ghost predicate KeepsMeaning(x: nat)
      requires MapValid() && x < n
      reads this, types, canonMap, hypotMap
    {
      && FinalId(x) < nr <= types.Length && Closed(types[..nr])
      && SameMeaning(orig, x, types[..nr], FinalId(x))
    }

    /** The forward `f` ends as a struct or union, as it declares. */
    ghost predicate MetEnds(f: nat)
      requires MapValid()
      reads this, types, canonMap, hypotMap
    {
      && f < n && orig[f].kind == FWD && FinalId(f) < nr <= types.Length
      && types[FinalId(f)].kind == if orig[f].kflag then UNION else STRUCT
    }

    /** What a successful run leaves behind, in terms of the input and the output section. */
    ghost predicate Finished()
      reads this, types, canonMap, hypotMap
    {
      && MapValid() && 0 < nr <= n
      && Closed(types[..nr])
      // every input type has a final id in range, of its own signature
      && (forall x {:trigger HasFinal(x)} :: 0 <= x < n ==> HasFinal(x))
      // every output type is the final id of some input type
      && (forall v :: 0 <= v < nr ==> IsFinalId(v))
      // no two output primitive or reference types are equal
      && (forall a, b :: 0 <= a < b < nr && (PrimKind(types[a].kind) || RefKind(types[a].kind)) ==>
            types[a] != types[b])
      // of several composites with equal input records, at most one is its own representative
      && (forall r, s :: 0 <= r < s < n && IsComposite(orig[r].kind) && canonMap[r] == r && canonMap[s] == s ==>
            orig[r] != orig[s])
      // if forwards are uniform, of two surviving composites of one meaning one has twins in its graph
      && StaysApart()
      && ForwardsEnd() && MeaningKept()
    }

    ghost predicate ForwardsEnd()
      requires MapValid()
      reads this, types, canonMap, hypotMap
    {
      // a forward that an accepted walk has met opposite a definition ends as one
      && (forall f {:trigger MetEnds(f)} :: f in met ==> MetEnds(f))
      // a forward is left only where not exactly one composite of its name, of the kind it declares, is left
      && FwdsSettled(orig, canonMap[..])
      // a value-less enum ends as one with values if some input enum of its name has them
      && (forall x, y {:trigger EnumEnds(x, y)} :: 0 <= x < n && 0 <= y < n ==> EnumEnds(x, y))
    }

    ghost predicate MeaningKept()
      requires MapValid()
      reads this, types, canonMap, hypotMap
    {
      // in a tidy section two types share one output type if and only if they mean the same
      && (Tidy(orig, rk) ==> forall x, y {:trigger SharedRight(x, y)} :: 0 <= x < n && 0 <= y < n ==> SharedRight(x, y))
      // if what is declared forward is defined alike, every input type means what its final id means
      && (OneDefinition(orig) ==>
            forall x {:trigger KeepsMeaning(x)} :: 0 <= x < n ==> KeepsMeaning(x))
    }

    lemma MetFinal(cur: seq<BtfType>, f: nat)
      requires MapValid() && RefInv(orig, canonMap[..], cur) && MetResolved() && f in met
      requires nr <= n && IsOutput(orig, canonMap[..], cur, hypotMap[..], types[..nr])
      ensures MetEnds(f)
    {
      var r := Resolve(orig, canonMap[..], f);
      assert Defined(orig, canonMap[..], f) && Represents(orig[f], orig[r]);
      RootFinal(cur, f, r);
    }

    lemma EnumFinal(cur: seq<BtfType>, x: nat, y: nat)
      requires MapValid() && RefInv(orig, canonMap[..], cur) && EnumsSettled(orig, canonMap[..], n) && x < n && y < n
      requires nr <= n && IsOutput(orig, canonMap[..], cur, hypotMap[..], types[..nr])
      ensures EnumEnds(x, y)
    {
      assert EnumSettled(orig, canonMap[..], x, y);
      if IsEnumFwd(orig[x]) && FullEnum(orig[y]) && orig[x].name == orig[y].name {
        var r := Resolve(orig, canonMap[..], x);
        assert Full(orig, canonMap[..], x) && Represents(orig[x], orig[r]);
        RootFinal(cur, x, r);
      }
    }

    /** The final record of a type has the shape of its root. */
    lemma RootFinal(cur: seq<BtfType>, x: nat, r: nat)
      requires MapValid() && RefInv(orig, canonMap[..], cur) && x < n && r == Resolve(orig, canonMap[..], x)
      requires nr <= n && IsOutput(orig, canonMap[..], cur, hypotMap[..], types[..nr])
      ensures FinalId(x) < nr && types[FinalId(x)].kind == orig[r].kind && types[FinalId(x)].vlen == orig[r].vlen
    {
      NewIdInRange(orig, canonMap[..], hypotMap[..], x);
      OutRefs(orig, canonMap[..], cur, hypotMap[..], types[..nr], r);
      assert WellFormed(orig[r]);
      OutputClosed(orig, canonMap[..], cur, hypotMap[..], types[..nr]);
      ShapeDeterminesRefs(orig[r], types[..nr][FinalId(x)]);
    }

    lemma FinishLine(cur: seq<BtfType>, filed: Table)
      requires MapValid() && RefInv(orig, canonMap[..], cur) && TableInv(cur, canonMap[..], filed)
      requires nr <= n && IsOutput(orig, canonMap[..], cur, hypotMap[..], types[..nr]) && StaysApart()
      requires MetResolved() && FwdsSettled(orig, canonMap[..]) && EnumsSettled(orig, canonMap[..], n)
      requires OneDefinition(orig) ==> RefsDone(orig, canonMap[..], cur, filed, rank, clock)
      ensures Finished()
    {
      hide Apart, RefsDone;
      ghost var M, H, out := canonMap[..], hypotMap[..], types[..nr];
      OutputClosed(orig, M, cur, H, out);
      assert nr == |out| > 0 && Closed(out);
      forall x | 0 <= x < n ensures HasFinal(x) {
        NewIdInRange(orig, M, H, x);
        var r := Resolve(orig, M, x);
        OutRefs(orig, M, cur, H, out, r);
        ShapeDeterminesRefs(orig[r], out[H[r]]);
      }
      forall f | f in met ensures MetEnds(f) {
        MetFinal(cur, f);
      }
      forall x, y | 0 <= x < n && 0 <= y < n ensures EnumEnds(x, y) {
        EnumFinal(cur, x, y);
      }
      forall v | 0 <= v < nr ensures IsFinalId(v) {
        var x := CountHits(M, n, v);
        assert SlotNumber(M, H, x) && FinalId(x) == v;
      }
      forall a, b | 0 <= a < b < nr && (PrimKind(types[a].kind) || RefKind(types[a].kind))
        ensures types[a] != types[b]
      {
        MaximalSharing(orig, M, cur, filed, H, out, a, b);
      }
      forall r, s | 0 <= r < s < n && IsComposite(orig[r].kind) && canonMap[r] == r && canonMap[s] == s
        ensures orig[r] != orig[s]
      {
        CompositesDiffer(orig, M, cur, filed, r, s);
      }
      if Tidy(orig, rk) {
        forall x, y | 0 <= x < n && 0 <= y < n ensures SharedRight(x, y) {
          SharedIffSame(orig, M, cur, filed, H, out, rk, rank, clock, x, y);
        }
      }
      if OneDefinition(orig) {
        forall x | 0 <= x < n ensures KeepsMeaning(x) {
          assert HasFinal(x);
          forall d: nat ensures Unfold(orig, x, d) == Unfold(out, FinalId(x), d) {
            MeaningPreserved(orig, M, cur, H, out, x, d);
          }
        }
      }
    }

    /** The reference pass leaves composites and forwards as they are. */
    lemma ForwardsStay(M: seq<nat>)
      requires MapValid() && MapInv(orig, M) && StructStage(orig, M, n) && MappedKept(M, canonMap[..]) && FwdsSettled(orig, M)
      requires forall f {:trigger f in met} :: f in met ==> f < n && orig[f].kind == FWD && Defined(orig, M, f)
      ensures MetResolved() && FwdsSettled(orig, canonMap[..])
    {
      forall x | 0 <= x < n && (IsComposite(orig[x].kind) || orig[x].kind == FWD) ensures canonMap[..][x] == M[x] {
        assert x > 0 ==> StructOk(orig, M, n, x);
      }
      SettledStays(orig, M, canonMap[..]);
      BehindStructs(orig, M);
      forall f | f in met ensures Defined(orig, canonMap[..], f) {
        assert f > 0 && StructOk(orig, M, n, f);
        RootsStable(orig, M, canonMap[..], f);
      }
    }

    /** Behind the primitive pass enums stay as they are mapped. */
    lemma EnumsStay(M0: seq<nat>, M1: seq<nat>, M2: seq<nat>)
      requires MapValid() && MapInv(orig, M0) && |M1| == |M2| == n && EnumsSettled(orig, M0, n) && EnumsKept(orig, M0, M1)
      requires FwdsResolved(orig, M1, M2, n) && StructStage(orig, M2, n) && MappedKept(M2, canonMap[..])
      ensures EnumsSettled(orig, canonMap[..], n)
    {
      forall x | 0 <= x < n && IsAnyEnum(orig[x].kind) ensures canonMap[..][x] == M0[x] {
        assert x > 0 && StructOk(orig, M2, n, x) && M1[x] == M0[x];
      }
      SettledEver(orig, M0, canonMap[..]);
    }

    /** Deduplicate the section in place. */
    method Run() returns (err: int)
      requires Initial()
      modifies this, types, canonMap, hypotMap
      ensures err in {0, EINVAL, ELOOP} && MapValid()
      ensures err == 0 ==> Finished() && !RefCycle(orig)
      ensures err == ELOOP ==> RefCycle(orig)
      ensures err == EINVAL ==> HasUnwalkable(orig)
    {
      hide FwdsResolved, FwdsSettled, EnumsSettled, EnumsKept, Apart, Defined, Resolve, Represents, MappedKept;
      err := PrimTypes();
      if err < 0 {
        return;
      }
      ghost var M0 := canonMap[..];
      err := StructTypes();
      if err < 0 {
        return;
      }
      ghost var M1 := canonMap[..];
      ResolveFwds();
      ApartBehindFwds(orig, rk, M1, canonMap[..]);
      ResolvedSettle(orig, M1, canonMap[..]);
      ghost var M2 := canonMap[..];
      err := RefTypes();
      if err < 0 {
        return;
      }
      ApartBehindRefs(orig, rk, M2, canonMap[..]);
      ForwardsStay(M2);
      EnumsStay(M0, M1, M2);
      err := CompactAndRemap();
    }

    /** The survivors move down and get their final ids. */
    method CompactAndRemap() returns (err: int)
      requires RefReady() && MapValid() && AllMapped(canonMap[..]) && forall x :: 0 < x < n ==> orig[x].kind != UNKN
      requires StaysApart() && MetResolved() && FwdsSettled(orig, canonMap[..]) && EnumsSettled(orig, canonMap[..], n)
      modifies types, hypotMap, `nr
      ensures err == 0 && Finished()
    {
      hide FwdsSettled, EnumsSettled, Apart, Defined, Resolve, Represents, RefInv, TableInv, FinishOrder, MapSame, MapInv;
      ghost var cur, filed := types[..], table;
      CompactTypes();
      err := RemapTypes(cur);
      FinishLine(cur, filed);
    }
  }
}

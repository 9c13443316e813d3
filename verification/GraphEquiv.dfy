/** The relation the side-by-side graph walk establishes, and why a finished walk
    is a proof that the two graphs mean the same. */
module GraphEquiv {
  import opened BtfTypes
  import opened BtfEqual
  import opened CanonMap

  // ----- Identical arrays and structs -----

  /** By-value embedding of composites is well-founded. */
  ghost predicate EmbedRanked(T: seq<BtfType>, rk: seq<nat>) {
    && |rk| == |T|
    && forall x, i :: 0 <= x < |T| && IsComposite(T[x].kind) && 0 <= i < |T[x].refs| ==>
         T[x].refs[i] < |T| && (IsComposite(T[T[x].refs[i]].kind) ==> rk[T[x].refs[i]] < rk[x])
  }

  predicate IdenticalArrays(T: seq<BtfType>, a: nat, b: nat)
    requires a < |T| && b < |T| && WellFormed(T[a]) && WellFormed(T[b])
  {
    T[a].kind == ARRAY && T[b].kind == ARRAY && EqualArray(T[a], T[b])
  }

  predicate IdenticalStructs(T: seq<BtfType>, ghost rk: seq<nat>, a: nat, b: nat)
    requires Closed(T) && EmbedRanked(T, rk) && a < |T| && b < |T|
    decreases rk[a]
  {
    && IsComposite(T[a].kind) && T[a].kind == T[b].kind
    && ShallowEqualStruct(T[a], T[b])
    && (forall i :: 0 <= i < T[a].vlen ==>
          T[a].refs[i] == T[b].refs[i]
          || IdenticalArrays(T, T[a].refs[i], T[b].refs[i])
          || (IsComposite(T[T[a].refs[i]].kind) && IdenticalStructs(T, rk, T[a].refs[i], T[b].refs[i])))
  }

  predicate Identical(T: seq<BtfType>, ghost rk: seq<nat>, a: nat, b: nat)
    requires Closed(T) && EmbedRanked(T, rk) && a < |T| && b < |T|
  {
    a == b || IdenticalArrays(T, a, b) || IdenticalStructs(T, rk, a, b)
  }

  lemma {:induction false} IdenticalSameMeaning(T: seq<BtfType>, rk: seq<nat>, a: nat, b: nat, n: nat)
    requires Closed(T) && EmbedRanked(T, rk) && a < |T| && b < |T|
    requires Identical(T, rk, a, b)
    ensures Unfold(T, a, n) == Unfold(T, b, n)
    decreases n
  {
    hide Unfold, IdenticalStructs, IdenticalArrays, EmbedRanked;
    if a == b {
    } else if n == 0 {
      NothingUnfolded(T, a, b);
    } else if IdenticalArrays(T, a, b) {
      ArraysIdentical(T, a, b);
    } else {
      StructsIdentical(T, rk, a, b);
      forall i | 0 <= i < |T[a].refs|
        ensures Unfold(T, T[a].refs[i], n - 1) == Unfold(T, T[b].refs[i], n - 1)
      {
        IdenticalSameMeaning(T, rk, T[a].refs[i], T[b].refs[i], n - 1);
      }
      UnfoldStep(T, a, T, b, n - 1);
    }
  }

  lemma NothingUnfolded(T: seq<BtfType>, a: nat, b: nat)
    requires Closed(T) && a < |T| && b < |T|
    ensures Unfold(T, a, 0) == Unfold(T, b, 0)
  {
  }

  lemma ArraysIdentical(T: seq<BtfType>, a: nat, b: nat)
    requires Closed(T) && a < |T| && b < |T| && IdenticalArrays(T, a, b)
    ensures SameMeaning(T, a, T, b)
  {
    TableEqualIsEquality(T[a], T[b]);
    SameRead(T, a, b);
  }

  /** Identical structs are alike and refer to identical types. */
  lemma StructsIdentical(T: seq<BtfType>, rk: seq<nat>, a: nat, b: nat)
    requires Closed(T) && EmbedRanked(T, rk) && a < |T| && b < |T| && IdenticalStructs(T, rk, a, b)
    ensures Shape(T[a]) == Shape(T[b]) && |T[a].refs| == |T[b].refs| && !IsForward(T[a]) && !IsForward(T[b])
    ensures forall i :: 0 <= i < |T[a].refs| ==> T[a].refs[i] < |T| && T[b].refs[i] < |T|
    ensures forall i :: 0 <= i < |T[a].refs| ==> Identical(T, rk, T[a].refs[i], T[b].refs[i])
  {
    ShallowChecksDecideShape(T[a], T[b]);
    ShapeDeterminesRefs(T[a], T[b]);
  }

  // ----- The hypothetical map -----

  ghost predicate HypotOk(T: seq<BtfType>, H: seq<nat>) {
    |H| == |T| <= MAX_NR_TYPES && forall k :: 0 <= k < |H| && H[k] <= MAX_NR_TYPES ==> H[k] < |T|
  }

  /** Follow a forward to its definition, if the map already knows one. */
  ghost function ResolveFwd(T: seq<BtfType>, M: seq<nat>, k: nat): (r: nat)
    requires MapInv(T, M) && k < |M|
    ensures r < |M| && Resolve(T, M, r) == Resolve(T, M, k)
    ensures T[k].kind != FWD ==> r == k
    ensures T[r].name == T[k].name
  {
    if T[k].kind == FWD && T[Resolve(T, M, k)].kind != FWD then Resolve(T, M, k) else k
  }

  /** The walk accepted candidate `c` against canonical-side type `k`. */
  ghost predicate Related(T: seq<BtfType>, M: seq<nat>, rk: seq<nat>, H: seq<nat>, c: nat, k: nat)
    requires Closed(T) && MapInv(T, M) && EmbedRanked(T, rk) && HypotOk(T, H)
    requires c < |T| && k < |T|
  {
    || Resolve(T, M, c) == Resolve(T, M, k)
    || (var q := ResolveFwd(T, M, k); H[q] <= MAX_NR_TYPES && Identical(T, rk, H[q], c))
  }

  /** The check of one pair of records, references aside. */
  predicate LocalMatch(c: BtfType, k: BtfType)
    requires WellFormed(c) && WellFormed(k)
  {
    && c.name == k.name
    && (if (c.kind == FWD || k.kind == FWD) && c.kind != k.kind then
          if c.kind == FWD then FwdKind(c) == k.kind else FwdKind(k) == c.kind
        else
          && c.kind == k.kind
          && (match c.kind
              case INT => EqualIntTag(c, k)
              case ENUM | ENUM64 => CompatEnum(c, k)
              case FWD | FLOAT => EqualCommon(c, k)
              case CONST | VOLATILE | RESTRICT | PTR | TYPEDEF | FUNC | TYPE_TAG => SameInfo(c, k)
              case ARRAY => CompatArray(c, k)
              case STRUCT | UNION => ShallowEqualStruct(c, k)
              case FUNC_PROTO => CompatFnProto(c, k)
              case _ => false))
  }

  const EINVAL := -22

  /** The kinds the walk does not support. */
  predicate Unwalkable(k: Kind) { k in {UNKN, VAR, DATASEC, DECL_TAG} }

  /** The comparison of two records in the walk: positive, zero or an error. */
  function LocalCheck(c: BtfType, k: BtfType): (eq: int)
    requires WellFormed(c) && WellFormed(k)
    ensures eq > 0 <==> LocalMatch(c, k)
    ensures eq < 0 ==> eq == EINVAL && c.kind == k.kind && Unwalkable(c.kind)
  {
    if c.name != k.name then 0
    else if (c.kind == FWD || k.kind == FWD) && c.kind != k.kind then
      var realKind := if c.kind == FWD then k.kind else c.kind;
      var fwdKind := if c.kind == FWD then FwdKind(c) else FwdKind(k);
      if fwdKind == realKind then 1 else 0
    else if c.kind != k.kind then 0
    else
      match c.kind
      case INT => if EqualIntTag(c, k) then 1 else 0
      case ENUM | ENUM64 => if CompatEnum(c, k) then 1 else 0
      case FWD | FLOAT => if EqualCommon(c, k) then 1 else 0
      case CONST | VOLATILE | RESTRICT | PTR | TYPEDEF | FUNC | TYPE_TAG => if SameInfo(c, k) then 1 else 0
      case ARRAY => if CompatArray(c, k) then 1 else 0
      case STRUCT | UNION => if ShallowEqualStruct(c, k) then 1 else 0
      case FUNC_PROTO => if CompatFnProto(c, k) then 1 else 0
      case _ => EINVAL
  }

  lemma LocalMatchShape(c: BtfType, k: BtfType)
    requires WellFormed(c) && WellFormed(k) && LocalMatch(c, k)
    ensures c.kind == k.kind ==> |c.refs| == |k.refs|
    ensures c.kind == k.kind && !IsForward(c) && !IsForward(k) ==> Shape(c) == Shape(k)
  {
    ShallowChecksDecideShape(c, k);
    if c.kind == k.kind && PrimKind(c.kind) && !IsForward(c) && !IsForward(k) {
      TableEqualIsEquality(c, k);
    }
    if Shape(c) == Shape(k) {
      ShapeDeterminesRefs(c, k);
    }
  }

  ghost predicate ChildrenRelated(T: seq<BtfType>, M: seq<nat>, rk: seq<nat>, H: seq<nat>, c: nat, k: nat, n: nat)
    requires Closed(T) && MapInv(T, M) && EmbedRanked(T, rk) && HypotOk(T, H)
    requires c < |T| && k < |T| && n <= |T[c].refs| && n <= |T[k].refs|
  {
    forall i :: 0 <= i < n ==> Related(T, M, rk, H, T[c].refs[i], T[k].refs[i])
  }

  /** The hypothetical pair recorded for `k`, if any, has been checked all the way down. */
  ghost predicate Matched(T: seq<BtfType>, M: seq<nat>, rk: seq<nat>, H: seq<nat>, k: nat)
    requires Closed(T) && MapInv(T, M) && EmbedRanked(T, rk) && HypotOk(T, H) && k < |T|
  {
    H[k] <= MAX_NR_TYPES ==>
      && LocalMatch(T[H[k]], T[k])
      && (T[H[k]].kind == T[k].kind ==>
            && |T[H[k]].refs| == |T[k].refs|
            && ChildrenRelated(T, M, rk, H, H[k], k, |T[k].refs|))
  }

  // ----- Growth of the hypothetical map -----

  ghost predicate Extends(H: seq<nat>, H': seq<nat>) {
    |H| == |H'| && forall k :: 0 <= k < |H| && H[k] <= MAX_NR_TYPES ==> H'[k] == H[k]
  }

  lemma RelatedKept(T: seq<BtfType>, M: seq<nat>, rk: seq<nat>, H: seq<nat>, H': seq<nat>, c: nat, k: nat)
    requires Closed(T) && MapInv(T, M) && EmbedRanked(T, rk) && HypotOk(T, H) && HypotOk(T, H')
    requires Extends(H, H') && c < |T| && k < |T| && Related(T, M, rk, H, c, k)
    ensures Related(T, M, rk, H', c, k)
  {
  }

  lemma MatchedKept(T: seq<BtfType>, M: seq<nat>, rk: seq<nat>, H: seq<nat>, H': seq<nat>, k: nat)
    requires Closed(T) && MapInv(T, M) && EmbedRanked(T, rk) && HypotOk(T, H) && HypotOk(T, H')
    requires Extends(H, H') && k < |T| && H[k] <= MAX_NR_TYPES && Matched(T, M, rk, H, k)
    ensures Matched(T, M, rk, H', k)
  {
    if T[H[k]].kind == T[k].kind {
      forall i | 0 <= i < |T[k].refs|
        ensures Related(T, M, rk, H', T[H[k]].refs[i], T[k].refs[i])
      {
        RelatedKept(T, M, rk, H, H', T[H[k]].refs[i], T[k].refs[i]);
      }
    }
  }

  // ----- A finished walk preserves meaning -----

  ghost predicate NoForwards(T: seq<BtfType>) {
    forall x :: 0 <= x < |T| ==> !IsForward(T[x])
  }

  ghost predicate AlikeAt(T: seq<BtfType>, f: nat, g: nat)
    requires f < |T| && g < |T|
  {
    && (IsForward(T[f]) && IsForward(T[g]) && Bare(T[f]) == Bare(T[g]) ==> T[f] == T[g])
    && (IsEnumFwd(T[f]) && IsAnyEnum(T[g].kind) && T[f].name == T[g].name ==> T[f].kind == T[g].kind)
  }

  /** Besides that all definitions agree, what is declared forward is declared by equal records, and a
      value-less enum is of the kind of the enums of its name. */
  ghost predicate Uniform(T: seq<BtfType>)
    requires Closed(T)
  {
    OneDefinition(T) && forall f, g {:trigger AlikeAt(T, f, g)} :: 0 <= f < |T| && 0 <= g < |T| ==> AlikeAt(T, f, g)
  }

  lemma NoForwardsAgree(T: seq<BtfType>)
    requires Closed(T) && NoForwards(T)
    ensures OneDefinition(T) && Uniform(T)
  {
  }

  /** A forward opposite what the walk may pair it with. */
  lemma ForwardPair(T: seq<BtfType>, c: nat, k: nat)
    requires Closed(T) && OneDefinition(T) && c < |T| && k < |T|
    requires LocalMatch(T[c], T[k]) && (IsForward(T[c]) || IsForward(T[k]))
    ensures SameMeaning(T, c, T, k)
  {
    if Declares(T[c], T[k]) {
      ForwardMeans(T, c, k);
    } else if Declares(T[k], T[c]) {
      ForwardMeans(T, k, c);
    } else {
      assert Bare(T[c]) == Bare(T[k]);
      SameRead(T, c, k);
    }
  }

  ghost predicate AllMatched(T: seq<BtfType>, M: seq<nat>, rk: seq<nat>, H: seq<nat>)
    requires Closed(T) && MapInv(T, M) && EmbedRanked(T, rk) && HypotOk(T, H)
  {
    forall k :: 0 <= k < |T| ==> Matched(T, M, rk, H, k)
  }

  lemma {:induction false} RelatedSame(T: seq<BtfType>, M: seq<nat>, rk: seq<nat>, H: seq<nat>, c: nat, k: nat, n: nat)
    requires Closed(T) && MapInv(T, M) && MapSame(T, M) && EmbedRanked(T, rk) && HypotOk(T, H)
    requires OneDefinition(T) && AllMatched(T, M, rk, H)
    requires c < |T| && k < |T| && Related(T, M, rk, H, c, k)
    ensures Unfold(T, c, n) == Unfold(T, k, n)
    decreases n, 1
  {
    if Resolve(T, M, c) == Resolve(T, M, k) {
      OneRootSame(T, M, c, k, n);
    } else {
      var q := ResolveFwd(T, M, k);
      HypotPairSame(T, M, rk, H, q, n);
      IdenticalSameMeaning(T, rk, H[q], c, n);
      OneRootSame(T, M, q, k, n);
    }
  }

  lemma OneRootSame(T: seq<BtfType>, M: seq<nat>, c: nat, k: nat, n: nat)
    requires Closed(T) && MapInv(T, M) && MapSame(T, M) && c < |T| && k < |T| && Resolve(T, M, c) == Resolve(T, M, k)
    ensures Unfold(T, c, n) == Unfold(T, k, n)
  {
    ResolveKeepsMeaning(T, M, c);
    ResolveKeepsMeaning(T, M, k);
    assert Unfold(T, c, n) == Unfold(T, Resolve(T, M, c), n);
    assert Unfold(T, k, n) == Unfold(T, Resolve(T, M, k), n);
  }

  lemma MatchedPair(T: seq<BtfType>, M: seq<nat>, rk: seq<nat>, H: seq<nat>, k: nat)
    requires Closed(T) && MapInv(T, M) && EmbedRanked(T, rk) && HypotOk(T, H)
    requires k < |T| && Matched(T, M, rk, H, k) && H[k] <= MAX_NR_TYPES && !IsForward(T[H[k]]) && !IsForward(T[k])
    ensures Shape(T[H[k]]) == Shape(T[k]) && |T[H[k]].refs| == |T[k].refs|
    ensures ChildrenRelated(T, M, rk, H, H[k], k, |T[k].refs|)
  {
    LocalMatchShape(T[H[k]], T[k]);
  }

  /** The pairs of a finished walk form a bisimulation up to the types already merged
      and up to identical arrays and structs, so each pair means the same. */
  lemma {:induction false} HypotPairSame(T: seq<BtfType>, M: seq<nat>, rk: seq<nat>, H: seq<nat>, k: nat, n: nat)
    requires Closed(T) && MapInv(T, M) && MapSame(T, M) && EmbedRanked(T, rk) && HypotOk(T, H)
    requires OneDefinition(T) && AllMatched(T, M, rk, H)
    requires k < |T| && H[k] <= MAX_NR_TYPES
    ensures Unfold(T, H[k], n) == Unfold(T, k, n)
    decreases n, 0
  {
    var c := H[k];
    assert Matched(T, M, rk, H, k);
    if IsForward(T[c]) || IsForward(T[k]) {
      ForwardPair(T, c, k);
    } else if n > 0 {
      MatchedPair(T, M, rk, H, k);
      ChildrenSame(T, M, rk, H, c, k, n - 1);
      UnfoldStep(T, c, T, k, n - 1);
    }
  }

  lemma {:induction false} ChildrenSame(T: seq<BtfType>, M: seq<nat>, rk: seq<nat>, H: seq<nat>, c: nat, k: nat, n: nat)
    requires Closed(T) && MapInv(T, M) && MapSame(T, M) && EmbedRanked(T, rk) && HypotOk(T, H)
    requires OneDefinition(T) && AllMatched(T, M, rk, H)
    requires c < |T| && k < |T| && |T[c].refs| == |T[k].refs|
    requires ChildrenRelated(T, M, rk, H, c, k, |T[k].refs|)
    ensures forall i :: 0 <= i < |T[c].refs| ==> Unfold(T, T[c].refs[i], n) == Unfold(T, T[k].refs[i], n)
    decreases n, 2
  {
    forall i | 0 <= i < |T[c].refs|
      ensures Unfold(T, T[c].refs[i], n) == Unfold(T, T[k].refs[i], n)
    {
      RelatedSame(T, M, rk, H, T[c].refs[i], T[k].refs[i], n);
    }
  }

  // ----- A refused walk has found a reason -----

  /** The walk stops at this pair with answer `eq`: the records just paired do not compare,
      or the canonical side is already paired with a candidate that is not identical. */
  ghost predicate Stuck(T: seq<BtfType>, M: seq<nat>, rk: seq<nat>, H: seq<nat>, c: nat, k0: nat, eq: int)
    requires Closed(T) && MapInv(T, M) && EmbedRanked(T, rk) && HypotOk(T, H)
    requires c < |T| && k0 < |T|
  {
    var k := ResolveFwd(T, M, k0);
    && H[k] <= MAX_NR_TYPES
    && if H[k] == c then LocalCheck(T[c], T[k]) == eq else eq == 0 && !Identical(T, rk, H[k], c)
  }

  /** Following the same reference positions from both sides leads to a pair where the walk stops. */
  ghost predicate Diverges(T: seq<BtfType>, M: seq<nat>, rk: seq<nat>, H: seq<nat>,
                           c: nat, k0: nat, eq: int, path: seq<nat>)
    requires Closed(T) && MapInv(T, M) && EmbedRanked(T, rk) && HypotOk(T, H)
    requires c < |T| && k0 < |T|
    decreases |path|
  {
    && Resolve(T, M, c) != Resolve(T, M, k0)
    && if path == [] then Stuck(T, M, rk, H, c, k0, eq)
       else
         var k := ResolveFwd(T, M, k0);
         && H[k] == c && T[c].kind == T[k].kind && LocalMatch(T[c], T[k])
         && path[0] < |T[c].refs| == |T[k].refs|
         && Diverges(T, M, rk, H, T[c].refs[path[0]], T[k].refs[path[0]], eq, path[1..])
  }

  ghost predicate Refuted(T: seq<BtfType>, M: seq<nat>, rk: seq<nat>, H: seq<nat>, c: nat, k0: nat, eq: int)
    requires Closed(T) && MapInv(T, M) && EmbedRanked(T, rk) && HypotOk(T, H)
    requires c < |T| && k0 < |T|
  {
    exists path :: Diverges(T, M, rk, H, c, k0, eq, path)
  }

  /** One of the references of a pair of comparable records is refuted. */
  ghost predicate RefutedBelow(T: seq<BtfType>, M: seq<nat>, rk: seq<nat>, H: seq<nat>, c: nat, k: nat, eq: int)
    requires Closed(T) && MapInv(T, M) && EmbedRanked(T, rk) && HypotOk(T, H)
    requires c < |T| && k < |T|
  {
    && H[k] == c && T[c].kind == T[k].kind && LocalMatch(T[c], T[k]) && |T[c].refs| == |T[k].refs|
    && exists r {:trigger T[c].refs[r]} :: 0 <= r < |T[c].refs| && Refuted(T, M, rk, H, T[c].refs[r], T[k].refs[r], eq)
  }

  /** The pair just recorded is refused: by its own records or by a pair of references. */
  ghost predicate PairRefuted(T: seq<BtfType>, M: seq<nat>, rk: seq<nat>, H: seq<nat>, c: nat, k: nat, eq: int)
    requires Closed(T) && MapInv(T, M) && EmbedRanked(T, rk) && HypotOk(T, H)
    requires c < |T| && k < |T|
  {
    H[k] == c && (LocalCheck(T[c], T[k]) == eq || RefutedBelow(T, M, rk, H, c, k, eq))
  }

  lemma PairRefutes(T: seq<BtfType>, M: seq<nat>, rk: seq<nat>, H: seq<nat>, c: nat, k0: nat, eq: int)
    requires Closed(T) && MapInv(T, M) && EmbedRanked(T, rk) && HypotOk(T, H)
    requires c < |T| && k0 < |T| && Resolve(T, M, c) != Resolve(T, M, k0)
    requires PairRefuted(T, M, rk, H, c, ResolveFwd(T, M, k0), eq)
    ensures Refuted(T, M, rk, H, c, k0, eq)
  {
    hide EmbedRanked, LocalMatch, LocalCheck, Stuck, Diverges, ResolveFwd;
    var k := ResolveFwd(T, M, k0);
    if LocalCheck(T[c], T[k]) == eq {
      DivergesHere(T, M, rk, H, c, k0, eq);
    } else {
      var r :| 0 <= r < |T[c].refs| && Refuted(T, M, rk, H, T[c].refs[r], T[k].refs[r], eq);
      var path :| Diverges(T, M, rk, H, T[c].refs[r], T[k].refs[r], eq, path);
      DivergesBelow(T, M, rk, H, c, k0, eq, r, path);
    }
  }

  lemma DivergesHere(T: seq<BtfType>, M: seq<nat>, rk: seq<nat>, H: seq<nat>, c: nat, k0: nat, eq: int)
    requires Closed(T) && MapInv(T, M) && EmbedRanked(T, rk) && HypotOk(T, H)
    requires c < |T| && k0 < |T| && Resolve(T, M, c) != Resolve(T, M, k0)
    requires H[ResolveFwd(T, M, k0)] == c && LocalCheck(T[c], T[ResolveFwd(T, M, k0)]) == eq
    ensures Diverges(T, M, rk, H, c, k0, eq, [])
  {
    hide MapInv, EmbedRanked, LocalMatch, LocalCheck;
  }

  lemma DivergesBelow(T: seq<BtfType>, M: seq<nat>, rk: seq<nat>, H: seq<nat>, c: nat, k0: nat, eq: int, r: nat, path: seq<nat>)
    requires Closed(T) && MapInv(T, M) && EmbedRanked(T, rk) && HypotOk(T, H)
    requires c < |T| && k0 < |T| && Resolve(T, M, c) != Resolve(T, M, k0)
    requires var k := ResolveFwd(T, M, k0);
             && H[k] == c && T[c].kind == T[k].kind && LocalMatch(T[c], T[k]) && r < |T[c].refs| == |T[k].refs|
             && Diverges(T, M, rk, H, T[c].refs[r], T[k].refs[r], eq, path)
    ensures Diverges(T, M, rk, H, c, k0, eq, [r] + path)
  {
    hide MapInv, EmbedRanked, LocalMatch, LocalCheck, Stuck, HypotOk;
    assert ([r] + path)[1..] == path;
  }

  /** Equal records are never refused. */
  lemma EqualRecordsAccepted(T: seq<BtfType>, M: seq<nat>, rk: seq<nat>, H: seq<nat>, c: nat, k: nat)
    requires Closed(T) && MapInv(T, M) && EmbedRanked(T, rk) && HypotOk(T, H)
    requires c < |T| && k < |T| && IsComposite(T[k].kind) && H[k] == c
    requires Refuted(T, M, rk, H, c, k, 0)
    ensures T[c] != T[k]
  {
    var path :| Diverges(T, M, rk, H, c, k, 0, path);
    assert path != [] ==> Diverges(T, M, rk, H, T[c].refs[path[0]], T[k].refs[path[0]], 0, path[1..]);
    assert T[c] == T[k] ==> LocalMatch(T[c], T[k]);
  }

  ghost predicate HasUnwalkable(T: seq<BtfType>) {
    exists x :: 0 < x < |T| && Unwalkable(T[x].kind)
  }

  /** The walk fails only on a type of a kind it does not support. */
  lemma {:induction false} FailureMeansUnwalkable(
    T: seq<BtfType>, M: seq<nat>, rk: seq<nat>, H: seq<nat>, c: nat, k0: nat, eq: int, path: seq<nat>)
    requires Closed(T) && MapInv(T, M) && EmbedRanked(T, rk) && HypotOk(T, H)
    requires c < |T| && k0 < |T| && eq < 0 && Diverges(T, M, rk, H, c, k0, eq, path)
    ensures HasUnwalkable(T)
    decreases |path|
  {
    var k := ResolveFwd(T, M, k0);
    if path == [] {
      assert Unwalkable(T[c].kind) && Unwalkable(T[k].kind) && c != k;
    } else {
      FailureMeansUnwalkable(T, M, rk, H, T[c].refs[path[0]], T[k].refs[path[0]], eq, path[1..]);
    }
  }

  // ----- What a walk from types of one meaning comes by -----

  /** `path` leads from `a` to `b`. */
  ghost predicate LeadsTo(T: seq<BtfType>, a: nat, path: seq<nat>, b: nat)
    requires Closed(T) && a < |T|
    decreases |path|
  {
    if path == [] then a == b else path[0] < |T[a].refs| && LeadsTo(T, T[a].refs[path[0]], path[1..], b)
  }

  /** `b` belongs to the graph of `a`. */
  ghost predicate InGraph(T: seq<BtfType>, a: nat, b: nat)
    requires Closed(T) && a < |T|
  {
    exists path :: LeadsTo(T, a, path, b)
  }

  lemma GraphOfSelf(T: seq<BtfType>, a: nat)
    requires Closed(T) && a < |T|
    ensures InGraph(T, a, a)
  {
    assert LeadsTo(T, a, [], a);
  }

  lemma {:induction false} PathGrows(T: seq<BtfType>, a: nat, path: seq<nat>, b: nat, r: nat)
    requires Closed(T) && a < |T| && b < |T| && LeadsTo(T, a, path, b) && r < |T[b].refs|
    ensures LeadsTo(T, a, path + [r], T[b].refs[r])
    decreases |path|
  {
    if path == [] {
      assert LeadsTo(T, T[b].refs[r], [], T[b].refs[r]);
      assert ([r])[1..] == [];
    } else {
      assert (path + [r])[1..] == path[1..] + [r];
      PathGrows(T, T[a].refs[path[0]], path[1..], b, r);
    }
  }

  lemma GraphGrows(T: seq<BtfType>, a: nat, b: nat, r: nat)
    requires Closed(T) && a < |T| && b < |T| && InGraph(T, a, b) && r < |T[b].refs|
    ensures InGraph(T, a, T[b].refs[r])
  {
    var path :| LeadsTo(T, a, path, b);
    PathGrows(T, a, path, b, r);
  }

  /** The candidate is in the graph of `root` and means what the canonical type does. */
  ghost predicate GoodPair(T: seq<BtfType>, root: nat, c: nat, k: nat)
    requires Closed(T) && root < |T|
  {
    c < |T| && k < |T| && InGraph(T, root, c) && SameMeaning(T, c, T, k)
  }

  ghost predicate Walked(T: seq<BtfType>, root: nat, H: seq<nat>)
    requires Closed(T) && root < |T|
  {
    |H| == |T| && forall k {:trigger GoodPair(T, root, H[k], k)} :: 0 <= k < |H| && H[k] <= MAX_NR_TYPES ==> GoodPair(T, root, H[k], k)
  }

  /** A walk that goes on from a pair of one meaning records only such pairs. */
  ghost predicate Traced(T: seq<BtfType>, root: nat, H: seq<nat>, c: nat, k: nat, H': seq<nat>)
    requires Closed(T) && root < |T|
  {
    Uniform(T) && Walked(T, root, H) && GoodPair(T, root, c, k) ==> Walked(T, root, H')
  }

  lemma WalkedAdd(T: seq<BtfType>, root: nat, H: seq<nat>, c: nat, k: nat)
    requires Closed(T) && root < |T| && Walked(T, root, H) && GoodPair(T, root, c, k)
    ensures Walked(T, root, H[k := c])
  {
    var H' := H[k := c];
    forall q | 0 <= q < |H'| && H'[q] <= MAX_NR_TYPES ensures GoodPair(T, root, H'[q], q) {
      assert q != k ==> H'[q] == H[q];
    }
  }

  /** A record as it is meant: of the name of the record, and of a kind that it may declare. */
  lemma ReadKind(T: seq<BtfType>, x: nat)
    requires Closed(T) && x < |T|
    ensures var t, r := T[x], Read(T, T[x]);
            && r.name == t.name
            && (t.kind == FWD ==> r == Bare(t) || r.kind == FwdKind(t))
            && (IsEnumFwd(t) ==> IsAnyEnum(r.kind))
  {
  }

  /** The walk compares types of one meaning of which one is a forward. */
  lemma ForwardsCompare(T: seq<BtfType>, c: nat, k: nat)
    requires Closed(T) && Uniform(T) && c < |T| && k < |T| && SameMeaning(T, c, T, k) && (IsForward(T[c]) || IsForward(T[k]))
    ensures LocalCheck(T[c], T[k]) != 0
  {
    hide Defining, Unfold;
    ReadShapes(T, c, k);
    ReadKind(T, c);
    ReadKind(T, k);
    assert AlikeAt(T, c, k) && AlikeAt(T, k, c);
    if T[c].kind == T[k].kind {
      TableEqualIsEquality(T[c], T[k]);
    }
  }

  lemma ReadShapes(T: seq<BtfType>, c: nat, k: nat)
    requires Closed(T) && c < |T| && k < |T| && SameMeaning(T, c, T, k)
    ensures var s, t := Read(T, T[c]), Read(T, T[k]); Shape(s) == Shape(t) && s.name == t.name && s.kind == t.kind && s.kflag == t.kflag
  {
    assert Unfold(T, c, 1) == Unfold(T, k, 1);
    var s, t := Shape(Read(T, T[c])), Shape(Read(T, T[k]));
    assert s.name == t.name && s.kind == t.kind && s.kflag == t.kflag;
  }

  lemma SameMeaningCompares(T: seq<BtfType>, c: nat, k: nat)
    requires Closed(T) && c < |T| && k < |T| && SameMeaning(T, c, T, k) && !IsForward(T[c]) && !IsForward(T[k])
    ensures Shape(T[c]) == Shape(T[k]) && |T[c].refs| == |T[k].refs| && LocalCheck(T[c], T[k]) != 0
    ensures forall r :: 0 <= r < |T[c].refs| ==> SameMeaning(T, T[c].refs[r], T, T[k].refs[r])
  {
    assert Unfold(T, c, 1) == Unfold(T, k, 1);
    ShapeDeterminesRefs(T[c], T[k]);
    ShallowChecksDecideShape(T[c], T[k]);
    if PrimKind(T[c].kind) {
      assert T[c].refs == T[k].refs == [];
      TableEqualIsEquality(T[c], T[k]);
    }
    forall r, n: nat | 0 <= r < |T[c].refs|
      ensures Unfold(T, T[c].refs[r], n) == Unfold(T, T[k].refs[r], n)
    {
      assert Unfold(T, c, n + 1) == Unfold(T, k, n + 1);
      assert Unfold(T, c, n + 1).kids[r] == Unfold(T, k, n + 1).kids[r];
    }
  }

  /** The references of a good pair make good pairs. */
  lemma GoodChild(T: seq<BtfType>, root: nat, c: nat, k: nat, r: nat)
    requires Closed(T) && root < |T| && GoodPair(T, root, c, k) && r < |T[c].refs| && r < |T[k].refs|
    ensures GoodPair(T, root, T[c].refs[r], T[k].refs[r])
  {
    assert WellFormed(T[c]) && WellFormed(T[k]);
    SameMeaningCompares(T, c, k);
    GraphGrows(T, root, c, r);
  }

  /** Two distinct types of one meaning in one graph, not recognized as identical. */
  ghost predicate Twins(T: seq<BtfType>, rk: seq<nat>, root: nat, a: nat, b: nat)
    requires Closed(T) && EmbedRanked(T, rk) && root < |T|
  {
    && a < |T| && b < |T| && a != b && InGraph(T, root, a) && InGraph(T, root, b)
    && SameMeaning(T, a, T, b) && !Identical(T, rk, a, b)
  }

  ghost predicate HasTwins(T: seq<BtfType>, rk: seq<nat>, root: nat)
    requires Closed(T) && EmbedRanked(T, rk) && root < |T|
  {
    exists a, b :: Twins(T, rk, root, a, b)
  }

  /** Types of one meaning are refused only because two candidates of that meaning, both in the graph
      of the start, compete for one canonical type. */
  lemma {:induction false} RefusalOfSameMeaning(
    T: seq<BtfType>, M: seq<nat>, rk: seq<nat>, H: seq<nat>, root: nat, c: nat, k0: nat, path: seq<nat>)
    requires Closed(T) && MapInv(T, M) && EmbedRanked(T, rk) && HypotOk(T, H) && Uniform(T) && MapSame(T, M)
    requires root < |T| && c < |T| && k0 < |T| && GoodPair(T, root, c, k0) && Walked(T, root, H)
    requires Diverges(T, M, rk, H, c, k0, 0, path)
    ensures HasTwins(T, rk, root)
    decreases |path|
  {
    hide LocalCheck, LocalMatch, Unfold, Identical, MapSame, ResolveFwd, InGraph;
    var k := ResolveFwd(T, M, k0);
    GoodResolved(T, M, root, c, k0);
    if path == [] {
      GoodCompares(T, root, c, k);
      assert GoodPair(T, root, H[k], k);
      forall n: nat ensures Unfold(T, H[k], n) == Unfold(T, c, n) {
        assert Unfold(T, H[k], n) == Unfold(T, k, n) == Unfold(T, c, n);
      }
      assert Twins(T, rk, root, H[k], c);
    } else {
      GoodChild(T, root, c, k, path[0]);
      RefusalOfSameMeaning(T, M, rk, H, root, T[c].refs[path[0]], T[k].refs[path[0]], path[1..]);
    }
  }

  lemma GoodCompares(T: seq<BtfType>, root: nat, c: nat, k: nat)
    requires Closed(T) && root < |T| && Uniform(T) && GoodPair(T, root, c, k)
    ensures LocalCheck(T[c], T[k]) != 0
  {
    if IsForward(T[c]) || IsForward(T[k]) {
      ForwardsCompare(T, c, k);
    } else {
      SameMeaningCompares(T, c, k);
    }
  }

  /** A good pair stays one when the canonical side is followed to a definition. */
  lemma GoodResolved(T: seq<BtfType>, M: seq<nat>, root: nat, c: nat, k: nat)
    requires Closed(T) && MapInv(T, M) && MapSame(T, M) && root < |T| && k < |T| && GoodPair(T, root, c, k)
    ensures GoodPair(T, root, c, ResolveFwd(T, M, k))
  {
    var q := ResolveFwd(T, M, k);
    forall n: nat ensures Unfold(T, c, n) == Unfold(T, q, n) {
      assert Unfold(T, c, n) == Unfold(T, k, n);
      OneRootSame(T, M, k, q, n);
    }
  }

  /** Of two surviving composites of one meaning one has twins in its graph. */
  ghost predicate Apart(T: seq<BtfType>, rk: seq<nat>, M: seq<nat>)
    requires Closed(T) && EmbedRanked(T, rk)
  {
    forall a, b {:trigger ApartAt(T, rk, M, a, b)} :: 0 <= a < |T| && 0 <= b < |T| ==> ApartAt(T, rk, M, a, b)
  }

  ghost predicate ApartAt(T: seq<BtfType>, rk: seq<nat>, M: seq<nat>, a: nat, b: nat)
    requires Closed(T) && EmbedRanked(T, rk) && a < |T| && b < |T|
  {
    |M| == |T| && (a != b && IsComposite(T[a].kind) && IsComposite(T[b].kind) && M[a] == a && M[b] == b && SameMeaning(T, a, T, b)
                   ==> HasTwins(T, rk, a) || HasTwins(T, rk, b))
  }

  /** Fewer survivors stay apart. */
  lemma ApartKept(T: seq<BtfType>, rk: seq<nat>, M: seq<nat>, N: seq<nat>)
    requires Closed(T) && EmbedRanked(T, rk) && Apart(T, rk, M) && |N| == |M| == |T|
    requires forall x :: 0 <= x < |T| && IsComposite(T[x].kind) && N[x] == x ==> M[x] == x
    ensures Apart(T, rk, N)
  {
    forall a, b | 0 <= a < |T| && 0 <= b < |T| ensures ApartAt(T, rk, N, a, b) {
      assert ApartAt(T, rk, M, a, b);
      if IsComposite(T[a].kind) && IsComposite(T[b].kind) && SameMeaning(T, a, T, b) {
        SameKind(T, a, b);
      }
    }
  }

  lemma SameKind(T: seq<BtfType>, a: nat, b: nat)
    requires Closed(T) && a < |T| && b < |T| && SameMeaning(T, a, T, b) && !IsForward(T[a]) && !IsForward(T[b])
    ensures Shape(T[a]) == Shape(T[b]) && T[a].kind == T[b].kind && SameMeaning(T, b, T, a)
  {
    assert Unfold(T, a, 1) == Unfold(T, b, 1);
    assert Shape(T[a]).kind == T[a].kind && Shape(T[b]).kind == T[b].kind;
  }

  /** A new survivor, if nothing of its meaning survives or it has twins in its graph. */
  lemma ApartAdded(T: seq<BtfType>, rk: seq<nat>, M: seq<nat>, x: nat)
    requires Closed(T) && EmbedRanked(T, rk) && Apart(T, rk, M) && x < |M| == |T|
    requires HasTwins(T, rk, x)
             || forall y :: 0 <= y < |T| && y != x && IsComposite(T[y].kind) && M[y] == y ==> !SameMeaning(T, x, T, y)
    ensures Apart(T, rk, M[x := x])
  {
    var N := M[x := x];
    forall a, b | 0 <= a < |T| && 0 <= b < |T| ensures ApartAt(T, rk, N, a, b) {
      assert ApartAt(T, rk, M, a, b);
      if IsComposite(T[a].kind) && IsComposite(T[b].kind) && SameMeaning(T, a, T, b) {
        SameKind(T, a, b);
      }
    }
  }

  // ----- Recording the pairs in the canonical map -----

  /** Linking the roots of an accepted pair, in whichever direction the merge does it,
      keeps signatures and never points a definition at a forward. */
  lemma MergeIsLegal(T: seq<BtfType>, M: seq<nat>, c: nat, k: nat)
    requires MapInv(T, M) && c < |T| && k < |T| && WellFormed(T[c]) && WellFormed(T[k])
    requires LocalMatch(T[c], T[k])
    ensures var t, r := T[Resolve(T, M, c)], T[Resolve(T, M, k)];
            && (t.kind != FWD && r.kind == FWD ==> Represents(r, t) && !IsForward(t) && IsComposite(t.kind))
            && (t.kind == FWD && r.kind != FWD ==> Represents(t, r) && !IsForward(r) && IsComposite(r.kind))
            && (IsComposite(t.kind) && r.kind != FWD ==> Represents(t, r))
  {
  }

  /** What a successful walk from scratch certifies. */
  lemma WalkCertifies(T: seq<BtfType>, M: seq<nat>, rk: seq<nat>, H: seq<nat>, c: nat, k: nat)
    requires Closed(T) && MapInv(T, M) && EmbedRanked(T, rk) && HypotOk(T, H)
    requires AllMatched(T, M, rk, H) && c < |T| && k < |T| && Related(T, M, rk, H, c, k)
    ensures forall q :: 0 <= q < |T| && H[q] <= MAX_NR_TYPES ==> LocalMatch(T[H[q]], T[q])
    ensures OneDefinition(T) && MapSame(T, M) ==>
              && SameMeaning(T, c, T, k)
              && forall q :: 0 <= q < |T| && H[q] <= MAX_NR_TYPES ==> SameMeaning(T, H[q], T, q)
  {
    forall q | 0 <= q < |T| && H[q] <= MAX_NR_TYPES ensures LocalMatch(T[H[q]], T[q]) {
      assert Matched(T, M, rk, H, q);
    }
    if OneDefinition(T) && MapSame(T, M) {
      forall n: nat ensures Unfold(T, c, n) == Unfold(T, k, n) {
        RelatedSame(T, M, rk, H, c, k, n);
      }
      forall q, n: nat | 0 <= q < |T| && H[q] <= MAX_NR_TYPES ensures Unfold(T, H[q], n) == Unfold(T, q, n) {
        HypotPairSame(T, M, rk, H, q, n);
      }
    }
  }

  // ----- A section with twins -----

  /** struct A { struct B x, y; } and struct B { int *p; } from two files: the second brings two copies of B. */
  const INT_TYPE := BtfType(1, INT, false, 0, 4, [], [Item(0, 32, 0)])
  function PtrTo(id: nat): BtfType { BtfType(0, PTR, false, 0, 0, [id], []) }
  function StructB(ptr: nat): BtfType { BtfType(2, STRUCT, false, 1, 8, [ptr], [Item(3, 0, 0)]) }
  function StructA(x: nat, y: nat): BtfType { BtfType(4, STRUCT, false, 2, 16, [x, y], [Item(5, 0, 0), Item(6, 64, 0)]) }

  const WITH_TWINS := [VOID, INT_TYPE, PtrTo(1), StructB(2), StructA(3, 3),
                       StructA(6, 7), StructB(8), StructB(9), PtrTo(1), PtrTo(1)]
  const TWIN_RANK := [0, 0, 0, 0, 1, 1, 0, 0, 0, 0]

  lemma TwinsClosed()
    ensures Closed(WITH_TWINS)
  {
  }

  lemma TwinsRanked()
    ensures EmbedRanked(WITH_TWINS, TWIN_RANK)
  {
  }

  lemma TwinsWellFormed()
    ensures Closed(WITH_TWINS) && EmbedRanked(WITH_TWINS, TWIN_RANK) && NoForwards(WITH_TWINS)
  {
    TwinsClosed();
    TwinsRanked();
    hide Closed, EmbedRanked;
  }

  lemma TwinsUnfold(n: nat)
    requires Closed(WITH_TWINS)
    ensures Unfold(WITH_TWINS, 8, n) == Unfold(WITH_TWINS, 2, n) == Unfold(WITH_TWINS, 9, n)
    ensures Unfold(WITH_TWINS, 6, n) == Unfold(WITH_TWINS, 3, n) == Unfold(WITH_TWINS, 7, n)
    ensures Unfold(WITH_TWINS, 5, n) == Unfold(WITH_TWINS, 4, n)
  {
    hide Closed, Read;
    if n > 0 {
      TwinsUnfold(n - 1);
      TwinsStep(n - 1);
    }
  }

  lemma TwinsStep(n: nat)
    requires Closed(WITH_TWINS)
    requires Unfold(WITH_TWINS, 8, n) == Unfold(WITH_TWINS, 2, n) == Unfold(WITH_TWINS, 9, n)
    requires Unfold(WITH_TWINS, 6, n) == Unfold(WITH_TWINS, 3, n) == Unfold(WITH_TWINS, 7, n)
    ensures Unfold(WITH_TWINS, 8, n + 1) == Unfold(WITH_TWINS, 2, n + 1) == Unfold(WITH_TWINS, 9, n + 1)
    ensures Unfold(WITH_TWINS, 6, n + 1) == Unfold(WITH_TWINS, 3, n + 1) == Unfold(WITH_TWINS, 7, n + 1)
    ensures Unfold(WITH_TWINS, 5, n + 1) == Unfold(WITH_TWINS, 4, n + 1)
  {
    hide Closed, Unfold;
    UnfoldStep(WITH_TWINS, 8, WITH_TWINS, 2, n);
    UnfoldStep(WITH_TWINS, 9, WITH_TWINS, 2, n);
    UnfoldStep(WITH_TWINS, 6, WITH_TWINS, 3, n);
    UnfoldStep(WITH_TWINS, 7, WITH_TWINS, 3, n);
    UnfoldStep(WITH_TWINS, 5, WITH_TWINS, 4, n);
  }

  /** No type is identical to both copies of B: the pointers inside them have different ids. */
  lemma TwinsNotIdentical(h: nat)
    requires h < |WITH_TWINS| && Closed(WITH_TWINS) && EmbedRanked(WITH_TWINS, TWIN_RANK)
    ensures !(Identical(WITH_TWINS, TWIN_RANK, h, 6) && Identical(WITH_TWINS, TWIN_RANK, h, 7))
  {
    if h != 6 {
      CopyIsItself(h, 6);
    } else {
      CopyIsItself(h, 7);
    }
  }

  lemma CopyIsItself(h: nat, b: nat)
    requires h < |WITH_TWINS| && (b == 6 || b == 7) && h != b && Closed(WITH_TWINS) && EmbedRanked(WITH_TWINS, TWIN_RANK)
    ensures !Identical(WITH_TWINS, TWIN_RANK, h, b)
  {
    var s, t := WITH_TWINS[h], WITH_TWINS[b];
    assert t.kind == STRUCT && t.name == 2 && t.vlen == 1 && t.refs[0] == b + 2;
    if s.kind == STRUCT && s.name == 2 {
      assert h == 3 || h == 6 || h == 7;
      assert s.vlen == 1 && s.refs[0] != t.refs[0];
      assert WITH_TWINS[s.refs[0]].kind == PTR;
    }
  }

  lemma BothCopies(M: seq<nat>, H: seq<nat>)
    requires Closed(WITH_TWINS) && EmbedRanked(WITH_TWINS, TWIN_RANK) && MapInv(WITH_TWINS, M) && HypotOk(WITH_TWINS, H)
    requires M[3] == 3 && M[6] == M[7] == UNPROCESSED_ID && Matched(WITH_TWINS, M, TWIN_RANK, H, 4) && H[4] == 5
    ensures H[3] <= MAX_NR_TYPES && Identical(WITH_TWINS, TWIN_RANK, H[3], 6) && Identical(WITH_TWINS, TWIN_RANK, H[3], 7)
  {
    assert Related(WITH_TWINS, M, TWIN_RANK, H, WITH_TWINS[5].refs[0], WITH_TWINS[4].refs[0]);
    assert Related(WITH_TWINS, M, TWIN_RANK, H, WITH_TWINS[5].refs[1], WITH_TWINS[4].refs[1]);
  }

  /** A finished walk that has paired the two structs A. */
  ghost predicate AcceptsTwins(M: seq<nat>, H: seq<nat>)
    requires Closed(WITH_TWINS) && EmbedRanked(WITH_TWINS, TWIN_RANK)
  {
    && MapInv(WITH_TWINS, M) && HypotOk(WITH_TWINS, H) && AllMatched(WITH_TWINS, M, TWIN_RANK, H) && H[4] == 5
  }

  /** The two structs A mean the same, and yet no walk pairs them as long as the second file's copies
      of B have not been merged themselves. */
  lemma TwinsKeepApart(M: seq<nat>, H: seq<nat>)
    requires |M| == |WITH_TWINS| && M[3] == 3 && M[6] == M[7] == UNPROCESSED_ID
    ensures Closed(WITH_TWINS) && EmbedRanked(WITH_TWINS, TWIN_RANK) && NoForwards(WITH_TWINS)
    ensures SameMeaning(WITH_TWINS, 5, WITH_TWINS, 4) && HasTwins(WITH_TWINS, TWIN_RANK, 5)
    ensures !AcceptsTwins(M, H)
  {
    TwinsWellFormed();
    TwinsMean();
    if AcceptsTwins(M, H) {
      assert Matched(WITH_TWINS, M, TWIN_RANK, H, 4);
      BothCopies(M, H);
      TwinsNotIdentical(H[3]);
      assert false;
    }
  }

  lemma TwinsMean()
    requires Closed(WITH_TWINS) && EmbedRanked(WITH_TWINS, TWIN_RANK)
    ensures SameMeaning(WITH_TWINS, 5, WITH_TWINS, 4) && HasTwins(WITH_TWINS, TWIN_RANK, 5)
  {
    hide Identical;
    forall n: nat
      ensures Unfold(WITH_TWINS, 5, n) == Unfold(WITH_TWINS, 4, n) && Unfold(WITH_TWINS, 6, n) == Unfold(WITH_TWINS, 7, n)
    {
      TwinsUnfold(n);
    }
    GraphOfSelf(WITH_TWINS, 5);
    GraphGrows(WITH_TWINS, 5, 5, 0);
    GraphGrows(WITH_TWINS, 5, 5, 1);
    TwinsNotIdentical(6);
    ReflexiveIdentical(6);
    assert Twins(WITH_TWINS, TWIN_RANK, 5, 6, 7);
  }

  lemma ReflexiveIdentical(h: nat)
    requires Closed(WITH_TWINS) && EmbedRanked(WITH_TWINS, TWIN_RANK) && h < |WITH_TWINS|
    ensures Identical(WITH_TWINS, TWIN_RANK, h, h)
  {
  }
}

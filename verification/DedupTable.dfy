/** The candidate table of the deduplication and the progress of the passes. */
module DedupTable {
  import opened BtfTypes
  import opened BtfEqual
  import opened CanonMap

  /** Hash and id of every filed candidate. */
  type Table = multiset<(nat, nat)>

  predicate Filed(k: Kind) { PrimKind(k) || RefKind(k) || IsComposite(k) }

  /** What the table guarantees about the current records `T` and map `M`: entries are filed
      under their hash and stay canonical (forwards may have been resolved since), every
      canonical type of the kinds that are filed is filed, and no two filed records are equal. */
  ghost predicate TableInv(T: seq<BtfType>, M: seq<nat>, table: Table) {
    && |M| == |T|
    && (forall e {:trigger EntryOk(T, M, e)} :: e in table ==> EntryOk(T, M, e))
    && (forall x {:trigger FiledOk(T, M, table, x)} :: 0 <= x < |T| ==> FiledOk(T, M, table, x))
    && (forall e, f {:trigger PairOk(T, e, f)} :: e in table && f in table ==> PairOk(T, e, f))
  }

  predicate EntryOk(T: seq<BtfType>, M: seq<nat>, e: (nat, nat))
    requires |M| == |T|
  {
    && 0 < e.1 < |T| && WellFormed(T[e.1]) && Filed(T[e.1].kind)
    && e.0 == Signature(T[e.1])
    && Mapped(M, e.1) && (!IsForward(T[e.1]) ==> M[e.1] == e.1)
  }

  predicate FiledOk(T: seq<BtfType>, M: seq<nat>, table: Table, x: nat)
    requires |M| == |T| && x < |T|
  {
    M[x] == x && Filed(T[x].kind) ==>
      WellFormed(T[x]) && (Signature(T[x]), x) in table
  }

  predicate PairOk(T: seq<BtfType>, e: (nat, nat), f: (nat, nat)) {
    e.1 < |T| && f.1 < |T| && e.1 != f.1 ==> T[e.1] != T[f.1]
  }

  /** Linking slots that are unmapped, or hold forwards, disturbs nothing. */
  lemma TableKept(T: seq<BtfType>, M: seq<nat>, N: seq<nat>, table: Table)
    requires TableInv(T, M, table) && |N| == |M|
    requires forall x :: 0 <= x < |M| && N[x] != M[x] ==>
               (IsForward(T[x]) || M[x] > MAX_NR_TYPES) && (IsForward(T[x]) ==> Mapped(N, x)) && N[x] != x
    ensures TableInv(T, N, table)
  {
    forall e | e in table ensures EntryOk(T, N, e) {
      assert EntryOk(T, M, e);
    }
    forall x | 0 <= x < |T| ensures FiledOk(T, N, table, x) {
      assert FiledOk(T, M, table, x);
    }
  }

  /** Filing a type that equals no filed one. */
  lemma TableAdded(T: seq<BtfType>, M: seq<nat>, table: Table, x: nat)
    requires TableInv(T, M, table) && 0 < x < |T| <= MAX_NR_TYPES && M[x] > MAX_NR_TYPES
    requires WellFormed(T[x]) && Filed(T[x].kind)
    requires NotFiled(T, table, T[x])
    ensures TableInv(T, M[x := x], table + multiset{(Signature(T[x]), x)})
  {
    var h := Signature(T[x]);
    var N, t2 := M[x := x], table + multiset{(h, x)};
    forall e | e in t2 ensures EntryOk(T, N, e) {
      assert e in table ==> EntryOk(T, M, e);
    }
    forall y | 0 <= y < |T| ensures FiledOk(T, N, t2, y) {
      assert FiledOk(T, M, table, y);
    }
    forall e, f | e in t2 && f in t2 ensures PairOk(T, e, f) {
      if e in table && f in table {
        assert PairOk(T, e, f);
      } else {
        assert e in table ==> EntryOk(T, M, e);
        assert f in table ==> EntryOk(T, M, f);
      }
    }
  }

  /** No filed record equals `t`. */
  ghost predicate NotFiled(T: seq<BtfType>, table: Table, t: BtfType) {
    forall e :: e in table ==> e.1 < |T| && T[e.1] != t
  }

  /** Recording a filed equal as the representative of an unmapped type. */
  lemma TableLinked(T: seq<BtfType>, M: seq<nat>, table: Table, x: nat, y: nat)
    requires TableInv(T, M, table) && 0 < x < |T| && M[x] > MAX_NR_TYPES && y != x
    requires !IsForward(T[x]) || y <= MAX_NR_TYPES
    ensures TableInv(T, M[x := y], table)
  {
    TableKept(T, M, M[x := y], table);
  }

  // ----- Progress -----

  /** Before the primitive pass reaches `lim`. */
  ghost predicate PrimStage(T: seq<BtfType>, M: seq<nat>, lim: nat) {
    && |M| == |T|
    && forall x {:trigger PrimOk(T, M, lim, x)} :: 0 < x < |T| ==> PrimOk(T, M, lim, x)
  }

  predicate PrimOk(T: seq<BtfType>, M: seq<nat>, lim: nat, x: nat)
    requires x < |M| == |T|
  {
    && (PrimKind(T[x].kind) ==> if x < lim then Mapped(M, x) else M[x] == UNPROCESSED_ID)
    && (RefKind(T[x].kind) || IsComposite(T[x].kind) ==> M[x] == UNPROCESSED_ID)
    && (T[x].kind in {VAR, DATASEC} ==> M[x] == x)
    && (x < lim ==> T[x].kind != UNKN)
  }

  lemma PrimStageStep(T: seq<BtfType>, M: seq<nat>, x: nat, y: nat)
    requires 0 < x < |T| && PrimStage(T, M, x) && T[x].kind != UNKN
    requires PrimKind(T[x].kind) && y <= MAX_NR_TYPES
    ensures PrimStage(T, M[x := y], x + 1)
  {
    var N, next := M[x := y], x + 1;
    forall z | 0 < z < |T| ensures PrimOk(T, N, next, z) {
      assert PrimOk(T, M, x, z);
    }
  }

  lemma PrimStageSkip(T: seq<BtfType>, M: seq<nat>, x: nat)
    requires 0 < x < |T| && PrimStage(T, M, x) && T[x].kind != UNKN && !PrimKind(T[x].kind)
    ensures PrimStage(T, M, x + 1)
  {
    var next := x + 1;
    forall z | 0 < z < |T| ensures PrimOk(T, M, next, z) {
      assert PrimOk(T, M, x, z);
    }
  }

  /** Only enum forwards below `id` have been redirected. */
  ghost predicate OnlyRedirected(T: seq<BtfType>, M: seq<nat>, N: seq<nat>, id: nat) {
    && |N| == |M| == |T| && id < |T| && N[id] == M[id]
    && forall x :: 0 <= x < |M| && N[x] != M[x] ==> IsEnumFwd(T[x]) && x < id && Mapped(N, x)
  }

  lemma RedirectStep(T: seq<BtfType>, M: seq<nat>, N: seq<nat>, id: nat, c: nat)
    requires OnlyRedirected(T, M, N, id) && c < id <= MAX_NR_TYPES && IsEnumFwd(T[c])
    ensures OnlyRedirected(T, M, N[c := id], id)
  {
  }

  lemma PrimStageKept(T: seq<BtfType>, M: seq<nat>, N: seq<nat>, id: nat)
    requires PrimStage(T, M, id) && OnlyRedirected(T, M, N, id)
    ensures PrimStage(T, N, id)
  {
    forall z | 0 < z < |T| ensures PrimOk(T, N, id, z) {
      assert PrimOk(T, M, id, z);
    }
  }

  /** Before the composite pass reaches `lim`; all kinds are supported by now. */
  ghost predicate StructStage(T: seq<BtfType>, M: seq<nat>, lim: nat) {
    && |M| == |T|
    && forall x {:trigger StructOk(T, M, lim, x)} :: 0 < x < |T| ==> StructOk(T, M, lim, x)
  }

  predicate StructOk(T: seq<BtfType>, M: seq<nat>, lim: nat, x: nat)
    requires x < |M| == |T|
  {
    && (PrimKind(T[x].kind) ==> Mapped(M, x))
    && (IsComposite(T[x].kind) ==> Mapped(M, x) || (x >= lim && M[x] == UNPROCESSED_ID))
    && (RefKind(T[x].kind) ==> M[x] == UNPROCESSED_ID)
    && (T[x].kind in {VAR, DATASEC} ==> M[x] == x)
    && T[x].kind != UNKN
  }

  lemma PrimStageDone(T: seq<BtfType>, M: seq<nat>)
    requires PrimStage(T, M, |T|)
    ensures StructStage(T, M, 1)
  {
    forall z | 0 < z < |T| ensures StructOk(T, M, 1, z) {
      assert PrimOk(T, M, |T|, z);
    }
  }

  /** What a merge may change: forwards, and composites not mapped yet; both only to mapped. */
  ghost predicate OnlyMerged(T: seq<BtfType>, M: seq<nat>, N: seq<nat>)
    requires |M| == |T|
  {
    && |N| == |M|
    && forall x :: 0 <= x < |M| && N[x] != M[x] ==>
         && Mapped(N, x) && N[x] != x
         && (T[x].kind == FWD || (IsComposite(T[x].kind) && M[x] > MAX_NR_TYPES))
  }

  lemma MergeKeepsStage(T: seq<BtfType>, M: seq<nat>, N: seq<nat>, table: Table, lim: nat)
    requires |M| == |T| && StructStage(T, M, lim) && TableInv(T, M, table) && OnlyMerged(T, M, N)
    ensures StructStage(T, N, lim) && TableInv(T, N, table)
  {
    forall z | 0 < z < |T| ensures StructOk(T, N, lim, z) {
      assert StructOk(T, M, lim, z);
    }
    TableKept(T, M, N, table);
  }

  lemma StructStageStep(T: seq<BtfType>, M: seq<nat>, x: nat, y: nat)
    requires 0 < x < |T| && StructStage(T, M, x) && IsComposite(T[x].kind) && y <= MAX_NR_TYPES
    ensures StructStage(T, M[x := y], x + 1)
  {
    var N, next := M[x := y], x + 1;
    forall z | 0 < z < |T| ensures StructOk(T, N, next, z) {
      assert StructOk(T, M, x, z);
    }
  }

  lemma StructStageSkip(T: seq<BtfType>, M: seq<nat>, x: nat)
    requires 0 < x < |T| && StructStage(T, M, x)
    requires Mapped(M, x) || !IsComposite(T[x].kind)
    ensures StructStage(T, M, x + 1)
  {
    var next := x + 1;
    forall z | 0 < z < |T| ensures StructOk(T, M, next, z) {
      assert StructOk(T, M, x, z);
    }
  }

  // ----- Unambiguous names of canonical composites -----

  ghost predicate CanonComposite(T: seq<BtfType>, M: seq<nat>, x: int, name: nat)
    requires |M| == |T|
  {
    0 < x < |T| && IsComposite(T[x].kind) && M[x] == x && T[x].name == name
  }

  /** `x` is the only canonical composite called `name`. */
  ghost predicate OnlyComposite(T: seq<BtfType>, M: seq<nat>, x: int, name: nat)
    requires |M| == |T|
  {
    CanonComposite(T, M, x, name) && forall y :: CanonComposite(T, M, y, name) ==> y == x
  }

  /** The names map over the ids below `lim`: 0 marks a name that is not unique. */
  ghost predicate NamesOk(T: seq<BtfType>, M: seq<nat>, names: map<nat, nat>, lim: nat)
    requires |M| == |T|
  {
    && (forall x, name: nat :: CanonComposite(T, M, x, name) && x < lim ==> name in names)
    && (forall name :: name in names && names[name] != 0 ==>
          && CanonComposite(T, M, names[name], name) && names[name] < lim
          && forall y :: CanonComposite(T, M, y, name) && y < lim ==> y == names[name])
    && (forall name :: name in names && names[name] == 0 ==>
          exists x, y :: x < y < lim && CanonComposite(T, M, x, name) && CanonComposite(T, M, y, name))
  }

  lemma NamesStep(T: seq<BtfType>, M: seq<nat>, names: map<nat, nat>, x: nat)
    requires |M| == |T| && 0 < x < |T| && NamesOk(T, M, names, x)
    ensures var name := T[x].name;
            NamesOk(T, M,
                    if !CanonComposite(T, M, x, name) then names
                    else if name in names then names[name := 0]
                    else names[name := x], x + 1)
  {
    var name := T[x].name;
    if CanonComposite(T, M, x, name) && name in names {
      var names' := names[name := 0];
      if names[name] != 0 {
        assert CanonComposite(T, M, names[name], name);
      }
      forall nm | nm in names' && names'[nm] == 0
        ensures exists a, b :: a < b < x + 1 && CanonComposite(T, M, a, nm) && CanonComposite(T, M, b, nm)
      {
        if nm == name && names[name] != 0 {
          assert names[name] < x < x + 1;
        } else {
          var a, b :| a < b < x && CanonComposite(T, M, a, nm) && CanonComposite(T, M, b, nm);
          assert a < b < x + 1;
        }
      }
    } else {
      var names' := if !CanonComposite(T, M, x, name) then names else names[name := x];
      forall nm | nm in names' && names'[nm] == 0
        ensures exists a, b :: a < b < x + 1 && CanonComposite(T, M, a, nm) && CanonComposite(T, M, b, nm)
      {
        var a, b :| a < b < x && CanonComposite(T, M, a, nm) && CanonComposite(T, M, b, nm);
        assert a < b < x + 1;
      }
    }
  }

  /** What resolving the remaining forwards may do to the map: link a self-mapped forward
      to the one canonical composite of its name, if there is one and its kind agrees. */
  ghost predicate FwdsResolved(T: seq<BtfType>, M: seq<nat>, N: seq<nat>, lim: nat)
    requires |M| == |T|
  {
    && |N| == |M|
    && (forall x :: 0 <= x < |M| && (x >= lim || T[x].kind != FWD || M[x] != x) ==> N[x] == M[x])
    && (forall x :: 0 < x < lim && x < |M| && T[x].kind == FWD && M[x] == x ==>
          && (N[x] != x ==> OnlyComposite(T, M, N[x], T[x].name) && T[N[x]].kind == FwdKind(T[x]))
          && (N[x] == x ==> forall y :: OnlyComposite(T, M, y, T[x].name) ==> T[y].kind != FwdKind(T[x])))
  }

  /** No forward that survives has exactly one surviving composite of its name, of the kind it declares. */
  ghost predicate FwdsSettled(T: seq<BtfType>, M: seq<nat>)
    requires |M| == |T|
  {
    forall x, y {:trigger OnlyComposite(T, M, y, T[x].name)} :: 0 < x < |T| && T[x].kind == FWD && M[x] == x ==>
      !(OnlyComposite(T, M, y, T[x].name) && T[y].kind == FwdKind(T[x]))
  }

  lemma SameComposites(T: seq<BtfType>, M: seq<nat>, N: seq<nat>, y: int, name: nat)
    requires |M| == |N| == |T| && forall x {:trigger N[x]} :: 0 <= x < |T| && IsComposite(T[x].kind) ==> (N[x] == x <==> M[x] == x)
    ensures OnlyComposite(T, N, y, name) <==> OnlyComposite(T, M, y, name)
  {
    forall z ensures CanonComposite(T, N, z, name) <==> CanonComposite(T, M, z, name) {
      assert 0 < z < |T| ==> N[z] == N[z];
    }
  }

  /** That is what resolving the remaining forwards achieves. */
  lemma ResolvedSettle(T: seq<BtfType>, M: seq<nat>, N: seq<nat>)
    requires |M| == |T| && FwdsResolved(T, M, N, |T|)
    ensures FwdsSettled(T, N)
  {
    forall x, y | 0 < x < |T| && T[x].kind == FWD && N[x] == x && OnlyComposite(T, N, y, T[x].name)
      ensures T[y].kind != FwdKind(T[x])
    {
      SameComposites(T, M, N, y, T[x].name);
    }
  }

  /** And it stays so as long as composites and forwards stay as they are mapped. */
  lemma SettledStays(T: seq<BtfType>, M: seq<nat>, N: seq<nat>)
    requires |M| == |N| == |T| && FwdsSettled(T, M)
    requires forall x {:trigger N[x]} :: 0 <= x < |T| && (IsComposite(T[x].kind) || T[x].kind == FWD) ==> N[x] == M[x]
    ensures FwdsSettled(T, N)
  {
    forall x, y | 0 < x < |T| && T[x].kind == FWD && N[x] == x && OnlyComposite(T, N, y, T[x].name)
      ensures T[y].kind != FwdKind(T[x])
    {
      SameComposites(T, M, N, y, T[x].name);
    }
  }

  lemma FwdsStep(T: seq<BtfType>, M: seq<nat>, N: seq<nat>, x: nat, y: nat)
    requires |M| == |T| && 0 < x < |T| && FwdsResolved(T, M, N, x)
    requires T[x].kind != FWD || N[x] != x ==> y == N[x]
    requires T[x].kind == FWD && N[x] == x ==>
               && (y != x ==> OnlyComposite(T, M, y, T[x].name) && T[y].kind == FwdKind(T[x]))
               && (y == x ==> forall z :: OnlyComposite(T, M, z, T[x].name) ==> T[z].kind != FwdKind(T[x]))
    ensures FwdsResolved(T, M, N[x := y], x + 1)
  {
  }

  /** What the names map says about one forward. */
  lemma NamesDecide(T: seq<BtfType>, M: seq<nat>, names: map<nat, nat>, name: nat)
    requires |M| == |T| && NamesOk(T, M, names, |T|)
    ensures name in names && names[name] != 0 ==> OnlyComposite(T, M, names[name], name)
    ensures name !in names || names[name] == 0 ==> forall z :: !OnlyComposite(T, M, z, name)
  {
    if name in names && names[name] == 0 {
      var a, b :| a < b < |T| && CanonComposite(T, M, a, name) && CanonComposite(T, M, b, name);
    }
  }

  lemma FwdsStay(T: seq<BtfType>, M: seq<nat>, N: seq<nat>, x: nat)
    requires |M| == |T| && 0 < x < |T| && FwdsResolved(T, M, N, x)
    requires T[x].kind == FWD && N[x] == x ==>
               forall z :: OnlyComposite(T, M, z, T[x].name) ==> T[z].kind != FwdKind(T[x])
    ensures FwdsResolved(T, M, N, x + 1)
  {
  }

  // ----- Value-less enums -----

  /** `x` ends at something other than a value-less enum. */
  ghost predicate Full(T: seq<BtfType>, M: seq<nat>, x: nat)
    requires MapInv(T, M) && x < |T|
  {
    !IsEnumFwd(T[Resolve(T, M, x)])
  }

  predicate FullEnum(t: BtfType) { IsAnyEnum(t.kind) && !IsEnumFwd(t) }

  /** A value-less enum ends at one with values if some enum of its name has them. */
  ghost predicate EnumSettled(T: seq<BtfType>, M: seq<nat>, x: nat, y: nat)
    requires MapInv(T, M) && x < |T| && y < |T|
  {
    IsEnumFwd(T[x]) && FullEnum(T[y]) && T[x].name == T[y].name ==> Full(T, M, x)
  }

  /** So far as the ids below `lim` are concerned. */
  ghost predicate EnumsSettled(T: seq<BtfType>, M: seq<nat>, lim: nat)
    requires MapInv(T, M)
  {
    forall x, y {:trigger EnumSettled(T, M, x, y)} :: 0 <= x < lim && 0 <= y < lim && x < |T| && y < |T| ==> EnumSettled(T, M, x, y)
  }

  ghost predicate FullStays(T: seq<BtfType>, M: seq<nat>, N: seq<nat>)
    requires MapInv(T, M) && MapInv(T, N)
  {
    forall z {:trigger Full(T, N, z)} :: 0 <= z < |T| && Full(T, M, z) ==> Full(T, N, z)
  }

  lemma FullSelf(T: seq<BtfType>, M: seq<nat>)
    requires MapInv(T, M)
    ensures FullStays(T, M, M)
  {
  }

  lemma FullTrans(T: seq<BtfType>, L: seq<nat>, M: seq<nat>, N: seq<nat>)
    requires MapInv(T, L) && MapInv(T, M) && MapInv(T, N) && FullStays(T, L, M) && FullStays(T, M, N)
    ensures FullStays(T, L, N)
  {
    forall z | 0 <= z < |T| && Full(T, L, z) ensures Full(T, N, z) {
      assert Full(T, M, z);
    }
  }

  lemma SettledKept(T: seq<BtfType>, M: seq<nat>, N: seq<nat>, lim: nat)
    requires MapInv(T, M) && MapInv(T, N) && EnumsSettled(T, M, lim) && FullStays(T, M, N)
    ensures EnumsSettled(T, N, lim)
  {
    forall x, y | 0 <= x < lim && 0 <= y < lim && x < |T| && y < |T| ensures EnumSettled(T, N, x, y) {
      assert EnumSettled(T, M, x, y);
    }
  }

  /** A slot is overwritten: what is chased through it now goes on from its new value. */
  lemma {:induction false} SlotChased(T: seq<BtfType>, M: seq<nat>, x: nat, y: nat, z: nat)
    requires MapInv(T, M) && x < |T| && y < |T| && z < |T| && MapInv(T, M[x := y])
    ensures var r := Resolve(T, M[x := y], z); r == Resolve(T, M, z) || r == Resolve(T, M[x := y], y)
    ensures Root(M, x) && Resolve(T, M, z) != x ==> Resolve(T, M[x := y], z) == Resolve(T, M, z)
    decreases Rank(T, M, z)
  {
    var N := M[x := y];
    assert LinkOk(T, M, z) && LinkOk(T, N, z) && LinkOk(T, N, x);
    if z == x {
      if y != x {
        assert Resolve(T, N, x) == Resolve(T, N, y);
      }
    } else if !Root(M, z) {
      SlotChased(T, M, x, y, M[z]);
    }
  }

  /** A value-less enum is redirected to one with values. */
  lemma RedirectStays(T: seq<BtfType>, M: seq<nat>, e: nat, y: nat)
    requires MapInv(T, M) && e < |T| && y < |T| && MapInv(T, M[e := y]) && FullEnum(T[y])
    ensures FullStays(T, M, M[e := y])
  {
    forall z | 0 <= z < |T| && Full(T, M, z) ensures Full(T, M[e := y], z) {
      SlotChased(T, M, e, y, z);
    }
  }

  /** An unmapped type gets its representative. */
  lemma LinkStays(T: seq<BtfType>, M: seq<nat>, x: nat, y: nat)
    requires MapInv(T, M) && x < |T| && y < |T| && Root(M, x) && MapInv(T, M[x := y]) && Represents(T[x], T[y])
    ensures FullStays(T, M, M[x := y])
  {
    forall z | 0 <= z < |T| && Full(T, M, z) ensures Full(T, M[x := y], z) {
      SlotChased(T, M, x, y, z);
    }
  }

  /** Every filed enum that is compatible with `id` has no values, and `id` has taken its place. */
  ghost predicate EnumsTaken(T: seq<BtfType>, M: seq<nat>, table: Table, id: nat)
    requires id < |T| == |M| && WellFormed(T[id]) && IsAnyEnum(T[id].kind)
  {
    forall c {:trigger TakenAt(T, M, table, id, c)} :: 0 <= c < |T| ==> TakenAt(T, M, table, id, c)
  }

  ghost predicate TakenAt(T: seq<BtfType>, M: seq<nat>, table: Table, id: nat, c: nat)
    requires id < |T| == |M| && WellFormed(T[id]) && IsAnyEnum(T[id].kind) && c < |T|
  {
    ((Signature(T[id]), c) in table && WellFormed(T[c]) && CompatEnum(T[id], T[c])) ==> (FullEnum(T[id]) && M[c] == id)
  }

  lemma {:induction false} ForwardRootBelow(T: seq<BtfType>, M: seq<nat>, x: nat)
    requires MapInv(T, M) && x < |T| && IsForward(T[Resolve(T, M, x)])
    ensures Resolve(T, M, x) <= x
    decreases Rank(T, M, x)
  {
    assert LinkOk(T, M, x);
    if !Root(M, x) {
      ForwardRootBelow(T, M, M[x]);
    }
  }

  /** A self-mapped enum of the name of `id` is filed with it, so its place has been taken. */
  lemma RootIsTaken(T: seq<BtfType>, M: seq<nat>, table: Table, id: nat, r: nat)
    requires TableInv(T, M, table) && id < |T| && r < |T| && WellFormed(T[id]) && IsAnyEnum(T[id].kind)
    requires M[r] == r && IsAnyEnum(T[r].kind) && T[r].name == T[id].name && (IsEnumFwd(T[id]) || IsEnumFwd(T[r]))
    requires EnumsTaken(T, M, table, id)
    ensures FullEnum(T[id]) && M[r] == id
  {
    assert FiledOk(T, M, table, r);
    ChecksImplyEqualHash(T[id], T[r]);
    assert TakenAt(T, M, table, id, r);
  }

  /** One more enum: it joins its equal or a compatible one, or takes the place of the value-less ones. */
  lemma EnumSettledNext(T: seq<BtfType>, M: seq<nat>, table: Table, id: nat, y: nat)
    requires MapInv(T, M) && PrimStage(T, M, id) && TableInv(T, M, table) && EnumsSettled(T, M, id)
    requires 0 < id < |T| && T[0] == VOID && y <= id && M[id] > MAX_NR_TYPES && MapInv(T, M[id := y]) && Represents(T[id], T[y]) && WellFormed(T[id])
    requires !IsForward(T[id]) ==> T[y] == T[id]
    requires y == id && IsAnyEnum(T[id].kind) ==> EnumsTaken(T, M, table, id)
    ensures EnumsSettled(T, M[id := y], id + 1)
  {
    var N, next := M[id := y], id + 1;
    hide Resolve, TableInv, CompatEnum, Signature;
    LinkStays(T, M, id, y);
    forall a, b | 0 <= a < next && 0 <= b < next ensures EnumSettled(T, N, a, b) {
      if IsEnumFwd(T[a]) && FullEnum(T[b]) && T[a].name == T[b].name {
        if a < id && b < id {
          assert EnumSettled(T, M, a, b);
        } else if a < id {
          NewFull(T, M, table, id, y, a);
        } else {
          NewValueless(T, M, table, id, y, b);
        }
      }
    }
  }

  lemma NewFull(T: seq<BtfType>, M: seq<nat>, table: Table, id: nat, y: nat, a: nat)
    requires MapInv(T, M) && PrimStage(T, M, id) && TableInv(T, M, table) && EnumsSettled(T, M, id)
    requires 0 < id < |T| && T[0] == VOID && y <= id && MapInv(T, M[id := y]) && WellFormed(T[id]) && FullStays(T, M, M[id := y])
    requires FullEnum(T[id]) && T[y] == T[id] && a < id && IsEnumFwd(T[a]) && T[a].name == T[id].name
    requires y == id ==> EnumsTaken(T, M, table, id)
    ensures Full(T, M[id := y], a)
  {
    hide TableInv, CompatEnum, Signature;
    if y != id {
      assert EnumSettled(T, M, a, y);
    } else if !Full(T, M, a) {
      var r := Resolve(T, M, a);
      ForwardRootBelow(T, M, a);
      assert a > 0 && r > 0 && PrimOk(T, M, id, r);
      RootIsTaken(T, M, table, id, r);
    }
  }

  lemma NewValueless(T: seq<BtfType>, M: seq<nat>, table: Table, id: nat, y: nat, b: nat)
    requires MapInv(T, M) && PrimStage(T, M, id) && TableInv(T, M, table) && EnumsSettled(T, M, id)
    requires 0 < id < |T| && T[0] == VOID && y <= id && MapInv(T, M[id := y]) && WellFormed(T[id]) && FullStays(T, M, M[id := y])
    requires IsEnumFwd(T[id]) && Represents(T[id], T[y]) && b < id && FullEnum(T[b]) && T[b].name == T[id].name
    requires y == id ==> EnumsTaken(T, M, table, id)
    ensures Full(T, M[id := y], id)
  {
    hide TableInv, CompatEnum, Signature;
    var N := M[id := y];
    assert LinkOk(T, M, b) && LinkOk(T, N, id);
    if y == id {
      assert b > 0 && PrimOk(T, M, id, b);
      RootIsTaken(T, M, table, id, M[b]);
    } else {
      assert Resolve(T, N, id) == Resolve(T, N, y);
      if IsEnumFwd(T[y]) {
        assert EnumSettled(T, M, y, b);
        assert Full(T, N, y);
      }
    }
  }

  /** Anything but an enum, mapped: enums are as they were. */
  lemma OtherSettledNext(T: seq<BtfType>, M: seq<nat>, id: nat, y: nat)
    requires MapInv(T, M) && EnumsSettled(T, M, id) && id < |T| && y < |T| && !IsAnyEnum(T[id].kind)
    requires Root(M, id) && MapInv(T, M[id := y]) && Represents(T[id], T[y])
    ensures EnumsSettled(T, M[id := y], id + 1)
  {
    var N, next := M[id := y], id + 1;
    LinkStays(T, M, id, y);
    forall a, b | 0 <= a < next && 0 <= b < next ensures EnumSettled(T, N, a, b) {
      assert a < id && b < id ==> EnumSettled(T, M, a, b);
    }
  }

  lemma SettledSkip(T: seq<BtfType>, M: seq<nat>, id: nat)
    requires MapInv(T, M) && EnumsSettled(T, M, id) && id < |T| && !IsAnyEnum(T[id].kind)
    ensures EnumsSettled(T, M, id + 1)
  {
    var next := id + 1;
    forall a, b | 0 <= a < next && 0 <= b < next ensures EnumSettled(T, M, a, b) {
      assert a < id && b < id ==> EnumSettled(T, M, a, b);
    }
  }

  lemma SettledAll(T: seq<BtfType>, M: seq<nat>, cs: seq<nat>, table: Table, id: nat)
    requires id < |T| == |M| && WellFormed(T[id]) && IsAnyEnum(T[id].kind)
    requires forall c :: (Signature(T[id]), c) in table ==> c in cs
    requires forall j {:trigger cs[j]} :: 0 <= j < |cs| ==> cs[j] < |T| && TakenAt(T, M, table, id, cs[j])
    ensures EnumsTaken(T, M, table, id)
  {
    hide TakenAt;
    forall c | 0 <= c < |T| ensures TakenAt(T, M, table, id, c) {
      if (Signature(T[id]), c) in table {
        var j :| 0 <= j < |cs| && cs[j] == c;
      } else {
        NotThere(T, M, table, id, c);
      }
    }
  }

  lemma NotThere(T: seq<BtfType>, M: seq<nat>, table: Table, id: nat, c: nat)
    requires id < |T| == |M| && WellFormed(T[id]) && IsAnyEnum(T[id].kind) && c < |T| && (Signature(T[id]), c) !in table
    ensures TakenAt(T, M, table, id, c)
  {
  }

  /** Nothing is compatible with nothing below: at the start no enum has been seen. */
  lemma NoneSettled(T: seq<BtfType>, M: seq<nat>)
    requires MapInv(T, M) && T[0] == VOID
    ensures EnumsSettled(T, M, 1)
  {
  }

  lemma EnumsKeptSelf(T: seq<BtfType>, M: seq<nat>)
    requires |M| == |T|
    ensures EnumsKept(T, M, M)
  {
  }

  lemma EnumsKeptTrans(T: seq<BtfType>, L: seq<nat>, M: seq<nat>, N: seq<nat>)
    requires |L| == |M| == |T| && EnumsKept(T, L, M) && EnumsKept(T, M, N)
    ensures EnumsKept(T, L, N)
  {
  }

  lemma NoneRedirected(T: seq<BtfType>, M: seq<nat>, id: nat)
    requires |M| == |T| && id < |T|
    ensures OnlyRedirected(T, M, M, id)
  {
  }

  lemma MergedKeepsEnums(T: seq<BtfType>, M: seq<nat>, N: seq<nat>)
    requires |M| == |T| && OnlyMerged(T, M, N)
    ensures EnumsKept(T, M, N)
  {
  }

  /** No enum has been mapped anew. */
  ghost predicate EnumsKept(T: seq<BtfType>, M: seq<nat>, N: seq<nat>)
    requires |M| == |T|
  {
    |N| == |M| && forall x {:trigger N[x]} :: 0 <= x < |T| && IsAnyEnum(T[x].kind) ==> N[x] == M[x]
  }

  lemma {:induction false} EnumRootKept(T: seq<BtfType>, M: seq<nat>, N: seq<nat>, x: nat)
    requires MapInv(T, M) && MapInv(T, N) && EnumsKept(T, M, N) && x < |T| && IsAnyEnum(T[x].kind)
    ensures Resolve(T, N, x) == Resolve(T, M, x)
    decreases Rank(T, M, x)
  {
    assert LinkOk(T, M, x) && N[x] == M[x];
    if !Root(M, x) {
      EnumRootKept(T, M, N, M[x]);
    }
  }

  lemma SettledEver(T: seq<BtfType>, M: seq<nat>, N: seq<nat>)
    requires MapInv(T, M) && MapInv(T, N) && EnumsKept(T, M, N) && EnumsSettled(T, M, |T|)
    ensures EnumsSettled(T, N, |T|)
  {
    forall x, y | 0 <= x < |T| && 0 <= y < |T| ensures EnumSettled(T, N, x, y) {
      assert EnumSettled(T, M, x, y);
      if IsEnumFwd(T[x]) {
        EnumRootKept(T, M, N, x);
      }
    }
  }

  // ----- Forwards that walks have resolved -----

  /** `x` ends at something other than a forward. */
  ghost predicate Defined(T: seq<BtfType>, M: seq<nat>, x: nat)
    requires MapInv(T, M) && x < |T|
  {
    T[Resolve(T, M, x)].kind != FWD
  }

  /** What has been resolved stays resolved. */
  ghost predicate DefinedStays(T: seq<BtfType>, M: seq<nat>, N: seq<nat>)
    requires MapInv(T, M) && MapInv(T, N)
  {
    forall z {:trigger Defined(T, N, z)} :: 0 <= z < |T| && Defined(T, M, z) ==> Defined(T, N, z)
  }

  /** Exactly one of the two is a forward. */
  predicate FwdMeetsDef(T: seq<BtfType>, t: nat, c: nat)
    requires t < |T| && c < |T|
  {
    (T[t].kind == FWD) != (T[c].kind == FWD)
  }

  /** If exactly one of the two is a forward, it is resolved. */
  ghost predicate PairDefined(T: seq<BtfType>, M: seq<nat>, t: nat, c: nat)
    requires MapInv(T, M)
  {
    t < |T| && c < |T| && (FwdMeetsDef(T, t, c) ==> Defined(T, M, t) && Defined(T, M, c))
  }

  lemma PairStays(T: seq<BtfType>, M: seq<nat>, N: seq<nat>, t: nat, c: nat)
    requires MapInv(T, M) && MapInv(T, N) && DefinedStays(T, M, N) && PairDefined(T, M, t, c)
    ensures PairDefined(T, N, t, c)
  {
  }

  lemma MergedTrans(T: seq<BtfType>, L: seq<nat>, M: seq<nat>, N: seq<nat>)
    requires |L| == |M| == |T| && OnlyMerged(T, L, M) && OnlyMerged(T, M, N)
    ensures OnlyMerged(T, L, N)
  {
  }

  /** A composite that is its own representative stays so. */
  lemma RootKept(T: seq<BtfType>, M: seq<nat>, N: seq<nat>, c: nat)
    requires |M| == |T| && OnlyMerged(T, M, N) && c < |T| <= MAX_NR_TYPES && IsComposite(T[c].kind) && M[c] == c
    ensures N[c] == c
  {
  }

  lemma NoneMerged(T: seq<BtfType>, M: seq<nat>)
    requires |M| == |T|
    ensures OnlyMerged(T, M, M)
  {
  }

  /** The recorded pairs of a walk have a forward opposite something else. */
  ghost predicate MetAt(T: seq<BtfType>, H: seq<nat>, f: nat)
  {
    && f < |T| && T[f].kind == FWD
    && exists k :: 0 <= k < |H| && k < |T| && H[k] < |T| && FwdMeetsDef(T, H[k], k) && (f == k || f == H[k])
  }

  ghost function MetIn(T: seq<BtfType>, H: seq<nat>): set<nat> {
    set f: nat | f < |T| && MetAt(T, H, f)
  }

  /** Joining a root to another that is no forward, or a forward to whatever, keeps them resolved. */
  lemma JoinStays(T: seq<BtfType>, M: seq<nat>, N: seq<nat>, x: nat, y: nat)
    requires MapInv(T, M) && MapInv(T, N) && x < |T| && y < |T| && (T[x].kind == FWD || T[y].kind != FWD)
    requires forall z :: 0 <= z < |T| ==> Resolve(T, N, z) == if Resolve(T, M, z) == x then y else Resolve(T, M, z)
    ensures DefinedStays(T, M, N)
  {
  }

  lemma DefinedTrans(T: seq<BtfType>, L: seq<nat>, M: seq<nat>, N: seq<nat>)
    requires MapInv(T, L) && MapInv(T, M) && MapInv(T, N) && DefinedStays(T, L, M) && DefinedStays(T, M, N)
    ensures DefinedStays(T, L, N)
  {
    forall z | 0 <= z < |T| && Defined(T, L, z) ensures Defined(T, N, z) {
      assert Defined(T, M, z);
    }
  }

  lemma SameStays(T: seq<BtfType>, M: seq<nat>, N: seq<nat>)
    requires MapInv(T, M) && MapInv(T, N)
    requires forall z :: 0 <= z < |T| ==> Resolve(T, N, z) == Resolve(T, M, z)
    ensures DefinedStays(T, M, N)
  {
  }

  lemma DefinedSelf(T: seq<BtfType>, M: seq<nat>)
    requires MapInv(T, M)
    ensures DefinedStays(T, M, M)
  {
  }

  lemma MergedOne(T: seq<BtfType>, M: seq<nat>, x: nat, y: nat)
    requires |M| == |T| && x < |T| && y <= MAX_NR_TYPES && y != x
    requires T[x].kind == FWD || (IsComposite(T[x].kind) && M[x] > MAX_NR_TYPES)
    ensures OnlyMerged(T, M, M[x := y])
  {
  }
}

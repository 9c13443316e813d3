/** The canonical map of the deduplication: a union-find forest over type ids.

    A slot holds the id of a representative, or one of two marker values above
    the largest id.  `MapInv` is the invariant every pass keeps; it makes
    chasing the map terminate and says what a representative may be. */
module CanonMap {
  import opened BtfTypes

  const MAX_NR_TYPES: nat := 0x7fff_ffff
  const UNPROCESSED_ID: nat := 0xffff_ffff
  const IN_PROGRESS_ID: nat := 0xffff_fffe

  predicate Mapped(M: seq<nat>, x: nat)
    requires x < |M|
  {
    M[x] <= MAX_NR_TYPES
  }

  /** Self-mapped, or not mapped to any id yet. */
  predicate Root(M: seq<nat>, x: nat)
    requires x < |M|
  {
    Mapped(M, x) ==> M[x] == x
  }

  /** The signature a representative `t` of `s` must have: same name and kind,
      except that a forward may be represented by what it declares. */
  predicate Represents(s: BtfType, t: BtfType) {
    && s.name == t.name
    && (if s.kind == FWD then (t.kind == FWD && t.kflag == s.kflag) || t.kind == FwdKind(s)
        else if IsEnumFwd(s) then IsAnyEnum(t.kind)
        else t.kind == s.kind && !IsForward(t))
  }

  /** One link of the map: a forward points at an earlier forward or at a definition;
      a definition points at a self-mapped definition of its own kind and name. */
  predicate LinkOk(T: seq<BtfType>, M: seq<nat>, x: nat)
    requires |M| == |T| && x < |M|
  {
    Mapped(M, x) && M[x] != x ==>
      && M[x] < |M|
      && Represents(T[x], T[M[x]])
      && (if IsForward(T[x]) then IsForward(T[M[x]]) ==> M[x] < x else M[M[x]] == M[x])
  }

  ghost predicate MapInv(T: seq<BtfType>, M: seq<nat>) {
    && 0 < |M| == |T| <= MAX_NR_TYPES
    && M[0] == 0
    && forall x :: 0 <= x < |M| ==> LinkOk(T, M, x)
  }

  function Rank(T: seq<BtfType>, M: seq<nat>, x: nat): nat
    requires x < |M| == |T|
  {
    if IsForward(T[x]) then x + 2 else if Root(M, x) then 0 else 1
  }

  /** Chase the map from `x` up to its root. */
  ghost function Resolve(T: seq<BtfType>, M: seq<nat>, x: nat): (r: nat)
    requires MapInv(T, M) && x < |M|
    ensures r < |M| && Root(M, r)
    ensures Represents(T[x], T[r])
    ensures Root(M, x) ==> r == x
    decreases Rank(T, M, x)
  {
    if Root(M, x) then x
    else
      assert LinkOk(T, M, x);
      Resolve(T, M, M[x])
  }

  /** Linking one root under another joins exactly their two trees. */
  lemma {:induction false} LinkJoins(T: seq<BtfType>, M: seq<nat>, x: nat, y: nat, z: nat)
    requires MapInv(T, M) && x < |M| && y < |M| && z < |M|
    requires Root(M, x) && Root(M, y) && x != y
    requires MapInv(T, M[x := y])
    ensures Resolve(T, M[x := y], z) == (if Resolve(T, M, z) == x then y else Resolve(T, M, z))
    decreases Rank(T, M, z)
  {
    var N := M[x := y];
    assert LinkOk(T, M, z) && LinkOk(T, N, z) && LinkOk(T, N, x);
    if z == x {
      assert Root(N, y);
      assert Resolve(T, N, x) == Resolve(T, N, y) == y;
    } else if Root(M, z) {
    } else {
      LinkJoins(T, M, x, y, M[z]);
    }
  }

  /** Marking an unmapped root as its own representative, or as in progress, moves nothing. */
  lemma {:induction false} RemarkKeepsRoots(T: seq<BtfType>, M: seq<nat>, x: nat, v: nat, z: nat)
    requires MapInv(T, M) && x < |M| && z < |M| && Root(M, x)
    requires v == x || v > MAX_NR_TYPES
    requires MapInv(T, M[x := v])
    ensures Resolve(T, M[x := v], z) == Resolve(T, M, z)
    decreases Rank(T, M, z)
  {
    assert LinkOk(T, M, z);
    if !Root(M, z) {
      RemarkKeepsRoots(T, M, x, v, M[z]);
    }
  }

  /** When may a slot be overwritten: the invariant survives if the new link is a legal
      one and nothing relied on `x` being self-mapped. */
  lemma LinkKeepsInv(T: seq<BtfType>, M: seq<nat>, x: nat, y: nat)
    requires MapInv(T, M) && 0 < x < |M| && y < |M|
    requires y != x ==>
               && Represents(T[x], T[y])
               && (if IsForward(T[x]) then IsForward(T[y]) ==> y < x else M[y] == y && M[x] != x)
    ensures MapInv(T, M[x := y])
  {
    var N := M[x := y];
    forall z | 0 <= z < |N| ensures LinkOk(T, N, z) {
      assert LinkOk(T, M, z);
    }
  }

  lemma MarkKeepsInv(T: seq<BtfType>, M: seq<nat>, x: nat, v: nat)
    requires MapInv(T, M) && 0 < x < |M| && v > MAX_NR_TYPES && M[x] != x
    ensures MapInv(T, M[x := v])
  {
    var N := M[x := v];
    forall z | 0 <= z < |N| ensures LinkOk(T, N, z) {
      assert LinkOk(T, M, z);
    }
  }

  // ----- Meaning -----

  ghost predicate SlotSame(T: seq<BtfType>, M: seq<nat>, x: nat)
    requires Closed(T) && x < |M| == |T|
  {
    Mapped(M, x) ==> M[x] < |T| && SameMeaning(T, x, T, M[x])
  }

  /** Every type is mapped to a type of the same meaning. */
  ghost predicate MapSame(T: seq<BtfType>, M: seq<nat>)
    requires Closed(T) && MapInv(T, M)
  {
    forall x {:trigger SlotSame(T, M, x)} :: 0 <= x < |M| ==> SlotSame(T, M, x)
  }

  lemma {:induction false} ResolveKeepsMeaning(T: seq<BtfType>, M: seq<nat>, x: nat)
    requires Closed(T) && MapInv(T, M) && MapSame(T, M) && x < |M|
    ensures SameMeaning(T, x, T, Resolve(T, M, x))
    decreases Rank(T, M, x)
  {
    assert LinkOk(T, M, x);
    if !Root(M, x) {
      ResolveKeepsMeaning(T, M, M[x]);
      var r := Resolve(T, M, x);
      assert SlotSame(T, M, x);
      forall n: nat ensures Unfold(T, x, n) == Unfold(T, r, n) {
        assert Unfold(T, x, n) == Unfold(T, M[x], n);
        assert Unfold(T, M[x], n) == Unfold(T, r, n);
      }
    }
  }

  lemma MarkKeepsMeaning(T: seq<BtfType>, M: seq<nat>, x: nat, v: nat)
    requires Closed(T) && MapInv(T, M) && MapSame(T, M) && 0 < x < |M| && v > MAX_NR_TYPES
    requires MapInv(T, M[x := v])
    ensures MapSame(T, M[x := v])
  {
    var N := M[x := v];
    forall z | 0 <= z < |N| ensures SlotSame(T, N, z) {
      assert SlotSame(T, M, z);
    }
  }

  lemma LinkKeepsMeaning(T: seq<BtfType>, M: seq<nat>, x: nat, y: nat)
    requires Closed(T) && MapInv(T, M) && MapSame(T, M) && 0 < x < |M| && y < |M|
    requires MapInv(T, M[x := y]) && (y != x ==> SameMeaning(T, x, T, y))
    ensures MapSame(T, M[x := y])
  {
    var N := M[x := y];
    forall z | 0 <= z < |N| ensures SlotSame(T, N, z) {
      assert SlotSame(T, M, z);
    }
  }
}

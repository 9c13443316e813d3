/** A section in which a name that is declared forward is defined in two ways, and what the merge
    makes of it: a struct is put under another one of its name that has other members. */
module ForwardClash {
  import opened BtfTypes
  import opened BtfEqual
  import opened CanonMap
  import opened GraphEquiv

  /** struct S { int x; } and struct S { int y; }, which differ in the name of the member. */
  function StructS(member: nat): BtfType { BtfType(2, STRUCT, false, 1, 4, [1], [Item(member, 0, 0)]) }

  /** Two structs A { struct S *p, *q; }: to one file p is a pointer to an S declared forward and q one
      to the S with y, to the other p is one to the S with x and q one to the forward. */
  const CLASH := [VOID, INT_TYPE, BtfType(2, FWD, false, 0, 0, [], []), PtrTo(2), StructS(7), PtrTo(4),
                  StructA(3, 5), StructA(9, 3), StructS(8), PtrTo(8)]
  const CLASH_RANK := [0, 0, 0, 0, 0, 0, 0, 0, 0, 0]

  /** The map when the second struct A is looked up: the first one and the S with y have their representatives. */
  const CLASH_MAP := [0, 1, 2, UNPROCESSED_ID, 4, UNPROCESSED_ID, 6, UNPROCESSED_ID, UNPROCESSED_ID, UNPROCESSED_ID]

  /** The pairs of the walk from the second struct A against the first. */
  const CLASH_PAIRS := [UNPROCESSED_ID, UNPROCESSED_ID, 8, 9, 2, 3, 7, UNPROCESSED_ID, UNPROCESSED_ID, UNPROCESSED_ID]

  lemma ClashClosed()
    ensures Closed(CLASH)
  {
  }

  lemma ClashRanked()
    ensures EmbedRanked(CLASH, CLASH_RANK)
  {
  }

  lemma ClashMapped()
    ensures MapInv(CLASH, CLASH_MAP) && HypotOk(CLASH, CLASH_PAIRS)
  {
  }

  /** The second struct A and the S with x go under the first struct A and the S with y. */
  function Merged1(): seq<nat> { CLASH_MAP[7 := 6] }
  function Merged2(): seq<nat> { Merged1()[2 := 8] }
  function Merged3(): seq<nat> { Merged2()[8 := 4] }

  lemma MergedMapped()
    ensures MapInv(CLASH, Merged1()) && MapInv(CLASH, Merged2()) && MapInv(CLASH, Merged3())
  {
  }

  lemma MergedRoots()
    requires MapInv(CLASH, Merged1()) && MapInv(CLASH, Merged2()) && MapInv(CLASH, Merged3())
    ensures Resolve(CLASH, Merged1(), 8) == 8 && Resolve(CLASH, Merged1(), 2) == 2
    ensures Resolve(CLASH, Merged2(), 2) == 8 && Resolve(CLASH, Merged2(), 4) == 4
    ensures Resolve(CLASH, Merged3(), 8) == 4
  {
    hide MapInv;
  }

  lemma PairAt(k: nat)
    requires Closed(CLASH) && EmbedRanked(CLASH, CLASH_RANK) && MapInv(CLASH, CLASH_MAP) && HypotOk(CLASH, CLASH_PAIRS)
    requires k < |CLASH|
    ensures Matched(CLASH, CLASH_MAP, CLASH_RANK, CLASH_PAIRS, k)
  {
    hide Closed, EmbedRanked, MapInv, HypotOk, Related;
    if k == 6 {
      RelatedPair(9, 3);
      RelatedPair(3, 5);
    } else if k == 3 {
      RelatedPair(8, 2);
    } else if k == 5 {
      RelatedPair(2, 4);
    }
  }

  lemma RelatedPair(c: nat, k: nat)
    requires Closed(CLASH) && EmbedRanked(CLASH, CLASH_RANK) && MapInv(CLASH, CLASH_MAP) && HypotOk(CLASH, CLASH_PAIRS)
    requires k < |CLASH| && CLASH_PAIRS[k] == c && c < |CLASH| && k in {2, 3, 4, 5, 6}
    ensures Related(CLASH, CLASH_MAP, CLASH_RANK, CLASH_PAIRS, c, k)
  {
  }

  /** The two structs S do not mean the same, so the section does not define S in one way. */
  lemma TwoDefinitions()
    requires Closed(CLASH)
    ensures !SameMeaning(CLASH, 8, CLASH, 4) && !OneDefinition(CLASH)
  {
    assert Unfold(CLASH, 8, 1).shape.items[0].name != Unfold(CLASH, 4, 1).shape.items[0].name;
    if OneDefinition(CLASH) {
      DefinitionsAgree(CLASH, 2, 8, 4);
      assert false;
    }
  }

  /** The walk accepts the two structs A.  Merging its pairs in turn resolves the forward to the S with x; the
      pair of the forward and the S with y then has that S on either side, one unmapped and one a
      representative, and so the S with x is lost, although nothing it refers to is declared forward. */
  lemma DefinitionLost()
    ensures Closed(CLASH) && EmbedRanked(CLASH, CLASH_RANK) && MapInv(CLASH, CLASH_MAP) && HypotOk(CLASH, CLASH_PAIRS)
    ensures AllMatched(CLASH, CLASH_MAP, CLASH_RANK, CLASH_PAIRS) && Related(CLASH, CLASH_MAP, CLASH_RANK, CLASH_PAIRS, 7, 6)
    ensures MapInv(CLASH, Merged1()) && Resolve(CLASH, Merged1(), 8) == 8 && Resolve(CLASH, Merged1(), 2) == 2
    ensures MapInv(CLASH, Merged2()) && Resolve(CLASH, Merged2(), 2) == 8 && Resolve(CLASH, Merged2(), 4) == 4
    ensures Merged2()[8] > MAX_NR_TYPES && Merged2()[4] == 4 && CLASH_PAIRS[4] == 2
    ensures MapInv(CLASH, Merged3()) && Resolve(CLASH, Merged3(), 8) == 4 && !SameMeaning(CLASH, 8, CLASH, 4)
    ensures !OneDefinition(CLASH)
  {
    hide Closed, EmbedRanked, MapInv, HypotOk, Resolve, Related, Matched, OneDefinition;
    ClashClosed();
    ClashRanked();
    ClashMapped();
    MergedMapped();
    MergedRoots();
    RelatedPair(7, 6);
    forall k | 0 <= k < |CLASH| ensures Matched(CLASH, CLASH_MAP, CLASH_RANK, CLASH_PAIRS, k) {
      PairAt(k);
    }
    TwoDefinitions();
  }
}

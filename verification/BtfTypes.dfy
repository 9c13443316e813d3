/** The type records of a BTF section, and what a record means.

    A record has a fixed part (name, info, and one word that is a size or a
    type id) and trailing items.  The type ids it holds, in its fixed word or
    in its items, are kept apart from the rest: `Shape` is a record with its references
    blanked out; `Unfold` is the tree of shapes seen from an id. */
module BtfTypes {
  datatype Kind =
    | UNKN | INT | PTR | ARRAY | STRUCT | UNION | ENUM | FWD | TYPEDEF
    | VOLATILE | CONST | RESTRICT | FUNC | FUNC_PROTO | VAR | DATASEC
    | FLOAT | DECL_TAG | TYPE_TAG | ENUM64

  /** One trailing item, without the type ids it may hold.  Per kind:
        INT, VAR, DECL_TAG   one item, `val` is the encoding, linkage or component index
        ENUM                 name, val
        ENUM64               name, val (low word), aux (high word)
        ARRAY                one item, `val` is the number of elements
        STRUCT, UNION        name, val (bit offset)
        FUNC_PROTO           name
        DATASEC              val (offset), aux (size)
      Unused fields are zero. */
  datatype Item = Item(name: nat, val: nat, aux: nat)

  /** `refs` lists the type ids a record holds, in the order they are visited: the type
      word first, then element and index type of an array, or the types of the items. */
  datatype BtfType =
    BtfType(name: nat, kind: Kind, kflag: bool, vlen: nat, size: nat, refs: seq<nat>, items: seq<Item>)

  const VOID := BtfType(0, UNKN, false, 0, 0, [], [])

  // ----- Kinds -----

  /** The fixed word is a type id rather than a size. */
  predicate TypeWord(k: Kind) {
    k in {PTR, CONST, VOLATILE, RESTRICT, TYPEDEF, FUNC, TYPE_TAG, DECL_TAG, VAR, FUNC_PROTO}
  }

  /** The trailing items carry type ids. */
  predicate ItemRefs(k: Kind) {
    k in {ARRAY, STRUCT, UNION, FUNC_PROTO, DATASEC}
  }

  predicate VlenKind(k: Kind) {
    k in {ENUM, ENUM64, STRUCT, UNION, FUNC_PROTO, DATASEC}
  }

  predicate IsComposite(k: Kind) { k == STRUCT || k == UNION }

  predicate IsAnyEnum(k: Kind) { k == ENUM || k == ENUM64 }

  /** A value-less enum acts as a forward declaration of an enum. */
  predicate IsEnumFwd(t: BtfType) { IsAnyEnum(t.kind) && t.vlen == 0 }

  predicate IsForward(t: BtfType) { t.kind == FWD || IsEnumFwd(t) }

  /** The kinds handled by the reference pass. */
  predicate RefKind(k: Kind) {
    k in {CONST, VOLATILE, RESTRICT, PTR, TYPEDEF, FUNC, TYPE_TAG, DECL_TAG, ARRAY, FUNC_PROTO}
  }

  /** The kinds handled by the primitive pass. */
  predicate PrimKind(k: Kind) { k in {INT, ENUM, ENUM64, FWD, FLOAT} }

  function FwdKind(t: BtfType): Kind { if t.kflag then UNION else STRUCT }

  // ----- Well-formed records -----

  predicate ItemFits(k: Kind, it: Item) {
    match k
    case INT | VAR | DECL_TAG | ARRAY => it.name == 0 && it.aux == 0
    case ENUM | STRUCT | UNION => it.aux == 0
    case FUNC_PROTO => it.val == 0 && it.aux == 0
    case DATASEC => it.name == 0
    case _ => true
  }

  function ItemCount(t: BtfType): nat {
    if VlenKind(t.kind) then t.vlen
    else if t.kind in {INT, VAR, DECL_TAG, ARRAY} then 1
    else 0
  }

  function RefCount(t: BtfType): nat {
    (if TypeWord(t.kind) then 1 else 0)
    + (if t.kind == ARRAY then 2 else if ItemRefs(t.kind) then t.vlen else 0)
  }

  predicate WellFormed(t: BtfType) {
    && |t.items| == ItemCount(t)
    && |t.refs| == RefCount(t)
    && (TypeWord(t.kind) ==> t.size == 0)
    && forall i :: 0 <= i < |t.items| ==> ItemFits(t.kind, t.items[i])
  }

  /** The word shared by size and type id. */
  function SizeOrType(t: BtfType): nat
    requires WellFormed(t)
  {
    if TypeWord(t.kind) then t.refs[0] else t.size
  }

  /** The type of member or parameter `i`. */
  function ItemType(t: BtfType, i: nat): nat
    requires WellFormed(t) && t.kind in {STRUCT, UNION, FUNC_PROTO, DATASEC} && i < t.vlen
  {
    t.refs[if t.kind == FUNC_PROTO then i + 1 else i]
  }

  // ----- Shape -----

  /** A record with its references blanked out. */
  function Shape(t: BtfType): BtfType { t.(refs := []) }

  /** `t` with its i-th type id rewritten in place. */
  function SetRef(t: BtfType, i: nat, r: nat): BtfType
    requires i < |t.refs|
  {
    t.(refs := t.refs[i := r])
  }

  lemma ShapeDeterminesRefs(s: BtfType, t: BtfType)
    requires Shape(s) == Shape(t) && WellFormed(s) && WellFormed(t)
    ensures s.kind == t.kind && s.vlen == t.vlen && s.name == t.name && s.kflag == t.kflag && s.items == t.items
    ensures |s.refs| == |t.refs|
  {
    assert Shape(s).items == s.items && Shape(t).items == t.items;
  }

  // ----- Type sections and their meaning -----

  /** Every reference stays inside the section and id 0 is void. */
  predicate Closed(T: seq<BtfType>) {
    && |T| > 0 && T[0] == VOID
    && (forall x {:trigger WellFormed(T[x])} :: 0 <= x < |T| ==> WellFormed(T[x]))
    && (forall x, i {:trigger T[x].refs[i]} :: 0 <= x < |T| && 0 <= i < |T[x].refs| ==> T[x].refs[i] < |T|)
  }

  /** What a forward says: a name, and what kind of thing has it. */
  function Bare(f: BtfType): BtfType
    requires IsForward(f)
  {
    if f.kind == FWD then BtfType(f.name, FWD, f.kflag, 0, 0, [], []) else BtfType(f.name, ENUM, false, 0, 0, [], [])
  }

  /** `d` is a definition of what the forward `f` declares. */
  predicate Declares(f: BtfType, d: BtfType) {
    && IsForward(f) && f.name == d.name
    && (if f.kind == FWD then d.kind == FwdKind(f) else IsAnyEnum(d.kind) && d.vlen > 0)
  }

  /** The first definition from `y` on, or else the bare forward itself. */
  function Defining(T: seq<BtfType>, b: BtfType, y: nat): (t: BtfType)
    requires y <= |T|
    ensures t == b || (t in T && Declares(b, t))
    decreases |T| - y
  {
    if y == |T| then b else if Declares(b, T[y]) then T[y] else Defining(T, b, y + 1)
  }

  /** It is left bare only if there is no definition. */
  lemma {:induction false} NoneDefining(T: seq<BtfType>, b: BtfType, y: nat)
    requires y <= |T| && IsForward(b)
    ensures Defining(T, b, y) == b ==> forall z :: y <= z < |T| ==> !Declares(b, T[z])
    decreases |T| - y
  {
    if y < |T| {
      NoneDefining(T, b, y + 1);
    }
  }

  /** A record as it is meant: a forward stands for what it declares. */
  function Read(T: seq<BtfType>, t: BtfType): (r: BtfType)
    requires Closed(T) && t in T
    ensures r == (if IsForward(t) then Defining(T, Bare(t), 0) else t)
    ensures forall i :: 0 <= i < |r.refs| ==> r.refs[i] < |T|
  {
    if IsForward(t) then Defining(T, Bare(t), 0) else t
  }

  datatype Tree = Cut | Node(shape: BtfType, kids: seq<Tree>)

  /** The n-level unfolding of an id: kinds, names, sizes, offsets and so on,
      but never the ids themselves.  Forwards are followed to what they declare. */
  function Unfold(T: seq<BtfType>, x: nat, n: nat): Tree
    requires Closed(T) && x < |T|
    decreases n
  {
    if n == 0 then Cut
    else
      var t := Read(T, T[x]);
      Node(Shape(t), seq(|t.refs|, i requires 0 <= i < |t.refs| => Unfold(T, t.refs[i], n - 1)))
  }

  /** The two ids have the same unfolding at every depth. */
  ghost predicate SameMeaning(S: seq<BtfType>, x: nat, T: seq<BtfType>, y: nat)
    requires Closed(S) && x < |S| && Closed(T) && y < |T|
  {
    forall n: nat :: Unfold(S, x, n) == Unfold(T, y, n)
  }

  /** One more level: equal shapes and pairwise equal children. */
  lemma UnfoldStep(S: seq<BtfType>, x: nat, T: seq<BtfType>, y: nat, n: nat)
    requires Closed(S) && x < |S| && Closed(T) && y < |T|
    requires !IsForward(S[x]) && !IsForward(T[y]) && Shape(S[x]) == Shape(T[y])
    requires |S[x].refs| == |T[y].refs|
    requires forall i :: 0 <= i < |S[x].refs| ==> Unfold(S, S[x].refs[i], n) == Unfold(T, T[y].refs[i], n)
    ensures Unfold(S, x, n + 1) == Unfold(T, y, n + 1)
  {
    assert Unfold(S, x, n + 1).kids == Unfold(T, y, n + 1).kids;
  }

  // ----- Forwards -----

  ghost predicate AgreeAt(T: seq<BtfType>, f: nat, d: nat)
    requires Closed(T) && f < |T| && d < |T|
  {
    Declares(T[f], T[d]) ==> SameMeaning(T, f, T, d)
  }

  /** All definitions of a name that is also declared forward mean the same. */
  ghost predicate OneDefinition(T: seq<BtfType>)
    requires Closed(T)
  {
    forall f, d {:trigger AgreeAt(T, f, d)} :: 0 <= f < |T| && 0 <= d < |T| ==> AgreeAt(T, f, d)
  }

  /** Types that are read alike mean the same. */
  lemma SameRead(T: seq<BtfType>, x: nat, y: nat)
    requires Closed(T) && x < |T| && y < |T| && Read(T, T[x]) == Read(T, T[y])
    ensures SameMeaning(T, x, T, y) && SameMeaning(T, y, T, x)
  {
    forall n: nat ensures Unfold(T, x, n) == Unfold(T, y, n) { }
  }

  /** A forward means what any definition of it means. */
  lemma ForwardMeans(T: seq<BtfType>, f: nat, d: nat)
    requires Closed(T) && OneDefinition(T) && f < |T| && d < |T| && Declares(T[f], T[d])
    ensures SameMeaning(T, f, T, d) && SameMeaning(T, d, T, f)
  {
    assert AgreeAt(T, f, d);
    forall n: nat ensures Unfold(T, d, n) == Unfold(T, f, n) {
      assert Unfold(T, f, n) == Unfold(T, d, n);
    }
  }

  lemma DefinitionsAgree(T: seq<BtfType>, f: nat, c: nat, d: nat)
    requires Closed(T) && OneDefinition(T) && f < |T| && c < |T| && d < |T| && Declares(T[f], T[c]) && Declares(T[f], T[d])
    ensures SameMeaning(T, c, T, d)
  {
    ForwardMeans(T, f, c);
    ForwardMeans(T, f, d);
    forall n: nat ensures Unfold(T, c, n) == Unfold(T, d, n) {
      assert Unfold(T, c, n) == Unfold(T, f, n) == Unfold(T, d, n);
    }
  }
}

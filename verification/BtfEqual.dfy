/** Signature hashes and the equality checks the deduplication passes use. */
module BtfEqual {
  import opened BtfTypes

  // ----- Hashes: unsigned 64-bit arithmetic -----

  const WORD64 := 0x1_0000_0000_0000_0000

  function HashCombine(h: nat, v: nat): nat { (h * 31 + v) % WORD64 }

  function KindNumber(k: Kind): nat {
    match k
    case UNKN => 0 case INT => 1 case PTR => 2 case ARRAY => 3 case STRUCT => 4
    case UNION => 5 case ENUM => 6 case FWD => 7 case TYPEDEF => 8 case VOLATILE => 9
    case CONST => 10 case RESTRICT => 11 case FUNC => 12 case FUNC_PROTO => 13
    case VAR => 14 case DATASEC => 15 case FLOAT => 16 case DECL_TAG => 17
    case TYPE_TAG => 18 case ENUM64 => 19
  }

  function Info(t: BtfType): nat {
    t.vlen + KindNumber(t.kind) * 0x100_0000 + (if t.kflag then 0x8000_0000 else 0)
  }

  function HashCommon(t: BtfType): nat
    requires WellFormed(t)
  {
    HashCombine(HashCombine(HashCombine(0, t.name), Info(t)), SizeOrType(t))
  }

  function HashIntDeclTag(t: BtfType): nat
    requires WellFormed(t) && t.kind in {INT, DECL_TAG}
  {
    HashCombine(HashCommon(t), t.items[0].val)
  }

  /** Neither members nor size are hashed, so that an enum forward meets its definition. */
  function HashEnum(t: BtfType): nat { HashCombine(0, t.name) }

  function HashMembers(h: nat, items: seq<Item>): nat
    decreases |items|
  {
    if items == [] then h
    else HashMembers(HashCombine(HashCombine(h, items[0].name), items[0].val), items[1..])
  }

  function HashStruct(t: BtfType): nat
    requires WellFormed(t)
  {
    HashMembers(HashCommon(t), t.items)
  }

  function HashArray(t: BtfType): nat
    requires WellFormed(t) && t.kind == ARRAY
  {
    HashCombine(HashCombine(HashCombine(HashCommon(t), t.refs[0]), t.refs[1]), t.items[0].val)
  }

  function HashParams(h: nat, items: seq<Item>, types: seq<nat>): nat
    requires |items| == |types|
    decreases |items|
  {
    if items == [] then h
    else HashParams(HashCombine(HashCombine(h, items[0].name), types[0]), items[1..], types[1..])
  }

  function HashFnProto(t: BtfType): nat
    requires WellFormed(t) && t.kind == FUNC_PROTO
  {
    HashParams(HashCommon(t), t.items, t.refs[1..])
  }

  /** The hash under which a type of each kind is filed. */
  function Signature(t: BtfType): nat
    requires WellFormed(t)
  {
    match t.kind
    case INT | DECL_TAG => HashIntDeclTag(t)
    case ENUM | ENUM64 => HashEnum(t)
    case STRUCT | UNION => HashStruct(t)
    case ARRAY => HashArray(t)
    case FUNC_PROTO => HashFnProto(t)
    case _ => HashCommon(t)
  }

  // ----- Equality checks -----

  predicate SameInfo(s: BtfType, t: BtfType) {
    s.kind == t.kind && s.kflag == t.kflag && s.vlen == t.vlen
  }

  predicate EqualCommon(s: BtfType, t: BtfType)
    requires WellFormed(s) && WellFormed(t)
  {
    s.name == t.name && SameInfo(s, t) && SizeOrType(s) == SizeOrType(t)
  }

  predicate EqualIntTag(s: BtfType, t: BtfType)
    requires WellFormed(s) && WellFormed(t) && s.kind in {INT, DECL_TAG}
  {
    EqualCommon(s, t) && s.items[0].val == t.items[0].val
  }

  predicate EqualEnum(s: BtfType, t: BtfType)
    requires WellFormed(s) && WellFormed(t) && IsAnyEnum(s.kind)
  {
    && EqualCommon(s, t)
    && forall i :: 0 <= i < s.vlen ==>
         && s.items[i].name == t.items[i].name
         && s.items[i].val == t.items[i].val
         && (s.kind == ENUM64 ==> s.items[i].aux == t.items[i].aux)
  }

  predicate CompatEnum(s: BtfType, t: BtfType)
    requires WellFormed(s) && WellFormed(t) && IsAnyEnum(s.kind)
  {
    if !IsEnumFwd(s) && !IsEnumFwd(t) then EqualEnum(s, t)
    else s.name == t.name && IsAnyEnum(t.kind)
  }

  predicate ShallowEqualStruct(s: BtfType, t: BtfType)
    requires WellFormed(s) && WellFormed(t) && IsComposite(s.kind)
  {
    && EqualCommon(s, t)
    && forall i :: 0 <= i < s.vlen ==>
         s.items[i].name == t.items[i].name && s.items[i].val == t.items[i].val
  }

  predicate EqualArray(s: BtfType, t: BtfType)
    requires WellFormed(s) && WellFormed(t) && s.kind == ARRAY
  {
    && EqualCommon(s, t)
    && s.refs[0] == t.refs[0]
    && s.refs[1] == t.refs[1]
    && s.items[0].val == t.items[0].val
  }

  predicate CompatArray(s: BtfType, t: BtfType)
    requires WellFormed(s) && WellFormed(t) && s.kind == ARRAY
  {
    EqualCommon(s, t) && s.items[0].val == t.items[0].val
  }

  predicate EqualFnProto(s: BtfType, t: BtfType)
    requires WellFormed(s) && WellFormed(t) && s.kind == FUNC_PROTO
  {
    && EqualCommon(s, t)
    && forall i :: 0 <= i < s.vlen ==>
         s.items[i].name == t.items[i].name && ItemType(s, i) == ItemType(t, i)
  }

  predicate CompatFnProto(s: BtfType, t: BtfType)
    requires WellFormed(s) && WellFormed(t) && s.kind == FUNC_PROTO
  {
    && s.name == t.name && SameInfo(s, t)
    && forall i :: 0 <= i < s.vlen ==> s.items[i].name == t.items[i].name
  }

  /** The check each kind is filed and looked up with in the table. */
  predicate TableEqual(s: BtfType, t: BtfType)
    requires WellFormed(s) && WellFormed(t)
  {
    match s.kind
    case INT | DECL_TAG => EqualIntTag(s, t)
    case ENUM | ENUM64 => EqualEnum(s, t)
    case ARRAY => EqualArray(s, t)
    case FUNC_PROTO => EqualFnProto(s, t)
    case _ => EqualCommon(s, t)
  }

  // ----- What the checks decide -----

  /** The exact checks decide equality of records, references included; so equal
      records also have equal hashes, whatever else collides with them. */
  lemma TableEqualIsEquality(s: BtfType, t: BtfType)
    requires WellFormed(s) && WellFormed(t) && (RefKind(s.kind) || PrimKind(s.kind))
    ensures TableEqual(s, t) <==> s == t
  {
    if TableEqual(s, t) {
      forall i | 0 <= i < |s.items| ensures s.items[i] == t.items[i] {
        assert ItemFits(s.kind, s.items[i]) && ItemFits(t.kind, t.items[i]);
      }
      assert s.items == t.items;
      forall i | 0 <= i < |s.refs| ensures s.refs[i] == t.refs[i] {
        if s.kind == FUNC_PROTO && i > 0 {
          assert ItemType(s, i - 1) == ItemType(t, i - 1);
        }
      }
      assert s.refs == t.refs;
    }
  }

  /** Two enums are compatible if they are equal, or have one name and one of them has no values;
      of which kind they are does not matter then. */
  lemma CompatEnumDecides(s: BtfType, t: BtfType)
    requires WellFormed(s) && WellFormed(t) && IsAnyEnum(s.kind)
    ensures CompatEnum(s, t) <==> s == t || (s.name == t.name && IsAnyEnum(t.kind) && (s.vlen == 0 || t.vlen == 0))
  {
    TableEqualIsEquality(s, t);
  }

  /** The structural checks decide equality up to references. */
  lemma ShallowChecksDecideShape(s: BtfType, t: BtfType)
    requires WellFormed(s) && WellFormed(t)
    ensures IsComposite(s.kind) ==> (ShallowEqualStruct(s, t) <==> Shape(s) == Shape(t))
    ensures s.kind == ARRAY ==> (CompatArray(s, t) <==> Shape(s) == Shape(t))
    ensures s.kind == FUNC_PROTO ==> (CompatFnProto(s, t) <==> Shape(s) == Shape(t))
    ensures TypeWord(s.kind) && s.kind !in {FUNC_PROTO, DECL_TAG, VAR} ==>
              ((s.name == t.name && SameInfo(s, t)) <==> Shape(s) == Shape(t))
  {
    if Shape(s) == Shape(t) {
      ShapeDeterminesRefs(s, t);
    }
    if s.kind == t.kind && |s.items| == |t.items| {
      forall i | 0 <= i < |s.items| && s.items[i].name == t.items[i].name && s.items[i].val == t.items[i].val
                 && s.kind in {STRUCT, UNION, ARRAY, FUNC_PROTO}
        ensures s.items[i] == t.items[i]
      {
        assert ItemFits(s.kind, s.items[i]) && ItemFits(t.kind, t.items[i]);
      }
      if IsComposite(s.kind) && ShallowEqualStruct(s, t) {
        assert s.items == t.items;
      }
      if s.kind == ARRAY && CompatArray(s, t) {
        assert ItemFits(ARRAY, s.items[0]) && ItemFits(ARRAY, t.items[0]);
        assert s.items == t.items;
      }
      if s.kind == FUNC_PROTO && CompatFnProto(s, t) {
        forall i | 0 <= i < |s.items| ensures s.items[i] == t.items[i] {
          assert ItemFits(FUNC_PROTO, s.items[i]) && ItemFits(FUNC_PROTO, t.items[i]);
        }
        assert s.items == t.items;
      }
    }
  }

  /** Types that differ only in their references are filed under one hash (composites). */
  lemma {:induction false} HashMembersIgnoresTypes(h: nat, s: seq<Item>, t: seq<Item>)
    requires |s| == |t|
    requires forall i :: 0 <= i < |s| ==> s[i].name == t[i].name && s[i].val == t[i].val
    ensures HashMembers(h, s) == HashMembers(h, t)
    decreases |s|
  {
    if s != [] {
      HashMembersIgnoresTypes(HashCombine(HashCombine(h, s[0].name), s[0].val), s[1..], t[1..]);
    }
  }

  /** Every check that can succeed on a pair implies that both are filed under the same hash. */
  lemma ChecksImplyEqualHash(s: BtfType, t: BtfType)
    requires WellFormed(s) && WellFormed(t)
    ensures IsComposite(s.kind) && ShallowEqualStruct(s, t) ==> Signature(s) == Signature(t)
    ensures IsAnyEnum(s.kind) && CompatEnum(s, t) ==> Signature(s) == Signature(t)
    ensures (RefKind(s.kind) || PrimKind(s.kind)) && TableEqual(s, t) ==> Signature(s) == Signature(t)
  {
    if IsComposite(s.kind) && ShallowEqualStruct(s, t) {
      HashMembersIgnoresTypes(HashCommon(s), s.items, t.items);
    }
    if RefKind(s.kind) || PrimKind(s.kind) {
      TableEqualIsEquality(s, t);
    }
  }
}

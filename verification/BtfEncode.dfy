/** The bytes of a BTF file, written field by field from the records: what the loader makes of them in
    either byte order.  The layout is that of the Linux kernel's "BPF Type Format (BTF)" document, section 2. */
module BtfEncode {
  import opened BtfTypes
  import opened ByteOrder

  const WORD: nat := 0x1_0000_0000
  const HALF: nat := 0x1_0000

  // ----- The fields -----

  function KindCode(k: Kind): nat {
    match k
    case UNKN => 0
    case INT => 1
    case PTR => 2
    case ARRAY => 3
    case STRUCT => 4
    case UNION => 5
    case ENUM => 6
    case FWD => 7
    case TYPEDEF => 8
    case VOLATILE => 9
    case CONST => 10
    case RESTRICT => 11
    case FUNC => 12
    case FUNC_PROTO => 13
    case VAR => 14
    case DATASEC => 15
    case FLOAT => 16
    case DECL_TAG => 17
    case TYPE_TAG => 18
    case ENUM64 => 19
  }

  /** Number of items in bits 0 to 15, kind in bits 24 to 28, flag in bit 31. */
  function Info(t: BtfType): nat {
    t.vlen + 0x100_0000 * KindCode(t.kind) + if t.kflag then 0x8000_0000 else 0
  }

  /** The fields of item `i`. */
  function ItemFields(t: BtfType, i: nat): seq<nat>
    requires WellFormed(t) && i < |t.items|
  {
    var it := t.items[i];
    match t.kind
    case INT => [it.val]
    case VAR => [it.val]
    case DECL_TAG => [it.val]
    case ARRAY => [t.refs[0], t.refs[1], it.val]
    case STRUCT => [it.name, ItemType(t, i), it.val]
    case UNION => [it.name, ItemType(t, i), it.val]
    case ENUM => [it.name, it.val]
    case ENUM64 => [it.name, it.val, it.aux]
    case FUNC_PROTO => [it.name, ItemType(t, i)]
    case DATASEC => [ItemType(t, i), it.val, it.aux]
    case _ => []
  }

  /** The fields of the first `n` items. */
  function ItemsFields(t: BtfType, n: nat): seq<nat>
    requires WellFormed(t) && n <= |t.items|
  {
    if n == 0 then [] else ItemsFields(t, n - 1) + ItemFields(t, n - 1)
  }

  function HeadFields(t: BtfType): (f: seq<nat>)
    requires WellFormed(t)
    ensures |f| == 3
  {
    [t.name, Info(t), SizeOrType(t)]
  }

  function Fields(t: BtfType): seq<nat>
    requires WellFormed(t)
  {
    HeadFields(t) + ItemsFields(t, |t.items|)
  }

  /** A record of a known kind whose fields are 32 bits wide, and its number of items 16. */
  predicate Encodable(t: BtfType) {
    WellFormed(t) && t.kind != UNKN && t.vlen < HALF && forall i :: 0 <= i < |Fields(t)| ==> Fields(t)[i] < WORD
  }

  // ----- The bytes -----

  /** A 32-bit field, with its low or its high byte first. */
  function FieldBytes(w: nat, big: bool): (b: seq<byte>)
    requires w < WORD
    ensures |b| == 4
  {
    var b0, b1, b2, b3 := (w % 256) as byte, (w / 256 % 256) as byte, (w / 0x1_0000 % 256) as byte, (w / 0x100_0000) as byte;
    if big then [b3, b2, b1, b0] else [b0, b1, b2, b3]
  }

  function Bytes(ws: seq<nat>, big: bool): (b: seq<byte>)
    requires forall i :: 0 <= i < |ws| ==> ws[i] < WORD
    ensures |b| == 4 * |ws|
  {
    if ws == [] then [] else Bytes(ws[..|ws| - 1], big) + FieldBytes(ws[|ws| - 1], big)
  }

  function RecordBytes(t: BtfType, big: bool): (b: seq<byte>)
    requires Encodable(t)
    ensures |b| == 4 * |Fields(t)|
  {
    Bytes(Fields(t), big)
  }

  predicate AllEncodable(T: seq<BtfType>) {
    forall i {:trigger Encodable(T[i])} :: 0 < i < |T| ==> Encodable(T[i])
  }

  /** The records from `i` on, one behind the other. */
  function SectionBytes(T: seq<BtfType>, i: nat, big: bool): seq<byte>
    requires AllEncodable(T) && 0 < i
    decreases |T| - i
  {
    if i >= |T| then [] else RecordBytes(T[i], big) + SectionBytes(T, i + 1, big)
  }

  /** Where they start, if the first starts at `p`. */
  function Offsets(T: seq<BtfType>, i: nat, p: nat): seq<nat>
    requires AllEncodable(T) && 0 < i
    decreases |T| - i
  {
    if i >= |T| then [] else [p] + Offsets(T, i + 1, p + |RecordBytes(T[i], false)|)
  }

  /** Magic number, version, flags, header length, type section offset and length, string section
      offset and length. */
  function HeaderBytes(typeLen: nat, strLen: nat, big: bool): (h: seq<byte>)
    requires typeLen < WORD && strLen < WORD
    ensures |h| == HDR_LEN
  {
    (if big then [0xEB, 0x9F] else [0x9F, 0xEB]) + [1, 0] + Bytes([HDR_LEN, 0, typeLen, typeLen, strLen], big)
  }

  /** A whole file. */
  function FileBytes(T: seq<BtfType>, strs: seq<byte>, big: bool): seq<byte>
    requires AllEncodable(T) && |SectionBytes(T, 1, false)| < WORD && |strs| < WORD
  {
    HeaderBytes(|SectionBytes(T, 1, false)|, |strs|, big) + SectionBytes(T, 1, big) + strs
  }

  // ----- How long a record is -----

  /** Bytes per item, by kind. */
  lemma {:induction false} ItemsLength(t: BtfType, n: nat)
    requires WellFormed(t) && n <= |t.items|
    ensures |ItemsFields(t, n)| == match t.kind
                                   case INT | VAR | DECL_TAG => n
                                   case ENUM | FUNC_PROTO => 2 * n
                                   case ARRAY | STRUCT | UNION | DATASEC | ENUM64 => 3 * n
                                   case _ => 0
  {
    if n > 0 {
      ItemsLength(t, n - 1);
    }
  }

  lemma LowBytes(v: nat, k: nat, flag: nat)
    requires v < HALF && k < 32 && flag < 2
    ensures var w := v + 0x100_0000 * k + 0x8000_0000 * flag;
            w < WORD && w % 256 + 0x100 * (w / 256 % 256) == v && w / 0x100_0000 % 32 == k
  {
    var w := v + 0x100_0000 * k + 0x8000_0000 * flag;
    assert w / 0x100_0000 == k + 128 * flag;
    assert w / 0x1_0000 == 256 * (k + 128 * flag);
    assert w % 0x1_0000 == v;
  }

  lemma {:induction false} FieldAt(ws: seq<nat>, i: nat)
    requires i < |ws| && forall j :: 0 <= j < |ws| ==> ws[j] < WORD
    ensures Bytes(ws, false)[4 * i..4 * i + 4] == FieldBytes(ws[i], false)
    decreases |ws|
  {
    hide FieldBytes;
    var n := |ws| - 1;
    var front, last := Bytes(ws[..n], false), FieldBytes(ws[n], false);
    assert Bytes(ws, false) == front + last && |front| == 4 * n;
    if i < n {
      FieldAt(ws[..n], i);
      assert (front + last)[4 * i..4 * i + 4] == front[4 * i..4 * i + 4];
    } else {
      assert (front + last)[4 * n..4 * n + 4] == last;
    }
  }

  lemma {:induction false} FieldsAt(pre: seq<byte>, ws: seq<nat>, post: seq<byte>, i: nat)
    requires i < |ws| && forall j :: 0 <= j < |ws| ==> ws[j] < WORD
    ensures var s := pre + Bytes(ws, false) + post;
            s[|pre| + 4 * i..|pre| + 4 * i + 4] == FieldBytes(ws[i], false)
  {
    hide Bytes, FieldBytes;
    FieldAt(ws, i);
    SliceInside(pre, Bytes(ws, false), post, 4 * i, 4 * i + 4);
  }

  lemma SliceInside(pre: seq<byte>, b: seq<byte>, post: seq<byte>, x: nat, y: nat)
    requires x <= y <= |b|
    ensures (pre + b + post)[|pre| + x..|pre| + y] == b[x..y]
  {
  }

  /** What the loader takes for the length of a record is its length. */
  lemma RestOfRecord(pre: seq<byte>, t: BtfType, post: seq<byte>)
    requires Encodable(t)
    ensures |RecordBytes(t, false)| >= 12
    ensures RestWords(pre + RecordBytes(t, false) + post, |pre|) == Some(|Fields(t)| - 3)
  {
    hide Bytes, ItemsFields;
    var s, p, w := pre + RecordBytes(t, false) + post, |pre|, Info(t);
    FieldsAt(pre, Fields(t), post, 1);
    assert Fields(t)[1] == w;
    LowBytes(t.vlen, KindCode(t.kind), if t.kflag then 1 else 0);
    var b := FieldBytes(w, false);
    assert s[p + 4..p + 8] == b;
    assert s[p + 4] == b[0] && s[p + 5] == b[1] && s[p + 7] == b[3];
    assert VlenAt(s, p) == t.vlen && KindAt(s, p) == KindCode(t.kind);
    ItemsLength(t, |t.items|);
  }

  // ----- The section -----

  lemma TiledStep(s: seq<byte>, p: nat, next: nat, offs: seq<nat>)
    requires p + 12 <= next <= |s| && RestWords(s, p).Some? && next == p + 12 + 4 * RestWords(s, p).value
    requires Tiled(s, next, |s|) && Starts(s, next, |s|, 0) == offs
    ensures Tiled(s, p, |s|) && Starts(s, p, |s|, 0) == [p] + offs
  {
    hide RestWords;
  }

  lemma NoMore(pre: seq<byte>, T: seq<BtfType>, i: nat)
    requires AllEncodable(T) && 0 < i && i >= |T|
    ensures SectionBytes(T, i, false) == [] && pre + [] == pre && Offsets(T, i, |pre|) == []
    ensures Tiled(pre, |pre|, |pre|) && Starts(pre, |pre|, |pre|, 0) == []
  {
    hide RestWords, AllEncodable;
  }

  /** The records tile the section, and start where the ones before them end. */
  lemma {:induction false} SectionTiles(pre: seq<byte>, T: seq<BtfType>, i: nat)
    requires AllEncodable(T) && 0 < i
    ensures var s := pre + SectionBytes(T, i, false);
            Tiled(s, |pre|, |s|) && Starts(s, |pre|, |s|, 0) == Offsets(T, i, |pre|)
    decreases |T| - i
  {
    hide *;
    var s := pre + SectionBytes(T, i, false);
    if i < |T| {
      SectionStep(T, i, |pre|);
      var r, rest := RecordBytes(T[i], false), SectionBytes(T, i + 1, false);
      RestOfRecord(pre, T[i], rest);
      assert s == pre + r + rest;
      var next := |pre| + |r|;
      SectionTiles(pre + r, T, i + 1);
      assert Tiled(s, next, |s|) && Starts(s, next, |s|, 0) == Offsets(T, i + 1, next);
      TiledStep(s, |pre|, next, Offsets(T, i + 1, next));
    } else {
      NoMore(pre, T, i);
    }
  }

  /** Turning round the bytes of every field. */
  lemma {:induction false} FieldsTurned(pre: seq<byte>, ws: seq<nat>, post: seq<byte>)
    requires forall j :: 0 <= j < |ws| ==> ws[j] < WORD
    ensures SwapWords(pre + Bytes(ws, false) + post, |pre|, |ws|) == pre + Bytes(ws, true) + post
    decreases |ws|
  {
    if |ws| > 0 {
      var n, w := |ws| - 1, ws[|ws| - 1];
      var last, turned, front := FieldBytes(w, false), FieldBytes(w, true), pre + Bytes(ws[..|ws| - 1], true);
      assert pre + Bytes(ws, false) + post == pre + Bytes(ws[..n], false) + (last + post);
      FieldsTurned(pre, ws[..n], last + post);
      assert front + (last + post) == front + last + post;
      WordTurned(front, w, post);
      assert pre + Bytes(ws, true) + post == front + turned + post;
    } else {
      assert pre + Bytes(ws, false) + post == pre + Bytes(ws, true) + post;
    }
  }

  lemma WordTurned(pre: seq<byte>, w: nat, post: seq<byte>)
    requires w < WORD
    ensures SwapWord(pre + FieldBytes(w, false) + post, |pre|) == pre + FieldBytes(w, true) + post
  {
    var s := pre + FieldBytes(w, false) + post;
    var b := FieldBytes(w, false);
    var p := |pre|;
    assert s[p] == b[0] && s[p + 1] == b[1] && s[p + 2] == b[2] && s[p + 3] == b[3];
  }

  lemma NoBytes(a: seq<nat>, big: bool)
    requires forall i :: 0 <= i < |a| ==> a[i] < WORD
    ensures Bytes([], big) == [] && Bytes(a, big) + [] == Bytes(a, big)
  {
    hide FieldBytes;
  }

  lemma BytesLast(ws: seq<nat>, big: bool)
    requires |ws| > 0 && forall i :: 0 <= i < |ws| ==> ws[i] < WORD
    ensures Bytes(ws, big) == Bytes(ws[..|ws| - 1], big) + FieldBytes(ws[|ws| - 1], big)
  {
  }

  lemma {:induction false} BytesJoin(a: seq<nat>, b: seq<nat>, big: bool)
    requires forall i :: 0 <= i < |a + b| ==> (a + b)[i] < WORD
    ensures (forall i :: 0 <= i < |a| ==> a[i] < WORD) && (forall i :: 0 <= i < |b| ==> b[i] < WORD)
    ensures Bytes(a + b, big) == Bytes(a, big) + Bytes(b, big)
    decreases |b|
  {
    hide FieldBytes, Bytes;
    assert forall i :: 0 <= i < |a| ==> a[i] == (a + b)[i];
    assert forall i :: 0 <= i < |b| ==> b[i] == (a + b)[|a| + i];
    if b == [] {
      assert a + b == a;
      NoBytes(a, big);
    } else {
      var n := |b| - 1;
      assert (a + b)[..|a + b| - 1] == a + b[..n] && (a + b)[|a + b| - 1] == b[n];
      BytesJoin(a, b[..n], big);
      BytesLast(a + b, big);
      BytesLast(b, big);
    }
  }

  lemma RecordTurned(pre: seq<byte>, t: BtfType, post: seq<byte>)
    requires Encodable(t)
    ensures SwapOut(pre + RecordBytes(t, false) + post, |pre|, |Fields(t)| - 3) == pre + RecordBytes(t, true) + post
  {
    hide SwapWords, Bytes;
    var head, rest := HeadFields(t), ItemsFields(t, |t.items|);
    assert head + rest == Fields(t);
    BytesJoin(head, rest, false);
    BytesJoin(head, rest, true);
    var h, r, h', r' := Bytes(head, false), Bytes(rest, false), Bytes(head, true), Bytes(rest, true);
    assert pre + RecordBytes(t, false) + post == pre + h + r + post;
    FieldsTurned(pre + h, rest, post);
    assert pre + h + r' + post == pre + h + (r' + post);
    FieldsTurned(pre, head, r' + post);
    assert pre + h' + (r' + post) == pre + RecordBytes(t, true) + post;
  }

  lemma SwapAllStep(s: seq<byte>, p: nat)
    requires p < |s| && Tiled(s, p, |s|)
    ensures RestWords(s, p).Some? && p + 12 + 4 * RestWords(s, p).value <= |s|
    ensures Tiled(s, p + 12 + 4 * RestWords(s, p).value, |s|)
    ensures SwapAll(s, p, |s|) == SwapOut(SwapAll(s, p + 12 + 4 * RestWords(s, p).value, |s|), p, RestWords(s, p).value)
  {
    hide SwapOut, RestWords;
  }

  /** Saving a section in the other byte order turns round every field, and nothing else. */
  lemma {:induction false} SectionTurned(pre: seq<byte>, T: seq<BtfType>, i: nat)
    requires AllEncodable(T) && 0 < i
    ensures var s := pre + SectionBytes(T, i, false);
            Tiled(s, |pre|, |s|) && SwapAll(s, |pre|, |s|) == pre + SectionBytes(T, i, true)
    decreases |T| - i
  {
    hide RestWords, SwapOut, Tiled, RecordBytes, Fields;
    var s := pre + SectionBytes(T, i, false);
    SectionTiles(pre, T, i);
    if i < |T| {
      assert Encodable(T[i]);
      var r, rest, rest' := RecordBytes(T[i], false), SectionBytes(T, i + 1, false), SectionBytes(T, i + 1, true);
      RestOfRecord(pre, T[i], rest);
      assert s == pre + r + rest;
      SectionTurned(pre + r, T, i + 1);
      RecordTurned(pre, T[i], rest');
      assert pre + RecordBytes(T[i], true) + rest' == pre + SectionBytes(T, i, true);
      SwapAllStep(s, |pre|);
    } else {
      assert s == pre && pre + SectionBytes(T, i, true) == pre;
    }
  }

  lemma SectionStep(T: seq<BtfType>, i: nat, p: nat)
    requires AllEncodable(T) && 0 < i < |T|
    ensures Encodable(T[i])
    ensures SectionBytes(T, i, false) == RecordBytes(T[i], false) + SectionBytes(T, i + 1, false)
    ensures Offsets(T, i, p) == [p] + Offsets(T, i + 1, p + |RecordBytes(T[i], false)|)
  {
    hide RecordBytes, Encodable;
  }

  /** The index: record `k` is at the k-th offset. */
  lemma {:induction false} OffsetsFind(pre: seq<byte>, T: seq<BtfType>, i: nat, k: nat)
    requires AllEncodable(T) && 0 < i <= k < |T|
    ensures var s, offs := pre + SectionBytes(T, i, false), Offsets(T, i, |pre|);
            && |offs| == |T| - i && offs[k - i] + |RecordBytes(T[k], false)| <= |s|
            && s[offs[k - i]..offs[k - i] + |RecordBytes(T[k], false)|] == RecordBytes(T[k], false)
    decreases k - i
  {
    hide *;
    SectionStep(T, i, |pre|);
    OffsetsCount(T, i, |pre|);
    var r, rest := RecordBytes(T[i], false), SectionBytes(T, i + 1, false);
    assert pre + (r + rest) == pre + r + rest;
    if i < k {
      OffsetsFind(pre + r, T, i + 1, k);
    } else {
      SliceInside(pre, r, rest, 0, |r|);
    }
  }

  lemma {:induction false} OffsetsCount(T: seq<BtfType>, i: nat, p: nat)
    requires AllEncodable(T) && 0 < i <= |T|
    ensures |Offsets(T, i, p)| == |T| - i
    decreases |T| - i
  {
    hide RecordBytes, Encodable;
    if i < |T| {
      assert Encodable(T[i]);
      OffsetsCount(T, i + 1, p + |RecordBytes(T[i], false)|);
    }
  }

  // ----- The file -----

  lemma HeaderTurned(typeLen: nat, strLen: nat)
    requires typeLen < WORD && strLen < WORD
    ensures SwapHdr(HeaderBytes(typeLen, strLen, false)) == HeaderBytes(typeLen, strLen, true)
  {
    var ws := [HDR_LEN, 0, typeLen, typeLen, strLen];
    var h := HeaderBytes(typeLen, strLen, false);
    hide Bytes, SwapWords;
    FieldsTurned([0xEB, 0x9F, 1, 0], ws, []);
    assert h[0 := h[1]][1 := h[0]] == [0xEB, 0x9F, 1, 0] + Bytes(ws, false) + [];
    assert HeaderBytes(typeLen, strLen, true) == [0xEB, 0x9F, 1, 0] + Bytes(ws, true) + [];
  }

  lemma FieldValue(w: nat)
    requires w < WORD
    ensures U32(FieldBytes(w, false), 0) == w
  {
    Digits(w);
  }

  lemma Digits(w: nat)
    ensures w == w % 256 + 256 * (w / 256 % 256) + 0x1_0000 * (w / 0x1_0000 % 256) + 0x100_0000 * (w / 0x100_0000)
  {
    var a, b := w / 256, w / 256 / 256;
    assert w / 0x1_0000 == b && w / 0x100_0000 == b / 256;
    assert w == 256 * a + w % 256 && a == 256 * b + a % 256 && b == 256 * (b / 256) + b % 256;
  }

  lemma HeaderFields(typeLen: nat, strLen: nat)
    requires typeLen < WORD && strLen < WORD
    ensures var h := HeaderBytes(typeLen, strLen, false);
            && NativeMagic(h) && U32(h, 4) == HDR_LEN && U32(h, 8) == 0 && U32(h, 12) == U32(h, 16) == typeLen && U32(h, 20) == strLen
  {
    var ws := [HDR_LEN, 0, typeLen, typeLen, strLen];
    var h := HeaderBytes(typeLen, strLen, false);
    hide Bytes, FieldBytes;
    forall i | 0 <= i < 5 ensures U32(h, 4 + 4 * i) == ws[i] {
      FieldsAt([0x9F, 0xEB, 1, 0], ws, [], i);
      FieldValue(ws[i]);
      assert h == [0x9F, 0xEB, 1, 0] + Bytes(ws, false) + [];
      U32Slice(h, 4 + 4 * i);
    }
    assert U32(h, 4 + 4 * 0) == ws[0] && U32(h, 4 + 4 * 1) == ws[1] && U32(h, 4 + 4 * 2) == ws[2];
    assert U32(h, 4 + 4 * 3) == ws[3] && U32(h, 4 + 4 * 4) == ws[4];
  }

  lemma U32Slice(s: seq<byte>, p: nat)
    requires p + 4 <= |s|
    ensures U32(s, p) == U32(s[p..p + 4], 0)
  {
  }

  /** A file written in either byte order loads, as the same records at the same offsets. */
  lemma EncodedLoads(T: seq<BtfType>, strs: seq<byte>, big: bool)
    requires Closed(T) && AllEncodable(T) && |SectionBytes(T, 1, false)| < WORD && |strs| < WORD && StringsOk(strs)
    ensures var types := SectionBytes(T, 1, false);
            Load(FileBytes(T, strs, big))
              == Loaded(HeaderBytes(|types|, |strs|, false), types, strs, Offsets(T, 1, 0), big)
  {
    hide SwapHdr, SwapAll, Load, HeaderBytes, RecordBytes;
    var types := SectionBytes(T, 1, false);
    var h := HeaderBytes(|types|, |strs|, false);
    var l := Loaded(h, types, strs, Offsets(T, 1, 0), false);
    assert [] + types == types;
    SectionTiles([], T, 1);
    HeaderFields(|types|, |strs|);
    assert Packed(l);
    RoundTripNative(l);
    RoundTripSwapped(l);
    SectionTurned([], T, 1);
    HeaderTurned(|types|, |strs|);
    assert [] + SectionBytes(T, 1, true) == SectionBytes(T, 1, true);
    assert FileBytes(T, strs, big) == Saved(l, big);
  }

  /** There is one offset per record, and record `k` is found at its offset. */
  lemma EncodedIndexed(T: seq<BtfType>, k: nat)
    requires AllEncodable(T) && 0 < k < |T|
    ensures var types, offs, r := SectionBytes(T, 1, false), Offsets(T, 1, 0), RecordBytes(T[k], false);
            |offs| == |T| - 1 && offs[k - 1] + |r| <= |types| && types[offs[k - 1]..offs[k - 1] + |r|] == r
  {
    hide RecordBytes;
    var types := SectionBytes(T, 1, false);
    assert [] + types == types;
    OffsetsFind([], T, 1, k);
  }

  /** What loads from a file can be saved as the file in either byte order. */
  lemma EncodedSaves(T: seq<BtfType>, strs: seq<byte>, big: bool, swap: bool)
    requires Closed(T) && AllEncodable(T) && |SectionBytes(T, 1, false)| < WORD && |strs| < WORD && StringsOk(strs)
    ensures var l := Load(FileBytes(T, strs, big));
            l.Loaded? && |l.hdr| >= HDR_LEN && Tiled(l.types, 0, |l.types|) && Saved(l, swap) == FileBytes(T, strs, swap)
  {
    hide SwapHdr, SwapAll, Load, HeaderBytes, RecordBytes;
    var types := SectionBytes(T, 1, false);
    EncodedLoads(T, strs, big);
    assert [] + types == types && [] + SectionBytes(T, 1, true) == SectionBytes(T, 1, true);
    SectionTiles([], T, 1);
    SectionTurned([], T, 1);
    HeaderTurned(|types|, |strs|);
  }
}

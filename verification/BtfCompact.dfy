/** Compaction of a type section in place: records of different lengths are moved down over each
    other in one buffer, and the index of their offsets is rewritten over itself. */
module BtfCompact {
  import opened BtfTypes
  import opened ByteOrder
  import CanonMap
  import DedupOutput

  // ----- Records of a section -----

  /** A record, no more and no less. */
  predicate IsRecord(r: seq<byte>) {
    |r| >= 12 && RestWords(r, 0).Some? && |r| == 12 + 4 * RestWords(r, 0).value
  }

  /** The bytes of the record at `p`. */
  function RecordAt(s: seq<byte>, p: nat): seq<byte>
    requires p + 12 <= |s| && RestWords(s, p).Some? && p + 12 + 4 * RestWords(s, p).value <= |s|
  {
    s[p..p + 12 + 4 * RestWords(s, p).value]
  }

  /** `offs` is the index of the section: record `i` starts at `offs[i]`, and the next one where it ends. */
  predicate Indexed(s: seq<byte>, offs: seq<nat>) {
    && (forall i {:trigger IndexOk(s, offs, i)} :: 0 <= i < |offs| ==> IndexOk(s, offs, i))
    && (if offs == [] then s == [] else offs[0] == 0)
  }

  predicate IndexOk(s: seq<byte>, offs: seq<nat>, i: nat)
    requires i < |offs|
  {
    && offs[i] + 12 <= |s| && RestWords(s, offs[i]).Some?
    && offs[i] + 12 + 4 * RestWords(s, offs[i]).value == End(s, offs, i) <= |s|
  }

  /** Where record `i` ends. */
  function End(s: seq<byte>, offs: seq<nat>, i: nat): nat
    requires i < |offs|
  {
    if i + 1 < |offs| then offs[i + 1] else |s|
  }

  /** Record `i` of an indexed section. */
  function Record(s: seq<byte>, offs: seq<nat>, i: nat): (r: seq<byte>)
    requires i < |offs| && IndexOk(s, offs, i)
    ensures IsRecord(r)
  {
    var r := RecordAt(s, offs[i]);
    SliceHead(s, offs[i], r);
    r
  }

  lemma SliceHead(s: seq<byte>, p: nat, r: seq<byte>)
    requires p + 12 <= |s| && |r| >= 12 && p + |r| <= |s| && r == s[p..p + |r|]
    ensures RestWords(r, 0) == RestWords(s, p)
  {
    assert r[4] == s[p + 4] && r[5] == s[p + 5] && r[7] == s[p + 7];
  }

  // ----- Tiling and index are one -----

  /** One more record behind a tiled section. */
  lemma {:induction false} TiledGrows(s: seq<byte>, p: nat, r: seq<byte>)
    requires p <= |s| && Tiled(s, p, |s|) && IsRecord(r)
    ensures Tiled(s + r, p, |s + r|) && Starts(s + r, p, |s + r|, 0) == Starts(s, p, |s|, 0) + [|s|]
    decreases |s| - p
  {
    var t := s + r;
    if p == |s| {
      assert t[p..] == r;
      SliceHead(t, p, r);
      assert Tiled(t, |t|, |t|) && Starts(t, |t|, |t|, 0) == [];
    } else {
      assert t[p..p + 12] == s[p..p + 12];
      RestSame(s, t, p);
      TiledGrows(s, p + 12 + 4 * RestWords(s, p).value, r);
    }
  }

  /** The starts of a tiled section index it. */
  lemma {:induction false} StartsIndex(s: seq<byte>, p: nat, i: nat)
    requires p <= |s| && Tiled(s, p, |s|) && i < |Starts(s, p, |s|, 0)|
    ensures IndexOk(s, Starts(s, p, |s|, 0), i) && Starts(s, p, |s|, 0)[0] == p
    decreases |s| - p
  {
    var next := p + 12 + 4 * RestWords(s, p).value;
    var offs, rest := Starts(s, p, |s|, 0), Starts(s, next, |s|, 0);
    assert offs == [p] + rest;
    hide RestWords;
    if i > 0 {
      StartsIndex(s, next, i - 1);
    } else if |rest| > 0 {
      StartsIndex(s, next, 0);
    }
  }

  lemma TiledIsIndexed(s: seq<byte>)
    requires Tiled(s, 0, |s|)
    ensures Indexed(s, Starts(s, 0, |s|, 0))
  {
    var offs := Starts(s, 0, |s|, 0);
    forall i | 0 <= i < |offs| ensures IndexOk(s, offs, i) && offs[0] == 0 {
      StartsIndex(s, 0, i);
    }
  }

  // ----- The survivors -----

  /** The bytes of the survivors among the first `k` records, one behind the other; record `i` has id `i + 1`. */
  function Survivors(s: seq<byte>, offs: seq<nat>, M: seq<nat>, k: nat): seq<byte>
    requires Indexed(s, offs) && k <= |offs| < |M|
  {
    if k == 0 then []
    else
      assert IndexOk(s, offs, k - 1);
      Survivors(s, offs, M, k - 1) + if M[k] == k then Record(s, offs, k - 1) else []
  }

  /** Where they start. */
  function NewOffs(s: seq<byte>, offs: seq<nat>, M: seq<nat>, k: nat): seq<nat>
    requires Indexed(s, offs) && k <= |offs| < |M|
  {
    if k == 0 then []
    else NewOffs(s, offs, M, k - 1) + if M[k] == k then [|Survivors(s, offs, M, k - 1)|] else []
  }

  /** They tile the section they make, and their index is that of the section. */
  lemma {:induction false} SurvivorsTile(s: seq<byte>, offs: seq<nat>, M: seq<nat>, k: nat)
    requires Indexed(s, offs) && k <= |offs| < |M|
    ensures var t := Survivors(s, offs, M, k); Tiled(t, 0, |t|) && Starts(t, 0, |t|, 0) == NewOffs(s, offs, M, k)
  {
    hide Tiled, Starts;
    if k == 0 {
      NothingTiles();
    } else {
      SurvivorsTile(s, offs, M, k - 1);
      assert IndexOk(s, offs, k - 1);
      var t := Survivors(s, offs, M, k - 1);
      if M[k] == k {
        TiledGrows(t, 0, Record(s, offs, k - 1));
      } else {
        assert t + [] == t;
      }
    }
  }

  lemma NothingTiles()
    ensures Tiled([], 0, 0) && Starts([], 0, 0, 0) == []
  {
  }

  /** The write position never passes the read position. */
  lemma {:induction false} WriteBehindRead(s: seq<byte>, offs: seq<nat>, M: seq<nat>, k: nat)
    requires Indexed(s, offs) && k <= |offs| < |M|
    ensures |Survivors(s, offs, M, k)| <= if k < |offs| then offs[k] else |s|
    ensures |NewOffs(s, offs, M, k)| <= k
  {
    if k > 0 {
      WriteBehindRead(s, offs, M, k - 1);
      assert IndexOk(s, offs, k - 1);
      assert |Record(s, offs, k - 1)| == End(s, offs, k - 1) - offs[k - 1];
    }
  }

  /** What the first survivors leave stays when more follow. */
  lemma {:induction false} SurvivorsGrow(s: seq<byte>, offs: seq<nat>, M: seq<nat>, j: nat, k: nat)
    requires Indexed(s, offs) && j <= k <= |offs| < |M|
    ensures Survivors(s, offs, M, j) <= Survivors(s, offs, M, k) && NewOffs(s, offs, M, j) <= NewOffs(s, offs, M, k)
    decreases k
  {
    if j < k {
      SurvivorsGrow(s, offs, M, j, k - 1);
    }
  }

  /** New ids are one more than positions in the new index: id zero is not in the section. */
  lemma {:induction false} CountOffs(s: seq<byte>, offs: seq<nat>, M: seq<nat>, k: nat)
    requires Indexed(s, offs) && k <= |offs| < |M| && M[0] == 0
    ensures DedupOutput.CountCanon(M, k + 1) == |NewOffs(s, offs, M, k)| + 1
  {
    if k == 0 {
      assert DedupOutput.CountCanon(M, 0) == 0;
    } else {
      CountOffs(s, offs, M, k - 1);
    }
  }

  /** The survivor `x` is the record with its new id in the compacted section, byte for byte. */
  lemma RecordMoved(s: seq<byte>, offs: seq<nat>, M: seq<nat>, x: nat)
    requires Indexed(s, offs) && 1 <= x <= |offs| < |M| && M[0] == 0 && M[x] == x
    ensures var t, idx := Survivors(s, offs, M, |offs|), NewOffs(s, offs, M, |offs|);
            var c := DedupOutput.CountCanon(M, x) - 1;
            && 0 <= c < |idx| && IndexOk(t, idx, c) && IndexOk(s, offs, x - 1)
            && Record(t, idx, c) == Record(s, offs, x - 1)
  {
    var n, k := |offs|, x - 1;
    var t, idx, a, r := Survivors(s, offs, M, n), NewOffs(s, offs, M, n), Survivors(s, offs, M, k), Survivors(s, offs, M, x);
    CountOffs(s, offs, M, k);
    SurvivorsGrow(s, offs, M, x, n);
    SurvivorsTile(s, offs, M, n);
    TiledIsIndexed(t);
    assert IndexOk(s, offs, k);
    var rec, c := Record(s, offs, k), |NewOffs(s, offs, M, k)|;
    assert r == a + rec && NewOffs(s, offs, M, x) == NewOffs(s, offs, M, k) + [|a|];
    assert NewOffs(s, offs, M, x)[c] == |a|;
    assert idx[c] == |a| && IndexOk(t, idx, c);
    assert t[|a|..|a| + |rec|] == rec by { assert t[..|r|] == r; assert r[|a|..] == rec; }
    SliceHead(t, |a|, rec);
  }

  /** Whatever the bytes of a record are taken to mean, the compacted section holds what the
      record-level compaction says: every survivor is copied to the place of its new id. */
  lemma CopiedAsRecords(s: seq<byte>, offs: seq<nat>, M: seq<nat>, decode: seq<byte> -> BtfType,
                        before: seq<BtfType>, after: seq<BtfType>, x: nat)
    requires Indexed(s, offs) && |before| == |after| == |M| == |offs| + 1 && M[0] == 0 && x < |M|
    requires Decoded(s, offs, decode, before)
    requires Decoded(Survivors(s, offs, M, |offs|), NewOffs(s, offs, M, |offs|), decode, after)
    requires after[0] == before[0]
    ensures DedupOutput.CopyOk(M, before, after, x)
  {
    if M[x] == x && x > 0 {
      RecordMoved(s, offs, M, x);
      var c := DedupOutput.CountCanon(M, x) - 1;
      assert DecodedAt(s, offs, decode, before, x - 1);
      assert DecodedAt(Survivors(s, offs, M, |offs|), NewOffs(s, offs, M, |offs|), decode, after, c);
      DedupOutput.CountGrows(M, 0, x);
    } else if x == 0 {
      assert DedupOutput.CountCanon(M, 0) == 0;
    }
  }

  /** `types` are what the records of the section mean, id zero aside. */
  ghost predicate Decoded(s: seq<byte>, offs: seq<nat>, decode: seq<byte> -> BtfType, types: seq<BtfType>) {
    forall i {:trigger DecodedAt(s, offs, decode, types, i)} :: 0 <= i < |offs| ==> DecodedAt(s, offs, decode, types, i)
  }

  predicate DecodedAt(s: seq<byte>, offs: seq<nat>, decode: seq<byte> -> BtfType, types: seq<BtfType>, i: nat)
    requires i < |offs|
  {
    IndexOk(s, offs, i) && i + 1 < |types| && types[i + 1] == decode(Record(s, offs, i))
  }

  /** No id from `id` on has been given a new one. */
  predicate Unnumbered(H: seq<nat>, id: nat) {
    forall x :: id <= x < |H| ==> H[x] == CanonMap.UNPROCESSED_ID
  }

  lemma StillUnnumbered(H: seq<nat>, id: nat, v: nat)
    requires id < |H| && Unnumbered(H, id)
    ensures Unnumbered(H[id := v], id + 1) && H[id := CanonMap.UNPROCESSED_ID] == H
  {
  }

  lemma NumberZero(M: seq<nat>, H: seq<nat>)
    requires |M| == |H| > 0 && M[0] == 0 && H[0] == 0
    ensures DedupOutput.Renumbered(M, H, 1)
  {
    assert DedupOutput.CountCanon(M, 0) == 0;
    forall x | 0 <= x < 1 ensures DedupOutput.SlotNumber(M, H, x) { }
  }

  // ----- One step -----

  /** Where the record read after the first `k` starts. */
  function ReadAt(s: seq<byte>, offs: seq<nat>, k: nat): nat {
    if k < |offs| then offs[k] else |s|
  }

  /** After the first `k` records: the survivors among them fill the start of the buffer, and every
      record not yet read has its bytes. */
  ghost predicate Half(s: seq<byte>, offs: seq<nat>, M: seq<nat>, k: nat, d: seq<byte>)
    requires Indexed(s, offs) && k <= |offs| < |M|
  {
    && |Survivors(s, offs, M, k)| <= ReadAt(s, offs, k) <= |s| <= |d|
    && d[..|Survivors(s, offs, M, k)|] == Survivors(s, offs, M, k)
    && d[ReadAt(s, offs, k)..|s|] == s[ReadAt(s, offs, k)..]
  }

  /** The index likewise: new offsets, then those of the records not yet read. */
  ghost predicate HalfIndex(s: seq<byte>, offs: seq<nat>, M: seq<nat>, k: nat, o: seq<nat>)
    requires Indexed(s, offs) && k <= |offs| < |M|
  {
    && |NewOffs(s, offs, M, k)| <= k && |offs| <= |o|
    && o[..|NewOffs(s, offs, M, k)|] == NewOffs(s, offs, M, k) && o[k..|offs|] == offs[k..]
  }

  lemma HalfStart(s: seq<byte>, offs: seq<nat>, M: seq<nat>, d: seq<byte>, o: seq<nat>)
    requires Indexed(s, offs) && |offs| < |M| && s <= d && offs <= o
    ensures Half(s, offs, M, 0, d) && HalfIndex(s, offs, M, 0, o)
    ensures Survivors(s, offs, M, 0) == [] && NewOffs(s, offs, M, 0) == []
  {
  }

  lemma HalfEnd(s: seq<byte>, offs: seq<nat>, M: seq<nat>, d: seq<byte>, o: seq<nat>)
    requires Indexed(s, offs) && |offs| < |M| && Half(s, offs, M, |offs|, d) && HalfIndex(s, offs, M, |offs|, o)
    ensures Survivors(s, offs, M, |offs|) <= d && NewOffs(s, offs, M, |offs|) <= o
  {
  }

  /** The record read next is intact, and so is its length. */
  lemma NextIntact(s: seq<byte>, offs: seq<nat>, M: seq<nat>, k: nat, d: seq<byte>)
    requires Indexed(s, offs) && k < |offs| < |M| && Half(s, offs, M, k, d)
    ensures IndexOk(s, offs, k) && offs[k] + |Record(s, offs, k)| == ReadAt(s, offs, k + 1) <= |s|
    ensures offs[k] + 12 <= |s| && TypeSize(d[..|s|], offs[k]) == |Record(s, offs, k)|
    ensures |s| <= |d| && |Survivors(s, offs, M, k)| <= offs[k]
    ensures d[offs[k]..offs[k] + |Record(s, offs, k)|] == Record(s, offs, k)
  {
    assert IndexOk(s, offs, k);
    var p, len := offs[k], |Record(s, offs, k)|;
    assert d[p..|s|][..len] == s[p..][..len] == Record(s, offs, k);
    assert d[..|s|][p..p + 12] == d[p..|s|][..12] && s[p..p + 12] == s[p..][..12];
    RestSame(s, d[..|s|], p);
  }

  /** Moving it down destroys none of the records still to be read. */
  lemma MoveStep(s: seq<byte>, offs: seq<nat>, M: seq<nat>, k: nat, d: seq<byte>, d': seq<byte>)
    requires Indexed(s, offs) && k < |offs| < |M| && Half(s, offs, M, k, d) && M[k + 1] == k + 1
    requires IndexOk(s, offs, k)
    requires var p, len := |Survivors(s, offs, M, k)|, |Record(s, offs, k)|;
             offs[k] + len <= |d| && d' == d[..p] + d[offs[k]..offs[k] + len] + d[p + len..]
    ensures Half(s, offs, M, k + 1, d')
    ensures |Survivors(s, offs, M, k + 1)| == |Survivors(s, offs, M, k)| + |Record(s, offs, k)|
  {
    var p, len, next := |Survivors(s, offs, M, k)|, |Record(s, offs, k)|, k + 1;
    NextIntact(s, offs, M, k, d);
    WriteBehindRead(s, offs, M, next);
    var q := ReadAt(s, offs, next);
    assert Survivors(s, offs, M, next) == Survivors(s, offs, M, k) + Record(s, offs, k);
    assert d'[..p + len] == d[..p] + d[offs[k]..offs[k] + len];
    assert d'[q..|s|] == d[q..|s|] == d[offs[k]..|s|][len..] == s[offs[k]..][len..] == s[q..];
  }

  lemma SkipStep(s: seq<byte>, offs: seq<nat>, M: seq<nat>, k: nat, d: seq<byte>, o: seq<nat>)
    requires Indexed(s, offs) && k < |offs| < |M| && M[k + 1] != k + 1
    requires Half(s, offs, M, k, d) && HalfIndex(s, offs, M, k, o)
    ensures Half(s, offs, M, k + 1, d) && HalfIndex(s, offs, M, k + 1, o)
    ensures Survivors(s, offs, M, k + 1) == Survivors(s, offs, M, k) && NewOffs(s, offs, M, k + 1) == NewOffs(s, offs, M, k)
  {
    var next := k + 1;
    NextIntact(s, offs, M, k, d);
    WriteBehindRead(s, offs, M, next);
    assert Survivors(s, offs, M, next) == Survivors(s, offs, M, k) && NewOffs(s, offs, M, next) == NewOffs(s, offs, M, k);
    var p, q := offs[k], ReadAt(s, offs, next);
    assert d[q..|s|] == d[p..|s|][q - p..] && s[q..] == s[p..][q - p..];
    assert o[next..|offs|] == o[k..|offs|][1..] && offs[next..] == offs[k..][1..];
  }

  lemma IndexStep(s: seq<byte>, offs: seq<nat>, M: seq<nat>, k: nat, o: seq<nat>)
    requires Indexed(s, offs) && k < |offs| < |M| && M[k + 1] == k + 1 && HalfIndex(s, offs, M, k, o)
    ensures |NewOffs(s, offs, M, k)| <= k < |o| && o[k] == offs[k] && |NewOffs(s, offs, M, k + 1)| == |NewOffs(s, offs, M, k)| + 1
    ensures HalfIndex(s, offs, M, k + 1, o[|NewOffs(s, offs, M, k)| := |Survivors(s, offs, M, k)|])
  {
    var next, c, p := k + 1, |NewOffs(s, offs, M, k)|, |Survivors(s, offs, M, k)|;
    var o' := o[c := p];
    assert NewOffs(s, offs, M, next) == NewOffs(s, offs, M, k) + [p];
    assert o'[..c + 1] == o[..c] + [p];
    assert o'[next..|offs|] == o[k..|offs|][1..] && offs[next..] == offs[k..][1..];
    assert o[k..|offs|][0] == offs[k..][0];
  }

  /** One more byte copied down. */
  lemma ByteStep(was: seq<byte>, now: seq<byte>, dst: nat, src: nat, i: nat)
    requires dst <= src && src + i < |was| && now == was[..dst] + was[src..src + i] + was[dst + i..]
    ensures |now| == |was| && now[src + i] == was[src + i]
    ensures now[dst + i := now[src + i]] == was[..dst] + was[src..src + i + 1] + was[dst + i + 1..]
  {
    var next := i + 1;
    assert now[src + i] == was[dst + i..][src - dst];
    assert was[src..src + next] == was[src..src + i] + [was[src + i]];
    assert was[dst + i..] == [was[dst + i]] + was[dst + next..];
  }

  // ----- The compaction -----

  /** The type section of a BTF object and its index. */
  class Section {
    var data: array<byte>
    var offs: array<nat>
    var nr: nat
    var typeLen: nat
    var strOff: nat

    function Bytes(): seq<byte>
      requires typeLen <= data.Length
      reads this, data
    {
      data[..typeLen]
    }

    function Index(): seq<nat>
      requires nr <= offs.Length
      reads this, offs
    {
      offs[..nr]
    }

    /** The records tile the section, the index says where they start, and the strings follow. */
    ghost predicate Valid()
      reads this, data, offs
    {
      && typeLen <= data.Length && nr <= offs.Length && strOff == typeLen
      && Tiled(Bytes(), 0, typeLen) && Index() == Starts(Bytes(), 0, typeLen, 0)
    }

    /** `len` bytes move down, perhaps over themselves. */
    method MoveDown(dst: nat, src: nat, len: nat)
      requires dst <= src && src + len <= data.Length
      modifies data
      ensures data[..] == old(data[..dst]) + old(data[src..src + len]) + old(data[dst + len..])
    {
      ghost var was := data[..];
      var i := 0;
      while i < len
        invariant 0 <= i <= len
        invariant data[..] == was[..dst] + was[src..src + i] + was[dst + i..]
      {
        ghost var now := data[..];
        ByteStep(was, now, dst, src, i);
        data[dst + i] := data[src + i];
        assert data[..] == now[dst + i := now[src + i]];
        i := i + 1;
      }
    }

    method Unnumber(hypot: array<nat>)
      requires hypot.Length > 0
      modifies hypot
      ensures hypot[0] == 0 && Unnumbered(hypot[..], 1)
    {
      hypot[0] := 0;
      var id := 1;
      while id < hypot.Length
        invariant 1 <= id <= hypot.Length && hypot[0] == 0
        invariant forall x :: 1 <= x < id ==> hypot[x] == CanonMap.UNPROCESSED_ID
      {
        hypot[id] := CanonMap.UNPROCESSED_ID;
        id := id + 1;
      }
    }

    /** The first `k` records have been dealt with: `p` is where the next survivor goes, `next` its id. */
    ghost predicate Progress(s: seq<byte>, o: seq<nat>, M: seq<nat>, H: seq<nat>, k: nat, p: nat, next: nat)
      requires Indexed(s, o) && k <= |o| < |M|
      reads this, data, offs
    {
      && p == |Survivors(s, o, M, k)| && next == |NewOffs(s, o, M, k)| + 1
      && Half(s, o, M, k, data[..]) && HalfIndex(s, o, M, k, offs[..])
      && DedupOutput.Renumbered(M, H, k + 1) && Unnumbered(H, k + 1)
    }

    /** A survivor: its record moves down to `p`, its offset goes into the index, its new id into `hypot`. */
    method TakeRecord(ghost s: seq<byte>, ghost o: seq<nat>, ghost M: seq<nat>, hypot: array<nat>, id: nat, p: nat, next: nat)
      returns (len: int)
      requires Indexed(s, o) && 1 <= id <= |o| && |o| + 1 == |M| == hypot.Length && M[0] == 0 && M[id] == id && hypot != offs
      requires typeLen == |s| && Progress(s, o, M, hypot[..], id - 1, p, next)
      modifies data, offs, hypot
      ensures len >= 0 && Progress(s, o, M, hypot[..], id, p + len, next + 1)
    {
      hide DedupOutput.Renumbered, DedupOutput.CountCanon, Half, HalfIndex, Survivors, NewOffs, Indexed, Unnumbered, TypeSize, Record;
      ghost var k, d, x, H := id - 1, data[..], offs[..], hypot[..];
      CountOffs(s, o, M, k);
      NextIntact(s, o, M, k, d);
      IndexStep(s, o, M, k, x);
      len := TypeSize(Bytes(), offs[id - 1]);
      if len < 0 {
        return;
      }
      MoveDown(p, offs[id - 1], len);
      MoveStep(s, o, M, k, d, data[..]);
      DedupOutput.NumberStep(M, H, id, next);
      StillUnnumbered(H, id, next);
      hypot[id] := next;
      offs[next - 1] := p;
      assert offs[..] == x[next - 1 := p] && hypot[..] == H[id := next];
    }

    /** Any other record is passed over. */
    lemma PassRecord(s: seq<byte>, o: seq<nat>, M: seq<nat>, H: seq<nat>, id: nat, p: nat, next: nat)
      requires Indexed(s, o) && 1 <= id <= |o| && |o| + 1 == |M| == |H| && M[0] == 0 && M[id] != id
      requires Progress(s, o, M, H, id - 1, p, next)
      ensures Progress(s, o, M, H, id, p, next)
    {
      hide DedupOutput.Renumbered, Half, HalfIndex, Survivors, NewOffs, Indexed, Unnumbered;
      SkipStep(s, o, M, id - 1, data[..], offs[..]);
      DedupOutput.NumberStep(M, H, id, CanonMap.UNPROCESSED_ID);
      StillUnnumbered(H, id, CanonMap.UNPROCESSED_ID);
    }

    /** New ids for the survivors into `hypot`, their records to the front of the section, their
        offsets to the front of the index, and the header's lengths to match. */
    method CompactTypes(canon: array<nat>, hypot: array<nat>) returns (err: int)
      requires Valid() && canon.Length == hypot.Length == nr + 1 && canon[0] == 0
      requires canon != hypot && canon != offs && hypot != offs
      modifies this`nr, this`typeLen, this`strOff, data, offs, hypot
      ensures err == 0 && Valid() && old(Indexed(Bytes(), Index()))
      ensures Bytes() == Survivors(old(Bytes()), old(Index()), canon[..], old(nr))
      ensures Index() == NewOffs(old(Bytes()), old(Index()), canon[..], old(nr))
      ensures nr + 1 == DedupOutput.CountCanon(canon[..], canon.Length)
      ensures DedupOutput.Renumbered(canon[..], hypot[..], canon.Length)
    {
      hide DedupOutput.Renumbered, DedupOutput.CountCanon, Half, HalfIndex, Survivors, NewOffs, Indexed, Unnumbered, Tiled, Starts;
      ghost var s, o, M, n := Bytes(), Index(), canon[..], nr;
      TiledIsIndexed(s);
      Unnumber(hypot);
      NumberZero(M, hypot[..]);
      HalfStart(s, o, M, data[..], offs[..]);
      var p: nat, next: nat, id: nat := 0, 1, 1;
      while id < nr + 1
        invariant 1 <= id <= n + 1 && nr == n && typeLen == |s| && canon[..] == M
        invariant Progress(s, o, M, hypot[..], id - 1, p, next)
      {
        if canon[id] != id {
          PassRecord(s, o, M, hypot[..], id, p, next);
        } else {
          var len := TakeRecord(s, o, M, hypot, id, p, next);
          if len < 0 {
            return len;
          }
          p, next := p + len, next + 1;
        }
        id := id + 1;
      }
      CountOffs(s, o, M, n);
      SurvivorsTile(s, o, M, n);
      HalfEnd(s, o, M, data[..], offs[..]);
      nr, typeLen, strOff := next - 1, p, p;
      assert Bytes() == Survivors(s, o, M, n) && Index() == NewOffs(s, o, M, n);
      err := 0;
    }
  }
}

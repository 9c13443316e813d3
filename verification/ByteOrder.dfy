/** Reading and writing the raw form of BTF in both byte orders, on a little-endian host.  The raw
    form is that of the Linux kernel's "BPF Type Format (BTF)" document, section 2. */
module ByteOrder {
  newtype byte = x: int | 0 <= x < 256

  datatype Option<T> = None | Some(value: T)

  const EINVAL: int := 22
  const ENOTSUP: int := 95
  const HDR_LEN: nat := 24
  const MAX_STR_OFFSET: nat := 0x7fff_ffff

  // ----- Words -----

  /** The 32-bit number at `p`. */
  function U32(s: seq<byte>, p: nat): nat
    requires p + 4 <= |s|
  {
    s[p] as nat + 0x100 * s[p + 1] as nat + 0x1_0000 * s[p + 2] as nat + 0x100_0000 * s[p + 3] as nat
  }

  function SwapWord(s: seq<byte>, p: nat): (r: seq<byte>)
    requires p + 4 <= |s|
    ensures |r| == |s|
  {
    s[p := s[p + 3]][p + 1 := s[p + 2]][p + 2 := s[p + 1]][p + 3 := s[p]]
  }

  /** `n` words from `p` on. */
  function SwapWords(s: seq<byte>, p: nat, n: nat): (r: seq<byte>)
    requires p + 4 * n <= |s|
    ensures |r| == |s|
  {
    if n == 0 then s else SwapWord(SwapWords(s, p, n - 1), p + 4 * (n - 1))
  }

  lemma SwapWordTwice(s: seq<byte>, p: nat)
    requires p + 4 <= |s|
    ensures SwapWord(SwapWord(s, p), p) == s
  {
  }

  lemma SwapWordCommutes(s: seq<byte>, p: nat, q: nat)
    requires p + 4 <= |s| && q + 4 <= |s| && (p + 4 <= q || q + 4 <= p)
    ensures SwapWord(SwapWord(s, p), q) == SwapWord(SwapWord(s, q), p)
  {
  }

  /** Words outside the range are left alone. */
  lemma {:induction false} SwapWordsElsewhere(s: seq<byte>, p: nat, n: nat, i: nat)
    requires p + 4 * n <= |s| && i < |s| && (i < p || p + 4 * n <= i)
    ensures SwapWords(s, p, n)[i] == s[i]
  {
    if n > 0 {
      SwapWordsElsewhere(s, p, n - 1, i);
    }
  }

  lemma {:induction false} SwapWordPastWords(s: seq<byte>, p: nat, n: nat, q: nat)
    requires p + 4 * n <= |s| && q + 4 <= |s| && (q + 4 <= p || p + 4 * n <= q)
    ensures SwapWords(SwapWord(s, q), p, n) == SwapWord(SwapWords(s, p, n), q)
  {
    if n > 0 {
      SwapWordPastWords(s, p, n - 1, q);
      SwapWordCommutes(SwapWords(s, p, n - 1), q, p + 4 * (n - 1));
    }
  }

  lemma {:induction false} SwapWordsCommute(s: seq<byte>, p: nat, n: nat, q: nat, m: nat)
    requires p + 4 * n <= |s| && q + 4 * m <= |s| && (q + 4 * m <= p || p + 4 * n <= q)
    ensures SwapWords(SwapWords(s, q, m), p, n) == SwapWords(SwapWords(s, p, n), q, m)
    decreases m
  {
    if m > 0 {
      SwapWordPastWords(SwapWords(s, q, m - 1), p, n, q + 4 * (m - 1));
      SwapWordsCommute(s, p, n, q, m - 1);
    }
  }

  /** Swapping is its own inverse. */
  lemma {:induction false} SwapWordsTwice(s: seq<byte>, p: nat, n: nat)
    requires p + 4 * n <= |s|
    ensures SwapWords(SwapWords(s, p, n), p, n) == s
  {
    if n > 0 {
      var t, q := SwapWords(s, p, n - 1), p + 4 * (n - 1);
      SwapWordPastWords(t, p, n - 1, q);
      SwapWordsTwice(s, p, n - 1);
      SwapWordTwice(s, q);
    }
  }

  // ----- Type records -----

  const BASE_WORDS: nat := 3

  /** Info word of the record at `p`: the kind in bits 24 to 28, the item count in the low 16. */
  function KindAt(s: seq<byte>, p: nat): nat
    requires p + 12 <= |s|
  {
    (s[p + 7] as nat) % 32
  }

  function VlenAt(s: seq<byte>, p: nat): nat
    requires p + 12 <= |s|
  {
    s[p + 4] as nat + 0x100 * s[p + 5] as nat
  }

  /** Words behind the fixed part, by kind. */
  function RestWords(s: seq<byte>, p: nat): Option<nat>
    requires p + 12 <= |s|
  {
    var vlen := VlenAt(s, p);
    match KindAt(s, p)
    case 2 | 7 | 8 | 9 | 10 | 11 | 12 | 16 | 18 => Some(0)
    case 1 | 14 | 17 => Some(1)
    case 3 => Some(3)
    case 4 | 5 | 15 | 19 => Some(3 * vlen)
    case 6 | 13 => Some(2 * vlen)
    case _ => None
  }

  function TypeSize(s: seq<byte>, p: nat): int
    requires p + 12 <= |s|
  {
    match RestWords(s, p)
    case None => -EINVAL
    case Some(r) => 12 + 4 * r
  }

  /** To the other byte order: the trailing words first, while the item count is still readable. */
  function SwapOut(s: seq<byte>, p: nat, r: nat): (t: seq<byte>)
    requires p + 12 + 4 * r <= |s|
    ensures |t| == |s|
  {
    SwapWords(SwapWords(s, p + 12, r), p, BASE_WORDS)
  }

  /** The item count and the kind of a record do not depend on what is behind its fixed part. */
  lemma RestSame(s: seq<byte>, t: seq<byte>, p: nat)
    requires p + 12 <= |s| && p + 12 <= |t| && s[p..p + 12] == t[p..p + 12]
    ensures RestWords(s, p) == RestWords(t, p)
  {
    assert s[p + 4] == s[p..p + 12][4] && s[p + 5] == s[p..p + 12][5] && s[p + 7] == s[p..p + 12][7];
    assert t[p + 4] == t[p..p + 12][4] && t[p + 5] == t[p..p + 12][5] && t[p + 7] == t[p..p + 12][7];
  }

  lemma RestElsewhere(s: seq<byte>, p: nat, q: nat, n: nat)
    requires p + 12 <= |s| && q + 4 * n <= |s| && (q + 4 * n <= p || p + 12 <= q)
    ensures RestWords(SwapWords(s, q, n), p) == RestWords(s, p)
  {
    var t := SwapWords(s, q, n);
    forall i | p <= i < p + 12 ensures t[i] == s[i] {
      SwapWordsElsewhere(s, q, n, i);
    }
    assert s[p..p + 12] == t[p..p + 12];
    RestSame(s, t, p);
  }

  // ----- Type sections -----

  /** The records of a section in host order tile it exactly. */
  predicate Tiled(s: seq<byte>, p: nat, end: nat)
    requires end <= |s|
    decreases end - p
  {
    p == end
    || (p + 12 <= end && RestWords(s, p).Some? && p + 12 + 4 * RestWords(s, p).value <= end
        && Tiled(s, p + 12 + 4 * RestWords(s, p).value, end))
  }

  /** Where they start, relative to `base`. */
  function Starts(s: seq<byte>, p: nat, end: nat, base: nat): seq<nat>
    requires end <= |s| && base <= p && Tiled(s, p, end)
    decreases end - p
  {
    if p == end then [] else [p - base] + Starts(s, p + 12 + 4 * RestWords(s, p).value, end, base)
  }

  /** All records in the other byte order. */
  function SwapAll(s: seq<byte>, p: nat, end: nat): (t: seq<byte>)
    requires end <= |s| && Tiled(s, p, end)
    ensures |t| == |s|
    decreases end - p
  {
    if p == end then s
    else
      var r := RestWords(s, p).value;
      SwapOut(SwapAll(s, p + 12 + 4 * r, end), p, r)
  }

  lemma {:induction false} SwapAllElsewhere(s: seq<byte>, p: nat, end: nat, i: nat)
    requires end <= |s| && Tiled(s, p, end) && i < |s| && (i < p || end <= i)
    ensures SwapAll(s, p, end)[i] == s[i]
    decreases end - p
  {
    if p != end {
      var r := RestWords(s, p).value;
      var t := SwapAll(s, p + 12 + 4 * r, end);
      SwapAllElsewhere(s, p + 12 + 4 * r, end, i);
      SwapWordsElsewhere(t, p + 12, r, i);
      SwapWordsElsewhere(SwapWords(t, p + 12, r), p, 3, i);
    }
  }

  /** What parsing a section leaves behind: the bytes, and where the records start; none if it is
      malformed. */
  function ParseTypes(s: seq<byte>, p: nat, end: nat, base: nat, swapped: bool): Option<(seq<byte>, seq<nat>)>
    requires end <= |s| && base <= p
    decreases end - p
  {
    if p + 12 > end then (if p == end then Some((s, [])) else None)
    else
      var t := if swapped then SwapWords(s, p, BASE_WORDS) else s;
      match RestWords(t, p)
      case None => None
      case Some(r) =>
        if p + 12 + 4 * r > end then None
        else
          match ParseTypes(if swapped then SwapWords(t, p + 12, r) else t, p + 12 + 4 * r, end, base, swapped)
          case None => None
          case Some(res) => Some((res.0, [p - base] + res.1))
  }

  /** In host order parsing changes nothing, and succeeds exactly if the records tile the section. */
  lemma {:induction false} ParseNative(s: seq<byte>, p: nat, end: nat, base: nat)
    requires end <= |s| && base <= p <= end
    ensures ParseTypes(s, p, end, base, false) == if Tiled(s, p, end) then Some((s, Starts(s, p, end, base))) else None
    decreases end - p
  {
    if p + 12 <= end && RestWords(s, p).Some? && p + 12 + 4 * RestWords(s, p).value <= end {
      ParseNative(s, p + 12 + 4 * RestWords(s, p).value, end, base);
    }
  }

  /** One record: swapping the fixed part back makes the item count readable again, and with it the
      rest can be swapped back. */
  lemma RecordBack(t: seq<byte>, p: nat, r: nat)
    requires p + 12 + 4 * r <= |t| && RestWords(t, p) == Some(r)
    ensures var u := SwapWords(t, p + 12, r);
            && SwapWords(SwapOut(t, p, r), p, BASE_WORDS) == u
            && RestWords(u, p) == Some(r) && SwapWords(u, p + 12, r) == t
  {
    SwapWordsTwice(SwapWords(t, p + 12, r), p, BASE_WORDS);
    RestElsewhere(t, p, p + 12, r);
    SwapWordsTwice(t, p + 12, r);
  }

  lemma RestAfterAll(s: seq<byte>, p: nat, end: nat)
    requires end <= |s| && p + 12 <= end && RestWords(s, p).Some?
    requires p + 12 + 4 * RestWords(s, p).value <= end && Tiled(s, p + 12 + 4 * RestWords(s, p).value, end)
    ensures RestWords(SwapAll(s, p + 12 + 4 * RestWords(s, p).value, end), p) == RestWords(s, p)
  {
    var next := p + 12 + 4 * RestWords(s, p).value;
    var t := SwapAll(s, next, end);
    forall i | p <= i < p + 12 ensures t[i] == s[i] {
      SwapAllElsewhere(s, next, end, i);
    }
    assert t[p..p + 12] == s[p..p + 12];
    RestSame(s, t, p);
  }

  /** Parsing the other byte order undoes the swap, record by record: fixed part first. */
  lemma {:induction false} ParseSwapped(s: seq<byte>, p: nat, end: nat, base: nat)
    requires end <= |s| && base <= p && Tiled(s, p, end)
    ensures ParseTypes(SwapAll(s, p, end), p, end, base, true) == Some((s, Starts(s, p, end, base)))
    decreases end - p
  {
    hide SwapWords, RestWords, SwapOut;
    if p != end {
      var r := RestWords(s, p).value;
      var next := p + 12 + 4 * r;
      RestAfterAll(s, p, end);
      RecordBack(SwapAll(s, next, end), p, r);
      ParseSwapped(s, next, end, base);
    }
  }

  /** Words in front of a section do not matter to it. */
  lemma {:induction false} SwapWordsPastAll(s: seq<byte>, q: nat, n: nat, p: nat, end: nat)
    requires end <= |s| && q + 4 * n <= p && Tiled(s, p, end)
    ensures Tiled(SwapWords(s, q, n), p, end)
    ensures SwapAll(SwapWords(s, q, n), p, end) == SwapWords(SwapAll(s, p, end), q, n)
    decreases end - p
  {
    hide SwapWords, RestWords;
    if p != end {
      var r := RestWords(s, p).value;
      var next := p + 12 + 4 * r;
      var t := SwapAll(s, next, end);
      RestElsewhere(s, p, q, n);
      SwapWordsPastAll(s, q, n, next, end);
      SwapWordsCommute(t, p + 12, r, q, n);
      SwapWordsCommute(SwapWords(t, p + 12, r), p, BASE_WORDS, q, n);
    }
  }

  /** So the records may as well be swapped from the first on. */
  lemma SwapFirst(s: seq<byte>, p: nat, end: nat)
    requires end <= |s| && Tiled(s, p, end) && p != end
    ensures var r := RestWords(s, p).value;
            && Tiled(SwapOut(s, p, r), p + 12 + 4 * r, end)
            && SwapAll(SwapOut(s, p, r), p + 12 + 4 * r, end) == SwapAll(s, p, end)
  {
    hide SwapWords, RestWords;
    var r := RestWords(s, p).value;
    var next := p + 12 + 4 * r;
    SwapWordsPastAll(s, p + 12, r, next, end);
    SwapWordsPastAll(SwapWords(s, p + 12, r), p, BASE_WORDS, next, end);
  }

  lemma {:induction false} StartsPastWords(s: seq<byte>, q: nat, n: nat, p: nat, end: nat)
    requires end <= |s| && q + 4 * n <= p && Tiled(s, p, end)
    ensures Tiled(SwapWords(s, q, n), p, end) && Starts(SwapWords(s, q, n), p, end, 0) == Starts(s, p, end, 0)
    decreases end - p
  {
    hide SwapWords, RestWords;
    SwapWordsPastAll(s, q, n, p, end);
    if p != end {
      RestElsewhere(s, p, q, n);
      StartsPastWords(s, q, n, p + 12 + 4 * RestWords(s, p).value, end);
    }
  }

  lemma SwapFirstStarts(s: seq<byte>, p: nat, end: nat)
    requires end <= |s| && Tiled(s, p, end) && p != end
    ensures var r := RestWords(s, p).value;
            && Tiled(SwapOut(s, p, r), p + 12 + 4 * r, end)
            && Starts(s, p, end, 0) == [p] + Starts(SwapOut(s, p, r), p + 12 + 4 * r, end, 0)
  {
    hide SwapWords, RestWords;
    var r := RestWords(s, p).value;
    StartsPastWords(s, p + 12, r, p + 12 + 4 * r, end);
    StartsPastWords(SwapWords(s, p + 12, r), p, BASE_WORDS, p + 12 + 4 * r, end);
  }

  // ----- Headers -----

  /** magic, version, flags, hdr_len, type_off, type_len, str_off, str_len. */
  predicate NativeMagic(h: seq<byte>)
    requires |h| >= 2
  {
    h[0] == 0x9F && h[1] == 0xEB
  }

  predicate SwappedMagic(h: seq<byte>)
    requires |h| >= 2
  {
    h[0] == 0xEB && h[1] == 0x9F
  }

  function SwapHdr(h: seq<byte>): (t: seq<byte>)
    requires |h| >= HDR_LEN
    ensures |t| == |h|
  {
    SwapWords(h[0 := h[1]][1 := h[0]], 4, 5)
  }

  lemma SwapHdrTwice(h: seq<byte>)
    requires |h| >= HDR_LEN
    ensures SwapHdr(SwapHdr(h)) == h
    ensures SwapHdr(h)[0] == h[1] && SwapHdr(h)[1] == h[0]
    ensures U32(SwapWord(SwapHdr(h), 4), 4) == U32(h, 4)
  {
    var g := h[0 := h[1]][1 := h[0]];
    var t := SwapWords(g, 4, 5);
    SwapWordsElsewhere(g, 4, 5, 0);
    SwapWordsElsewhere(g, 4, 5, 1);
    SwapWordsTwice(g, 4, 5);
    MagicPastWords(t, 4, 5);
    assert g[0 := g[1]][1 := g[0]] == h;
    FirstWord(g, 4, 4);
  }

  lemma {:induction false} MagicPastWords(t: seq<byte>, p: nat, n: nat)
    requires 2 <= p && p + 4 * n <= |t|
    ensures SwapWords(t[0 := t[1]][1 := t[0]], p, n) == SwapWords(t, p, n)[0 := t[1]][1 := t[0]]
  {
    if n > 0 {
      MagicPastWords(t, p, n - 1);
      var u, q := SwapWords(t, p, n - 1), p + 4 * (n - 1);
      assert SwapWord(u[0 := t[1]][1 := t[0]], q) == SwapWord(u, q)[0 := t[1]][1 := t[0]];
    }
  }

  lemma {:induction false} FirstWord(g: seq<byte>, p: nat, n: nat)
    requires p + 4 * (n + 1) <= |g|
    ensures SwapWord(SwapWords(g, p, n + 1), p)[p..p + 4] == g[p..p + 4]
  {
    if n > 0 {
      FirstWord(g, p, n - 1);
      var u, q := SwapWords(g, p, n), p + 4 * n;
      SwapWordCommutes(u, q, p);
      assert SwapWord(SwapWord(u, p), q)[p..p + 4] == SwapWord(u, p)[p..p + 4];
    } else {
      assert SwapWords(g, p, 1) == SwapWord(SwapWords(g, p, 0), p + 4 * 0);
      SwapWordTwice(g, p);
    }
  }

  // ----- Loading -----

  /** What loading leaves in memory: everything in host order, and the index of the records. */
  datatype Loaded = Failed(err: int)
                  | Loaded(hdr: seq<byte>, types: seq<byte>, strs: seq<byte>, typeOffs: seq<nat>, swapped: bool)

  /** The header in host order, or an error. */
  function HostHdr(data: seq<byte>): (r: Loaded)
    ensures r.Loaded? ==> |data| >= HDR_LEN && |r.hdr| == |data| && U32(r.hdr, 4) <= |data|
  {
    if |data| < HDR_LEN then Failed(-EINVAL)
    else if SwappedMagic(data) then
      if U32(SwapWord(data, 4), 4) != HDR_LEN then Failed(-ENOTSUP) else CheckedHdr(SwapHdr(data), true)
    else if !NativeMagic(data) then Failed(-EINVAL)
    else CheckedHdr(data, false)
  }

  /** The sections follow the header inside the data, the types before the strings. */
  function CheckedHdr(h: seq<byte>, swapped: bool): Loaded
    requires |h| >= HDR_LEN
  {
    if |h| < U32(h, 4) || |h| - U32(h, 4) < U32(h, 16) + U32(h, 20) || U32(h, 8) + U32(h, 12) > U32(h, 16) || U32(h, 8) % 4 != 0
    then Failed(-EINVAL)
    else Loaded(h, [], [], [], swapped)
  }

  /** Not empty, first and last byte zero. */
  predicate StringsOk(strs: seq<byte>) {
    strs != [] && |strs| - 1 <= MAX_STR_OFFSET && strs[|strs| - 1] == 0 && strs[0] == 0
  }

  function Load(data: seq<byte>): Loaded {
    match HostHdr(data)
    case Failed(err) => Failed(err)
    case Loaded(h, _, _, _, swapped) => LoadSections(h, swapped)
  }

  function LoadSections(h: seq<byte>, swapped: bool): Loaded
    requires |h| >= HDR_LEN && CheckedHdr(h, swapped).Loaded?
  {
    var len, typeOff, strOff := U32(h, 4), U32(h, 4) + U32(h, 8), U32(h, 4) + U32(h, 16);
    var strs, types := h[strOff..strOff + U32(h, 20)], h[typeOff..typeOff + U32(h, 12)];
    if !StringsOk(strs) then Failed(-EINVAL)
    else
      match ParseTypes(types, 0, |types|, 0, swapped)
      case None => Failed(-EINVAL)
      case Some(res) => Loaded(h[..len], res.0, strs, res.1, swapped)
  }

  /** The sections a host-order header announces lie behind it in the data, the types at a multiple of four
      bytes and before the strings; the strings are not empty, not too long, and begin and end with zero. */
  ghost predicate SoundFile(h: seq<byte>)
    requires |h| >= 24
  {
    var len, typeOff, typeLen, strOff, strLen := U32(h, 4), U32(h, 8), U32(h, 12), U32(h, 16), U32(h, 20);
    && len <= |h| && typeOff % 4 == 0 && typeOff + typeLen <= strOff && len + strOff + strLen <= |h|
    && 0 < strLen <= 0x8000_0000 && h[len + strOff] == 0 && h[len + strOff + strLen - 1] == 0
  }

  /** What loads, and how all else is refused: only a header of another length in the other byte order is
      not supported, everything else is invalid. */
  lemma LoadsIff(data: seq<byte>)
    ensures var native, foreign := |data| >= 24 && data[0] == 0x9F && data[1] == 0xEB, |data| >= 24 && data[0] == 0xEB && data[1] == 0x9F;
            var unsupported := foreign && U32(SwapWord(data, 4), 4) != 24;
            var h := if foreign then SwapHdr(data) else data;
            && (Load(data).Loaded? <==>
                  && (native || foreign) && !unsupported && SoundFile(h)
                  && ParseTypes(h[U32(h, 4) + U32(h, 8)..U32(h, 4) + U32(h, 8) + U32(h, 12)], 0, U32(h, 12), 0, foreign).Some?)
            && (Load(data).Failed? ==> Load(data).err == if unsupported then -95 else -22)
  {
    hide SwapHdr, SwapWord, ParseTypes, U32;
  }

  // ----- Saving -----

  /** A loaded BTF whose sections are packed: types right behind the header, strings right behind them. */
  ghost predicate Packed(l: Loaded) {
    && l.Loaded? && |l.hdr| >= HDR_LEN && NativeMagic(l.hdr) && U32(l.hdr, 4) == |l.hdr|
    && U32(l.hdr, 8) == 0 && U32(l.hdr, 12) == |l.types| == U32(l.hdr, 16) && U32(l.hdr, 20) == |l.strs|
    && StringsOk(l.strs) && Tiled(l.types, 0, |l.types|) && l.typeOffs == Starts(l.types, 0, |l.types|, 0)
  }

  function Saved(l: Loaded, swap: bool): seq<byte>
    requires l.Loaded? && |l.hdr| >= HDR_LEN && Tiled(l.types, 0, |l.types|)
  {
    if swap then SwapHdr(l.hdr) + SwapAll(l.types, 0, |l.types|) + l.strs else l.hdr + l.types + l.strs
  }

  lemma HeaderKept(h: seq<byte>, rest: seq<byte>)
    requires |h| >= HDR_LEN
    ensures SwapHdr(h + rest) == SwapHdr(h) + rest
    ensures forall p :: 0 <= p <= 20 ==> U32(h + rest, p) == U32(h, p)
    ensures U32(SwapWord(h + rest, 4), 4) == U32(SwapWord(h, 4), 4)
  {
    var g := h[0 := h[1]][1 := h[0]];
    assert (h + rest)[0 := h[1]][1 := h[0]] == g + rest;
    WordsKept(g, rest, 4, 5);
    assert SwapWord(h + rest, 4) == SwapWord(h, 4) + rest;
  }

  lemma {:induction false} WordsKept(g: seq<byte>, rest: seq<byte>, p: nat, n: nat)
    requires p + 4 * n <= |g|
    ensures SwapWords(g + rest, p, n) == SwapWords(g, p, n) + rest
  {
    if n > 0 {
      WordsKept(g, rest, p, n - 1);
      var u, q := SwapWords(g, p, n - 1), p + 4 * (n - 1);
      assert SwapWord(u + rest, q) == SwapWord(u, q) + rest;
    }
  }

  /** Saving and loading in host order gives the same BTF. */
  lemma RoundTripNative(l: Loaded)
    requires Packed(l)
    ensures Load(Saved(l, false)) == l.(swapped := false)
  {
    hide Tiled, Starts, SwapHdr, SwapWords, SwapWord, U32, StringsOk, ParseTypes;
    var d, n, m := l.hdr + l.types + l.strs, |l.hdr|, |l.types|;
    assert d == l.hdr + (l.types + l.strs);
    HeaderKept(l.hdr, l.types + l.strs);
    assert d[..n] == l.hdr && d[n..n + m] == l.types && d[n + m..n + m + |l.strs|] == l.strs;
    ParseNative(l.types, 0, m, 0);
  }

  /** Saving in the other byte order and loading gives the same BTF, provided the header has the
      length of the structure; a longer one is not supported in the other byte order. */
  lemma RoundTripSwapped(l: Loaded)
    requires Packed(l)
    ensures Load(Saved(l, true)) == if |l.hdr| == HDR_LEN then l.(swapped := true) else Failed(-ENOTSUP)
  {
    hide Tiled, Starts, SwapHdr, SwapAll, SwapWords, SwapWord, U32, StringsOk;
    var h, t, m := SwapHdr(l.hdr), SwapAll(l.types, 0, |l.types|), |l.types|;
    var d := h + t + l.strs;
    assert d == h + (t + l.strs);
    HeaderKept(h, t + l.strs);
    SwapHdrTwice(l.hdr);
    var n := |l.hdr|;
    assert U32(SwapWord(d, 4), 4) == n;
    if n == HDR_LEN {
      var d' := SwapHdr(d);
      assert d' == l.hdr + (t + l.strs);
      HeaderKept(l.hdr, t + l.strs);
      assert d'[..n] == l.hdr && d'[n..n + m] == t && d'[n + m..n + m + |l.strs|] == l.strs;
      ParseSwapped(l.types, 0, m, 0);
    }
  }

  /** A header of 28 bytes with no types and an empty string. */
  const LONG_HEADER: seq<byte> := [0x9F, 0xEB, 1, 0] + [28, 0, 0, 0] + [0, 0, 0, 0] + [0, 0, 0, 0] + [0, 0, 0, 0] + [1, 0, 0, 0] + [0, 0, 0, 0]

  /** It is sound, and does not survive the other byte order. */
  lemma LongHeaderRefused()
    ensures var l := Loaded(LONG_HEADER, [], [0], [], false);
            Packed(l) && Load(Saved(l, false)) == l && Load(Saved(l, true)) == Failed(-ENOTSUP)
  {
    var h, l := LONG_HEADER, Loaded(LONG_HEADER, [], [0], [], false);
    assert |h| == 28 && h[0] == 0x9F && h[1] == 0xEB;
    assert U32(h, 4) == 28 && U32(h, 8) == 0 && U32(h, 12) == 0 && U32(h, 16) == 0 && U32(h, 20) == 1;
    RoundTripNative(l);
    RoundTripSwapped(l);
  }

  /** Whatever loads with packed sections and a full header is a BTF these round trips are about. */
  lemma LoadedIsPacked(data: seq<byte>)
    requires Load(data).Loaded? && |Load(data).hdr| >= HDR_LEN
    requires U32(Load(data).hdr, 8) == 0 && U32(Load(data).hdr, 16) == U32(Load(data).hdr, 12)
    ensures Packed(Load(data))
  {
    hide Tiled, Starts, SwapHdr, SwapWords, SwapWord, ParseTypes, U32, StringsOk;
    var h := HostHdr(data).hdr;
    var len := U32(h, 4);
    assert h[..len] + h[len..] == h;
    HeaderKept(h[..len], h[len..]);
    var types := h[len..len + U32(h, 12)];
    if HostHdr(data).swapped {
      SwapHdrTwice(data);
    }
    ParsedTiles(types, 0, |types|, 0, HostHdr(data).swapped);
  }

  /** What parsing leaves behind tiles the section. */
  lemma {:induction false} ParsedTiles(s: seq<byte>, p: nat, end: nat, base: nat, swapped: bool)
    requires end <= |s| && base <= p && ParseTypes(s, p, end, base, swapped).Some?
    ensures var res := ParseTypes(s, p, end, base, swapped).value;
            && |res.0| == |s| && Tiled(res.0, p, end) && res.1 == Starts(res.0, p, end, base)
            && forall i :: 0 <= i < p && i < |s| ==> res.0[i] == s[i]
    decreases end - p
  {
    hide SwapWords, RestWords;
    if p + 12 <= end {
      var t := if swapped then SwapWords(s, p, BASE_WORDS) else s;
      var r := RestWords(t, p).value;
      var u := if swapped then SwapWords(t, p + 12, r) else t;
      var next := p + 12 + 4 * r;
      ParsedTiles(u, next, end, base, swapped);
      var v := ParseTypes(u, next, end, base, swapped).value.0;
      if swapped {
        forall i | p <= i < p + 12 ensures v[i] == t[i] {
          SwapWordsElsewhere(t, p + 12, r, i);
        }
        forall i | 0 <= i < p ensures v[i] == s[i] {
          SwapWordsElsewhere(t, p + 12, r, i);
          SwapWordsElsewhere(s, p, BASE_WORDS, i);
        }
      }
      assert v[p..p + 12] == t[p..p + 12];
      RestSame(v, t, p);
    }
  }
}

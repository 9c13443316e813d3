/** Loading and saving BTF, in place: the loader swaps records as it finds them, the writer swaps
    a copy. */
module BtfFile {
  import opened ByteOrder

  method BswapWord(a: array<byte>, p: nat)
    requires p + 4 <= a.Length
    modifies a
    ensures a[..] == SwapWord(old(a[..]), p)
  {
    a[p], a[p + 1], a[p + 2], a[p + 3] := a[p + 3], a[p + 2], a[p + 1], a[p];
  }

  /** `count` items of `width` words each. */
  method BswapItems(a: array<byte>, p: nat, count: nat, width: nat)
    requires p + 4 * (count * width) <= a.Length
    modifies a
    ensures a[..] == SwapWords(old(a[..]), p, count * width)
  {
    hide SwapWord;
    ghost var was := a[..];
    var i := 0;
    while i < count
      invariant 0 <= i <= count && i * width <= count * width
      invariant a[..] == SwapWords(was, p, i * width)
    {
      assert (i + 1) * width == i * width + width;
      assert (i + 1) * width <= count * width by { Times(i + 1, count, width); }
      var j := 0;
      while j < width
        invariant 0 <= j <= width
        invariant a[..] == SwapWords(was, p, i * width + j)
      {
        BswapWord(a, p + 4 * (i * width + j));
        j := j + 1;
      }
      i := i + 1;
    }
  }

  lemma Times(a: nat, b: nat, c: nat)
    requires a <= b
    ensures a * c <= b * c
  {
  }

  method BswapTypeBase(a: array<byte>, p: nat)
    requires p + 12 <= a.Length
    modifies a
    ensures a[..] == SwapWords(old(a[..]), p, BASE_WORDS)
  {
    BswapItems(a, p, 1, BASE_WORDS);
  }

  /** What follows the fixed part; the kind and the number of items are read from it. */
  method BswapTypeRest(a: array<byte>, p: nat) returns (err: int)
    requires p + 12 <= a.Length
    requires RestWords(a[..], p).Some? ==> p + 12 + 4 * RestWords(a[..], p).value <= a.Length
    modifies a
    ensures old(RestWords(a[..], p)).None? ==> err == -EINVAL && a[..] == old(a[..])
    ensures old(RestWords(a[..], p)).Some? ==>
              err == 0 && a[..] == SwapWords(old(a[..]), p + 12, old(RestWords(a[..], p)).value)
  {
    hide SwapWords;
    var kind, vlen := KindAt(a[..], p), VlenAt(a[..], p);
    err := 0;
    match kind
    case 2 | 7 | 8 | 9 | 10 | 11 | 12 | 16 | 18 =>
      NoWords(a[..], p + 12);
    case 1 | 14 | 17 =>
      BswapItems(a, p + 12, 1, 1);
    case 3 =>
      BswapItems(a, p + 12, 1, 3);
    case 4 | 5 | 15 | 19 =>
      BswapItems(a, p + 12, vlen, 3);
    case 6 | 13 =>
      BswapItems(a, p + 12, vlen, 2);
    case _ =>
      err := -EINVAL;
  }

  lemma NoWords(s: seq<byte>, p: nat)
    requires p <= |s|
    ensures SwapWords(s, p, 0) == s
  {
  }

  class Btf {
    var hdr: seq<byte>
    var types: array<byte>
    var strs: seq<byte>
    var typeOffs: seq<nat>
    var swapped: bool

    constructor ()
      ensures fresh(types) && types.Length == 0 && hdr == [] && strs == [] && typeOffs == [] && !swapped
    {
      hdr, strs, typeOffs, swapped := [], [], [], false;
      types := new byte[0];
    }

    /** The BTF as a value. */
    function Value(): Loaded
      reads this, types
    {
      Loaded(hdr, types[..], strs, typeOffs, swapped)
    }

    /** The header of `data` in host order. */
    method ParseHdr(data: seq<byte>) returns (err: int, h: seq<byte>)
      modifies this`swapped
      ensures HostHdr(data) == if err != 0 then Failed(err) else Loaded(h, [], [], [], swapped)
      ensures err == 0 ==> |h| >= HDR_LEN && CheckedHdr(h, swapped).Loaded?
    {
      h := data;
      if |data| < HDR_LEN {
        return -EINVAL, h;
      }
      swapped := false;
      if SwappedMagic(data) {
        swapped := true;
        if U32(SwapWord(data, 4), 4) != HDR_LEN {
          return -ENOTSUP, h;
        }
        h := SwapHdr(data);
      } else if !NativeMagic(data) {
        return -EINVAL, h;
      }
      var hdrLen, typeOff, typeLen, strOff, strLen := U32(h, 4), U32(h, 8), U32(h, 12), U32(h, 16), U32(h, 20);
      if |data| < hdrLen {
        return -EINVAL, h;
      }
      var metaLeft := |data| - hdrLen;
      if metaLeft < strOff + strLen || typeOff + typeLen > strOff || typeOff % 4 != 0 {
        return -EINVAL, h;
      }
      err := 0;
    }

    method ParseStrSec() returns (err: int)
      ensures err == if StringsOk(strs) then 0 else -EINVAL
    {
      if strs == [] || |strs| - 1 > MAX_STR_OFFSET || strs[|strs| - 1] != 0 || strs[0] != 0 {
        return -EINVAL;
      }
      err := 0;
    }

    /** Finds the records and brings them into host order. */
    method ParseTypeSec() returns (err: int)
      requires typeOffs == []
      modifies types, `typeOffs
      ensures err == 0 || err == -EINVAL
      ensures match ParseTypes(old(types[..]), 0, types.Length, 0, swapped)
              case None => err == -EINVAL
              case Some(res) => err == 0 && types[..] == res.0 && typeOffs == res.1
    {
      hide SwapWords, RestWords;
      ghost var was, all := types[..], ParseTypes(types[..], 0, types.Length, 0, swapped);
      var next, end := 0, types.Length;
      assert all.Some? ==> [] + all.value.1 == all.value.1;
      while next + 12 <= end
        invariant 0 <= next <= end == types.Length
        invariant all == match ParseTypes(types[..], next, end, 0, swapped)
                         case None => None
                         case Some(res) => Some((res.0, typeOffs + res.1))
        decreases end - next
      {
        ghost var now := types[..];
        if swapped {
          BswapTypeBase(types, next);
        }
        var size := TypeSize(types[..], next);
        SizeOfRest(types[..], next);
        if size < 0 || next + size > end {
          return -EINVAL;
        }
        if swapped {
          err := BswapTypeRest(types, next);
        }
        assert typeOffs + [next] == typeOffs + [next - 0];
        ghost var rest := ParseTypes(types[..], next + size, end, 0, swapped);
        Regroup(typeOffs, next, rest);
        typeOffs := typeOffs + [next];
        next := next + size;
      }
      if next != end {
        return -EINVAL;
      }
      assert typeOffs + [] == typeOffs;
      err := 0;
    }

    lemma SizeOfRest(s: seq<byte>, p: nat)
      requires p + 12 <= |s|
      ensures TypeSize(s, p) == match RestWords(s, p) case None => -EINVAL case Some(r) => 12 + 4 * r
    {
    }

    lemma Regroup(offs: seq<nat>, next: nat, rest: Option<(seq<byte>, seq<nat>)>)
      ensures rest.Some? ==> offs + ([next - 0] + rest.value.1) == (offs + [next]) + rest.value.1
    {
    }

    /** Loads BTF of either byte order. */
    method Parse(data: seq<byte>) returns (err: int)
      modifies this, types
      ensures Load(data) == if err != 0 then Failed(err) else Value()
    {
      hide U32, HostHdr, ParseTypes, StringsOk;
      var h;
      typeOffs := [];
      err, h := ParseHdr(data);
      if err != 0 {
        return;
      }
      var hdrLen, typeOff, typeLen, strOff, strLen := U32(h, 4), U32(h, 8), U32(h, 12), U32(h, 16), U32(h, 20);
      hdr := h[..hdrLen];
      strs := h[hdrLen + strOff..hdrLen + strOff + strLen];
      var section := h[hdrLen + typeOff..hdrLen + typeOff + typeLen];
      types := new byte[|section|](i requires 0 <= i < |section| => section[i]);
      assert types[..] == section;
      err := ParseStrSec();
      if err != 0 {
        return;
      }
      err := ParseTypeSec();
    }

    /** The raw form: header, types, strings. */
    method GetRawData(swapEndian: bool) returns (data: seq<byte>)
      requires |hdr| >= HDR_LEN && Tiled(types[..], 0, types.Length) && typeOffs == Starts(types[..], 0, types.Length, 0)
      ensures data == Saved(Value(), swapEndian)
    {
      if !swapEndian {
        return hdr + types[..] + strs;
      }
      var bytes := types[..];
      var copy := new byte[|bytes|](i requires 0 <= i < |bytes| => bytes[i]);
      assert copy[..] == bytes;
      SwapRecords(copy);
      data := SwapHdr(hdr) + copy[..] + strs;
    }

    /** Record by record: the trailing words while the item count is readable, then the fixed part. */
    method SwapRecords(copy: array<byte>)
      requires Tiled(copy[..], 0, copy.Length) && typeOffs == Starts(copy[..], 0, copy.Length, 0)
      requires copy != types
      modifies copy
      ensures copy[..] == SwapAll(old(copy[..]), 0, copy.Length)
    {
      hide SwapWords, RestWords, SwapAll;
      ghost var was, p := copy[..], 0;
      var i := 0;
      while i < |typeOffs|
        invariant 0 <= i <= |typeOffs| && 0 <= p <= copy.Length && Tiled(copy[..], p, copy.Length)
        invariant typeOffs[i..] == Starts(copy[..], p, copy.Length, 0)
        invariant SwapAll(copy[..], p, copy.Length) == SwapAll(was, 0, copy.Length)
      {
        ghost var now := copy[..];
        ghost var r := RestWords(now, p).value;
        assert p != copy.Length && typeOffs[i] == typeOffs[i..][0] == p;
        SwapFirst(now, p, copy.Length);
        SwapFirstStarts(now, p, copy.Length);
        var err := BswapTypeRest(copy, typeOffs[i]);
        BswapTypeBase(copy, typeOffs[i]);
        assert typeOffs[i + 1..] == typeOffs[i..][1..];
        p := p + 12 + 4 * r;
        i := i + 1;
      }
      NothingLeft(copy[..], p, copy.Length);
    }
  }

  lemma NothingLeft(s: seq<byte>, p: nat, end: nat)
    requires end <= |s| && Tiled(s, p, end) && Starts(s, p, end, 0) == []
    ensures SwapAll(s, p, end) == s
  {
  }
}

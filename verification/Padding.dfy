/** Unnamed bit-fields that reproduce the gaps of a struct layout, and where a compiler that packs
    bit-fields as the System V AMD64 psABI says (section 3.1.2) puts the member behind them. */
module Padding {
  // ----- The compiler's side -----

  /** An unnamed bit-field: `width` bits of a type of `unit` bits. */
  datatype Pad = Pad(unit: nat, width: nat)

  predicate IsUnit(u: nat) { u == 8 || u == 16 || u == 32 || u == 64 }

  predicate PadOk(p: Pad) { IsUnit(p.unit) && p.width <= p.unit }

  predicate PadsOk(pads: seq<Pad>) {
    forall i :: 0 <= i < |pads| ==> PadOk(pads[i])
  }

  predicate Aligned(x: nat, u: nat)
    requires u > 0
  {
    x % u == 0
  }

  function RoundUp(x: nat, u: nat): nat
    requires u > 0
  {
    (x + u - 1) / u * u
  }

  /** Where the next member may start after a bit-field.  It must not straddle a storage unit of its
      type; a width of zero only aligns. */
  function After(off: nat, p: Pad): nat
    requires PadOk(p)
  {
    if p.width == 0 then RoundUp(off, p.unit)
    else (if off % p.unit + p.width > p.unit then RoundUp(off, p.unit) else off) + p.width
  }

  function Laid(off: nat, pads: seq<Pad>): nat
    requires PadsOk(pads)
  {
    if pads == [] then off else After(Laid(off, pads[..|pads| - 1]), pads[|pads| - 1])
  }

  lemma LaidNext(off: nat, pads: seq<Pad>, p: Pad)
    requires PadOk(p) && PadsOk(pads)
    ensures PadsOk(pads + [p]) && Laid(off, pads + [p]) == After(Laid(off, pads), p)
  {
    assert (pads + [p])[..|pads|] == pads;
  }

  lemma MulOrder(m: nat, a: nat, b: nat)
    ensures a >= b ==> m * a >= m * b
  {
    if a >= b {
      assert m * a == m * b + m * (a - b);
    }
  }

  lemma DivIs(x: nat, u: nat, q: nat, r: nat)
    requires u > 0 && x == u * q + r && r < u
    ensures x / u == q && x % u == r
  {
    var q' := x / u;
    assert u * q' <= x < u * q' + u;
    MulOrder(u, q, q' + 1);
    MulOrder(u, q', q + 1);
  }

  lemma RoundUpIs(x: nat, u: nat)
    requires u > 0
    ensures x % u == 0 ==> RoundUp(x, u) == x
    ensures x % u != 0 ==> RoundUp(x, u) == x - x % u + u
    ensures RoundUp(x, u) % u == 0
  {
    var q, r := x / u, x % u;
    assert x == u * q + r;
    if r == 0 {
      DivIs(x + u - 1, u, q, u - 1);
      DivIs(x, u, q, 0);
    } else {
      OneMoreUnit(x, u, q, r);
    }
  }

  lemma OneMoreUnit(x: nat, u: nat, q: nat, r: nat)
    requires 0 < r < u && x == u * q + r
    ensures RoundUp(x, u) == x - r + u && RoundUp(x, u) % u == 0
  {
    var next := u * (q + 1);
    assert next == u * q + u;
    DivIs(x + u - 1, u, q + 1, r - 1);
    DivIs(next, u, q + 1, 0);
  }

  lemma RoundUpFacts(x: nat, u: nat)
    requires IsUnit(u)
    ensures x <= RoundUp(x, u) < x + u && RoundUp(x, u) % u == 0
    ensures x % u == 0 <==> RoundUp(x, u) == x
    ensures x % u != 0 ==> x % u + (RoundUp(x, u) - x) == u
  {
    hide RoundUp;
    RoundUpIs(x, u);
  }

  /** A multiple of a unit is a multiple of every smaller one. */
  lemma Multiples(x: nat, u: nat, v: nat)
    requires IsUnit(u) && IsUnit(v) && v <= u && x % u == 0
    ensures x % v == 0
  {
    var q, k := x / u, u / v;
    assert u == v * k;
    assert x == u * q == v * (k * q);
    DivIs(x, v, k * q, 0);
  }

  /** A pad that does not fit before the boundary starts at it, whatever smaller unit it is given. */
  lemma PadMoves(off: nat, u: nat, p: Pad)
    requires IsUnit(u) && IsUnit(p.unit) && p.width <= p.unit <= u
    requires off % u != 0 && p.width > RoundUp(off, u) - off
    ensures After(off, p) == RoundUp(off, u) + p.width
  {
    var b := RoundUp(off, u);
    RoundUpFacts(off, u);
    Multiples(b, u, p.unit);
    RoundUpFacts(off, p.unit);
    NextMultiple(off, b, p.unit);
  }

  lemma NextMultiple(off: nat, b: nat, v: nat)
    requires IsUnit(v) && b % v == 0 && off < b < off + v
    ensures RoundUp(off, v) == b && off % v != 0
  {
    DivIs(off + v - 1, v, b / v, off + v - 1 - b);
    RoundUpFacts(off, v);
  }

  /** At a boundary a pad stays where it is. */
  lemma PadStays(off: nat, u: nat, p: Pad)
    requires IsUnit(u) && IsUnit(p.unit) && 0 < p.width <= p.unit <= u && off % u == 0
    ensures After(off, p) == off + p.width
  {
    Multiples(off, u, p.unit);
  }

  // ----- The printer's side -----

  /** The pad types from the largest: long, int, short, char. */
  function Units(ptrSz: nat): seq<nat> { [ptrSz * 8, 32, 16, 8] }

  /** The largest unit with a boundary inside the gap, or the smallest. */
  function Chosen(ptrSz: nat, cur: nat, next: nat): (u: nat)
    requires ptrSz == 4 || ptrSz == 8
    ensures IsUnit(u)
  {
    if RoundUp(cur, ptrSz * 8) <= next then ptrSz * 8
    else if RoundUp(cur, 32) <= next then 32
    else if RoundUp(cur, 16) <= next then 16
    else 8
  }

  /** Nothing is printed: the gap ends at a boundary the compiler finds by itself. */
  predicate LeftToCompiler(ptrSz: nat, cur: nat, next: nat, align: nat, inBitfield: bool)
    requires (ptrSz == 4 || ptrSz == 8) && align > 0
  {
    !inBitfield && cur < next && RoundUp(cur, Chosen(ptrSz, cur, next)) == next && RoundUp(cur, align * 8) == next
  }

  /** Prints the padding for a gap.  Laid out by the compiler, it ends exactly at the gap's end, unless
      it was left to the compiler. */
  method EmitBitPadding(ptrSz: nat, curOff: nat, nextOff: nat, nextAlign: nat, inBitfield: bool) returns (pads: seq<Pad>)
    requires (ptrSz == 4 || ptrSz == 8) && nextAlign > 0
    ensures PadsOk(pads)
    ensures curOff >= nextOff || LeftToCompiler(ptrSz, curOff, nextOff, nextAlign, inBitfield) ==> pads == []
    ensures curOff < nextOff && !LeftToCompiler(ptrSz, curOff, nextOff, nextAlign, inBitfield) ==> Laid(curOff, pads) == nextOff
  {
    hide RoundUp, After, Aligned;
    pads := [];
    if curOff >= nextOff {
      return;
    }
    var padBits := ChooseUnit(ptrSz, curOff, nextOff);
    var mark := NeedsMark(curOff, RoundUp(curOff, padBits), nextOff, nextAlign, inBitfield);
    var cur := curOff;
    MarkEnds(curOff, padBits);
    if curOff < RoundUp(curOff, padBits) <= nextOff {
      cur := RoundUp(curOff, padBits);
      if mark {
        pads := [Pad(padBits, if inBitfield then cur - curOff else 0)];
        LaidNext(curOff, [], pads[0]);
        assert pads == [] + [pads[0]];
      }
    }
    pads := FillPadding(padBits, curOff, cur, nextOff, pads);
  }

  /** The compiler would not align to the boundary by itself, or would not be made to by what follows. */
  predicate NeedsMark(cur: nat, boundary: nat, next: nat, align: nat, inBitfield: bool)
    requires align > 0
  {
    || inBitfield
    || (boundary == next && RoundUp(cur, align * 8) != boundary)
    || (boundary != next && next - boundary <= boundary - cur)
  }

  method ChooseUnit(ptrSz: nat, curOff: nat, nextOff: nat) returns (padBits: nat)
    requires ptrSz == 4 || ptrSz == 8
    ensures padBits == Chosen(ptrSz, curOff, nextOff)
    ensures RoundUp(curOff, padBits) > nextOff ==> padBits == 8
  {
    hide RoundUp;
    var units, i := Units(ptrSz), 0;
    padBits := 8;
    while i < |units|
      invariant 0 <= i <= |units|
      invariant forall k :: 0 <= k < i ==> RoundUp(curOff, units[k]) > nextOff
      invariant i == |units| ==> padBits == 8
    {
      padBits := units[i];
      if RoundUp(curOff, padBits) <= nextOff {
        break;
      }
      i := i + 1;
    }
    assert i > 0 ==> RoundUp(curOff, units[0]) > nextOff;
    assert i > 1 ==> RoundUp(curOff, units[1]) > nextOff;
    assert i > 2 ==> RoundUp(curOff, units[2]) > nextOff;
    assert i > 3 ==> RoundUp(curOff, units[3]) > nextOff;
  }

  /** Both kinds of alignment marks end at the boundary. */
  lemma MarkEnds(cur: nat, u: nat)
    requires IsUnit(u)
    ensures var b := RoundUp(cur, u);
            && cur <= b < cur + u && Aligned(b, u) && After(cur, Pad(u, 0)) == b
            && (cur < b ==> After(cur, Pad(u, b - cur)) == b) && (cur == b ==> Aligned(cur, u))
  {
    RoundUpFacts(cur, u);
  }

  /** Fills from `start` on with whole units, and a smaller pad at the end. */
  method FillPadding(unit: nat, curOff: nat, start: nat, nextOff: nat, before: seq<Pad>) returns (pads: seq<Pad>)
    requires IsUnit(unit) && start <= nextOff
    requires PadsOk(before)
    requires Aligned(start, unit) || (unit == 8 && nextOff < RoundUp(start, 8) && Laid(curOff, before) == start)
    requires Laid(curOff, before) == start
             || (Laid(curOff, before) < start == RoundUp(Laid(curOff, before), unit)
                 && (nextOff - start > start - Laid(curOff, before) || nextOff == start))
    ensures PadsOk(pads)
    ensures if start == nextOff then pads == before else Laid(curOff, pads) == nextOff
  {
    hide RoundUp, After, Laid, Aligned;
    var cur, padBits := start, unit;
    pads := before;
    while cur != nextOff
      invariant start <= cur <= nextOff && IsUnit(padBits) && (cur == nextOff || padBits == unit)
      invariant PadsOk(pads)
      invariant cur == start ==> pads == before
      invariant cur > start ==> Laid(curOff, pads) == cur
      invariant cur == nextOff || Aligned(cur, unit)
                || (cur == start && unit == 8 && nextOff < RoundUp(start, 8) && Laid(curOff, before) == start)
      decreases nextOff - cur
    {
      var bits := if nextOff - cur < padBits then nextOff - cur else padBits;
      if bits == padBits {
        PadEnds(unit, Laid(curOff, pads), cur, nextOff, Pad(padBits, padBits));
        LaidNext(curOff, pads, Pad(padBits, padBits));
        NextAligned(cur, unit, nextOff);
        pads := pads + [Pad(padBits, padBits)];
        cur := cur + bits;
        continue;
      }
      padBits := if bits <= 8 then 8 else if bits <= 16 then 16 else if bits <= 32 then 32 else 64;
      PadEnds(unit, Laid(curOff, pads), cur, nextOff, Pad(padBits, bits));
      LaidNext(curOff, pads, Pad(padBits, bits));
      pads := pads + [Pad(padBits, bits)];
      cur := cur + bits;
    }
  }

  lemma NextAligned(cur: nat, u: nat, next: nat)
    requires IsUnit(u) && cur + u <= next && (Aligned(cur, u) || (u == 8 && next < RoundUp(cur, 8)))
    ensures Aligned(cur, u) && Aligned(cur + u, u)
  {
    if u == 8 { } else if u == 16 { } else if u == 32 { } else { }
  }

  /** One more pad ends where the printer thinks it does, even where the compiler is still before the
      boundary the printer has moved to. */
  lemma PadEnds(unit: nat, off: nat, cur: nat, next: nat, p: Pad)
    requires IsUnit(unit) && IsUnit(p.unit) && 0 < p.width <= p.unit <= unit && cur + p.width <= next
    requires p.width == unit || cur + p.width == next
    requires off == cur || (off < cur == RoundUp(off, unit) && next - cur > cur - off)
    requires Aligned(cur, unit) || (off == cur && unit == 8 && next < RoundUp(cur, 8))
    ensures After(off, p) == cur + p.width
  {
    if off < cur {
      RoundUpFacts(off, unit);
      PadMoves(off, unit, p);
    } else if cur % unit == 0 {
      PadStays(off, unit, p);
    } else {
      RoundUpFacts(cur, 8);
    }
  }

  // ----- What it means for the next member -----

  lemma {:induction false} RoundUpAligned(x: nat, u: nat)
    requires u > 0 && x % u == 0
    ensures RoundUp(x, u) == x
  {
    var q := x / u;
    assert x == u * q;
    assert (x + u - 1) / u == q by {
      assert x + u - 1 == u * q + (u - 1);
      DivIs(x + u - 1, u, q, u - 1);
    }
  }

  /** A naturally aligned ordinary field lands exactly at its offset. */
  lemma OrdinaryFieldLands(ptrSz: nat, cur: nat, next: nat, align: nat, pads: seq<Pad>)
    requires (ptrSz == 4 || ptrSz == 8) && align > 0 && cur < next && next % (align * 8) == 0
    requires PadsOk(pads)
    requires if LeftToCompiler(ptrSz, cur, next, align, false) then pads == [] else Laid(cur, pads) == next
    ensures RoundUp(Laid(cur, pads), align * 8) == next
  {
    RoundUpAligned(next, align * 8);
  }

  /** A bit-field behind a bit-field starts exactly at its offset. */
  lemma BitfieldLands(ptrSz: nat, cur: nat, next: nat, align: nat, pads: seq<Pad>, m: Pad)
    requires (ptrSz == 4 || ptrSz == 8) && align > 0 && cur < next
    requires PadsOk(pads)
    requires if LeftToCompiler(ptrSz, cur, next, align, true) then pads == [] else Laid(cur, pads) == next
    requires IsUnit(m.unit) && 0 < m.width && next % m.unit + m.width <= m.unit
    ensures After(Laid(cur, pads), m) == next + m.width
  {
  }

  /** The first bit-field behind an ordinary field does too unless its gap was left to the compiler
      and it also fits right after the field. */
  lemma FirstBitfieldLandsIff(ptrSz: nat, cur: nat, next: nat, align: nat, pads: seq<Pad>, m: Pad)
    requires (ptrSz == 4 || ptrSz == 8) && align > 0 && cur < next && align * 8 == m.unit
    requires PadsOk(pads)
    requires if LeftToCompiler(ptrSz, cur, next, align, false) then pads == [] else Laid(cur, pads) == next
    requires IsUnit(m.unit) && 0 < m.width && next % m.unit + m.width <= m.unit
    ensures After(Laid(cur, pads), m) == next + m.width
            <==> !(LeftToCompiler(ptrSz, cur, next, align, false) && cur % m.unit + m.width <= m.unit)
  {
  }

  /** A char, and a 4-bit int at the next int boundary: nothing is printed and the compiler puts the
      bit-field right behind the char. */
  lemma FirstBitfieldMisplaced()
    ensures LeftToCompiler(8, 8, 32, 4, false) && After(Laid(8, []), Pad(32, 4)) == 12
  {
  }
}

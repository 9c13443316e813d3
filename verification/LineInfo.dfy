/** The line-info index of JITed programs: one pass splits the address table into functions, and
    lookups find the record at or below an address. */
module LineInfo {
  const EINVAL: int := 22
  const WORD64: nat := 0x1_0000_0000_0000_0000

  datatype Option<T> = None | Some(value: T)

  // ----- A table split into functions -----

  /** The function's code reaches its last record, as the kernel computes it in 64 bits. */
  predicate LengthOk(start: nat, last: nat, len: nat) {
    (last - start + 1) % WORD64 <= len
  }

  /** Record `idx[f]` is the first one of function `f`; up to it the records of the function before
      increase and end inside its code. */
  predicate FunctionAt(jited: seq<nat>, ksym: seq<nat>, len: seq<nat>, idx: seq<nat>, f: nat)
    requires 0 < f < |idx| <= |ksym| == |len|
  {
    && idx[f - 1] < idx[f] < |jited| && jited[idx[f]] == ksym[f]
    && (forall i :: idx[f - 1] < i < idx[f] ==> jited[i - 1] < jited[i] && jited[i] != ksym[f])
    && LengthOk(ksym[f - 1], jited[idx[f] - 1], len[f - 1])
  }

  /** The first functions start at these records. */
  ghost predicate Split(jited: seq<nat>, ksym: seq<nat>, len: seq<nat>, idx: seq<nat>) {
    && |ksym| == |len| && 0 < |idx| <= |ksym| && |jited| > 0
    && idx[0] == 0 && jited[0] == ksym[0]
    && forall f {:trigger FunctionAt(jited, ksym, len, idx, f)} :: 0 < f < |idx| ==> FunctionAt(jited, ksym, len, idx, f)
  }

  /** All functions do. */
  ghost predicate SplitAll(jited: seq<nat>, ksym: seq<nat>, len: seq<nat>, idx: seq<nat>) {
    Split(jited, ksym, len, idx) && |idx| == |ksym|
  }

  function End(idx: seq<nat>, n: nat, f: nat): nat
    requires f < |idx|
  {
    if f + 1 < |idx| then idx[f + 1] else n
  }

  lemma {:induction false} IndexIncreases(jited: seq<nat>, ksym: seq<nat>, len: seq<nat>, idx: seq<nat>, f: nat, g: nat)
    requires Split(jited, ksym, len, idx) && f < g < |idx|
    ensures idx[f] < idx[g] < |jited|
    decreases g
  {
    assert FunctionAt(jited, ksym, len, idx, g);
    if f + 1 < g {
      IndexIncreases(jited, ksym, len, idx, f, g - 1);
    }
  }

  /** The functions partition the records: each record belongs to exactly one. */
  lemma {:induction false} EachInOne(jited: seq<nat>, ksym: seq<nat>, len: seq<nat>, idx: seq<nat>, i: nat) returns (f: nat)
    requires Split(jited, ksym, len, idx) && i < |jited|
    ensures f < |idx| && idx[f] <= i < End(idx, |jited|, f)
    ensures forall g :: 0 <= g < |idx| && idx[g] <= i < End(idx, |jited|, g) ==> g == f
  {
    f := |idx| - 1;
    while f > 0 && idx[f] > i
      invariant f < |idx| && (f + 1 < |idx| ==> i < idx[f + 1])
    {
      f := f - 1;
    }
    forall g | 0 <= g < |idx| && idx[g] <= i < End(idx, |jited|, g) ensures g == f {
      if g < f {
        if g + 1 < f {
          IndexIncreases(jited, ksym, len, idx, g + 1, f);
        }
      } else if f < g {
        if f + 1 < g {
          IndexIncreases(jited, ksym, len, idx, f + 1, g);
        }
      }
    }
  }

  predicate Increasing(a: seq<nat>, lo: nat, hi: nat) {
    hi <= |a| && forall i :: lo < i < hi ==> a[i - 1] < a[i]
  }

  lemma {:induction false} IncreasingOrders(a: seq<nat>, lo: nat, hi: nat, i: nat, j: nat)
    requires Increasing(a, lo, hi) && lo <= i < j < hi
    ensures a[i] < a[j]
    decreases j
  {
    if i + 1 < j {
      IncreasingOrders(a, lo, hi, i, j - 1);
    }
  }

  /** All functions but the last: their addresses increase strictly. */
  lemma FunctionIncreases(jited: seq<nat>, ksym: seq<nat>, len: seq<nat>, idx: seq<nat>, f: nat)
    requires Split(jited, ksym, len, idx) && f + 1 < |idx|
    ensures Increasing(jited, idx[f], idx[f + 1])
  {
    assert FunctionAt(jited, ksym, len, idx, f + 1);
  }

  /** They lie inside the function's code, unless the length computation wraps around: exactly when
      the function starts at zero and its last record is the highest address there is. */
  lemma InsideFunction(jited: seq<nat>, ksym: seq<nat>, len: seq<nat>, idx: seq<nat>, f: nat)
    requires Split(jited, ksym, len, idx) && f + 1 < |idx|
    requires (forall i :: 0 <= i < |jited| ==> jited[i] < WORD64) && len[f] < WORD64
    ensures idx[f] < idx[f + 1] <= |jited|
    ensures (forall i :: idx[f] <= i < idx[f + 1] ==> ksym[f] <= jited[i] < ksym[f] + len[f])
            <==> !(ksym[f] == 0 && jited[idx[f + 1] - 1] == WORD64 - 1)
  {
    assert FunctionAt(jited, ksym, len, idx, f + 1);
    FunctionIncreases(jited, ksym, len, idx, f);
    StartsThere(jited, ksym, len, idx, f);
    var lo, hi := idx[f], idx[f + 1];
    var last := jited[hi - 1];
    forall i | lo <= i < hi ensures ksym[f] <= jited[i] <= last {
      if lo < i {
        IncreasingOrders(jited, lo, hi, lo, i);
      }
      if i < hi - 1 {
        IncreasingOrders(jited, lo, hi, i, hi - 1);
      }
    }
    NoWrap(ksym[f], last, len[f]);
  }

  lemma StartsThere(jited: seq<nat>, ksym: seq<nat>, len: seq<nat>, idx: seq<nat>, f: nat)
    requires Split(jited, ksym, len, idx) && f < |idx|
    ensures idx[f] < |jited| && jited[idx[f]] == ksym[f]
  {
    if f > 0 {
      assert FunctionAt(jited, ksym, len, idx, f);
    }
  }

  lemma NoWrap(start: nat, last: nat, len: nat)
    requires start <= last < WORD64 && LengthOk(start, last, len) && len < WORD64
    ensures last < start + len <==> !(start == 0 && last == WORD64 - 1)
  {
    var d := last - start + 1;
    if d == WORD64 {
    } else {
      assert d % WORD64 == d;
    }
  }

  /** There is at most one way to split a table. */
  lemma {:induction false} SplitsAgree(jited: seq<nat>, ksym: seq<nat>, len: seq<nat>, a: seq<nat>, b: seq<nat>, f: nat)
    requires Split(jited, ksym, len, a) && Split(jited, ksym, len, b) && f < |a| && f < |b|
    ensures a[f] == b[f]
    decreases f
  {
    if f > 0 {
      SplitsAgree(jited, ksym, len, a, b, f - 1);
      assert FunctionAt(jited, ksym, len, a, f) && FunctionAt(jited, ksym, len, b, f);
    }
  }

  /** The first `k` functions have as many records as lie before the next one starts. */
  predicate Counted(idx: seq<nat>, counts: seq<nat>, k: nat) {
    && k < |idx| == |counts|
    && forall g {:trigger counts[g]} :: 0 <= g < k ==> idx[g] + counts[g] == idx[g + 1]
  }

  /** Every function's records end where the next one starts, the last one's with the table. */
  predicate CountsFit(idx: seq<nat>, counts: seq<nat>, n: nat) {
    && |idx| == |counts|
    && forall f {:trigger counts[f]} :: 0 <= f < |idx| ==> idx[f] + counts[f] == End(idx, n, f) <= n
  }

  lemma CountNone(idx: seq<nat>, counts: seq<nat>)
    requires 0 < |idx| == |counts|
    ensures Counted(idx, counts, 0)
  {
  }

  lemma FirstSet(idx: seq<nat>)
    requires |idx| > 0
    ensures idx[0 := 0][..1] == [0]
  {
  }

  lemma NextSet(idx: seq<nat>, f: nat, i: nat)
    requires f < |idx|
    ensures idx[f := i][..f + 1] == idx[..f] + [i]
  {
  }

  lemma CountNext(idx: seq<nat>, counts: seq<nat>, f: nat, i: nat)
    requires 0 < f < |idx| && Counted(idx, counts, f - 1) && idx[f - 1] <= i
    ensures Counted(idx[f := i], counts[f - 1 := i - idx[f - 1]], f)
  {
  }

  lemma CountLast(idx: seq<nat>, counts: seq<nat>, n: nat)
    requires |idx| > 0 && Counted(idx, counts, |idx| - 1) && idx[|idx| - 1] <= n
    requires forall f :: 0 <= f < |idx| ==> End(idx, n, f) <= n
    ensures CountsFit(idx, counts[|idx| - 1 := n - idx[|idx| - 1]], n)
  {
  }

  lemma EndsWithin(jited: seq<nat>, ksym: seq<nat>, len: seq<nat>, idx: seq<nat>)
    requires Split(jited, ksym, len, idx)
    ensures forall f :: 0 <= f < |idx| ==> idx[f] < End(idx, |jited|, f) <= |jited|
  {
    forall f | 0 <= f < |idx| ensures idx[f] < End(idx, |jited|, f) <= |jited| {
      StartsThere(jited, ksym, len, idx, f);
      if f + 1 < |idx| {
        IndexIncreases(jited, ksym, len, idx, f, f + 1);
      }
    }
  }

  /** Every function of a split is as it should be: in order and inside its code. */
  ghost predicate FunctionSound(jited: seq<nat>, ksym: seq<nat>, len: seq<nat>, idx: seq<nat>, f: nat)
    requires f < |idx| <= |ksym| == |len|
  {
    && idx[f] < End(idx, |jited|, f) <= |jited| && Increasing(jited, idx[f], End(idx, |jited|, f))
    && forall i :: idx[f] <= i < End(idx, |jited|, f) ==> ksym[f] <= jited[i] < ksym[f] + len[f]
  }

  /** The one input on which a function before the last escapes the length check. */
  predicate Wraps(jited: seq<nat>, ksym: seq<nat>, idx: seq<nat>, f: nat)
    requires f + 1 < |idx| <= |ksym|
  {
    0 < idx[f + 1] <= |jited| && ksym[f] == 0 && jited[idx[f + 1] - 1] == WORD64 - 1
  }

  /** What the pass does not look at: the records of the last function, from the second on. */
  predicate LastSound(jited: seq<nat>, ksym: seq<nat>, len: seq<nat>, from: nat)
    requires 0 < |ksym| == |len| && from < |jited|
  {
    Increasing(jited, from, |jited|) && jited[|jited| - 1] < ksym[|ksym| - 1] + len[|ksym| - 1]
  }

  /** A successful split means that all functions are in order and inside their code if and only if the
      last one is and no other one escapes the length check. */
  lemma SplitIsSoundIff(jited: seq<nat>, ksym: seq<nat>, len: seq<nat>, idx: seq<nat>)
    requires SplitAll(jited, ksym, len, idx)
    requires (forall i :: 0 <= i < |jited| ==> jited[i] < WORD64) && forall f :: 0 <= f < |len| ==> len[f] < WORD64
    ensures forall f :: 0 <= f < |idx| ==> idx[f] < End(idx, |jited|, f) <= |jited|
    ensures (forall f :: 0 <= f < |idx| ==> FunctionSound(jited, ksym, len, idx, f))
            <==> LastSound(jited, ksym, len, idx[|idx| - 1])
                 && forall f :: 0 <= f < |idx| - 1 ==> !Wraps(jited, ksym, idx, f)
  {
    EndsWithin(jited, ksym, len, idx);
    var last := |idx| - 1;
    forall f | 0 <= f < last ensures FunctionSound(jited, ksym, len, idx, f) <==> !Wraps(jited, ksym, idx, f) {
      FunctionIncreases(jited, ksym, len, idx, f);
      InsideFunction(jited, ksym, len, idx, f);
    }
    LastSoundIff(jited, ksym, len, idx);
  }

  lemma LastSoundIff(jited: seq<nat>, ksym: seq<nat>, len: seq<nat>, idx: seq<nat>)
    requires SplitAll(jited, ksym, len, idx)
    ensures idx[|idx| - 1] < |jited|
    ensures FunctionSound(jited, ksym, len, idx, |idx| - 1) <==> LastSound(jited, ksym, len, idx[|idx| - 1])
  {
    var last := |idx| - 1;
    StartsThere(jited, ksym, len, idx, last);
    if LastSound(jited, ksym, len, idx[last]) {
      forall i | idx[last] <= i < |jited| ensures ksym[last] <= jited[i] < ksym[last] + len[last] {
        if idx[last] < i {
          IncreasingOrders(jited, idx[last], |jited|, idx[last], i);
        }
        if i < |jited| - 1 {
          IncreasingOrders(jited, idx[last], |jited|, i, |jited| - 1);
        }
      }
    }
  }

  /** Behind the first record of the last function the table may hold anything: the split is the same. */
  lemma LastFunctionIgnored(jited: seq<nat>, jited': seq<nat>, ksym: seq<nat>, len: seq<nat>, idx: seq<nat>)
    requires SplitAll(jited, ksym, len, idx) && |jited'| == |jited|
    requires forall i :: 0 <= i <= idx[|idx| - 1] && i < |jited| ==> jited'[i] == jited[i]
    ensures SplitAll(jited', ksym, len, idx)
  {
    forall f | 0 < f < |idx| ensures FunctionAt(jited', ksym, len, idx, f) {
      assert FunctionAt(jited, ksym, len, idx, f);
      if f < |idx| - 1 {
        IndexIncreases(jited, ksym, len, idx, f, |idx| - 1);
      }
    }
  }

  /** For instance, out of order. */
  lemma LastFunctionUnchecked()
    ensures SplitAll([5, 3], [5], [9], [0]) && !Increasing([5, 3], 0, 2)
  {
    var a := [5, 3];
    assert a[1] <= a[1 - 1];
  }

  /** A first function that starts at zero and ends at the highest address escapes the length check. */
  lemma LengthCheckWraps()
    ensures var jited, ksym, len, idx := [0, WORD64 - 1, 5], [0, 5], [1, 1], [0, 2];
            SplitAll(jited, ksym, len, idx) && Wraps(jited, ksym, idx, 0) && !FunctionSound(jited, ksym, len, idx, 0)
  {
    var jited, ksym, len, idx := [0, WORD64 - 1, 5], [0, 5], [1, 1], [0, 2];
    assert FunctionAt(jited, ksym, len, idx, 1) by {
      assert LengthOk(0, WORD64 - 1, 1);
    }
    assert Split(jited, ksym, len, idx);
    assert jited[1] >= ksym[0] + len[0];
  }

  // ----- Splitting -----

  /** The pass has found the first functions and is at record `i`. */
  ghost predicate Reached(jited: seq<nat>, ksym: seq<nat>, len: seq<nat>, idx: seq<nat>, i: nat) {
    && Split(jited, ksym, len, idx) && idx[|idx| - 1] < i <= |jited|
    && forall k :: idx[|idx| - 1] < k < i && |idx| < |ksym| ==> jited[k - 1] < jited[k] && jited[k] != ksym[|idx|]
  }

  lemma StartReached(jited: seq<nat>, ksym: seq<nat>, len: seq<nat>)
    requires |jited| > 0 && 0 < |ksym| == |len| && ksym[0] == jited[0]
    ensures Reached(jited, ksym, len, [0], 1)
  {
  }

  lemma NextRecord(jited: seq<nat>, ksym: seq<nat>, len: seq<nat>, idx: seq<nat>, i: nat)
    requires Reached(jited, ksym, len, idx, i) && i < |jited| && |idx| < |ksym|
    requires jited[i] != ksym[|idx|] && jited[i - 1] < jited[i]
    ensures Reached(jited, ksym, len, idx, i + 1)
  {
  }

  lemma NextFunction(jited: seq<nat>, ksym: seq<nat>, len: seq<nat>, idx: seq<nat>, i: nat)
    requires Reached(jited, ksym, len, idx, i) && i < |jited| && |idx| < |ksym|
    requires jited[i] == ksym[|idx|] && LengthOk(ksym[|idx| - 1], jited[i - 1], len[|idx| - 1])
    ensures Reached(jited, ksym, len, idx + [i], i + 1)
  {
    var idx' := idx + [i];
    forall f | 0 < f < |idx'| ensures FunctionAt(jited, ksym, len, idx', f) {
      if f < |idx| {
        assert FunctionAt(jited, ksym, len, idx, f);
      }
    }
  }

  lemma ReachedIsSplit(jited: seq<nat>, ksym: seq<nat>, len: seq<nat>, idx: seq<nat>, i: nat)
    requires Reached(jited, ksym, len, idx, i)
    ensures Split(jited, ksym, len, idx) && idx[|idx| - 1] < i <= |jited|
  {
  }

  /** In any split the next function starts no earlier than the pass has come. */
  lemma NextStart(jited: seq<nat>, ksym: seq<nat>, len: seq<nat>, idx: seq<nat>, i: nat, all: seq<nat>)
    requires Reached(jited, ksym, len, idx, i) && |idx| < |ksym|
    ensures SplitAll(jited, ksym, len, all) ==>
              |idx| < |all| && FunctionAt(jited, ksym, len, all, |idx|) && i <= all[|idx|] && all[|idx| - 1] == idx[|idx| - 1]
  {
    if SplitAll(jited, ksym, len, all) {
      var f := |idx|;
      SplitsAgree(jited, ksym, len, idx, all, f - 1);
      assert FunctionAt(jited, ksym, len, all, f);
    }
  }

  /** Where the pass gives up, no split exists. */
  lemma NoSplit(jited: seq<nat>, ksym: seq<nat>, len: seq<nat>, idx: seq<nat>, i: nat, all: seq<nat>)
    requires Reached(jited, ksym, len, idx, i) && |idx| < |ksym|
    requires i == |jited|
             || (jited[i] == ksym[|idx|] && !LengthOk(ksym[|idx| - 1], jited[i - 1], len[|idx| - 1]))
             || (jited[i] != ksym[|idx|] && jited[i] <= jited[i - 1])
    ensures !SplitAll(jited, ksym, len, all)
  {
    NextStart(jited, ksym, len, idx, i, all);
  }

  lemma CannotSplit(jited: seq<nat>, ksym: seq<nat>, len: seq<nat>, idx: seq<nat>, i: nat)
    requires Reached(jited, ksym, len, idx, i) && |idx| < |ksym|
    requires i == |jited|
             || (jited[i] == ksym[|idx|] && !LengthOk(ksym[|idx| - 1], jited[i - 1], len[|idx| - 1]))
             || (jited[i] != ksym[|idx|] && jited[i] <= jited[i - 1])
    ensures !exists all :: SplitAll(jited, ksym, len, all)
  {
    forall all ensures !SplitAll(jited, ksym, len, all) {
      NoSplit(jited, ksym, len, idx, i, all);
    }
  }

  // ----- Looking up -----

  /** In `a[lo..hi]` the records up to `r` are at or below `x`, and the next one is above it. */
  predicate LastBelow(a: seq<nat>, lo: nat, hi: nat, x: nat, r: nat) {
    && lo <= r < hi <= |a| && (forall k :: lo <= k <= r ==> a[k] <= x) && (r + 1 < hi ==> x < a[r + 1])
  }

  /** In an increasing table that is the nearest record at or below `x`. */
  lemma LastBelowIsFloor(a: seq<nat>, lo: nat, hi: nat, x: nat, r: nat)
    requires LastBelow(a, lo, hi, x, r) && Increasing(a, lo, hi)
    ensures forall k :: lo <= k < hi ==> (a[k] <= x <==> k <= r)
    ensures forall k :: lo <= k < hi && a[k] <= x ==> a[k] <= a[r]
  {
    forall k | lo <= k < hi ensures (a[k] <= x <==> k <= r) && (k <= r ==> a[k] <= a[r]) {
      if r + 1 < k {
        IncreasingOrders(a, lo, hi, r + 1, k);
      } else if k < r {
        IncreasingOrders(a, lo, hi, k, r);
      }
    }
  }

  /** What the kernel reports about a program. */
  datatype Info = Info(linfo: seq<nat>, linfoRecSize: nat, jited: seq<nat>, jitedRecSize: nat,
                       ksyms: seq<nat>, funcLens: seq<nat>)

  class ProgLinfo {
    const linfo: seq<nat>
    const jited: seq<nat>
    const nrJitedFunc: nat
    const funcIdx: array<nat>
    const nrPerFunc: array<nat>
    ghost const ksyms: seq<nat>
    ghost const funcLens: seq<nat>

    /** Either no addresses are known, or they are split into functions. */
    ghost predicate Valid()
      reads funcIdx, nrPerFunc
    {
      && funcIdx.Length == nrPerFunc.Length == nrJitedFunc && |linfo| > 0
      && (nrJitedFunc > 0 ==>
            && |jited| == |linfo| && |ksyms| == nrJitedFunc && SplitAll(jited, ksyms, funcLens, funcIdx[..])
            && forall f :: 0 <= f < nrJitedFunc ==> funcIdx[f] + nrPerFunc[f] == End(funcIdx[..], |jited|, f) <= |jited|)
    }

    constructor (linfo: seq<nat>, jited: seq<nat>, nrJitedFunc: nat, ghost ksyms: seq<nat>, ghost funcLens: seq<nat>)
      ensures this.linfo == linfo && this.jited == jited && this.nrJitedFunc == nrJitedFunc
      ensures this.ksyms == ksyms && this.funcLens == funcLens
      ensures funcIdx.Length == nrPerFunc.Length == nrJitedFunc && funcIdx != nrPerFunc && fresh(funcIdx) && fresh(nrPerFunc)
    {
      this.linfo, this.jited, this.nrJitedFunc := linfo, jited, nrJitedFunc;
      this.ksyms, this.funcLens := ksyms, funcLens;
      funcIdx := new nat[nrJitedFunc](_ => 0);
      nrPerFunc := new nat[nrJitedFunc](_ => 0);
    }

    /** Splits the address table; fails exactly if it cannot be split. */
    method DissectJitedFunc(ksymFunc: seq<nat>, ksymLen: seq<nat>) returns (r: int)
      requires 0 < nrJitedFunc == |ksymFunc| == |ksymLen| == funcIdx.Length == nrPerFunc.Length && funcIdx != nrPerFunc
      requires 0 < |jited| == |linfo|
      modifies funcIdx, nrPerFunc
      ensures r == 0 || r == -EINVAL
      ensures r == 0 <==> exists idx :: SplitAll(jited, ksymFunc, ksymLen, idx)
      ensures r == 0 ==> SplitAll(jited, ksymFunc, ksymLen, funcIdx[..])
      ensures r == 0 ==> CountsFit(funcIdx[..], nrPerFunc[..], |jited|)
    {
      if ksymFunc[0] != jited[0] {
        return -EINVAL;
      }
      hide Reached, Split, LengthOk, Counted, CountsFit;
      StartReached(jited, ksymFunc, ksymLen);
      FirstSet(funcIdx[..]);
      funcIdx[0] := 0;
      CountNone(funcIdx[..], nrPerFunc[..]);
      var nrLinfo := |linfo|;
      var prevI: nat, i: nat, f: nat := 0, 1, 1;
      while i < nrLinfo && f < nrJitedFunc
        invariant 1 <= f <= nrJitedFunc && f <= i <= nrLinfo && prevI == funcIdx[f - 1] && prevI < i
        invariant Reached(jited, ksymFunc, ksymLen, funcIdx[..][..f], i)
        invariant Counted(funcIdx[..], nrPerFunc[..], f - 1)
      {
        if ksymFunc[f] == jited[i] {
          r := StartFunction(ksymFunc, ksymLen, f, i, prevI);
          if r != 0 {
            return;
          }
          prevI := i;
          f := f + 1;
        } else if jited[i] <= jited[i - 1] {
          CannotSplit(jited, ksymFunc, ksymLen, funcIdx[..][..f], i);
          return -EINVAL;
        } else {
          NextRecord(jited, ksymFunc, ksymLen, funcIdx[..][..f], i);
        }
        i := i + 1;
      }
      if f != nrJitedFunc {
        CannotSplit(jited, ksymFunc, ksymLen, funcIdx[..][..f], i);
        return -EINVAL;
      }
      EndFunction(ksymFunc, ksymLen, i, prevI);
      r := 0;
    }

    /** Record `i` starts function `f`: the one before it ends there, if its length allows. */
    method StartFunction(ksymFunc: seq<nat>, ksymLen: seq<nat>, f: nat, i: nat, prevI: nat) returns (r: int)
      requires nrJitedFunc == |ksymFunc| == |ksymLen| == funcIdx.Length == nrPerFunc.Length && funcIdx != nrPerFunc
      requires 1 <= f < nrJitedFunc && f <= i < |jited| == |linfo| && ksymFunc[f] == jited[i] && prevI == funcIdx[f - 1] < i
      requires Reached(jited, ksymFunc, ksymLen, funcIdx[..][..f], i) && Counted(funcIdx[..], nrPerFunc[..], f - 1)
      modifies funcIdx, nrPerFunc
      ensures r == 0 || (r == -EINVAL && !exists idx :: SplitAll(jited, ksymFunc, ksymLen, idx))
      ensures r == 0 ==> Reached(jited, ksymFunc, ksymLen, funcIdx[..][..f + 1], i + 1) && funcIdx[f] == i
      ensures r == 0 ==> Counted(funcIdx[..], nrPerFunc[..], f)
    {
      hide Reached, Split, LengthOk, Counted;
      ghost var all, counts := funcIdx[..], nrPerFunc[..];
      funcIdx[f] := i;
      if !LengthOk(ksymFunc[f - 1], jited[i - 1], ksymLen[f - 1]) {
        CannotSplit(jited, ksymFunc, ksymLen, all[..f], i);
        return -EINVAL;
      }
      var count: nat := i - prevI;
      nrPerFunc[f - 1] := count;
      NextFunction(jited, ksymFunc, ksymLen, all[..f], i);
      CountNext(all, counts, f, i);
      NextSet(all, f, i);
      assert funcIdx[..] == all[f := i] && nrPerFunc[..] == counts[f - 1 := count];
      r := 0;
    }

    /** The last function ends with the table. */
    method EndFunction(ksymFunc: seq<nat>, ksymLen: seq<nat>, i: nat, prevI: nat)
      requires 0 < nrJitedFunc == |ksymFunc| == |ksymLen| == funcIdx.Length == nrPerFunc.Length && funcIdx != nrPerFunc
      requires nrJitedFunc <= i <= |jited| == |linfo| && prevI == funcIdx[nrJitedFunc - 1] < i
      requires Reached(jited, ksymFunc, ksymLen, funcIdx[..][..nrJitedFunc], i) && Counted(funcIdx[..], nrPerFunc[..], nrJitedFunc - 1)
      modifies nrPerFunc
      ensures SplitAll(jited, ksymFunc, ksymLen, funcIdx[..]) && CountsFit(funcIdx[..], nrPerFunc[..], |jited|)
    {
      hide Reached, Split, LengthOk, Counted, CountsFit;
      ghost var idx, counts := funcIdx[..], nrPerFunc[..];
      assert idx[..nrJitedFunc] == idx;
      ReachedIsSplit(jited, ksymFunc, ksymLen, idx, i);
      EndsWithin(jited, ksymFunc, ksymLen, idx);
      CountLast(idx, counts, |jited|);
      var count: nat := |linfo| - prevI;
      nrPerFunc[nrJitedFunc - 1] := count;
      assert funcIdx[..] == idx && nrPerFunc[..] == counts[nrJitedFunc - 1 := count];
    }

    /** The record for an address in a function, not looking at its first `nrSkip` records. */
    method LfindAddrFunc(addr: nat, funcIndex: nat, nrSkip: nat) returns (res: Option<nat>)
      requires Valid()
      ensures res.None? <==> funcIndex >= nrJitedFunc || nrSkip >= nrPerFunc[funcIndex] || addr < jited[funcIdx[funcIndex] + nrSkip]
      ensures res.Some? ==> LastBelow(jited, funcIdx[funcIndex] + nrSkip, funcIdx[funcIndex] + nrPerFunc[funcIndex], addr, res.value)
    {
      if funcIndex >= nrJitedFunc {
        return None;
      }
      var nrLinfo := nrPerFunc[funcIndex];
      if nrSkip >= nrLinfo {
        return None;
      }
      var start := funcIdx[funcIndex] + nrSkip;
      if addr < jited[start] {
        return None;
      }
      nrLinfo := nrLinfo - nrSkip;
      var i := 0;
      while i < nrLinfo
        invariant 0 <= i <= nrLinfo
        invariant forall k :: start <= k < start + i ==> jited[k] <= addr
      {
        if addr < jited[start + i] {
          break;
        }
        i := i + 1;
      }
      assert i > 0;
      res := Some(start + i - 1);
    }

    /** The record for an instruction offset, not looking at the first `nrSkip` records. */
    method Lfind(insnOff: nat, nrSkip: nat) returns (res: Option<nat>)
      requires Valid()
      ensures res.None? <==> nrSkip >= |linfo| || insnOff < linfo[nrSkip]
      ensures res.Some? ==> LastBelow(linfo, nrSkip, |linfo|, insnOff, res.value)
    {
      if nrSkip >= |linfo| || insnOff < linfo[nrSkip] {
        return None;
      }
      var nrLinfo, i := |linfo| - nrSkip, 0;
      while i < nrLinfo
        invariant 0 <= i <= nrLinfo
        invariant forall k :: nrSkip <= k < nrSkip + i ==> linfo[k] <= insnOff
      {
        if insnOff < linfo[nrSkip + i] {
          break;
        }
        i := i + 1;
      }
      res := Some(nrSkip + i - 1);
    }
  }

  /** The index of a program: none if there is no line information or the addresses make no sense;
      without addresses if the kernel gave too little. */
  method New(info: Info) returns (p: ProgLinfo?)
    ensures p == null <==> info.linfo == [] || info.linfoRecSize < 4
                           || (Addressed(info) && !exists idx :: SplitAll(info.jited, info.ksyms, info.funcLens, idx))
    ensures p != null ==> p.Valid() && fresh(p) && p.linfo == info.linfo
    ensures p != null ==> if Addressed(info) then p.jited == info.jited && p.ksyms == info.ksyms && p.funcLens == info.funcLens
                          else p.nrJitedFunc == 0
  {
    if info.linfo == [] || info.linfoRecSize < 4 {
      return null;
    }
    if !Addressed(info) {
      p := new ProgLinfo(info.linfo, [], 0, [], []);
      return;
    }
    var q := new ProgLinfo(info.linfo, info.jited, |info.ksyms|, info.ksyms, info.funcLens);
    var r := q.DissectJitedFunc(info.ksyms, info.funcLens);
    p := if r == 0 then q else null;
  }

  /** Enough information for addresses. */
  predicate Addressed(info: Info) {
    info.ksyms != [] && |info.jited| == |info.linfo| && info.jitedRecSize >= 8 && |info.funcLens| == |info.ksyms|
  }
}

/** Bucket choice by the upper bits of a multiplied hash, and the multimap that the chains of a
    growing table hold, on the entries alone. */
module HashBuckets {
  datatype Entry = Entry(key: int, value: int)

  // ----- Choosing a bucket -----

  const WORD: nat := 0x1_0000_0000_0000_0000
  const GOLDEN: nat := 11400714819323198485
  const MIN_CAP_BITS: nat := 2

  function Pow2(n: nat): (p: nat)
    ensures p > 0
  {
    if n == 0 then 1 else 2 * Pow2(n - 1)
  }

  lemma {:induction false} Pow2Splits(a: nat, b: nat)
    ensures Pow2(a + b) == Pow2(a) * Pow2(b)
  {
    if a > 0 {
      Pow2Splits(a - 1, b);
    }
  }

  lemma Pow2Word()
    ensures Pow2(64) == WORD
  {
    assert Pow2(8) == 0x100;
    Pow2Splits(8, 8);
    Pow2Splits(16, 16);
    Pow2Splits(32, 32);
  }

  function Mix(h: nat): nat { h * GOLDEN % WORD }

  lemma MixBelow(h: nat)
    ensures Mix(h) < WORD
  {
  }

  function Shifted(x: nat, m: nat): nat
    requires m > 0
  {
    x / m
  }

  /** The upper `bits` bits of the hash times an odd constant, in 64-bit arithmetic. */
  function HashBits(h: nat, bits: nat): nat
    requires bits <= 64
  {
    if bits == 0 then 0 else Shifted(Mix(h), Pow2(64 - bits))
  }

  lemma MulOrder(m: nat, a: nat, b: nat)
    ensures a >= b ==> m * a >= m * b
  {
    if a >= b {
      assert m * a == m * b + m * (a - b);
    }
  }

  lemma DivBelow(x: nat, m: nat, n: nat)
    requires m > 0 && x < m * n
    ensures x / m < n
  {
    MulOrder(m, x / m, n);
  }

  /** A bucket of a table of 2^bits buckets. */
  lemma HashBitsBelow(h: nat, bits: nat)
    requires bits <= 64
    ensures HashBits(h, bits) < Pow2(bits)
  {
    hide Mix;
    MixBelow(h);
    if bits > 0 {
      Pow2Word();
      Pow2Splits(64 - bits, bits);
      DivBelow(Mix(h), Pow2(64 - bits), Pow2(bits));
    }
  }

  lemma HalfOfHalf(x: nat, m: nat)
    requires m > 0
    ensures x / m / 2 == x / (2 * m)
  {
    var q, r := x / m, x % m;
    assert x == m * q + r;
    var q2, r2 := q / 2, q % 2;
    assert x == 2 * m * q2 + (m * r2 + r) by {
      assert m * q == m * (2 * q2 + r2) == 2 * m * q2 + m * r2;
    }
    assert 0 <= m * r2 + r < 2 * m;
    Quotient(x, 2 * m, q2, m * r2 + r);
  }

  lemma Quotient(x: nat, m: nat, q: nat, r: nat)
    requires m > 0 && x == m * q + r && r < m
    ensures x / m == q
  {
    var q' := x / m;
    assert m * q' <= x < m * q' + m;
    MulOrder(m, q, q' + 1);
    MulOrder(m, q', q + 1);
  }

  /** One more bit splits bucket b into buckets 2b and 2b + 1. */
  lemma GrowthSplits(h: nat, bits: nat)
    requires 0 < bits < 64
    ensures HashBits(h, bits + 1) / 2 == HashBits(h, bits)
    ensures HashBits(h, bits + 1) == 2 * HashBits(h, bits) || HashBits(h, bits + 1) == 2 * HashBits(h, bits) + 1
  {
    HalfOfHalf(Mix(h), Pow2(64 - bits - 1));
  }

  // ----- Chains -----

  /** All entries, bucket after bucket. */
  function Flat(bs: seq<seq<Entry>>): seq<Entry> {
    if bs == [] then [] else Flat(bs[..|bs| - 1]) + bs[|bs| - 1]
  }

  lemma AddBoth(a: multiset<Entry>, b: multiset<Entry>, c: multiset<Entry>, d: multiset<Entry>, x: multiset<Entry>)
    requires a + b == c + d
    ensures (a + x) + b == (c + x) + d
  {
    assert (a + x) + b == (a + b) + x;
  }

  /** Replacing a chain exchanges its entries. */
  lemma {:induction false} FlatUpdate(bs: seq<seq<Entry>>, b: nat, c: seq<Entry>)
    requires b < |bs|
    ensures multiset(Flat(bs[b := c])) + multiset(bs[b]) == multiset(Flat(bs)) + multiset(c)
    ensures |Flat(bs[b := c])| + |bs[b]| == |Flat(bs)| + |c|
  {
    var k := |bs| - 1;
    var bs' := bs[b := c];
    if b < k {
      assert bs'[..k] == bs[..k][b := c];
      FlatUpdate(bs[..k], b, c);
      assert Flat(bs') == Flat(bs[..k][b := c]) + bs[k];
      AddBoth(multiset(Flat(bs[..k][b := c])), multiset(bs[b]), multiset(Flat(bs[..k])), multiset(c), multiset(bs[k]));
    } else {
      assert bs'[..k] == bs[..k];
      assert Flat(bs') == Flat(bs[..k]) + c;
    }
  }

  lemma {:induction false} InFlat(bs: seq<seq<Entry>>, e: Entry)
    ensures e in Flat(bs) <==> exists b :: 0 <= b < |bs| && e in bs[b]
  {
    if bs != [] {
      var k := |bs| - 1;
      InFlat(bs[..k], e);
      if b :| 0 <= b < |bs| && e in bs[b] {
        if b < k {
          assert e in bs[..k][b];
        }
      }
      if e in Flat(bs[..k]) {
        var b :| 0 <= b < k && e in bs[..k][b];
        assert e in bs[b];
      }
    }
  }

  lemma OneMore(c: seq<Entry>, i: nat)
    requires i < |c|
    ensures multiset(c[..i + 1]) == multiset(c[..i]) + multiset{c[i]}
  {
    assert c[..i + 1] == c[..i] + [c[i]];
  }

  lemma FlatNext(bs: seq<seq<Entry>>, b: nat)
    requires b < |bs|
    ensures multiset(Flat(bs[..b + 1])) == multiset(Flat(bs[..b])) + multiset(bs[b])
    ensures |Flat(bs[..b + 1])| == |Flat(bs[..b])| + |bs[b]|
  {
    assert bs[..b + 1][..b] == bs[..b];
  }

  ghost predicate SameEntries(ds: seq<seq<Entry>>, es: seq<seq<Entry>>) {
    multiset(Flat(ds)) == multiset(Flat(es)) && |Flat(ds)| == |Flat(es)|
  }

  /** `ds` holds the entries of `c` in addition to those of `es`. */
  ghost predicate Gained(ds: seq<seq<Entry>>, es: seq<seq<Entry>>, c: seq<Entry>) {
    multiset(Flat(ds)) == multiset(Flat(es)) + multiset(c) && |Flat(ds)| == |Flat(es)| + |c|
  }

  lemma GainedNext(ds: seq<seq<Entry>>, es: seq<seq<Entry>>, bs: seq<seq<Entry>>, b: nat)
    requires b < |bs| && SameEntries(es, bs[..b]) && Gained(ds, es, bs[b])
    ensures SameEntries(ds, bs[..b + 1])
  {
    FlatNext(bs, b);
  }

  lemma {:induction false} FlatEmpty(bs: seq<seq<Entry>>)
    requires forall b :: 0 <= b < |bs| ==> bs[b] == []
    ensures Flat(bs) == []
  {
    if bs != [] {
      FlatEmpty(bs[..|bs| - 1]);
    }
  }

  /** The keys in bucket `b` hash there. */
  ghost predicate Placed(hash: int -> nat, c: seq<Entry>, b: nat, bits: nat)
    requires bits <= 64
  {
    forall i :: 0 <= i < |c| ==> HashBits(hash(c[i].key), bits) == b
  }

  /** The entries of a chain that go to bucket `h`, in the order growth leaves them. */
  function Moved(hash: int -> nat, c: seq<Entry>, h: nat, bits: nat): seq<Entry>
    requires bits <= 64
  {
    if c == [] then []
    else
      var e, rest := c[|c| - 1], Moved(hash, c[..|c| - 1], h, bits);
      if HashBits(hash(e.key), bits) == h then [e] + rest else rest
  }

  /** Keys are compared by an equivalence that the hash respects. */
  ghost predicate Agree(hash: int -> nat, equal: (int, int) -> bool) {
    && (forall a :: equal(a, a))
    && (forall a, b :: equal(a, b) ==> equal(b, a) && hash(a) == hash(b))
    && (forall a, b, c :: equal(a, b) && equal(b, c) ==> equal(a, c))
  }

  /** A map rather than a multimap. */
  ghost predicate Unique(equal: (int, int) -> bool, m: multiset<Entry>) {
    forall e, f :: e in m && f in m && equal(e.key, f.key) ==> e == f && m[e] == 1
  }

  /** Some entry has this key. */
  ghost predicate Has(equal: (int, int) -> bool, m: multiset<Entry>, key: int) {
    exists e :: e in m && equal(e.key, key)
  }

  const EEXIST: int := 17
  const ENOENT: int := 2

  datatype Strategy = ADD | SET | UPDATE | APPEND

  /** What an insertion does to the multimap, and what it answers: an entry found under the key is
      returned and, unless only new keys are wanted, replaced; any such entry may be the one. */
  ghost predicate Inserted(equal: (int, int) -> bool, m: multiset<Entry>, m': multiset<Entry>,
                           key: int, value: int, strategy: Strategy, err: int, oldKey: int, oldValue: int)
  {
    var e, was := Entry(key, value), Entry(oldKey, oldValue);
    if strategy != APPEND && Has(equal, m, key) then
      && was in m && equal(oldKey, key)
      && (if strategy == ADD then err == -EEXIST && m' == m else err == 0 && m' == m - multiset{was} + multiset{e})
    else
      && oldKey == oldValue == 0
      && (if strategy == UPDATE then err == -ENOENT && m' == m else err == 0 && m' == m + multiset{e})
  }

  ghost predicate Deleted(equal: (int, int) -> bool, m: multiset<Entry>, m': multiset<Entry>,
                          key: int, found: bool, oldKey: int, oldValue: int)
  {
    && found == Has(equal, m, key)
    && (if found then
          Entry(oldKey, oldValue) in m && equal(oldKey, key) && m' == m - multiset{Entry(oldKey, oldValue)}
        else m' == m && oldKey == oldValue == 0)
  }

  /** Without APPEND the table stays a map: it then holds under the key what was inserted, and
      under the other keys what it held. */
  lemma InsertKeepsMap(hash: int -> nat, equal: (int, int) -> bool, m: multiset<Entry>, m': multiset<Entry>,
                       key: int, value: int, strategy: Strategy, err: int, oldKey: int, oldValue: int)
    requires Agree(hash, equal) && Unique(equal, m) && strategy != APPEND
    requires Inserted(equal, m, m', key, value, strategy, err, oldKey, oldValue)
    ensures Unique(equal, m')
    ensures err == if strategy == ADD && Has(equal, m, key) then -17 else if strategy == UPDATE && !Has(equal, m, key) then -2 else 0
    ensures forall e: Entry :: equal(e.key, key) ==> (e in m' <==> if err == 0 then e == Entry(key, value) else e in m)
    ensures forall e: Entry :: !equal(e.key, key) ==> m'[e] == m[e]
  {
    var was, now := Entry(oldKey, oldValue), Entry(key, value);
    if err == 0 && Has(equal, m, key) {
      ReplaceKeepsUnique(hash, equal, m, was, now);
      forall e: Entry | equal(e.key, key) && e in m' ensures e == now {
        if e in m - multiset{was} {
          KeyLeaves(hash, equal, m, was, now, e);
        }
      }
    } else if err == 0 {
      AddKeepsUnique(hash, equal, m, now);
    }
    assert equal(key, key);
  }

  /** A deletion from a map removes the key. */
  lemma DeleteKeepsMap(hash: int -> nat, equal: (int, int) -> bool, m: multiset<Entry>, m': multiset<Entry>,
                       key: int, found: bool, oldKey: int, oldValue: int)
    requires Agree(hash, equal) && Unique(equal, m) && Deleted(equal, m, m', key, found, oldKey, oldValue)
    ensures Unique(equal, m') && !Has(equal, m', key)
    ensures forall e: Entry :: !equal(e.key, key) ==> m'[e] == m[e]
  {
    if found {
      DeleteKeepsUnique(equal, m, Entry(oldKey, oldValue));
      forall e | e in m' ensures !equal(e.key, key) {
        KeyLeaves(hash, equal, m, Entry(oldKey, oldValue), Entry(key, 0), e);
      }
    }
  }

  lemma AddKeepsUnique(hash: int -> nat, equal: (int, int) -> bool, m: multiset<Entry>, e: Entry)
    requires Agree(hash, equal) && Unique(equal, m) && !Has(equal, m, e.key)
    ensures Unique(equal, m + multiset{e})
  {
  }

  lemma ReplaceKeepsUnique(hash: int -> nat, equal: (int, int) -> bool, m: multiset<Entry>, was: Entry, e: Entry)
    requires Agree(hash, equal) && Unique(equal, m) && was in m && equal(was.key, e.key)
    ensures Unique(equal, m - multiset{was} + multiset{e})
  {
    var rest := m - multiset{was};
    var m' := rest + multiset{e};
    forall x | x in rest ensures !equal(x.key, e.key) && !equal(e.key, x.key) {
      KeyLeaves(hash, equal, m, was, e, x);
    }
    forall x, y | x in m' && y in m' && equal(x.key, y.key) ensures x == y && m'[x] == 1 {
      assert equal(e.key, e.key);
      assert x in rest ==> x in m;
      assert y in rest ==> y in m;
    }
  }

  /** With one entry taken out of a map its key is gone. */
  lemma KeyLeaves(hash: int -> nat, equal: (int, int) -> bool, m: multiset<Entry>, was: Entry, e: Entry, x: Entry)
    requires Agree(hash, equal) && Unique(equal, m) && was in m && equal(was.key, e.key) && x in m - multiset{was}
    ensures !equal(x.key, e.key) && !equal(e.key, x.key)
  {
    assert equal(x.key, e.key) ==> equal(x.key, was.key);
    assert equal(e.key, x.key) ==> equal(x.key, was.key);
    assert equal(x.key, was.key) ==> x == was && m[was] == 1;
  }

  // ----- Growth, bucket by bucket -----

  /** The new chains when old bucket `b` has been moved up to its i-th entry. */
  ghost predicate GrownTo(hash: int -> nat, was: seq<seq<Entry>>, now: seq<seq<Entry>>, bits: nat, b: nat, i: nat)
    requires bits <= 64
  {
    && b <= |was| && (b < |was| ==> i <= |was[b]|) && (b == |was| ==> i == 0)
    && (forall h {:trigger GrownBucket(hash, was, now, bits, b, i, h)} :: 0 <= h < |now| ==> GrownBucket(hash, was, now, bits, b, i, h))
  }

  ghost predicate GrownBucket(hash: int -> nat, was: seq<seq<Entry>>, now: seq<seq<Entry>>, bits: nat, b: nat, i: nat, h: nat)
    requires bits <= 64 && h < |now| && b <= |was| && (b < |was| ==> i <= |was[b]|)
  {
    now[h] == if h / 2 < b then Moved(hash, was[h / 2], h, bits)
              else if h / 2 == b < |was| then Moved(hash, was[b][..i], h, bits)
              else []
  }

  lemma MoveOne(hash: int -> nat, was: seq<seq<Entry>>, now: seq<seq<Entry>>, bits: nat, b: nat, i: nat)
    requires 1 < bits <= 64 && GrownTo(hash, was, now, bits, b, i) && b < |was| && i < |was[b]|
    requires Placed(hash, was[b], b, bits - 1) && |now| == Pow2(bits)
    ensures var e := was[b][i];
            var h := HashBits(hash(e.key), bits);
            h < |now| && GrownTo(hash, was, now[h := [e] + now[h]], bits, b, i + 1)
  {
    var e := was[b][i];
    var h := HashBits(hash(e.key), bits);
    HashBitsBelow(hash(e.key), bits);
    GrowthSplits(hash(e.key), bits - 1);
    var now' := now[h := [e] + now[h]];
    var next := i + 1;
    forall g {:trigger GrownBucket(hash, was, now', bits, b, next, g)} | 0 <= g < |now'|
      ensures GrownBucket(hash, was, now', bits, b, next, g)
    {
      assert GrownBucket(hash, was, now, bits, b, i, g);
      assert was[b][..i + 1][..i] == was[b][..i];
    }
  }

  lemma NextBucket(hash: int -> nat, was: seq<seq<Entry>>, now: seq<seq<Entry>>, bits: nat, b: nat)
    requires bits <= 64 && b < |was| && GrownTo(hash, was, now, bits, b, |was[b]|)
    ensures GrownTo(hash, was, now, bits, b + 1, 0)
  {
    var next := b + 1;
    forall h {:trigger GrownBucket(hash, was, now, bits, next, 0, h)} | 0 <= h < |now|
      ensures GrownBucket(hash, was, now, bits, next, 0, h)
    {
      assert GrownBucket(hash, was, now, bits, b, |was[b]|, h);
      assert was[b][..|was[b]|] == was[b];
      if h / 2 == b + 1 < |was| {
        assert was[b + 1][..0] == [];
      }
    }
  }

  lemma StartGrowth(hash: int -> nat, was: seq<seq<Entry>>, now: seq<seq<Entry>>, bits: nat)
    requires bits <= 64 && forall h :: 0 <= h < |now| ==> now[h] == []
    ensures GrownTo(hash, was, now, bits, 0, 0)
  {
    forall h | 0 <= h < |now| ensures GrownBucket(hash, was, now, bits, 0, 0, h) {
      assert |was| > 0 ==> was[0][..0] == [];
    }
  }

  lemma GrownIsPlaced(hash: int -> nat, was: seq<seq<Entry>>, now: seq<seq<Entry>>, bits: nat, h: nat)
    requires bits <= 64 && GrownTo(hash, was, now, bits, |was|, 0) && h < |now|
    ensures Placed(hash, now[h], h, bits)
  {
    assert GrownBucket(hash, was, now, bits, |was|, 0, h);
    if h / 2 < |was| {
      MovedPlaced(hash, was[h / 2], h, bits);
    }
  }

  lemma GrownIs(hash: int -> nat, was: seq<seq<Entry>>, now: seq<seq<Entry>>, bits: nat, h: nat)
    requires bits <= 64 && GrownTo(hash, was, now, bits, |was|, 0) && h < |now| && (|was| > 0 ==> |now| == 2 * |was|)
    ensures now[h] == if |was| == 0 then [] else Moved(hash, was[h / 2], h, bits)
  {
    assert GrownBucket(hash, was, now, bits, |was|, 0, h);
  }

  /** A new entry at the head of a chain. */
  lemma FlatPush(bs: seq<seq<Entry>>, b: nat, e: Entry)
    requires b < |bs|
    ensures multiset(Flat(bs[b := [e] + bs[b]])) == multiset(Flat(bs)) + multiset{e}
    ensures |Flat(bs[b := [e] + bs[b]])| == |Flat(bs)| + 1
  {
    FlatUpdate(bs, b, [e] + bs[b]);
    var a, c, m := multiset(Flat(bs[b := [e] + bs[b]])), multiset(Flat(bs)) + multiset{e}, multiset(bs[b]);
    assert a + m == c + m;
    assert a == (a + m) - m && c == (c + m) - m;
  }

  lemma {:induction false} MovedPlaced(hash: int -> nat, c: seq<Entry>, h: nat, bits: nat)
    requires bits <= 64
    ensures Placed(hash, Moved(hash, c, h, bits), h, bits)
  {
    if c != [] {
      MovedPlaced(hash, c[..|c| - 1], h, bits);
    }
  }

  // ----- The map -----

  /** More entries than fit into memory. */
  const TOO_MANY: nat := 0x0800_0000_0000_0000

  lemma {:induction false} Pow2Order(a: nat, b: nat)
    requires Pow2(a) < Pow2(b)
    ensures a < b
    decreases b
  {
    if b > 0 && a > 0 {
      Pow2Order(a - 1, b - 1);
    }
  }

  /** All copies of an entry are in its bucket. */
  lemma {:induction false} OnlyThere(hash: int -> nat, bs: seq<seq<Entry>>, bits: nat, e: Entry)
    requires bits <= 64 && forall b :: 0 <= b < |bs| ==> Placed(hash, bs[b], b, bits)
    ensures var h := HashBits(hash(e.key), bits);
            multiset(Flat(bs))[e] == if h < |bs| then multiset(bs[h])[e] else 0
  {
    var h := HashBits(hash(e.key), bits);
    if bs != [] {
      var k := |bs| - 1;
      OnlyThere(hash, bs[..k], bits, e);
      assert Placed(hash, bs[k], k, bits);
      assert forall j :: 0 <= j < |bs[k]| && bs[k][j] == e ==> h == k;
    }
  }

  lemma {:induction false} ChainWithin(bs: seq<seq<Entry>>, b: nat)
    requires b < |bs|
    ensures multiset(bs[b]) <= multiset(Flat(bs))
  {
    if b < |bs| - 1 {
      ChainWithin(bs[..|bs| - 1], b);
    }
  }

  lemma ReplaceInSeq(c: seq<Entry>, i: nat, e: Entry)
    requires i < |c|
    ensures multiset(c[i := e]) == multiset(c) - multiset{c[i]} + multiset{e}
  {
  }

  /** The entries of a chain with this key. */
  function Matching(equal: (int, int) -> bool, c: seq<Entry>, key: int): seq<Entry> {
    if c == [] then []
    else Matching(equal, c[..|c| - 1], key) + if equal(c[|c| - 1].key, key) then [c[|c| - 1]] else []
  }

  lemma {:induction false} MatchingCounts(equal: (int, int) -> bool, c: seq<Entry>, key: int, e: Entry)
    ensures multiset(Matching(equal, c, key))[e] == if equal(e.key, key) then multiset(c)[e] else 0
  {
    if c != [] {
      MatchingCounts(equal, c[..|c| - 1], key, e);
      assert c == c[..|c| - 1] + [c[|c| - 1]];
    }
  }

  lemma SwapOne(now: multiset<Entry>, before: multiset<Entry>, c: multiset<Entry>, was: Entry, e: Entry)
    requires was in c && c <= before && now + c == before + (c - multiset{was} + multiset{e})
    ensures now == before - multiset{was} + multiset{e}
  {
    assert now + c == (before - multiset{was} + multiset{e}) + c;
    assert now == (now + c) - c;
  }

  lemma PushOne(now: multiset<Entry>, before: multiset<Entry>, c: multiset<Entry>, e: Entry)
    requires now + c == before + (multiset{e} + c)
    ensures now == before + multiset{e}
  {
    assert now == (now + c) - c;
  }

  lemma RemoveInSeq(c: seq<Entry>, i: nat)
    requires i < |c|
    ensures multiset(c) == multiset(c[..i] + c[i + 1..]) + multiset{c[i]}
  {
    assert c == c[..i] + [c[i]] + c[i + 1..];
  }

  lemma RemovePlaced(hash: int -> nat, c: seq<Entry>, i: nat, b: nat, bits: nat)
    requires bits <= 64 && i < |c| && Placed(hash, c, b, bits)
    ensures Placed(hash, c[..i] + c[i + 1..], b, bits)
  {
  }

  lemma DeleteKeepsUnique(equal: (int, int) -> bool, m: multiset<Entry>, e: Entry)
    requires Unique(equal, m) && e in m
    ensures Unique(equal, m - multiset{e})
  {
  }

  lemma PopOne(now: multiset<Entry>, before: multiset<Entry>, c: multiset<Entry>, e: Entry)
    requires e in before && now + (c + multiset{e}) == before + c
    ensures now == before - multiset{e}
  {
    assert now == (now + (c + multiset{e})) - (c + multiset{e});
  }

  /** Short of the growth condition, and only then, one more entry leaves the table at most three quarters
      full: capacities are multiples of four. */
  lemma LoadFits(sz: nat, cap: nat, bits: nat)
    requires bits >= 2 && cap == Pow2(bits)
    ensures (sz + 1) * 4 / 3 <= cap <==> 4 * (sz + 1) <= 3 * cap
  {
    hide Pow2;
    FourTimes(bits);
    assert cap == 4 * Pow2(bits - 2);
    LoadArith(sz, Pow2(bits - 2));
  }

  lemma FourTimes(bits: nat)
    requires bits >= 2
    ensures Pow2(bits) == 4 * Pow2(bits - 2)
  {
  }

  lemma LoadArith(sz: nat, k: nat)
    ensures (sz + 1) * 4 / 3 <= 4 * k <==> sz + 1 <= 3 * k
  {
  }

  lemma RoomToGrow(sz: nat, cap: nat, bits: nat)
    requires sz < TOO_MANY && cap == Pow2(bits) && (sz + 1) * 4 / 3 > cap
    ensures bits < 63
  {
    Pow2Word();
    Pow2Splits(61, 3);
    assert Pow2(3) == 8;
    assert cap < Pow2(61);
    Pow2Order(bits, 61);
  }

  /** Size, load and placement of a table. */
  ghost predicate TableOk(hash: int -> nat, equal: (int, int) -> bool, data: seq<seq<Entry>>, cap: nat, bits: nat, sz: nat) {
    && Agree(hash, equal) && cap == |data| && sz == |Flat(data)|
    && (if cap == 0 then bits == 0 && sz == 0 else MIN_CAP_BITS <= bits < 64 && cap == Pow2(bits) && 4 * sz <= 3 * cap)
    && forall b :: 0 <= b < cap ==> Placed(hash, data[b], b, bits)
  }

  /** Exchanging one chain for another that belongs in the same bucket. */
  lemma ChainReplaced(hash: int -> nat, equal: (int, int) -> bool, data: seq<seq<Entry>>, cap: nat, bits: nat, sz: nat,
                      h: nat, c: seq<Entry>)
    requires TableOk(hash, equal, data, cap, bits, sz) && h < cap && Placed(hash, c, h, bits)
    requires sz + |c| >= |data[h]| && 4 * (sz + |c| - |data[h]|) <= 3 * cap
    ensures TableOk(hash, equal, data[h := c], cap, bits, sz + |c| - |data[h]|)
    ensures multiset(Flat(data[h := c])) + multiset(data[h]) == multiset(Flat(data)) + multiset(c)
  {
    hide Agree, Flat, Placed, Pow2;
    FlatUpdate(data, h, c);
  }

  lemma SameHash(hash: int -> nat, equal: (int, int) -> bool, a: int, b: int)
    requires Agree(hash, equal) && equal(a, b)
    ensures hash(a) == hash(b)
  {
  }

  lemma EntryReplaced(hash: int -> nat, equal: (int, int) -> bool, data: seq<seq<Entry>>, cap: nat, bits: nat, sz: nat,
                      h: nat, i: nat, e: Entry)
    requires TableOk(hash, equal, data, cap, bits, sz) && h < cap && i < |data[h]| && equal(data[h][i].key, e.key)
    ensures TableOk(hash, equal, data[h := data[h][i := e]], cap, bits, sz)
    ensures multiset(Flat(data[h := data[h][i := e]])) == multiset(Flat(data)) - multiset{data[h][i]} + multiset{e}
  {
    hide Agree, Flat, Pow2;
    var c := data[h];
    assert Placed(hash, c, h, bits);
    SameHash(hash, equal, c[i].key, e.key);
    ChainWithin(data, h);
    ChainReplaced(hash, equal, data, cap, bits, sz, h, c[i := e]);
    ReplaceInSeq(c, i, e);
    SwapOne(multiset(Flat(data[h := c[i := e]])), multiset(Flat(data)), multiset(c), c[i], e);
  }

  lemma EntryPushed(hash: int -> nat, equal: (int, int) -> bool, data: seq<seq<Entry>>, cap: nat, bits: nat, sz: nat,
                    h: nat, e: Entry)
    requires TableOk(hash, equal, data, cap, bits, sz) && h < cap && h == HashBits(hash(e.key), bits)
    requires 4 * (sz + 1) <= 3 * cap
    ensures TableOk(hash, equal, data[h := [e] + data[h]], cap, bits, sz + 1)
    ensures multiset(Flat(data[h := [e] + data[h]])) == multiset(Flat(data)) + multiset{e}
  {
    hide Agree, Flat, HashBits, Pow2;
    var c := data[h];
    assert Placed(hash, c, h, bits);
    ChainReplaced(hash, equal, data, cap, bits, sz, h, [e] + c);
    assert multiset([e] + c) == multiset{e} + multiset(c);
    PushOne(multiset(Flat(data[h := [e] + c])), multiset(Flat(data)), multiset(c), e);
  }

  lemma EntryRemoved(hash: int -> nat, equal: (int, int) -> bool, data: seq<seq<Entry>>, cap: nat, bits: nat, sz: nat,
                     h: nat, i: nat)
    requires TableOk(hash, equal, data, cap, bits, sz) && h < cap && i < |data[h]|
    ensures sz > 0 && data[h][i] in multiset(Flat(data))
    ensures TableOk(hash, equal, data[h := data[h][..i] + data[h][i + 1..]], cap, bits, sz - 1)
    ensures multiset(Flat(data[h := data[h][..i] + data[h][i + 1..]])) == multiset(Flat(data)) - multiset{data[h][i]}
  {
    hide Agree, Flat, Pow2;
    var c := data[h];
    var rest := c[..i] + c[i + 1..];
    assert Placed(hash, c, h, bits);
    RemovePlaced(hash, c, i, h, bits);
    ChainWithin(data, h);
    FlatUpdate(data, h, rest);
    ChainReplaced(hash, equal, data, cap, bits, sz, h, rest);
    RemoveInSeq(c, i);
    PopOne(multiset(Flat(data[h := rest])), multiset(Flat(data)), multiset(rest), c[i]);
  }

  /** A key is in the table exactly if it is in its own bucket. */
  lemma OnlyInItsBucket(hash: int -> nat, equal: (int, int) -> bool, data: seq<seq<Entry>>, cap: nat, bits: nat, sz: nat, key: int)
    requires TableOk(hash, equal, data, cap, bits, sz)
    ensures cap != 0 ==> HashBits(hash(key), bits) < cap
    ensures Has(equal, multiset(Flat(data)), key) <==>
              cap != 0 && exists j :: 0 <= j < |data[HashBits(hash(key), bits)]| && equal(data[HashBits(hash(key), bits)][j].key, key)
  {
    HashBitsBelow(hash(key), bits);
    var h, m := HashBits(hash(key), bits), multiset(Flat(data));
    if Has(equal, m, key) {
      var e :| e in m && equal(e.key, key);
      InFlat(data, e);
      var b :| 0 <= b < |data| && e in data[b];
      assert Placed(hash, data[b], b, bits);
      var j :| 0 <= j < |data[b]| && data[b][j] == e;
      assert b == h;
    }
    if cap != 0 {
      if j :| 0 <= j < |data[h]| && equal(data[h][j].key, key) {
        InFlat(data, data[h][j]);
        assert data[h][j] in m;
      }
    }
  }
}

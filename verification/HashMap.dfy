/** The growable chained hash map. */
module HashMap {
  import opened HashBuckets
  import opened HashNodes

  class HashMap {
    const hash: int -> nat
    const equal: (int, int) -> bool
    var buckets: array<Node?>
    var cap: nat
    var capBits: nat
    var sz: nat

    /** Every node the map has linked, the nodes of each chain and the entries they hold. */
    ghost var own: set<Node>
    ghost var chains: seq<seq<Node>>
    ghost var data: seq<seq<Entry>>

    ghost function Woods(): Forest
      reads this, buckets
    {
      Forest(buckets[..], chains, data)
    }

    ghost predicate Valid()
      reads this, buckets, own
    {
      && TableOk(hash, equal, data, cap, capBits, sz)
      && cap == buckets.Length
      && Wired(Snapshot(own), Woods())
    }

    /** The multimap the chains hold. */
    ghost function Content(): multiset<Entry>
      reads `data
    {
      multiset(Flat(data))
    }

    constructor (hash: int -> nat, equal: (int, int) -> bool)
      requires Agree(hash, equal)
      ensures Valid() && Content() == multiset{} && this.hash == hash && this.equal == equal
      ensures fresh(buckets) && own == {}
    {
      this.hash, this.equal := hash, equal;
      cap, capBits, sz := 0, 0, 0;
      buckets := new Node?[0];
      own, chains, data := {}, [], [];
    }

    predicate NeedsToGrow()
      reads this
    {
      cap == 0 || (sz + 1) * 4 / 3 > cap
    }

    // ----- Relinking -----

    /** Puts a node at the head of a chain. */
    static method LinkNode(bs: array<Node?>, h: nat, n: Node, ghost all: set<Node>)
      requires h < bs.Length && n in all
      modifies bs, n`next
      ensures bs[..] == old(bs[..])[h := n]
      ensures Snapshot(all) == old(Snapshot(all))[n := Cell(Entry(n.key, n.value), old(bs[h]))]
    {
      n.next := bs[h];
      bs[h] := n;
    }

    /** Takes a node, whose predecessor is `prev`, out of a chain. */
    static method UnlinkNode(bs: array<Node?>, h: nat, prev: Node?, n: Node, ghost all: set<Node>)
      requires h < bs.Length && n != prev && n in all && (prev != null ==> prev in all)
      modifies bs, all`next
      ensures bs[..] == if prev == null then old(bs[..])[h := old(n.next)] else old(bs[..])
      ensures var mem := old(Snapshot(all));
              var skipped := if prev == null then mem else mem[prev := Cell(mem[prev].entry, mem[n].next)];
              Snapshot(all) == skipped[n := Cell(mem[n].entry, null)]
    {
      if prev == null {
        bs[h] := n.next;
      } else {
        prev.next := n.next;
      }
      n.next := null;
    }

    /** Overwrites key and value of a node. */
    static method Overwrite(n: Node, key: int, value: int, ghost all: set<Node>)
      requires n in all
      modifies n
      ensures Snapshot(all) == old(Snapshot(all))[n := Cell(Entry(key, value), old(n.next))]
    {
      n.key, n.value := key, value;
    }

    // ----- Growth -----

    /** Doubles the buckets and relinks every node, reversing the order within a chain. */
    method Grow()
      requires Valid() && capBits < 63
      modifies this, own`next
      ensures Valid() && Content() == old(Content()) && sz == old(sz) && fresh(buckets) && own == old(own)
      ensures capBits == if old(cap) == 0 then MIN_CAP_BITS else old(capBits) + 1
      ensures forall h :: 0 <= h < cap ==> data[h] == if old(cap) == 0 then [] else Moved(hash, old(data)[h / 2], h, capBits)
      ensures 4 * (sz + 1) <= 3 * cap
    {
      hide Flat, Agree, GrownTo, Placed, Wired, Apart;
      var bits := if capBits + 1 < MIN_CAP_BITS then MIN_CAP_BITS else capBits + 1;
      var newCap := Pow2(bits);
      assert cap != 0 ==> newCap == 2 * cap;
      assert cap == 0 ==> newCap == 2 * Pow2(1);
      var newBuckets := new Node?[newCap](_ => null);
      ghost var g := MoveAll(newBuckets, bits);
      ghost var was := data;
      cap, capBits, buckets := newCap, bits, newBuckets;
      chains, data := g.chains, g.data;
      forall h | 0 <= h < cap ensures Placed(hash, data[h], h, capBits) {
        GrownIsPlaced(hash, was, data, bits, h);
      }
      forall h | 0 <= h < cap ensures data[h] == if |was| == 0 then [] else Moved(hash, was[h / 2], h, capBits) {
        GrownIs(hash, was, data, bits, h);
      }
    }

    /** Old buckets from `b` on are as they were; what is left of the others does not matter. */
    ghost predicate Rest(f: Forest, b: nat)
      reads this, buckets
    {
      && Sized(f) && |f.chains| == cap == buckets.Length == |chains| == |data|
      && forall a :: b <= a < cap ==> f.heads[a] == buckets[a] && f.chains[a] == chains[a] && f.data[a] == data[a]
    }

    /** Two disjoint tables share the nodes: what is left of the old one and the new one. */
    ghost predicate Growing(newBuckets: array<Node?>, f: Forest, g: Forest)
      reads `own, own, newBuckets
    {
      Wired(Snapshot(own), f) && Wired(Snapshot(own), g) && Apart(f, g) && g.heads == newBuckets[..]
    }

    method MoveAll(newBuckets: array<Node?>, bits: nat) returns (ghost g: Forest)
      requires Valid() && newBuckets != buckets && 1 < bits <= 64 && (cap == 0 || bits == capBits + 1)
      requires newBuckets.Length == Pow2(bits) && forall h :: 0 <= h < newBuckets.Length ==> newBuckets[h] == null
      modifies newBuckets, own`next
      ensures Wired(Snapshot(own), g) && g.heads == newBuckets[..] && Sized(g)
      ensures GrownTo(hash, data, g.data, bits, cap, 0)
      ensures SameEntries(g.data, data)
    {
      ghost var f := Woods();
      assert Rest(f, 0);
      g := Forest(newBuckets[..], seq(newBuckets.Length, _ => []), seq(newBuckets.Length, _ => []));
      EmptyWired(Snapshot(own), f, g);
      FlatEmpty(g.data);
      FlatEmpty(data[..0]);
      assert SameEntries(g.data, data[..0]);
      StartGrowth(hash, data, g.data, bits);
      hide TableOk, Flat, Gained, Agree, Placed, GrownTo, Wired, Apart, Snapshot, SameEntries, Rest;
      var b := 0;
      while b < cap
        invariant 0 <= b <= cap && Rest(f, b) && Growing(newBuckets, f, g) && Sized(g) && |g.data| == Pow2(bits)
        invariant GrownTo(hash, data, g.data, bits, b, 0)
        invariant SameEntries(g.data, data[..b])
      {
        ghost var g0 := g;
        f, g := MoveChain(newBuckets, bits, b, f, g);
        GainedNext(g.data, g0.data, data, b);
        b := b + 1;
      }
      assert data[..b] == data;
    }

    method MoveChain(newBuckets: array<Node?>, bits: nat, b: nat, ghost f0: Forest, ghost g0: Forest)
      returns (ghost f: Forest, ghost g: Forest)
      requires TableOk(hash, equal, data, cap, capBits, sz) && newBuckets != buckets
      requires b < cap && bits == capBits + 1 && newBuckets.Length == Pow2(bits) == |g0.data|
      requires Rest(f0, b) && Growing(newBuckets, f0, g0) && Sized(g0) && GrownTo(hash, data, g0.data, bits, b, 0)
      modifies newBuckets, own`next
      ensures Rest(f, b + 1) && Growing(newBuckets, f, g) && Sized(g) && |g.data| == Pow2(bits)
      ensures GrownTo(hash, data, g.data, bits, b + 1, 0)
      ensures Gained(g.data, g0.data, data[b])
    {
      hide GrownTo, Flat, Agree, Placed, Wired, Apart, Snapshot, Growing;
      f, g := f0, g0;
      var cur := buckets[b];
      ghost var i := 0;
      assert ChainLeft(f, b, i, cur);
      while cur != null
        invariant ChainLeft(f, b, i, cur) && Growing(newBuckets, f, g) && Sized(g) && |g.data| == Pow2(bits)
        invariant GrownTo(hash, data, g.data, bits, b, i)
        invariant Gained(g.data, g0.data, data[b][..i])
        decreases |data[b]| - i
      {
        ghost var now := g.data;
        cur, f, g := MoveNode(newBuckets, bits, b, i, cur, f, g);
        FlatPush(now, HashBits(hash(data[b][i].key), bits), data[b][i]);
        OneMore(data[b], i);
        i := i + 1;
      }
      ChainEnds(newBuckets, f, g, b, i);
      NextBucket(hash, data, g.data, bits, b);
      assert data[b][..i] == data[b];
    }

    /** The i-th node of old bucket `b` is next. */
    ghost predicate ChainLeft(f: Forest, b: nat, i: nat, cur: Node?)
      reads this, buckets
    {
      && b < cap && Rest(f, b + 1) && i <= |chains[b]| && i <= |data[b]|
      && f.heads[b] == cur && f.chains[b] == chains[b][i..] && f.data[b] == data[b][i..]
    }

    lemma ChainEnds(newBuckets: array<Node?>, f: Forest, g: Forest, b: nat, i: nat)
      requires ChainLeft(f, b, i, null) && Growing(newBuckets, f, g)
      ensures i == |data[b]|
    {
      assert HeadOk(Snapshot(own), f, b);
    }

    method MoveNode(newBuckets: array<Node?>, bits: nat, b: nat, ghost i: nat, cur: Node, ghost f0: Forest, ghost g0: Forest)
      returns (next: Node?, ghost f: Forest, ghost g: Forest)
      requires TableOk(hash, equal, data, cap, capBits, sz) && newBuckets != buckets
      requires b < cap && bits == capBits + 1 && newBuckets.Length == Pow2(bits) == |g0.data|
      requires ChainLeft(f0, b, i, cur) && Growing(newBuckets, f0, g0) && GrownTo(hash, data, g0.data, bits, b, i)
      modifies newBuckets, own`next
      ensures i < |data[b]| && ChainLeft(f, b, i + 1, next) && Growing(newBuckets, f, g) && Sized(g)
      ensures var h := HashBits(hash(data[b][i].key), bits);
              h < |g0.data| && g.data == g0.data[h := [data[b][i]] + g0.data[h]]
      ensures GrownTo(hash, data, g.data, bits, b, i + 1)
    {
      hide GrownTo, Flat, Agree, Placed, Pow2, HashBits;
      ghost var mem := Snapshot(own);
      assert HeadOk(mem, f0, b);
      PopKeeps(mem, f0, b);
      assert NodeOk(mem, f0.chains[b], f0.data[b], 0);
      ghost var e := data[b][i];
      assert Placed(hash, data[b], b, bits - 1);
      MoveOne(hash, data, g0.data, bits, b, i);
      var h := HashBits(hash(cur.key), bits);
      ApartMoves(f0, g0, b, h, e);
      PushKeeps(mem, g0, h, cur, e);
      WriteElsewhere(mem, Popped(f0, b), cur, Cell(e, g0.heads[h]));
      next := cur.next;
      LinkNode(newBuckets, h, cur, own);
      f, g := Popped(f0, b), Pushed(g0, h, cur, e);
    }

    // ----- Lookup -----

    /** The first node of the chain with this key, and its predecessor. */
    method FindEntry(key: int, h: nat) returns (found: bool, prev: Node?, entry: Node?, ghost i: nat)
      requires Valid() && (cap != 0 ==> h < cap)
      ensures found ==>
                && h < |data| == |chains| && i < |data[h]| == |chains[h]| && equal(data[h][i].key, key)
                && entry == chains[h][i] && entry in own && Entry(entry.key, entry.value) == data[h][i]
                && prev == (if i == 0 then null else chains[h][i - 1])
                && forall j :: 0 <= j < i ==> !equal(data[h][j].key, key)
      ensures !found ==> cap == 0 || forall j :: 0 <= j < |data[h]| ==> !equal(data[h][j].key, key)
    {
      i := 0;
      prev, entry := null, null;
      if cap == 0 {
        return false, null, null, 0;
      }
      hide Flat, Agree, Placed, Separate;
      assert HeadOk(Snapshot(own), Woods(), h);
      entry := buckets[h];
      while entry != null
        invariant 0 <= i <= |data[h]| == |chains[h]|
        invariant entry == if i < |chains[h]| then chains[h][i] else null
        invariant prev == if i == 0 then null else chains[h][i - 1]
        invariant forall j :: 0 <= j < i ==> !equal(data[h][j].key, key)
        decreases |data[h]| - i
      {
        assert NodeOk(Snapshot(own), chains[h], data[h], i);
        if equal(entry.key, key) {
          return true, prev, entry, i;
        }
        prev, entry := entry, entry.next;
        i := i + 1;
      }
      found := false;
    }

    /** Looks a key up in its bucket: a key of the map is found there, and no other. */
    method FindKey(key: int) returns (found: bool, h: nat, prev: Node?, entry: Node?, ghost i: nat)
      requires Valid()
      ensures h == HashBits(hash(key), capBits) && (cap != 0 ==> h < cap)
      ensures found == Has(equal, Content(), key)
      ensures found ==>
                && h < cap == |data| == |chains| && i < |data[h]| == |chains[h]| && equal(data[h][i].key, key)
                && entry == chains[h][i] && entry in own && Entry(entry.key, entry.value) == data[h][i]
                && prev == (if i == 0 then null else chains[h][i - 1])
                && data[h][i] in Content()
    {
      hide Wired, Agree, Placed;
      h := HashBits(hash(key), capBits);
      OnlyInItsBucket(hash, equal, data, cap, capBits, sz, key);
      found, prev, entry, i := FindEntry(key, h);
      if found {
        InFlat(data, data[h][i]);
      }
    }

    /** Some value stored under the key, if there is any. */
    method Find(key: int) returns (found: bool, value: int)
      requires Valid()
      ensures found <==> Has(equal, Content(), key)
      ensures found ==> exists k :: Entry(k, value) in Content() && equal(k, key)
    {
      hide TableOk, Wired;
      var h, prev, entry;
      ghost var i;
      found, h, prev, entry, i := FindKey(key);
      value := 0;
      if found {
        value := entry.value;
        assert Entry(entry.key, value) in Content();
      }
    }

    /** All entries with the key, in chain order. */
    method KeyEntries(key: int) returns (es: seq<Entry>)
      requires Valid()
      ensures forall e: Entry :: multiset(es)[e] == if equal(e.key, key) then Content()[e] else 0
    {
      es := [];
      var h := HashBits(hash(key), capBits);
      OnlyInItsBucket(hash, equal, data, cap, capBits, sz, key);
      if cap == 0 {
        return;
      }
      hide Agree, Flat, Separate;
      assert HeadOk(Snapshot(own), Woods(), h);
      var cur := buckets[h];
      ghost var chain, i := data[h], 0;
      while cur != null
        invariant 0 <= i <= |chain| == |chains[h]| && es == Matching(equal, chain[..i], key)
        invariant cur == if i < |chains[h]| then chains[h][i] else null
        decreases |chain| - i
      {
        assert NodeOk(Snapshot(own), chains[h], data[h], i);
        assert chain[..i + 1][..i] == chain[..i];
        if equal(cur.key, key) {
          es := es + [Entry(cur.key, cur.value)];
        }
        cur := cur.next;
        i := i + 1;
      }
      assert chain[..i] == chain;
      forall e: Entry ensures multiset(es)[e] == if equal(e.key, key) then Content()[e] else 0 {
        MatchingCounts(equal, chain, key, e);
        if equal(e.key, key) {
          SameHash(hash, equal, e.key, key);
          OnlyThere(hash, data, capBits, e);
        }
      }
    }

    // ----- Changes -----

    /** Inserts by strategy.  What was stored under the key before is returned, zeroes if nothing. */
    method Insert(key: int, value: int, strategy: Strategy) returns (err: int, oldKey: int, oldValue: int)
      requires Valid() && sz < TOO_MANY
      modifies this, buckets, own
      ensures Valid() && (buckets == old(buckets) || fresh(buckets)) && fresh(own - old(own))
      ensures Inserted(equal, old(Content()), Content(), key, value, strategy, err, oldKey, oldValue)
      // the buckets double only when a new entry would fill more than three quarters of them
      ensures capBits == if sz == old(sz) || 4 * sz <= 3 * old(cap) then old(capBits) else if old(cap) == 0 then 2 else old(capBits) + 1
    {
      hide TableOk, Flat, Has, Wired, Snapshot, HashBits;
      oldKey, oldValue, err := 0, 0, 0;
      if strategy != APPEND {
        var found, h, prev, entry;
        ghost var i;
        found, h, prev, entry, i := FindKey(key);
        if found {
          oldKey, oldValue := entry.key, entry.value;
          if strategy == ADD {
            return -EEXIST, oldKey, oldValue;
          }
          ReplaceEntry(h, i, entry, key, value);
          return 0, oldKey, oldValue;
        }
      }
      if strategy == UPDATE {
        return -ENOENT, 0, 0;
      }
      AddEntry(key, value);
    }

    /** Replaces what the i-th node of a chain holds. */
    method ReplaceEntry(ghost h: nat, ghost i: nat, entry: Node, key: int, value: int)
      requires Valid() && h < cap && i < |data[h]| == |chains[h]| && entry == chains[h][i] && entry in own
      requires equal(data[h][i].key, key)
      modifies `data, entry
      ensures Valid() && data == old(data)[h := old(data)[h][i := Entry(key, value)]]
      ensures Content() == old(Content()) - multiset{old(data)[h][i]} + multiset{Entry(key, value)}
    {
      hide TableOk, Flat;
      ghost var mem, f, c, e := Snapshot(own), Woods(), data[h], Entry(key, value);
      assert HeadOk(mem, f, h) && NodeOk(mem, chains[h], c, i);
      OverwriteKeeps(mem, f, h, i, e);
      EntryReplaced(hash, equal, data, cap, capBits, sz, h, i, e);
      Overwrite(entry, key, value, own);
      data := data[h := c[i := e]];
    }

    /** Grows first when the table would get more than three quarters full. */
    method AddEntry(key: int, value: int)
      requires Valid() && sz < TOO_MANY
      modifies this, buckets, own`next
      ensures Valid() && (buckets == old(buckets) || fresh(buckets)) && sz == old(sz) + 1 && fresh(own - old(own))
      ensures Content() == old(Content()) + multiset{Entry(key, value)}
      ensures capBits == if 4 * sz <= 3 * old(cap) then old(capBits) else if old(cap) == 0 then 2 else old(capBits) + 1
    {
      hide Agree, Flat, Pow2, Wired, Placed;
      if cap != 0 {
        LoadFits(sz, cap, capBits);
      }
      if NeedsToGrow() {
        if cap != 0 {
          RoomToGrow(sz, cap, capBits);
        }
        Grow();
      }
      var h := HashBits(hash(key), capBits);
      HashBitsBelow(hash(key), capBits);
      PushEntry(h, key, value);
    }

    /** A new node at the head of its bucket. */
    method PushEntry(h: nat, key: int, value: int)
      requires Valid() && h == HashBits(hash(key), capBits) < cap && 4 * (sz + 1) <= 3 * cap
      modifies `own, `chains, `data, `sz, buckets
      ensures Valid() && sz == old(sz) + 1 && fresh(own - old(own)) && old(own) <= own
      ensures data == old(data)[h := [Entry(key, value)] + old(data)[h]]
      ensures Content() == old(Content()) + multiset{Entry(key, value)}
    {
      hide TableOk, Flat, HashBits;
      ghost var mem, f, e := Snapshot(own), Woods(), Entry(key, value);
      EntryPushed(hash, equal, data, cap, capBits, sz, h, e);
      var n := new Node(key, value);
      NewIsAbsent(mem, f, n);
      PushKeeps(mem, f, h, n, e);
      own := own + {n};
      LinkNode(buckets, h, n, own);
      assert Snapshot(own) == mem[n := Cell(e, f.heads[h])];
      chains, data, sz := chains[h := [n] + chains[h]], data[h := [e] + data[h]], sz + 1;
    }

    method Delete(key: int) returns (found: bool, oldKey: int, oldValue: int)
      requires Valid()
      modifies `chains, `data, `sz, buckets, own`next
      ensures Valid() && Deleted(equal, old(Content()), Content(), key, found, oldKey, oldValue)
    {
      hide TableOk, Flat, Has, Wired, Snapshot, HashBits;
      oldKey, oldValue := 0, 0;
      var h, prev, entry;
      ghost var i;
      found, h, prev, entry, i := FindKey(key);
      if !found {
        return;
      }
      oldKey, oldValue := entry.key, entry.value;
      RemoveEntry(h, i, prev, entry);
    }

    method RemoveEntry(h: nat, ghost i: nat, prev: Node?, entry: Node)
      requires Valid() && h < cap && i < |data[h]| == |chains[h]| && entry == chains[h][i] && entry in own
      requires prev == if i == 0 then null else chains[h][i - 1]
      modifies `chains, `data, `sz, buckets, own`next
      ensures Valid() && sz == old(sz) - 1
      ensures data == old(data)[h := old(data)[h][..i] + old(data)[h][i + 1..]]
      ensures old(data)[h][i] in old(Content()) && Content() == old(Content()) - multiset{old(data)[h][i]}
    {
      hide TableOk, Flat, Wired, Snapshot;
      EntryRemoved(hash, equal, data, cap, capBits, sz, h, i);
      UnlinkEntry(h, i, prev, entry);
      sz := sz - 1;
    }

    method UnlinkEntry(h: nat, ghost i: nat, prev: Node?, entry: Node)
      requires Wired(Snapshot(own), Woods()) && h < buckets.Length && i < |data[h]| == |chains[h]|
      requires entry == chains[h][i] && prev == if i == 0 then null else chains[h][i - 1]
      modifies `chains, `data, buckets, own`next
      ensures Wired(Snapshot(own), Woods())
      ensures data == old(data)[h := old(data)[h][..i] + old(data)[h][i + 1..]]
    {
      ghost var mem, f := Snapshot(own), Woods();
      ghost var c := f.chains[h];
      ChainFacts(mem, f, h, i);
      UnlinkKeeps(mem, f, h, i);
      hide Wired, Snapshot, Absent;
      ghost var e := f.data[h][i];
      WriteElsewhere(Skipped(mem, c, i), Unlinked(f, h, i), entry, Cell(e, null));
      UnlinkNode(buckets, h, prev, entry, own);
      chains, data := chains[h := c[..i] + c[i + 1..]], data[h := data[h][..i] + data[h][i + 1..]];
      assert Snapshot(own) == Skipped(mem, c, i)[entry := Cell(e, null)];
      assert Woods() == Unlinked(f, h, i);
    }
  }
}

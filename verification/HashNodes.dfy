/** Chains of linked nodes: what relinking one node does to a whole table of chains. */
module HashNodes {
  import opened HashBuckets

  class Node {
    var key: int
    var value: int
    var next: Node?

    constructor (key: int, value: int)
      ensures this.key == key && this.value == value && next == null
    {
      this.key, this.value, next := key, value, null;
    }
  }

  /** The fields of a node, as a value. */
  datatype Cell = Cell(entry: Entry, next: Node?)

  ghost function Snapshot(own: set<Node>): map<Node, Cell>
    reads own
  {
    map n | n in own :: Cell(Entry(n.key, n.value), n.next)
  }

  /** Bucket heads, the nodes of each chain and the entries they hold. */
  datatype Forest = Forest(heads: seq<Node?>, chains: seq<seq<Node>>, data: seq<seq<Entry>>)

  function After(c: seq<Node>, i: nat): Node? {
    if i + 1 < |c| then c[i + 1] else null
  }

  ghost predicate NodeOk(mem: map<Node, Cell>, c: seq<Node>, d: seq<Entry>, i: nat)
    requires i < |c| == |d|
  {
    c[i] in mem && mem[c[i]] == Cell(d[i], After(c, i))
  }

  ghost predicate ChainOk(mem: map<Node, Cell>, head: Node?, c: seq<Node>, d: seq<Entry>) {
    && |c| == |d| && head == (if c == [] then null else c[0])
    && forall i {:trigger NodeOk(mem, c, d, i)} :: 0 <= i < |c| ==> NodeOk(mem, c, d, i)
  }

  /** No node stands in two places. */
  ghost predicate Separate(cs: seq<seq<Node>>) {
    forall a, i, b, j {:trigger cs[a][i], cs[b][j]} ::
      0 <= a < |cs| && 0 <= i < |cs[a]| && 0 <= b < |cs| && 0 <= j < |cs[b]| && cs[a][i] == cs[b][j] ==> a == b && i == j
  }

  ghost predicate HeadOk(mem: map<Node, Cell>, f: Forest, b: nat)
    requires b < |f.heads| == |f.chains| == |f.data|
  {
    ChainOk(mem, f.heads[b], f.chains[b], f.data[b])
  }

  ghost predicate Wired(mem: map<Node, Cell>, f: Forest) {
    && |f.heads| == |f.chains| == |f.data| && Separate(f.chains)
    && forall b {:trigger HeadOk(mem, f, b)} :: 0 <= b < |f.chains| ==> HeadOk(mem, f, b)
  }

  ghost predicate Absent(f: Forest, n: Node) {
    forall b, i {:trigger f.chains[b][i]} :: 0 <= b < |f.chains| && 0 <= i < |f.chains[b]| ==> f.chains[b][i] != n
  }

  ghost predicate Apart(f: Forest, g: Forest) {
    forall b, i {:trigger f.chains[b][i]} :: 0 <= b < |f.chains| && 0 <= i < |f.chains[b]| ==> Absent(g, f.chains[b][i])
  }

  ghost predicate Sized(f: Forest) { |f.heads| == |f.chains| == |f.data| }

  ghost function Popped(f: Forest, b: nat): Forest
    requires Sized(f) && b < |f.chains| && 0 < |f.chains[b]| == |f.data[b]|
  {
    Forest(f.heads[b := After(f.chains[b], 0)], f.chains[b := f.chains[b][1..]], f.data[b := f.data[b][1..]])
  }

  ghost function Pushed(f: Forest, h: nat, n: Node, e: Entry): Forest
    requires Sized(f) && h < |f.chains|
  {
    Forest(f.heads[h := n], f.chains[h := [n] + f.chains[h]], f.data[h := [e] + f.data[h]])
  }

  ghost function Unlinked(f: Forest, b: nat, i: nat): Forest
    requires Sized(f) && b < |f.chains| && i < |f.chains[b]| == |f.data[b]|
  {
    Forest(if i == 0 then f.heads[b := After(f.chains[b], 0)] else f.heads,
           f.chains[b := f.chains[b][..i] + f.chains[b][i + 1..]], f.data[b := f.data[b][..i] + f.data[b][i + 1..]])
  }

  lemma WriteElsewhere(mem: map<Node, Cell>, f: Forest, n: Node, cell: Cell)
    requires Wired(mem, f) && Absent(f, n)
    ensures Wired(mem[n := cell], f)
  {
    var mem' := mem[n := cell];
    forall b | 0 <= b < |f.chains| ensures HeadOk(mem', f, b) {
      assert HeadOk(mem, f, b);
      forall i | 0 <= i < |f.chains[b]| ensures NodeOk(mem', f.chains[b], f.data[b], i) {
        assert NodeOk(mem, f.chains[b], f.data[b], i);
      }
    }
  }

  lemma PopKeeps(mem: map<Node, Cell>, f: Forest, b: nat)
    requires Wired(mem, f) && b < |f.chains| && f.chains[b] != []
    ensures HeadOk(mem, f, b) && NodeOk(mem, f.chains[b], f.data[b], 0)
    ensures Wired(mem, Popped(f, b)) && Absent(Popped(f, b), f.chains[b][0])
  {
    assert HeadOk(mem, f, b) && NodeOk(mem, f.chains[b], f.data[b], 0);
    var g := Popped(f, b);
    forall a | 0 <= a < |g.chains| ensures HeadOk(mem, g, a) {
      assert HeadOk(mem, f, a);
      forall i | 0 <= i < |g.chains[a]| ensures NodeOk(mem, g.chains[a], g.data[a], i) {
        var was := if a == b then i + 1 else i;
        assert NodeOk(mem, f.chains[a], f.data[a], was);
      }
    }
    PopSeparate(f.chains, b);
  }

  lemma PopSeparate(cs: seq<seq<Node>>, b: nat)
    requires Separate(cs) && b < |cs| && cs[b] != []
    ensures Separate(cs[b := cs[b][1..]])
    ensures forall a, i {:trigger cs[b := cs[b][1..]][a][i]} ::
              0 <= a < |cs| && 0 <= i < |cs[b := cs[b][1..]][a]| ==> cs[b := cs[b][1..]][a][i] != cs[b][0]
  {
    var ds := cs[b := cs[b][1..]];
    forall a, i | 0 <= a < |cs| && 0 <= i < |ds[a]|
      ensures ds[a][i] == cs[a][if a == b then i + 1 else i]
    {
    }
  }

  lemma PushKeeps(mem: map<Node, Cell>, f: Forest, h: nat, n: Node, e: Entry)
    requires Wired(mem, f) && Absent(f, n) && h < |f.chains|
    ensures Wired(mem[n := Cell(e, f.heads[h])], Pushed(f, h, n, e))
  {
    var mem', g := mem[n := Cell(e, f.heads[h])], Pushed(f, h, n, e);
    WriteElsewhere(mem, f, n, Cell(e, f.heads[h]));
    forall a | 0 <= a < |g.chains| ensures HeadOk(mem', g, a) {
      assert HeadOk(mem', f, a);
      forall i | 0 <= i < |g.chains[a]| ensures NodeOk(mem', g.chains[a], g.data[a], i) {
        if a != h || i > 0 {
          var was := if a == h then i - 1 else i;
          assert NodeOk(mem', f.chains[a], f.data[a], was);
        }
      }
    }
    forall a, i | 0 <= a < |g.chains| && 0 <= i < |g.chains[a]|
      ensures g.chains[a][i] == if a != h then f.chains[a][i] else if i == 0 then n else f.chains[a][i - 1]
    {
    }
  }

  lemma ApartMoves(f: Forest, g: Forest, b: nat, h: nat, e: Entry)
    requires Sized(f) && Sized(g) && Separate(f.chains) && Apart(f, g)
    requires b < |f.chains| && 0 < |f.chains[b]| == |f.data[b]| && h < |g.chains|
    ensures Apart(Popped(f, b), Pushed(g, h, f.chains[b][0], e)) && Absent(g, f.chains[b][0])
  {
    var n := f.chains[b][0];
    var f', g' := Popped(f, b), Pushed(g, h, n, e);
    forall a, i | 0 <= a < |f'.chains| && 0 <= i < |f'.chains[a]| ensures Absent(g', f'.chains[a][i]) {
      var x := f.chains[a][if a == b then i + 1 else i];
      assert f'.chains[a][i] == x && x != n && Absent(g, x);
      forall c, j | 0 <= c < |g'.chains| && 0 <= j < |g'.chains[c]| ensures g'.chains[c][j] != x {
        assert g'.chains[c][j] == if c != h then g.chains[c][j] else if j == 0 then n else g.chains[c][j - 1];
      }
    }
  }

  /** Memory after the predecessor of the i-th node skips it. */
  ghost function Skipped(mem: map<Node, Cell>, c: seq<Node>, i: nat): map<Node, Cell>
    requires i < |c| && (i > 0 ==> c[i - 1] in mem)
  {
    if i == 0 then mem else mem[c[i - 1] := Cell(mem[c[i - 1]].entry, After(c, i))]
  }

  /** The i-th node of a chain and its predecessor, in memory. */
  lemma ChainFacts(mem: map<Node, Cell>, f: Forest, b: nat, i: nat)
    requires Wired(mem, f) && b < |f.chains| && i < |f.chains[b]|
    ensures |f.data[b]| == |f.chains[b]| && NodeOk(mem, f.chains[b], f.data[b], i)
    ensures i > 0 ==> NodeOk(mem, f.chains[b], f.data[b], i - 1) && f.chains[b][i - 1] != f.chains[b][i]
    ensures f.heads[b] == f.chains[b][0]
  {
    assert HeadOk(mem, f, b);
  }

  lemma UnlinkKeeps(mem: map<Node, Cell>, f: Forest, b: nat, i: nat)
    requires Wired(mem, f) && b < |f.chains| && i < |f.chains[b]|
    ensures |f.data[b]| == |f.chains[b]| && (i > 0 ==> f.chains[b][i - 1] in mem)
    ensures Wired(Skipped(mem, f.chains[b], i), Unlinked(f, b, i)) && Absent(Unlinked(f, b, i), f.chains[b][i])
  {
    var c := f.chains[b];
    assert HeadOk(mem, f, b);
    assert i > 0 ==> NodeOk(mem, c, f.data[b], i - 1);
    var mem', g := Skipped(mem, c, i), Unlinked(f, b, i);
    UnlinkSeparate(f.chains, b, i);
    hide Separate;
    forall a | 0 <= a < |g.chains| ensures HeadOk(mem', g, a) {
      assert HeadOk(mem, f, a);
      forall j | 0 <= j < |g.chains[a]| ensures NodeOk(mem', g.chains[a], g.data[a], j) {
        var was := if a == b && j >= i then j + 1 else j;
        assert NodeOk(mem, f.chains[a], f.data[a], was);
        assert g.chains[a][j] == f.chains[a][was] && g.data[a][j] == f.data[a][was];
      }
    }
  }

  lemma UnlinkSeparate(cs: seq<seq<Node>>, b: nat, i: nat)
    requires Separate(cs) && b < |cs| && i < |cs[b]|
    ensures var ds := cs[b := cs[b][..i] + cs[b][i + 1..]];
            && Separate(ds)
            && (forall a, j {:trigger ds[a][j]} :: 0 <= a < |ds| && 0 <= j < |ds[a]| ==> ds[a][j] != cs[b][i])
            && (i > 0 ==> forall a, j {:trigger cs[a][j]} ::
                  0 <= a < |cs| && 0 <= j < |cs[a]| && cs[a][j] == cs[b][i - 1] ==> a == b && j == i - 1)
  {
    var ds := cs[b := cs[b][..i] + cs[b][i + 1..]];
    forall a, j | 0 <= a < |ds| && 0 <= j < |ds[a]|
      ensures ds[a][j] == cs[a][if a == b && j >= i then j + 1 else j]
    {
    }
  }

  lemma OverwriteKeeps(mem: map<Node, Cell>, f: Forest, b: nat, i: nat, e: Entry)
    requires Wired(mem, f) && b < |f.chains| && i < |f.chains[b]| == |f.data[b]|
    ensures Wired(mem[f.chains[b][i] := Cell(e, After(f.chains[b], i))],
                  Forest(f.heads, f.chains, f.data[b := f.data[b][i := e]]))
  {
    var n := f.chains[b][i];
    var mem', g := mem[n := Cell(e, After(f.chains[b], i))], Forest(f.heads, f.chains, f.data[b := f.data[b][i := e]]);
    forall a | 0 <= a < |g.chains| ensures HeadOk(mem', g, a) {
      assert HeadOk(mem, f, a);
      forall j | 0 <= j < |g.chains[a]| ensures NodeOk(mem', g.chains[a], g.data[a], j) {
        assert NodeOk(mem, f.chains[a], f.data[a], j);
      }
    }
  }

  lemma EmptyWired(mem: map<Node, Cell>, f: Forest, g: Forest)
    requires Sized(g) && forall b :: 0 <= b < |g.chains| ==> g.heads[b] == null && g.chains[b] == [] && g.data[b] == []
    ensures Wired(mem, g) && Apart(f, g)
  {
    forall b | 0 <= b < |g.chains| ensures HeadOk(mem, g, b) {
    }
  }

  lemma NewIsAbsent(mem: map<Node, Cell>, f: Forest, n: Node)
    requires Wired(mem, f) && n !in mem
    ensures Absent(f, n)
  {
    forall b, i | 0 <= b < |f.chains| && 0 <= i < |f.chains[b]| ensures f.chains[b][i] != n {
      assert HeadOk(mem, f, b) && NodeOk(mem, f.chains[b], f.data[b], i);
    }
  }
}

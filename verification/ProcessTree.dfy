/** The in-kernel process tree and whitelist: every handler is one atomic step over two
    bounded maps.  The steps are given as functions on states; the class runs them in place. */
module ProcessTree {
  const MAX_CHAIN_DEPTH: nat := 8
  const WHITELIST_MAX: nat := 1024
  const TREE_MAX: nat := 2048

  datatype WhitelistEntry = WhitelistEntry(root: nat, depth: nat)
  datatype TreeNode = TreeNode(parent: nat, comm: string, forkTime: nat)
  datatype ChainNode = ChainNode(pid: nat, comm: string)

  datatype State = State(whitelist: map<nat, WhitelistEntry>, tree: map<nat, TreeNode>, targets: set<string>)

  /** A hash-map update: it fails silently when the key is new and the map is full. */
  function Update<V>(m: map<nat, V>, cap: nat, k: nat, v: V): map<nat, V> {
    if k in m || |m| < cap then m[k := v] else m
  }

  // ----- The steps -----

  datatype Step =
    | Register(pid: nat, comm: string)
    | Fork(parent: nat, child: nat, comm: string, now: nat)
    | Exec(pid: nat, comm: string, now: nat)
    | Exit(pid: nat)

  /** One level deeper, in eight bits. */
  function Deeper(e: WhitelistEntry): WhitelistEntry {
    WhitelistEntry(e.root, (e.depth + 1) % 256)
  }

  function Enter(s: State, pid: nat, e: WhitelistEntry, t: TreeNode): State {
    s.(whitelist := Update(s.whitelist, WHITELIST_MAX, pid, e), tree := Update(s.tree, TREE_MAX, pid, t))
  }

  function Apply(s: State, step: Step): State {
    match step
    case Register(pid, comm) =>
      Enter(s, pid, WhitelistEntry(pid, 0), TreeNode(pid, comm, 0))
    case Fork(parent, child, comm, now) =>
      if parent !in s.whitelist then s
      else Enter(s, child, Deeper(s.whitelist[parent]), TreeNode(parent, comm, now))
    case Exec(pid, comm, now) =>
      if pid in s.whitelist then
        if pid in s.tree then s.(tree := s.tree[pid := s.tree[pid].(comm := comm)]) else s
      else if comm !in s.targets then s
      else Enter(s, pid, WhitelistEntry(pid, 0), TreeNode(0, comm, now))
    case Exit(pid) =>
      if pid !in s.whitelist then s
      else s.(whitelist := s.whitelist - {pid}, tree := s.tree - {pid})
  }

  // ----- The packed chain -----

  /** Ancestors from `cur` upwards, at most `k`: stop at the root, or at a pid that has exited. */
  function Ancestors(tree: map<nat, TreeNode>, cur: nat, root: nat, k: nat): (a: seq<ChainNode>)
    ensures |a| <= k
    ensures forall i :: 0 <= i < |a| ==> a[i].pid in tree && a[i].comm == tree[a[i].pid].comm
    decreases k
  {
    if k == 0 || cur !in tree then []
    else
      [ChainNode(cur, tree[cur].comm)]
      + (if cur == root then [] else Ancestors(tree, tree[cur].parent, root, k - 1))
  }

  lemma AncestorStep(tree: map<nat, TreeNode>, cur: nat, root: nat, k: nat)
    requires k > 0
    ensures cur !in tree ==> Ancestors(tree, cur, root, k) == []
    ensures cur in tree ==> Ancestors(tree, cur, root, k)
                            == [ChainNode(cur, tree[cur].comm)]
                               + (if cur == root then [] else Ancestors(tree, tree[cur].parent, root, k - 1))
  {
  }

  /** The process itself under its current name, then its ancestors; at most `k + 1` nodes. */
  function Chain(tree: map<nat, TreeNode>, pid: nat, comm: string, root: nat, k: nat): (c: seq<ChainNode>)
    ensures 1 <= |c| <= k + 1 && c[0] == ChainNode(pid, comm)
  {
    [ChainNode(pid, comm)]
    + (if pid == root || pid !in tree then [] else Ancestors(tree, tree[pid].parent, root, k))
  }

  function Pids(c: seq<ChainNode>): (p: seq<nat>)
    ensures |p| == |c| && forall i :: 0 <= i < |c| ==> p[i] == c[i].pid
  {
    seq(|c|, i requires 0 <= i < |c| => c[i].pid)
  }

  // ----- The invariant -----

  /** `birth` orders the live processes so that every live parent is older than its child. */
  ghost predicate BornOk(s: State, birth: map<nat, nat>, p: nat)
    requires p in s.whitelist && p in s.tree && s.whitelist.Keys <= birth.Keys
  {
    var e, t := s.whitelist[p], s.tree[p];
    && e.depth < 256
    && (p == e.root ==> e.depth == 0)
    && (p != e.root && t.parent in s.whitelist ==>
          && birth[t.parent] < birth[p]
          && s.whitelist[t.parent].root == e.root
          && e == Deeper(s.whitelist[t.parent]))
  }

  ghost predicate Born(s: State, birth: map<nat, nat>, clock: nat) {
    && s.whitelist.Keys == s.tree.Keys == birth.Keys
    && forall p {:trigger BornOk(s, birth, p)} :: p in s.whitelist ==> BornOk(s, birth, p) && birth[p] < clock
  }

  ghost predicate Inv(s: State) {
    exists birth, clock :: Born(s, birth, clock)
  }

  /** A pid may enter: it is not tracked, and no live process names it as parent or root. */
  ghost predicate Fresh(s: State, pid: nat) {
    && pid !in s.whitelist && pid !in s.tree
    && (forall q :: q in s.tree ==> s.tree[q].parent != pid)
    && (forall q :: q in s.whitelist ==> s.whitelist[q].root != pid)
  }

  /** The pid a step would start tracking, if any. */
  ghost predicate Enters(s: State, step: Step, pid: nat) {
    match step
    case Register(p, _) => pid == p
    case Fork(parent, child, _, _) => parent in s.whitelist && pid == child
    case Exec(p, comm, _) => p !in s.whitelist && comm in s.targets && pid == p
    case Exit(_) => false
  }

  /** Steps the claims are about: entering pids are fresh and the maps are not full. */
  ghost predicate Admissible(s: State, step: Step) {
    forall pid :: Enters(s, step, pid) ==>
      Fresh(s, pid) && |s.whitelist| < WHITELIST_MAX && |s.tree| < TREE_MAX
  }

  lemma EnterKeepsInv(s: State, pid: nat, e: WhitelistEntry, t: TreeNode)
    requires Inv(s) && Fresh(s, pid) && |s.whitelist| < WHITELIST_MAX && |s.tree| < TREE_MAX
    requires if e.root == pid then e.depth == 0
             else t.parent in s.whitelist && e == Deeper(s.whitelist[t.parent])
    ensures Inv(Enter(s, pid, e, t))
  {
    var birth, clock :| Born(s, birth, clock);
    var s', birth', clock' := Enter(s, pid, e, t), birth[pid := clock], clock + 1;
    forall p | p in s'.whitelist ensures BornOk(s', birth', p) && birth'[p] < clock' {
      if p != pid {
        assert BornOk(s, birth, p);
      } else if e.root != pid {
        assert BornOk(s, birth, t.parent);
      }
    }
    assert Born(s', birth', clock');
  }

  lemma StepKeepsInv(s: State, step: Step)
    requires Inv(s) && Admissible(s, step)
    ensures Inv(Apply(s, step))
  {
    match step
    case Register(pid, comm) =>
      assert Enters(s, step, pid);
      EnterKeepsInv(s, pid, WhitelistEntry(pid, 0), TreeNode(pid, comm, 0));
    case Fork(parent, child, comm, now) =>
      if parent in s.whitelist {
        assert Enters(s, step, child);
        EnterKeepsInv(s, child, Deeper(s.whitelist[parent]), TreeNode(parent, comm, now));
      }
    case Exec(pid, comm, now) =>
      if pid in s.whitelist {
        var birth, clock :| Born(s, birth, clock);
        var s' := Apply(s, step);
        forall p | p in s'.whitelist ensures BornOk(s', birth, p) && birth[p] < clock {
          assert BornOk(s, birth, p);
        }
        assert Born(s', birth, clock);
      } else if comm in s.targets {
        assert Enters(s, step, pid);
        EnterKeepsInv(s, pid, WhitelistEntry(pid, 0), TreeNode(0, comm, now));
      }
    case Exit(pid) =>
      var birth, clock :| Born(s, birth, clock);
      if pid in s.whitelist {
        var s', birth' := Apply(s, step), birth - {pid};
        forall p | p in s'.whitelist ensures BornOk(s', birth', p) && birth'[p] < clock {
          assert BornOk(s, birth, p);
        }
        assert Born(s', birth', clock);
      }
  }

  // ----- Runs -----

  function Run(s: State, steps: seq<Step>): State
    decreases |steps|
  {
    if steps == [] then s else Run(Apply(s, steps[0]), steps[1..])
  }

  ghost predicate AdmissibleRun(s: State, steps: seq<Step>)
    decreases |steps|
  {
    steps == [] || (Admissible(s, steps[0]) && AdmissibleRun(Apply(s, steps[0]), steps[1..]))
  }

  /** The invariant holds after every admissible run from empty maps. */
  lemma {:induction false} RunKeepsInv(s: State, steps: seq<Step>)
    requires Inv(s) && AdmissibleRun(s, steps)
    ensures Inv(Run(s, steps))
    decreases |steps|
  {
    if steps != [] {
      StepKeepsInv(s, steps[0]);
      RunKeepsInv(Apply(s, steps[0]), steps[1..]);
    }
  }

  lemma EmptyInv(targets: set<string>)
    ensures Inv(State(map[], map[], targets))
  {
    assert Born(State(map[], map[], targets), map[], 0);
  }

  // ----- What the invariant means for the walks -----

  /** `path` climbs parent links through live processes, and meets the root only at its end. */
  ghost predicate Climbs(s: State, path: seq<nat>) {
    && |path| > 0
    && (forall i :: 0 <= i < |path| ==> path[i] in s.whitelist && path[i] in s.tree)
    && (forall i :: 0 <= i < |path| - 1 ==>
          path[i] != s.whitelist[path[i]].root && s.tree[path[i]].parent == path[i + 1])
  }

  lemma {:induction false} ClimbFacts(s: State, birth: map<nat, nat>, clock: nat, path: seq<nat>, i: nat, j: nat)
    requires Born(s, birth, clock) && Climbs(s, path) && i <= j < |path|
    ensures s.whitelist[path[j]].root == s.whitelist[path[i]].root
    ensures i < j ==> birth[path[j]] < birth[path[i]]
    ensures s.whitelist[path[i]].depth == (s.whitelist[path[j]].depth + (j - i)) % 256
    decreases j - i
  {
    assert BornOk(s, birth, path[i]);
    if i < j {
      assert path[i + 1] == s.tree[path[i]].parent;
      ClimbFacts(s, birth, clock, path, i + 1, j);
    }
  }

  /** No ancestor walk repeats a pid. */
  lemma ClimbNeverRepeats(s: State, path: seq<nat>, i: nat, j: nat)
    requires Inv(s) && Climbs(s, path) && i < j < |path|
    ensures path[i] != path[j]
  {
    var birth, clock :| Born(s, birth, clock);
    ClimbFacts(s, birth, clock, path, i, j);
  }

  lemma ClimbCons(s: State, p: nat, a: seq<nat>)
    requires Climbs(s, a) && p in s.whitelist && p in s.tree
    requires p != s.whitelist[p].root && s.tree[p].parent == a[0]
    ensures Climbs(s, [p] + a)
  {
    var path := [p] + a;
    forall i | 0 <= i < |path| - 1
      ensures path[i] != s.whitelist[path[i]].root && s.tree[path[i]].parent == path[i + 1]
    {
      assert i > 0 ==> path[i] == a[i - 1] && path[i + 1] == a[i];
    }
  }

  lemma ClimbOne(s: State, p: nat)
    requires p in s.whitelist && p in s.tree
    ensures Climbs(s, [p]) && Pids([]) == []
  {
  }

  lemma PidsCons(c: ChainNode, rest: seq<ChainNode>)
    ensures Pids([c] + rest) == [c.pid] + Pids(rest)
  {
  }

  /** The chain follows a climbing path as far as the bound allows, and stops early only at
      the root or below an exited ancestor. */
  lemma {:induction false} ChainClimbs(s: State, birth: map<nat, nat>, clock: nat, p: nat, k: nat)
    requires Born(s, birth, clock) && p in s.whitelist
    ensures var root := s.whitelist[p].root; var a := Pids(Ancestors(s.tree, p, root, k + 1));
            && Climbs(s, a) && a[0] == p
            && (|a| <= k ==> a[|a| - 1] == root || s.tree[a[|a| - 1]].parent !in s.whitelist)
    decreases k
  {
    var root, q := s.whitelist[p].root, s.tree[p].parent;
    assert BornOk(s, birth, p);
    assert q in s.whitelist ==> BornOk(s, birth, q);
    hide Climbs, Born, Pids;
    var rest := if p == root then [] else Ancestors(s.tree, q, root, k);
    PidsCons(ChainNode(p, s.tree[p].comm), rest);
    if p != root && k > 0 && q in s.whitelist {
      ChainClimbs(s, birth, clock, q, k - 1);
      ClimbCons(s, p, Pids(rest));
    } else {
      ClimbOne(s, p);
    }
  }

  /** A chain and the ancestor walk list the same pids. */
  lemma ChainIsWalk(s: State, p: nat, comm: string, root: nat, k: nat)
    requires p in s.tree
    ensures Pids(Chain(s.tree, p, comm, root, k)) == Pids(Ancestors(s.tree, p, root, k + 1))
  {
    var up := if p == root then [] else Ancestors(s.tree, s.tree[p].parent, root, k);
    assert Pids(Chain(s.tree, p, comm, root, k)) == [p] + Pids(up);
    assert Pids(Ancestors(s.tree, p, root, k + 1)) == [p] + Pids(up);
  }

  /** `path` leads from `p` all the way to its root through live processes. */
  ghost predicate RootPath(s: State, p: nat, path: seq<nat>) {
    Climbs(s, path) && path[0] == p && path[|path| - 1] == s.whitelist[p].root
  }

  lemma {:induction false} WalkIsPrefix(s: State, birth: map<nat, nat>, clock: nat, path: seq<nat>, root: nat, k: nat)
    requires Born(s, birth, clock) && Climbs(s, path) && path[|path| - 1] == root
    requires s.whitelist[path[0]].root == root
    ensures Pids(Ancestors(s.tree, path[0], root, k)) == path[..if |path| <= k then |path| else k]
    decreases k
  {
    var p := path[0];
    if k > 0 {
      var c := Ancestors(s.tree, p, root, k);
      if |path| == 1 {
        assert Pids(c) == [p];
      } else {
        var rest := Ancestors(s.tree, path[1], root, k - 1);
        assert s.tree[p].parent == path[1];
        assert Pids(c) == [p] + Pids(rest);
        var tail := path[1..];
        assert tail[|tail| - 1] == root;
        ClimbFacts(s, birth, clock, path, 0, 1);
        WalkIsPrefix(s, birth, clock, tail, root, k - 1);
        assert path == [p] + tail;
      }
    } else {
      assert Pids(Ancestors(s.tree, p, root, 0)) == [];
    }
  }

  /** A process whose ancestors are all live: its recorded depth is its hop count to the root
      in eight bits, and its packed chain is the start of its path, reaching the root exactly
      when it is at most seven hops away. */
  lemma PackedChainExact(s: State, p: nat, comm: string, path: seq<nat>)
    requires Inv(s) && p in s.whitelist && RootPath(s, p, path)
    ensures var hops := |path| - 1;
            var root := s.whitelist[p].root;
            var c := Pids(Chain(s.tree, p, comm, root, MAX_CHAIN_DEPTH - 1));
            && s.whitelist[p].depth == hops % 256
            && c == path[..if hops + 1 <= MAX_CHAIN_DEPTH then hops + 1 else MAX_CHAIN_DEPTH]
            && (c[|c| - 1] == root <==> hops <= 7)
  {
    var birth, clock :| Born(s, birth, clock);
    var hops, root := |path| - 1, s.whitelist[p].root;
    ClimbFacts(s, birth, clock, path, 0, hops);
    assert BornOk(s, birth, path[hops]);
    WalkIsPrefix(s, birth, clock, path, root, MAX_CHAIN_DEPTH);
    ChainIsWalk(s, p, comm, root, MAX_CHAIN_DEPTH - 1);
    if hops > 7 {
      ClimbNeverRepeats(s, path, 7, hops);
    }
  }

  /** Any tracked process: the chain climbs live parent links without repetition, and if it is
      shorter than the bound it ends at the root or below an exited ancestor. */
  lemma PackedChainSound(s: State, p: nat, comm: string)
    requires Inv(s) && p in s.whitelist
    ensures p in s.tree
    ensures var root := s.whitelist[p].root;
            var c := Pids(Chain(s.tree, p, comm, root, MAX_CHAIN_DEPTH - 1));
            && Climbs(s, c) && c[0] == p
            && (forall i, j :: 0 <= i < j < |c| ==> c[i] != c[j])
            && (|c| < MAX_CHAIN_DEPTH ==> c[|c| - 1] == root || s.tree[c[|c| - 1]].parent !in s.whitelist)
    ensures var chain := Chain(s.tree, p, comm, s.whitelist[p].root, MAX_CHAIN_DEPTH - 1);
            && chain[0].comm == comm
            && forall i :: 0 < i < |chain| ==> chain[i].pid in s.tree && chain[i].comm == s.tree[chain[i].pid].comm
  {
    var birth, clock :| Born(s, birth, clock);
    var root := s.whitelist[p].root;
    var c := Pids(Chain(s.tree, p, comm, root, MAX_CHAIN_DEPTH - 1));
    ChainClimbs(s, birth, clock, p, MAX_CHAIN_DEPTH - 1);
    ChainIsWalk(s, p, comm, root, MAX_CHAIN_DEPTH - 1);
    forall i, j | 0 <= i < j < |c| ensures c[i] != c[j] {
      ClimbNeverRepeats(s, c, i, j);
    }
  }

  /** The bound on the whitelist matters: a fork by a tracked parent keeps the two maps'
      keys equal exactly when the whitelist has room. */
  lemma ForkKeepsKeysIff(s: State, parent: nat, child: nat, comm: string, now: nat)
    requires s.whitelist.Keys == s.tree.Keys && |s.whitelist| <= WHITELIST_MAX
    requires parent in s.whitelist && child !in s.whitelist
    ensures var s' := Apply(s, Fork(parent, child, comm, now));
            s'.whitelist.Keys == s'.tree.Keys <==> |s.whitelist| < WHITELIST_MAX
  {
    assert |s.tree.Keys| == |s.tree| && |s.whitelist.Keys| == |s.whitelist|;
    var s' := Apply(s, Fork(parent, child, comm, now));
    assert child in s'.tree;
  }

  /** The walk from `p`, for at most `k` ancestors, meets no pid twice. */
  predicate DistinctChain(tree: map<nat, TreeNode>, p: nat, comm: string, root: nat, k: nat) {
    var c := Pids(Chain(tree, p, comm, root, k));
    forall i, j :: 0 <= i < j < |c| ==> c[i] != c[j]
  }

  /** From `p` live parent links lead to a process that is not its root and still names `dead` as its parent. */
  ghost predicate LeadsTo(s: State, p: nat, dead: nat) {
    exists path :: LeadsAlong(s, path, dead) && path[0] == p
  }

  ghost predicate LeadsAlong(s: State, path: seq<nat>, dead: nat) {
    && |path| > 0 && Climbs(s, path)
    && var last := path[|path| - 1]; last != s.whitelist[last].root && s.tree[last].parent == dead
  }

  /** Freshness of an entering pid matters too.  When a fork makes an untracked pid the child of a
      tracked parent, some ancestor walk of the child repeats a pid if and only if the parent's own
      ancestors end below that very pid, and it is not the pid of their root. */
  lemma ForkWalkRepeatsIff(s: State, parent: nat, child: nat, comm: string, now: nat)
    requires Inv(s) && parent in s.whitelist && child !in s.whitelist
    requires |s.whitelist| < WHITELIST_MAX && |s.tree| < TREE_MAX
    ensures var tree := Apply(s, Fork(parent, child, comm, now)).tree;
            var root := s.whitelist[parent].root;
            (forall k: nat :: DistinctChain(tree, child, comm, root, k)) <==> child == root || !LeadsTo(s, parent, child)
  {
    hide Born, Chain, Climbs, DistinctChain, LeadsTo;
    var t, root := TreeNode(parent, comm, now), s.whitelist[parent].root;
    var tree := s.tree[child := t];
    var birth, clock :| Born(s, birth, clock);
    InWhitelistOnly(s, birth, clock, child);
    assert Apply(s, Fork(parent, child, comm, now)).tree == tree;
    if child != root && LeadsTo(s, parent, child) {
      WalkRepeats(s, birth, clock, child, t, comm, tree);
    } else {
      forall k: nat ensures DistinctChain(tree, child, comm, root, k) {
        WalkFine(s, birth, clock, child, t, comm, k);
      }
    }
  }

  lemma InWhitelistOnly(s: State, birth: map<nat, nat>, clock: nat, child: nat)
    requires Born(s, birth, clock)
    ensures child !in s.whitelist ==> child !in s.tree
  {
  }

  lemma WalkRepeats(s: State, birth: map<nat, nat>, clock: nat, child: nat, t: TreeNode, comm: string, tree: map<nat, TreeNode>)
    requires Born(s, birth, clock) && t.parent in s.whitelist && child !in s.whitelist && tree == s.tree[child := t]
    requires child != s.whitelist[t.parent].root && LeadsTo(s, t.parent, child)
    ensures exists k: nat :: !DistinctChain(tree, child, comm, s.whitelist[t.parent].root, k)
  {
    hide Born, Climbs, Ancestors;
    var root := s.whitelist[t.parent].root;
    var path :| LeadsAlong(s, path, child) && path[0] == t.parent;
    WalkGoesOn(s, birth, clock, path, child, t, root, 1);
    AncestorStep(tree, child, root, 1);
    var c := Pids(Chain(tree, child, comm, root, |path| + 1));
    assert |path| > 0 && c[0] == child && c[1..] == path + Pids(Ancestors(tree, child, root, 1));
    assert c[|path| + 1] == c[1..][|path|] == child;
    assert !DistinctChain(tree, child, comm, root, |path| + 1);
  }

  lemma WalkFine(s: State, birth: map<nat, nat>, clock: nat, child: nat, t: TreeNode, comm: string, k: nat)
    requires Born(s, birth, clock) && t.parent in s.whitelist && child !in s.whitelist
    requires child == s.whitelist[t.parent].root || !LeadsTo(s, t.parent, child)
    ensures DistinctChain(s.tree[child := t], child, comm, s.whitelist[t.parent].root, k)
  {
    var parent, root := t.parent, s.whitelist[t.parent].root;
    if child != root && k > 0 {
      ParentClimbs(s, birth, clock, parent);
      DistinctAncestors(s, birth, clock, parent, k, child);
      hide Born, Ancestors, LeadsTo, Climbs, Pids;
      WalkUnchanged(s, birth, clock, [parent], child, t, root, k);
      PidsCons(ChainNode(child, comm), Ancestors(s.tree, parent, root, k));
      var a := Pids(Ancestors(s.tree, parent, root, k));
      assert Pids(Chain(s.tree[child := t], child, comm, root, k)) == [child] + a;
    }
  }

  /** In a good state the ancestors of a live process are live and differ from each other. */
  lemma DistinctAncestors(s: State, birth: map<nat, nat>, clock: nat, p: nat, k: nat, dead: nat)
    requires Born(s, birth, clock) && p in s.whitelist && k > 0 && dead !in s.whitelist
    ensures var a := Pids(Ancestors(s.tree, p, s.whitelist[p].root, k));
            && (forall i, j :: 0 <= i < j < |a| ==> a[i] != a[j])
            && (forall i :: 0 <= i < |a| ==> a[i] != dead)
  {
    hide Born, Ancestors, Pids;
    ChainClimbs(s, birth, clock, p, k - 1);
    assert Inv(s);
    var a := Pids(Ancestors(s.tree, p, s.whitelist[p].root, k));
    forall i, j | 0 <= i < j < |a| ensures a[i] != a[j] {
      ClimbNeverRepeats(s, a, i, j);
    }
  }

  lemma ParentClimbs(s: State, birth: map<nat, nat>, clock: nat, p: nat)
    requires Born(s, birth, clock) && p in s.whitelist
    ensures Climbs(s, [p])
  {
  }

  /** A walk along a path that ends below the new pid goes on at that pid. */
  lemma {:induction false} WalkGoesOn(s: State, birth: map<nat, nat>, clock: nat, path: seq<nat>, child: nat, t: TreeNode, root: nat, k: nat)
    requires Born(s, birth, clock) && child !in s.whitelist && LeadsAlong(s, path, child) && s.whitelist[path[0]].root == root
    ensures Pids(Ancestors(s.tree[child := t], path[0], root, |path| + k)) == path + Pids(Ancestors(s.tree[child := t], child, root, k))
    decreases |path|
  {
    hide Born, Pids, Ancestors;
    var tree := s.tree[child := t];
    AncestorStep(tree, path[0], root, |path| + k);
    ClimbFacts(s, birth, clock, path, 0, |path| - 1);
    if |path| == 1 {
      PidsCons(ChainNode(path[0], tree[path[0]].comm), Ancestors(tree, child, root, k));
    } else {
      var rest := path[1..];
      ClimbFacts(s, birth, clock, path, 0, 1);
      assert Climbs(s, rest) && LeadsAlong(s, rest, child);
      WalkGoesOn(s, birth, clock, rest, child, t, root, k);
      PidsCons(ChainNode(path[0], tree[path[0]].comm), Ancestors(tree, path[1], root, |path| - 1 + k));
      assert path == [path[0]] + rest;
    }
  }

  /** A walk whose end does not lead to the new pid is what it was. */
  lemma {:induction false} WalkUnchanged(s: State, birth: map<nat, nat>, clock: nat, path: seq<nat>, child: nat, t: TreeNode, root: nat, k: nat)
    requires Born(s, birth, clock) && child !in s.whitelist && Climbs(s, path) && s.whitelist[path[0]].root == root
    requires !LeadsTo(s, path[0], child)
    ensures var p := path[|path| - 1]; Ancestors(s.tree[child := t], p, root, k) == Ancestors(s.tree, p, root, k)
    decreases k
  {
    hide Born, Ancestors;
    var p := path[|path| - 1];
    ClimbFacts(s, birth, clock, path, 0, |path| - 1);
    if k == 0 {
      NoAncestors(s.tree[child := t], s.tree, p, root);
    } else {
      AncestorStep(s.tree[child := t], p, root, k);
      AncestorStep(s.tree, p, root, k);
    }
    if k > 0 && p != root {
      var q := s.tree[p].parent;
      assert q == child ==> LeadsAlong(s, path, child);
      if q in s.whitelist {
        ClimbFurther(s, birth, clock, path);
        WalkUnchanged(s, birth, clock, path + [q], child, t, root, k - 1);
      } else {
        OutOfTree(s, birth, clock, q, child, t, root, k - 1);
      }
    }
  }

  lemma NoAncestors(a: map<nat, TreeNode>, b: map<nat, TreeNode>, p: nat, root: nat)
    ensures Ancestors(a, p, root, 0) == Ancestors(b, p, root, 0) == []
  {
  }

  lemma OutOfTree(s: State, birth: map<nat, nat>, clock: nat, q: nat, child: nat, t: TreeNode, root: nat, k: nat)
    requires Born(s, birth, clock) && q !in s.whitelist && q != child
    ensures Ancestors(s.tree[child := t], q, root, k) == Ancestors(s.tree, q, root, k) == []
  {
  }

  lemma ClimbFurther(s: State, birth: map<nat, nat>, clock: nat, path: seq<nat>)
    requires Born(s, birth, clock) && Climbs(s, path)
    ensures var p := path[|path| - 1];
            p != s.whitelist[p].root && s.tree[p].parent in s.whitelist ==> Climbs(s, path + [s.tree[p].parent])
  {
  }

  /** For instance: 12 still names the exited 11 as its parent, and a fork that reuses pid 11 below 12
      sends the walk round in circles. */
  lemma PidReuseRepeats(targets: set<string>)
    ensures var s := State(map[10 := WhitelistEntry(10, 0), 12 := WhitelistEntry(10, 2)],
                           map[10 := TreeNode(10, "", 0), 12 := TreeNode(11, "", 0)], targets);
            && Inv(s) && !Fresh(s, 11)
            && var tree := Apply(s, Fork(12, 11, "", 0)).tree;
               var c := Pids(Chain(tree, 11, "", 10, MAX_CHAIN_DEPTH - 1));
               |c| > 2 && c[0] == c[2]
  {
    var s := State(map[10 := WhitelistEntry(10, 0), 12 := WhitelistEntry(10, 2)],
                   map[10 := TreeNode(10, "", 0), 12 := TreeNode(11, "", 0)], targets);
    assert Born(s, map[10 := 0, 12 := 1], 2);
    assert s.tree[12].parent == 11;
    assert |s.whitelist| == 2 && |s.tree| == 2;
    var tree := Apply(s, Fork(12, 11, "", 0)).tree;
    assert tree[11] == TreeNode(12, "", 0);
    var up2 := Ancestors(tree, 11, 10, 6);
    assert Ancestors(tree, 12, 10, 7) == [ChainNode(12, "")] + up2;
    assert up2[0] == ChainNode(11, "");
    assert Chain(tree, 11, "", 10, 7) == [ChainNode(11, "")] + ([ChainNode(12, "")] + up2);
  }

  // ----- The handlers, in place -----

  /** The per-CPU scratch event.  A fork clears it first; other events overwrite
      only what they write. */
  class Event {
    var pid: nat
    var comm: string
    var chainDepth: nat
    const chain: array<ChainNode>

    constructor ()
      ensures chain.Length == MAX_CHAIN_DEPTH && fresh(chain)
    {
      pid, comm, chainDepth := 0, "", 0;
      chain := new ChainNode[MAX_CHAIN_DEPTH](i => ChainNode(0, ""));
    }

    method Clear()
      modifies this, chain
      ensures pid == 0 && comm == "" && chainDepth == 0
      ensures forall i :: 0 <= i < chain.Length ==> chain[i] == ChainNode(0, "")
    {
      pid, comm, chainDepth := 0, "", 0;
      forall i | 0 <= i < chain.Length {
        chain[i] := ChainNode(0, "");
      }
    }
  }

  class Tracker {
    var whitelist: map<nat, WhitelistEntry>
    var tree: map<nat, TreeNode>
    var targets: set<string>

    function View(): State
      reads this
    {
      State(whitelist, tree, targets)
    }

    constructor (comms: set<string>)
      ensures View() == State(map[], map[], comms) && Inv(View())
    {
      whitelist, tree, targets := map[], map[], comms;
      new;
      EmptyInv(comms);
    }

    /** Write the chain of `pid` into the event, one ancestor per step, and its length. */
    method PackProcessChain(pid: nat, entry: WhitelistEntry, event: Event)
      requires event.chain.Length == MAX_CHAIN_DEPTH
      modifies event`chainDepth, event.chain
      ensures var c := Chain(tree, pid, event.comm, entry.root, MAX_CHAIN_DEPTH - 1);
              event.chainDepth == |c| && event.chain[..|c|] == c
              && event.chain[|c|..] == old(event.chain[..])[|c|..]
    {
      hide Ancestors;
      var currentPid := pid;
      event.chain[0] := ChainNode(currentPid, event.comm);
      var depth := 1;
      ghost var c := Chain(tree, pid, event.comm, entry.root, MAX_CHAIN_DEPTH - 1);
      if currentPid == entry.root || currentPid !in tree {
        event.chainDepth := depth;
        return;
      }
      currentPid := tree[currentPid].parent;
      while depth < MAX_CHAIN_DEPTH
        invariant 1 <= depth <= MAX_CHAIN_DEPTH
        invariant c == event.chain[..depth] + Ancestors(tree, currentPid, entry.root, MAX_CHAIN_DEPTH - depth)
        invariant event.chain[depth..] == old(event.chain[..])[depth..]
      {
        AncestorStep(tree, currentPid, entry.root, MAX_CHAIN_DEPTH - depth);
        if currentPid !in tree {
          break;
        }
        var node := tree[currentPid];
        ghost var before := event.chain[..depth];
        ghost var rest := event.chain[depth..];
        event.chain[depth] := ChainNode(currentPid, node.comm);
        assert event.chain[depth + 1..] == rest[1..];
        assert event.chain[..depth + 1] == before + [ChainNode(currentPid, node.comm)];
        depth := depth + 1;
        if currentPid == entry.root {
          break;
        }
        currentPid := node.parent;
      }
      event.chainDepth := depth;
    }

    method HandleRegister(pid: nat, comm: string)
      modifies this
      ensures View() == Apply(old(View()), Register(pid, comm))
      ensures pid in old(whitelist) || |old(whitelist)| < WHITELIST_MAX
              ==> whitelist == old(whitelist)[pid := WhitelistEntry(pid, 0)]
      ensures pid in old(tree) || |old(tree)| < TREE_MAX ==> tree == old(tree)[pid := TreeNode(pid, comm, 0)]
    {
      if pid in whitelist || |whitelist| < WHITELIST_MAX {
        whitelist := whitelist[pid := WhitelistEntry(pid, 0)];
      }
      if pid in tree || |tree| < TREE_MAX {
        tree := tree[pid := TreeNode(pid, comm, 0)];
      }
    }

    /** Track the child of a tracked parent, and report it with its chain. */
    method HandleFork(parent: nat, child: nat, comm: string, now: nat, event: Event) returns (reported: bool)
      requires event.chain.Length == MAX_CHAIN_DEPTH
      modifies this, event, event.chain
      ensures View() == Apply(old(View()), Fork(parent, child, comm, now))
      ensures parent !in old(whitelist) ==> whitelist == old(whitelist) && tree == old(tree)
      ensures parent in old(whitelist) && (child in old(whitelist) || |old(whitelist)| < WHITELIST_MAX)
              ==> var e := old(whitelist)[parent];
                  whitelist == old(whitelist)[child := WhitelistEntry(e.root, (e.depth + 1) % 256)]
      ensures parent in old(whitelist) && (child in old(tree) || |old(tree)| < TREE_MAX)
              ==> tree == old(tree)[child := TreeNode(parent, comm, now)]
      ensures reported <==> parent in old(whitelist)
      ensures reported ==>
                var c := Chain(tree, child, comm, old(whitelist)[parent].root, MAX_CHAIN_DEPTH - 1);
                && event.pid == child && event.comm == comm
                && event.chainDepth == |c| && event.chain[..|c|] == c
                && forall i :: |c| <= i < MAX_CHAIN_DEPTH ==> event.chain[i] == ChainNode(0, "")
    {
      if parent !in whitelist {
        return false;
      }
      var childEntry := WhitelistEntry(whitelist[parent].root, (whitelist[parent].depth + 1) % 256);
      if child in whitelist || |whitelist| < WHITELIST_MAX {
        whitelist := whitelist[child := childEntry];
      }
      if child in tree || |tree| < TREE_MAX {
        tree := tree[child := TreeNode(parent, comm, now)];
      }
      assert View() == Apply(old(View()), Fork(parent, child, comm, now));
      hide Ancestors, Chain, Apply;
      event.Clear();
      event.pid, event.comm := child, comm;
      ghost var cleared := event.chain[..];
      PackProcessChain(child, childEntry, event);
      ghost var n := event.chainDepth;
      assert forall i :: n <= i < MAX_CHAIN_DEPTH ==> event.chain[i] == cleared[n..][i - n];
      reported := true;
    }

    method HandleExec(pid: nat, comm: string, now: nat)
      modifies this
      ensures View() == Apply(old(View()), Exec(pid, comm, now))
      ensures pid in old(whitelist) ==> whitelist == old(whitelist)
      ensures pid in old(whitelist) && pid in old(tree) ==> tree == old(tree)[pid := old(tree)[pid].(comm := comm)]
      ensures pid !in old(whitelist) && comm !in targets ==> whitelist == old(whitelist) && tree == old(tree)
      ensures pid !in old(whitelist) && comm in targets && |old(whitelist)| < WHITELIST_MAX
              ==> whitelist == old(whitelist)[pid := WhitelistEntry(pid, 0)]
      ensures pid !in old(whitelist) && comm in targets && (pid in old(tree) || |old(tree)| < TREE_MAX)
              ==> tree == old(tree)[pid := TreeNode(0, comm, now)]
    {
      if pid in whitelist {
        if pid in tree {
          tree := tree[pid := tree[pid].(comm := comm)];
        }
        return;
      }
      if comm !in targets {
        return;
      }
      if |whitelist| < WHITELIST_MAX {
        whitelist := whitelist[pid := WhitelistEntry(pid, 0)];
      }
      if pid in tree || |tree| < TREE_MAX {
        tree := tree[pid := TreeNode(0, comm, now)];
      }
    }

    method HandleExit(pid: nat)
      modifies this
      ensures View() == Apply(old(View()), Exit(pid))
      ensures pid !in whitelist && whitelist == old(whitelist) - {pid}
      ensures tree == if pid in old(whitelist) then old(tree) - {pid} else old(tree)
      ensures targets == old(targets)
    {
      if pid !in whitelist {
        return;
      }
      whitelist := whitelist - {pid};
      tree := tree - {pid};
    }

    /** A system call by a tracked process is reported with its chain. */
    method HandleSyscall(pid: nat, comm: string, event: Event) returns (reported: bool)
      requires event.chain.Length == MAX_CHAIN_DEPTH
      modifies event, event.chain
      ensures reported <==> pid in whitelist
      ensures reported ==>
                var c := Chain(tree, pid, comm, whitelist[pid].root, MAX_CHAIN_DEPTH - 1);
                && event.pid == pid && event.comm == comm
                && event.chainDepth == |c| && event.chain[..|c|] == c
    {
      if pid !in whitelist {
        return false;
      }
      event.pid, event.comm := pid, comm;
      PackProcessChain(pid, whitelist[pid], event);
      reported := true;
    }
  }
}

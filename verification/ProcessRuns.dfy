/** What a run leaves in the two maps, told from its history alone: which processes are tracked,
    under which name, and where in the tree. */
module ProcessRuns {
  import opened ProcessTree

  // ----- The history -----

  /** Step `i` makes `p` a tracked process: it is registered, a tracked process forks it, or it
      executes a program of interest without being tracked. */
  ghost predicate EntersAt(targets: set<string>, steps: seq<Step>, i: nat, p: nat)
    requires i < |steps|
    decreases i, 1
  {
    match steps[i]
    case Register(q, _) => q == p
    case Fork(parent, child, _, _) => child == p && TrackedAfter(targets, steps, i, parent)
    case Exec(q, comm, _) => q == p && comm in targets && !TrackedAfter(targets, steps, i, p)
    case Exit(_) => false
  }

  /** Among the first `n` steps, `p` enters later than it exits. */
  ghost predicate TrackedAfter(targets: set<string>, steps: seq<Step>, n: nat, p: nat)
    requires n <= |steps|
    decreases n, 0
  {
    exists i: nat | i < n :: EntersAt(targets, steps, i, p) && NoExit(steps, i, n, p)
  }

  ghost predicate NoExit(steps: seq<Step>, i: nat, n: nat, p: nat)
    requires n <= |steps|
  {
    forall j :: i < j < n ==> steps[j] != Exit(p)
  }

  /** Step `i` gives `p` its name: it enters under it, or executes a program. */
  ghost predicate NamesAt(targets: set<string>, steps: seq<Step>, i: nat, p: nat)
    requires i < |steps|
  {
    EntersAt(targets, steps, i, p) || (steps[i].Exec? && steps[i].pid == p)
  }

  ghost predicate LastEntry(targets: set<string>, steps: seq<Step>, n: nat, p: nat, i: nat)
    requires i < n <= |steps|
  {
    EntersAt(targets, steps, i, p) && forall j :: i < j < n ==> !EntersAt(targets, steps, j, p)
  }

  ghost predicate LastNaming(targets: set<string>, steps: seq<Step>, n: nat, p: nat, i: nat)
    requires i < n <= |steps|
  {
    NamesAt(targets, steps, i, p) && forall j :: i < j < n ==> !NamesAt(targets, steps, j, p)
  }

  // ----- The maps -----

  /** The maps after the first `n` steps, starting from empty ones. */
  function After(targets: set<string>, steps: seq<Step>, n: nat): State
    requires n <= |steps|
  {
    Run(State(map[], map[], targets), steps[..n])
  }

  /** Every process that enters finds room in both maps. */
  ghost predicate Roomy(targets: set<string>, steps: seq<Step>) {
    forall i: nat | i < |steps| :: HasRoom(After(targets, steps, i), steps[i])
  }

  ghost predicate HasRoom(s: State, step: Step) {
    forall pid :: Enters(s, step, pid) ==>
      (pid in s.whitelist || |s.whitelist| < WHITELIST_MAX) && (pid in s.tree || |s.tree| < TREE_MAX)
  }

  /** What the maps hold of `p`: its place is that of its last entry `e`, its name that of its last naming `m`. */
  ghost predicate Recorded(targets: set<string>, steps: seq<Step>, n: nat, p: nat, e: nat, m: nat)
    requires e < n <= |steps| && m < n
  {
    var s := After(targets, steps, n);
    && LastEntry(targets, steps, n, p, e) && LastNaming(targets, steps, n, p, m)
    && p in s.whitelist && p in s.tree
    && match steps[e] {
         case Register(_, _) =>
           s.whitelist[p] == WhitelistEntry(p, 0) && s.tree[p] == TreeNode(p, steps[m].comm, 0)
         case Exec(_, _, now) =>
           s.whitelist[p] == WhitelistEntry(p, 0) && s.tree[p] == TreeNode(0, steps[m].comm, now)
         case Fork(parent, _, _, now) =>
           var before := After(targets, steps, e);
           && parent in before.whitelist
           && s.whitelist[p] == WhitelistEntry(before.whitelist[parent].root, (before.whitelist[parent].depth + 1) % 256)
           && s.tree[p] == TreeNode(parent, steps[m].comm, now)
         case Exit(_) => false
       }
  }

  // ----- One step -----

  /** The pid a step is about. */
  function Subject(step: Step): nat {
    if step.Fork? then step.child else step.pid
  }

  ghost predicate SameOf(s: State, t: State, p: nat) {
    && (p in s.whitelist <==> p in t.whitelist) && (p in s.whitelist ==> s.whitelist[p] == t.whitelist[p])
    && (p in s.tree <==> p in t.tree) && (p in s.tree ==> s.tree[p] == t.tree[p])
  }

  /** A step leaves all pids but its own as they were. */
  lemma OthersKept(s: State, step: Step, p: nat)
    requires p != Subject(step)
    ensures SameOf(s, Apply(s, step), p) && Apply(s, step).targets == s.targets
  {
  }

  // ----- Runs -----

  lemma {:induction false} RunSnoc(s: State, steps: seq<Step>, last: Step)
    ensures Run(s, steps + [last]) == Apply(Run(s, steps), last)
    decreases |steps|
  {
    if steps == [] {
      assert steps + [last] == [last];
      assert Run(Apply(s, last), []) == Apply(s, last);
    } else {
      assert (steps + [last])[1..] == steps[1..] + [last];
      RunSnoc(Apply(s, steps[0]), steps[1..], last);
    }
  }

  lemma AfterStep(targets: set<string>, steps: seq<Step>, n: nat)
    requires n < |steps|
    ensures After(targets, steps, n + 1) == Apply(After(targets, steps, n), steps[n])
  {
    assert steps[..n + 1] == steps[..n] + [steps[n]];
    RunSnoc(State(map[], map[], targets), steps[..n], steps[n]);
  }

  lemma TrackedStep(targets: set<string>, steps: seq<Step>, n: nat, p: nat)
    requires n < |steps|
    ensures TrackedAfter(targets, steps, n + 1, p)
            <==> EntersAt(targets, steps, n, p) || (TrackedAfter(targets, steps, n, p) && steps[n] != Exit(p))
  {
    if EntersAt(targets, steps, n, p) {
      assert NoExit(steps, n, n + 1, p);
    }
    if TrackedAfter(targets, steps, n, p) && steps[n] != Exit(p) {
      var i: nat :| i < n && EntersAt(targets, steps, i, p) && NoExit(steps, i, n, p);
      assert NoExit(steps, i, n + 1, p);
    }
    if TrackedAfter(targets, steps, n + 1, p) {
      var i: nat :| i < n + 1 && EntersAt(targets, steps, i, p) && NoExit(steps, i, n + 1, p);
      assert i < n ==> NoExit(steps, i, n, p);
    }
  }

  ghost predicate TrackedRight(targets: set<string>, steps: seq<Step>, n: nat, p: nat)
    requires n <= |steps|
  {
    var s := After(targets, steps, n);
    (p in s.whitelist <==> TrackedAfter(targets, steps, n, p)) && (p in s.tree <==> p in s.whitelist)
  }

  /** After any run that never finds a map full, a process is tracked if and only if it entered
      later than it last exited, and both maps hold exactly the tracked processes. */
  lemma {:induction false} TrackedIffEntered(targets: set<string>, steps: seq<Step>, n: nat)
    requires n <= |steps| && Roomy(targets, steps)
    ensures After(targets, steps, n).targets == targets
    ensures forall p {:trigger TrackedRight(targets, steps, n, p)} :: TrackedRight(targets, steps, n, p)
  {
    if n == 0 {
      forall p ensures TrackedRight(targets, steps, n, p) {
        assert After(targets, steps, 0) == State(map[], map[], targets);
      }
    } else {
      var k := n - 1;
      TrackedIffEntered(targets, steps, k);
      AfterStep(targets, steps, k);
      forall p ensures TrackedRight(targets, steps, n, p) {
        TrackedOne(targets, steps, k, p);
      }
      OthersKept(After(targets, steps, k), steps[k], Subject(steps[k]) + 1);
    }
  }

  lemma TrackedOne(targets: set<string>, steps: seq<Step>, k: nat, p: nat)
    requires k < |steps| && Roomy(targets, steps) && After(targets, steps, k).targets == targets
    requires forall q {:trigger TrackedRight(targets, steps, k, q)} :: TrackedRight(targets, steps, k, q)
    ensures TrackedRight(targets, steps, k + 1, p)
  {
    hide After, TrackedAfter;
    var s, step := After(targets, steps, k), steps[k];
    AfterStep(targets, steps, k);
    TrackedStep(targets, steps, k, p);
    assert TrackedRight(targets, steps, k, p);
    assert step.Fork? ==> TrackedRight(targets, steps, k, step.parent);
    assert HasRoom(s, step);
    assert Enters(s, step, p) <==> EntersAt(targets, steps, k, p);
    if p != Subject(step) {
      OthersKept(s, step, p);
    }
  }

  /** ... and each tracked process stands where its last entry put it, under the name of its last
      fork, exec or registration. */
  lemma {:induction false} TrackedAsRecorded(targets: set<string>, steps: seq<Step>, n: nat, p: nat) returns (e: nat, m: nat)
    requires n <= |steps| && Roomy(targets, steps) && p in After(targets, steps, n).whitelist
    ensures e < n && m < n && Recorded(targets, steps, n, p, e, m)
  {
    hide After, TrackedAfter;
    TrackedIffEntered(targets, steps, n);
    assert TrackedRight(targets, steps, n, p);
    if n == 0 {
      NothingYet(targets, steps, p);
    } else {
      var k := n - 1;
      var s, step := After(targets, steps, k), steps[k];
      TrackedIffEntered(targets, steps, k);
      AfterStep(targets, steps, k);
      TrackedStep(targets, steps, k, p);
      assert TrackedRight(targets, steps, k, p);
      assert step.Fork? ==> TrackedRight(targets, steps, k, step.parent);
      assert HasRoom(s, step);
      if EntersAt(targets, steps, k, p) {
        assert Enters(s, step, p);
        e, m := k, k;
      } else {
        e, m := TrackedAsRecorded(targets, steps, k, p);
        if p != Subject(step) {
          OthersKept(s, step, p);
        } else if step.Exec? {
          m := k;
        }
        assert NamesAt(targets, steps, k, p) ==> m == k;
      }
    }
  }

  lemma NothingYet(targets: set<string>, steps: seq<Step>, p: nat)
    ensures p !in After(targets, steps, 0).whitelist
  {
  }

  /** Admissible runs are such runs. */
  lemma AdmissibleIsRoomy(targets: set<string>, steps: seq<Step>)
    requires AdmissibleRun(State(map[], map[], targets), steps)
    ensures Roomy(targets, steps)
  {
    forall i: nat | i < |steps| ensures HasRoom(After(targets, steps, i), steps[i]) {
      AdmissibleAt(State(map[], map[], targets), steps, i);
    }
  }

  lemma {:induction false} AdmissibleAt(s: State, steps: seq<Step>, i: nat)
    requires i < |steps| && AdmissibleRun(s, steps)
    ensures Admissible(Run(s, steps[..i]), steps[i])
    decreases i
  {
    if i > 0 {
      AdmissibleAt(Apply(s, steps[0]), steps[1..], i - 1);
      assert steps[..i][1..] == steps[1..][..i - 1];
    }
  }
}

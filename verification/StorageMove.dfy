/** The storage migration itself: the recursive move, run one filesystem step at a
    time on a disk that records every state a crash could expose. */
module StorageMove {
  import opened NameOrder
  import opened StorageTree

  const READ_BUFFER := 65536

  // Nothing else is below it.
  predicate IsLeaf(p: Path, paths: set<Path>) {
    p in paths && forall q :: q in paths && Under(p, q) ==> q == p
  }

  lemma LeafExists(paths: set<Path>) returns (p: Path)
    requires paths != {}
    ensures IsLeaf(p, paths)
  {
    p := DeepestExists(paths);
    forall q | q in paths && Under(p, q) ensures q == p { assert q[..|p|] == q; }
  }

  lemma DeepestExists(paths: set<Path>) returns (p: Path)
    requires paths != {}
    ensures p in paths && forall q :: q in paths ==> |q| <= |p|
  {
    p :| p in paths;
    var rest := paths - {p};
    assert paths == rest + {p};
    if rest != {} {
      var q := DeepestExists(rest);
      if |p| < |q| { p := q; }
    }
  }

  /** Compares two files one buffer at a time, giving up at the first difference. */
  method FilesEqual(left: seq<nat>, right: seq<nat>) returns (equal: bool)
    ensures equal <==> left == right
  {
    if |left| != |right| {
      return false;
    }
    var at := 0;
    while true
      invariant 0 <= at <= |left| && left[..at] == right[..at]
      decreases |left| - at
    {
      var n := if |left| - at < READ_BUFFER then |left| - at else READ_BUFFER;
      if left[at..at + n] != right[at..at + n] {
        return false;
      }
      if n == 0 {
        assert left == left[..at] && right == right[..at];
        return true;
      }
      assert left[..at + n] == left[..at] + left[at..at + n];
      assert right[..at + n] == right[..at] + right[at..at + n];
      at := at + n;
    }
  }

  function Cleared(t: Tree, q: Path): (u: Tree) {
    map p | p in t && !Under(q, p) :: t[p]
  }

  // The tree after one file has been renamed, or copied through its pending path.
  ghost function MovedFile(r: Route, t: Tree, x: Path): (u: Tree)
    requires ValidRoute(r) && Under(r.from, x) && x in t
  {
    var d := Dst(r, x);
    if r.renames(x) then (t - {x})[d := t[x]]
    else Cleared(t, PendingOf(d))[d := t[x]] - {x}
  }

  ghost predicate ParentReady(t: Tree, d: Path)
    requires d != []
  {
    d[..|d| - 1] in t && t[d[..|d| - 1]].Dir?
  }

  ghost predicate DepthWithin(t: Tree, s: Path, depth: nat) {
    forall p :: p in t && Under(s, p) ==> |p| <= |s| + depth
  }

  // Since the disk held `t` with history `past`, every state is a step away from `t`.
  ghost predicate RunFrom(r: Route, t: Tree, past: seq<Tree>, tree: Tree, trace: seq<Tree>) {
    && ValidRoute(r)
    && |past| <= |trace| && trace[..|past|] == past && trace != [] && trace[|trace| - 1] == tree
    && (forall i :: |past| <= i < |trace| ==> Step(r, t, trace[i]))
    && Step(r, t, tree)
  }

  // Later states of a run that began at `t1` belong to the run that began at `t0`.
  lemma Compose(r: Route, t0: Tree, past0: seq<Tree>, t1: Tree, past1: seq<Tree>, tree: Tree, trace: seq<Tree>)
    requires Inv(r, t0) && RunFrom(r, t0, past0, t1, past1) && RunFrom(r, t1, past1, tree, trace)
    ensures RunFrom(r, t0, past0, tree, trace)
  {
    StepTrans(r, t0, t1, tree);
    forall i | |past0| <= i < |trace| ensures Step(r, t0, trace[i]) {
      if i < |past1| {
        assert trace[i] == trace[..|past1|][i];
      } else {
        StepTrans(r, t0, t1, trace[i]);
      }
    }
    assert trace[..|past0|] == trace[..|past1|][..|past0|];
  }

  // ---- The states of a copy -----------------------------------------------------------------

  // Only entries at or below `q` are gone.
  ghost predicate Pruned(q: Path, t: Tree, u: Tree) {
    WellFormed(u) && SameBesides(q, t, u) && forall p :: p in u ==> p in t && u[p] == t[p]
  }

  ghost predicate Pruning(q: Path, t: Tree, past: seq<Tree>, trace: seq<Tree>) {
    past <= trace && forall i :: |past| <= i < |trace| ==> Pruned(q, t, trace[i])
  }

  // The file at `q` grows byte by byte.
  ghost predicate Growing(q: Path, bytes: seq<nat>, t: Tree, past: seq<Tree>, trace: seq<Tree>, n: nat) {
    && n <= |bytes| && past <= trace && |trace| == |past| + n + 1
    && forall k :: 0 <= k <= n ==> trace[|past| + k] == t[q := File(bytes[..k])]
  }

  // First the pending path is cleared, if there is something; from state `m` on it is filled.
  ghost predicate Staging(q: Path, bytes: seq<nat>, t: Tree, past: seq<Tree>, trace: seq<Tree>, m: nat) {
    && past <= trace && |past| <= m && |trace| == m + |bytes| + 1
    && (forall i :: |past| <= i < m ==> Pruned(q, t, trace[i]))
    && (if q in t then |past| < m && trace[m - 1] == Cleared(t, q) else m == |past|)
    && (forall k :: 0 <= k <= |bytes| ==> trace[m + k] == Cleared(t, q)[q := File(bytes[..k])])
  }

  // Then the copy becomes the destination, and the source goes.
  ghost predicate CopyTrace(r: Route, t: Tree, x: Path, past: seq<Tree>, trace: seq<Tree>, m: nat)
    requires ValidRoute(r) && Under(r.from, x) && x in t && t[x].File?
  {
    var q, d := PendingOf(Dst(r, x)), Dst(r, x);
    && |trace| == m + |t[x].bytes| + 3
    && Staging(q, t[x].bytes, t, past, trace[..|trace| - 2], m)
    && trace[|trace| - 2] == Cleared(t, q)[d := t[x]]
    && trace[|trace| - 1] == Cleared(t, q)[d := t[x]] - {x}
  }

  lemma PrunedSelf(q: Path, t: Tree)
    requires WellFormed(t)
    ensures Pruned(q, t, t)
  {
  }

  lemma PruneLeaf(q: Path, t: Tree, u: Tree, p: Path, rest: set<Path>)
    requires Pruned(q, t, u) && IsLeaf(p, rest) && rest == set c | c in u && Under(q, c)
    ensures Pruned(q, t, u - {p})
    ensures rest - {p} == set c | c in u - {p} && Under(q, c)
  {
    forall c | c in u && Under(p, c) ensures c == p {
      UnderTrans(q, p, c);
      assert c in rest;
    }
    ShrinkWellFormed(u, p);
  }

  lemma AllPruned(q: Path, t: Tree, u: Tree, rest: set<Path>)
    requires Pruned(q, t, u) && rest == {} && rest == set c | c in u && Under(q, c)
    ensures WellFormed(u) && u == Cleared(t, q)
  {
    assert forall p :: p in u && Under(q, p) ==> p in rest;
  }

  lemma NothingPending(q: Path, t: Tree, past: seq<Tree>)
    requires WellFormed(t) && q !in t
    ensures Cleared(t, q) == t && Pruning(q, t, past, past)
  {
    forall p | p in t && Under(q, p) ensures false { PrefixIn(t, q, p); }
  }

  lemma StagingIs(q: Path, bytes: seq<nat>, t: Tree, past: seq<Tree>, pruned: seq<Tree>, trace: seq<Tree>)
    requires Pruning(q, t, past, pruned) && Growing(q, bytes, Cleared(t, q), pruned, trace, |bytes|)
    requires if q in t then |past| < |pruned| && pruned[|pruned| - 1] == Cleared(t, q) else pruned == past
    ensures Staging(q, bytes, t, past, trace, |pruned|)
  {
    hide Pruned;
  }

  lemma CopyTraceIs(r: Route, t: Tree, x: Path, past: seq<Tree>, staged: seq<Tree>, trace: seq<Tree>, m: nat)
    requires ValidRoute(r) && Under(r.from, x) && x in t && t[x].File?
    requires Staging(PendingOf(Dst(r, x)), t[x].bytes, t, past, staged, m)
    requires var u := Cleared(t, PendingOf(Dst(r, x)))[Dst(r, x) := t[x]]; trace == staged + [u] + [u - {x}]
    ensures CopyTrace(r, t, x, past, trace, m) && past < trace
  {
    hide Staging;
    assert trace[..|trace| - 2] == staged;
    StagingExtends(PendingOf(Dst(r, x)), t[x].bytes, t, past, staged, m);
  }

  lemma StagingExtends(q: Path, bytes: seq<nat>, t: Tree, past: seq<Tree>, trace: seq<Tree>, m: nat)
    requires Staging(q, bytes, t, past, trace, m)
    ensures past <= trace && |trace| == m + |bytes| + 1
  {
  }

  // Every state of a copy keeps the goal.
  lemma {:induction false} CopySteps(r: Route, t: Tree, x: Path, past: seq<Tree>, trace: seq<Tree>, m: nat)
    requires Inv(r, t) && Copies(r, t, x) && ParentReady(t, Dst(r, x)) && CopyTrace(r, t, x, past, trace, m)
    ensures forall i :: |past| <= i < |trace| ==> Step(r, t, trace[i])
  {
    hide Step, Pruned, Stays, NoClash, WellFormed;
    var q, b, staged := PendingOf(Dst(r, x)), t[x].bytes, trace[..|trace| - 2];
    CommitSteps(r, t, x);
    forall i | |past| <= i < |trace| ensures Step(r, t, trace[i]) {
      if i < m {
        assert trace[i] == staged[i];
        PrunedStep(r, t, x, trace[i]);
      } else if i <= m + |b| {
        assert trace[i] == staged[m + (i - m)];
        StagedStep(r, t, x, i - m);
      }
    }
  }

  lemma PrunedStep(r: Route, t: Tree, x: Path, u: Tree)
    requires Inv(r, t) && Copies(r, t, x) && Pruned(PendingOf(Dst(r, x)), t, u)
    ensures Step(r, t, u)
  {
    TouchPending(r, t, x, u);
  }

  lemma StagedStep(r: Route, t: Tree, x: Path, k: nat)
    requires Inv(r, t) && Copies(r, t, x) && ParentReady(t, Dst(r, x)) && k <= |t[x].bytes|
    ensures Step(r, t, Staged(r, t, x, k))
  {
    hide Step, NoClash, Stays;
    var d := Dst(r, x);
    var q := PendingOf(d);
    PendingFacts(r, x);
    ClearedWellFormed(t, q);
    assert !Under(q, q[..|q| - 1]) && Under(q, q);
    GrowWellFormed(Cleared(t, q), q, File(t[x].bytes[..k]));
    TouchPending(r, t, x, Staged(r, t, x, k));
  }

  // ---- In terms of paths and names alone ------------------------------------------------------

  // The entry at `rest` below the source has to stay: it is retained, or a lock.
  ghost predicate Pinned(r: Route, rest: Path) {
    rest != [] && (r.from + rest in r.retained || exists n: string :: rest[|rest| - 1] == n + ".authority.lock")
  }

  ghost predicate PinnedAbove(r: Route, rest: Path) { exists k :: 0 < k <= |rest| && Pinned(r, rest[..k]) }

  // What stays is untouched, with all that is below it, in the directory where it was; the
  // other entries are whole at one of their two places.
  ghost predicate PinKept(r: Route, t: Tree, u: Tree, rest: Path) {
    var p, d := r.from + rest, r.to + rest;
    p in t ==>
      if PinnedAbove(r, rest) then
        && p in u && u[p] == t[p] && rest != []
        && r.from + rest[..|rest| - 1] in u && u[r.from + rest[..|rest| - 1]].Dir?
      else (p in u && u[p] == t[p]) || (d in u && u[d] == t[p])
  }

  ghost predicate PinsKept(r: Route, t: Tree, u: Tree) { forall rest: Path :: PinKept(r, t, u, rest) }

  // Everything else is at its destination, and at the source only to hold what stays. What
  // stays has not been copied.
  ghost predicate Arrived(r: Route, t: Tree, u: Tree, rest: Path) {
    var p, d := r.from + rest, r.to + rest;
    p in t ==>
      if PinnedAbove(r, rest) then d in u ==> d in t && u[d] == t[d]
      else
        && d in u && u[d] == t[p]
        && (p in u ==> exists more: Path :: rest <= more && r.from + more in t && PinnedAbove(r, more))
  }

  ghost predicate AllArrived(r: Route, t: Tree, u: Tree) { forall rest: Path :: Arrived(r, t, u, rest) }

  lemma SkippedIsPinned(r: Route, rest: Path)
    requires rest != []
    ensures Skipped(r, r.from + rest) <==> Pinned(r, rest)
  {
    var p, name, suffix := r.from + rest, rest[|rest| - 1], ".authority.lock";
    assert p[|p| - 1] == name;
    if EndsWith(name, suffix) { assert name == name[..|name| - |suffix|] + suffix; }
    if n: string :| name == n + suffix { assert name[|name| - |suffix|..] == suffix; }
  }

  lemma KeptIsPinned(r: Route, rest: Path)
    ensures Under(r.from, r.from + rest) && Dst(r, r.from + rest) == r.to + rest
    ensures Kept(r, r.from + rest) <==> PinnedAbove(r, rest)
  {
    var p := r.from + rest;
    forall k | 0 < k <= |rest| ensures Skipped(r, p[..|r.from| + k]) <==> Pinned(r, rest[..k]) {
      assert p[..|r.from| + k] == r.from + rest[..k];
      SkippedIsPinned(r, rest[..k]);
    }
    if Kept(r, p) {
      var k :| |r.from| < k <= |p| && Skipped(r, p[..k]);
      assert Pinned(r, rest[..k - |r.from|]);
    }
    if PinnedAbove(r, rest) {
      var k :| 0 < k <= |rest| && Pinned(r, rest[..k]);
      assert Skipped(r, p[..|r.from| + k]);
    }
  }

  lemma StepKeepsPin(r: Route, t: Tree, u: Tree, rest: Path)
    requires WellFormed(u) && Evolves(r, t, u) && CrashSafe(r, t, u)
    ensures PinKept(r, t, u, rest)
  {
    hide Kept;
    KeptIsPinned(r, rest);
    var p := r.from + rest;
    if PinnedAbove(r, rest) && p in t { assert p[..|p| - 1] == r.from + rest[..|rest| - 1]; }
  }

  lemma {:induction false} StepKeepsPins(r: Route, t: Tree, u: Tree)
    requires Inv(r, t) && Step(r, t, u)
    ensures PinsKept(r, t, u)
  {
    hide PinKept, Evolves, CrashSafe, WellFormed, NoClash;
    GoalIsCrashSafe(r, t, u);
    forall rest: Path ensures PinKept(r, t, u, rest) { StepKeepsPin(r, t, u, rest); }
  }

  // In every state of a run what is to stay has stayed.
  ghost predicate RunPins(r: Route, t: Tree, past: seq<Tree>, tree: Tree, trace: seq<Tree>) {
    PinsKept(r, t, tree) && forall i :: |past| <= i < |trace| ==> PinsKept(r, t, trace[i])
  }

  lemma {:induction false} RunKeepsPins(r: Route, t: Tree, past: seq<Tree>, tree: Tree, trace: seq<Tree>)
    requires Inv(r, t) && RunFrom(r, t, past, tree, trace)
    ensures RunPins(r, t, past, tree, trace)
  {
    hide PinsKept, Inv, Step;
    StepKeepsPins(r, t, tree);
    forall i | |past| <= i < |trace| ensures PinsKept(r, t, trace[i]) { StepKeepsPins(r, t, trace[i]); }
  }

  lemma FinishedHas(r: Route, t: Tree, u: Tree, rest: Path)
    requires Evolves(r, t, u) && CrashSafe(r, t, u) && Finished(r, u)
    requires r.from + rest in t && !PinnedAbove(r, rest)
    ensures Arrived(r, t, u, rest)
  {
    hide Kept, PinnedAbove;
    KeptIsPinned(r, rest);
    var p := r.from + rest;
    if p in u {
      var q :| q in u && Under(p, q) && Kept(r, q);
      UnderTrans(r.from, p, q);
      var more := q[|r.from|..];
      assert q == r.from + more && more[..|rest|] == rest;
      KeptIsPinned(r, more);
    }
  }

  lemma {:induction false} FinishedArrived(r: Route, t: Tree, u: Tree)
    requires Inv(r, t) && Step(r, t, u) && Finished(r, u) && IsGoal(r, t, u)
    ensures AllArrived(r, t, u)
  {
    hide Kept, PinnedAbove, SameGoal, NoClash, IsGoal, CrashSafe, Finished, Evolves;
    GoalIsCrashSafe(r, t, u);
    forall rest: Path ensures Arrived(r, t, u, rest) {
      if r.from + rest in t {
        KeptIsPinned(r, rest);
        if !PinnedAbove(r, rest) {
          FinishedHas(r, t, u, rest);
        } else if r.to + rest in u {
          KeptStaysPut(r, t, u, r.from + rest);
        }
      }
    }
  }

  lemma KeptStaysPut(r: Route, t: Tree, u: Tree, p: Path)
    requires ValidRoute(r) && IsGoal(r, t, u) && Under(r.from, p) && p in t && Kept(r, p) && Dst(r, p) in u
    ensures Dst(r, p) in t && u[Dst(r, p)] == t[Dst(r, p)]
  {
    KeptStays(r, t, p);
    SrcOfDst(r, p);
    Apart(r, Dst(r, p));
    assert InGoal(r, t, Dst(r, p));
  }

  class Disk {
    var tree: Tree
    // Every state the disk has been in, oldest first: where a crash can stop it.
    ghost var trace: seq<Tree>

    constructor (initial: Tree)
      ensures tree == initial && trace == [initial]
    {
      tree := initial;
      trace := [initial];
    }

    // One atomic filesystem operation.
    method Apply(next: Tree)
      modifies this
      ensures tree == next && trace == old(trace) + [next]
    {
      tree := next;
      trace := trace + [next];
    }

    // Every state since position `n` is a step away from `t` on this route.
    ghost predicate Steps(r: Route, t: Tree, n: nat)
      requires ValidRoute(r)
      reads this
    {
      forall i :: n <= i < |trace| ==> Step(r, t, trace[i])
    }

    // remove_path on the pending path: any entry with nothing below it may go next.
    method RemoveTree(q: Path)
      requires WellFormed(tree)
      modifies this
      ensures Pruning(q, old(tree), old(trace), trace) && WellFormed(tree) && tree == Cleared(old(tree), q)
      ensures q in old(tree) ==> |old(trace)| < |trace| && trace[|trace| - 1] == tree
    {
      hide Pruned;
      PrunedSelf(q, tree);
      var rest := set p | p in tree && Under(q, p);
      while rest != {}
        invariant Pruning(q, old(tree), old(trace), trace) && Pruned(q, old(tree), tree)
        invariant rest == set p | p in tree && Under(q, p)
        invariant tree == old(tree) || (|old(trace)| < |trace| && trace[|trace| - 1] == tree)
        decreases rest
      {
        ghost var leaf := LeafExists(rest);
        var p :| p in rest && IsLeaf(p, rest);
        PruneLeaf(q, old(tree), tree, p, rest);
        Apply(tree - {p});
        rest := rest - {p};
      }
      AllPruned(q, old(tree), tree, rest);
    }

    // fs::copy: the pending file grows from empty to the whole of the source.
    method CopyFile(q: Path, bytes: seq<nat>)
      modifies this
      ensures Growing(q, bytes, old(tree), old(trace), trace, |bytes|)
      ensures tree == old(tree)[q := File(bytes)]
    {
      Apply(tree[q := File([])]);
      var n := 0;
      while n < |bytes|
        invariant 0 <= n <= |bytes|
        invariant Growing(q, bytes, old(tree), old(trace), trace, n)
        invariant tree == old(tree)[q := File(bytes[..n])]
      {
        n := n + 1;
        Apply(tree[q := File(bytes[..n])]);
      }
      assert bytes[..n] == bytes;
    }

    /** The file half of move_path: rename, or copy to the pending path, rename that
        into place and delete the source. */
    method MoveFile(r: Route, x: Path) returns (ghost m: nat)
      requires ValidRoute(r) && WellFormed(tree) && Under(r.from, x) && x in tree && tree[x].File?
      requires Dst(r, x) !in tree && ParentReady(tree, Dst(r, x))
      requires r.renames(x) || !Under(PendingOf(Dst(r, x)), x)
      modifies this
      ensures old(trace) < trace && trace[|trace| - 1] == tree && tree == MovedFile(r, old(tree), x)
      ensures if r.renames(x) then trace == old(trace) + [tree] else CopyTrace(r, old(tree), x, old(trace), trace, m)
      ensures Inv(r, old(tree)) && Moves(r, old(tree), x) ==> Steps(r, old(tree), |old(trace)|)
    {
      hide Step, Stays, Kept, WellFormed, NoClash, Growing, Pruning;
      var d := Dst(r, x);
      ghost var t, past := tree, trace;
      ghost var safe := Inv(r, t) && Moves(r, t, x);
      SrcOfDst(r, x);
      Apart(r, d);
      m := 0;
      if r.renames(x) {
        if safe { RenameSteps(r, t, x); }
        Apply((tree - {x})[d := tree[x]]);
        return;
      }
      var q := PendingOf(d);
      PendingFacts(r, x);
      m := Stage(q, tree[x].bytes);
      ghost var staged := trace;
      Commit(t, q, d, x);
      Apply(tree - {x});
      CopyTraceIs(r, t, x, past, staged, trace, m);
      if safe { CopySteps(r, t, x, past, trace, m); }
    }

    // The pending path is emptied and then holds a full copy.
    method Stage(q: Path, bytes: seq<nat>) returns (ghost m: nat)
      requires WellFormed(tree)
      modifies this
      ensures Staging(q, bytes, old(tree), old(trace), trace, m)
      ensures tree == Cleared(old(tree), q)[q := File(bytes)]
    {
      hide Growing, Pruning;
      ghost var t, past := tree, trace;
      if q in tree {
        RemoveTree(q);
      } else {
        NothingPending(q, t, past);
      }
      ghost var pruned := trace;
      m := |trace|;
      CopyFile(q, bytes);
      StagingIs(q, bytes, t, past, pruned, trace);
    }

    // The pending file becomes the destination.
    method Commit(ghost t: Tree, q: Path, d: Path, x: Path)
      requires x in t && q != d && !Under(q, d) && Under(q, q) && tree == Cleared(t, q)[q := t[x]]
      modifies this
      ensures tree == Cleared(t, q)[d := t[x]] && trace == old(trace) + [tree]
    {
      var next := (tree - {q})[d := tree[q]];
      assert next == Cleared(t, q)[d := t[x]];
      Apply(next);
    }

    // read_dir, sorted by file name.
    method Entries(s: Path) returns (names: seq<Name>)
      ensures SortedNames(names)
      ensures forall n :: n in names <==> s + [n] in tree
    {
      var rest := set p | p in tree && |p| == |s| + 1 && Under(s, p) :: p[|s|];
      ghost var all := rest;
      names := [];
      while rest != {}
        invariant SortedNames(names)
        invariant forall n, m :: n in names && m in rest ==> Before(n, m)
        invariant forall n :: n in all <==> n in names || n in rest
        decreases rest
      {
        ghost var least := LeastExists(rest);
        var n :| n in rest && IsLeast(n, rest);
        assert IsLeast(n, rest);
        names := names + [n];
        rest := rest - {n};
      }
      forall n ensures n in names <==> s + [n] in tree {
        var p := s + [n];
        if n in all {
          var c :| c in tree && |c| == |s| + 1 && Under(s, c) && c[|s|] == n;
          assert c == c[..|s|] + [c[|s|]];
        }
        assert p[|s|] == n && p[..|s|] == s;
      }
    }

    ghost predicate Ran(r: Route, t: Tree, past: seq<Tree>)
      reads this
    {
      RunFrom(r, t, past, tree, trace)
    }

    method Take(r: Route, ghost t: Tree, ghost past: seq<Tree>, next: Tree)
      requires Ran(r, t, past) && Inv(r, t) && Step(r, tree, next)
      modifies this
      ensures Ran(r, t, past) && tree == next
    {
      StepTrans(r, t, tree, next);
      Apply(next);
    }

    method CreateDir(r: Route, s: Path, d: Path, k: nat, ghost t: Tree, ghost past: seq<Tree>) returns (ok: bool)
      requires Inv(r, t) && Ran(r, t, past) && Under(r.from, s) && s in tree && !Kept(r, s)
      requires DirTarget(r, tree, s, d) && (s != r.from ==> ParentReady(tree, Dst(r, s)))
      requires k < |d| && d[..k] in tree && tree[d[..k]].Dir?
      modifies this
      ensures Ran(r, t, past)
      ensures forall p :: p in old(tree) ==> p in tree && tree[p] == old(tree)[p]
      ensures ok ==> d[..k + 1] in tree && tree[d[..k + 1]].Dir?
      ensures Unobstructed(r, t) ==> ok
    {
      var e := d[..k + 1];
      if e in tree && tree[e].File? {
        if Unobstructed(r, t) {
          StaysUnobstructed(r, t, tree);
          BlockedPrefix(r, tree, s, d, k + 1);
        }
        return false;
      }
      if e !in tree {
        MakeStep(r, tree, s, d, k + 1);
        Take(r, t, past, tree[e := Dir]);
      }
      return true;
    }

    /** create_dir_all on the way to the destination of `s`, top down. */
    method CreateDirAll(r: Route, s: Path, d: Path, ghost t: Tree, ghost past: seq<Tree>) returns (ok: bool)
      requires Inv(r, t) && Ran(r, t, past) && Under(r.from, s) && s in tree && !Kept(r, s)
      requires DirTarget(r, tree, s, d) && (s != r.from ==> ParentReady(tree, Dst(r, s)))
      modifies this
      ensures Ran(r, t, past)
      ensures forall p :: p in old(tree) ==> p in tree && tree[p] == old(tree)[p]
      ensures ok ==> d in tree && tree[d].Dir?
      ensures Unobstructed(r, t) ==> ok
    {
      hide Step, RunFrom, Kept, NoClash, Unobstructed, Inv;
      RunFacts(r, t, past, tree, trace);
      InvFacts(r, tree);
      PrefixIn(tree, [], s);
      var k := 0;
      while k < |d|
        invariant 0 <= k <= |d| && Ran(r, t, past)
        invariant forall p :: p in old(tree) ==> p in tree && tree[p] == old(tree)[p]
        invariant d[..k] in tree && tree[d[..k]].Dir?
      {
        ok := CreateDir(r, s, d, k, t, past);
        if !ok {
          return;
        }
        k := k + 1;
      }
      assert d[..|d|] == d;
      return true;
    }

    /** move_path: one entry, file or directory, onto its destination. */
    method MovePath(r: Route, s: Path, ghost depth: nat) returns (ok: bool)
      requires Inv(r, tree) && trace != [] && trace[|trace| - 1] == tree
      requires Under(r.from, s) && s in tree && !Kept(r, s) && ParentReady(tree, Dst(r, s))
      requires DepthWithin(tree, s, depth)
      modifies this
      ensures Ran(r, old(tree), old(trace))
      ensures SourceFrame(r, old(tree), tree, s)
      ensures ok ==> FinishedUnder(r, tree, s)
      ensures Unobstructed(r, old(tree)) ==> ok
      decreases depth, 1
    {
      hide Inv, Step, RunFrom, Kept, FinishedUnder, Unobstructed;
      InvFacts(r, tree);
      RunRefl(r, tree, trace);
      var d := Dst(r, s);
      if tree[s].Dir? && d !in tree {
        ok := MoveDirectoryContents(r, s, depth);
        return;
      }
      if d in tree {
        if tree[s].Dir? && tree[d].Dir? {
          ok := MoveDirectoryContents(r, s, depth);
          return;
        }
        if tree[s].File? && tree[d].File? {
          var equal := FilesEqual(tree[s].bytes, tree[d].bytes);
          if equal {
            DropDuplicate(r, s);
            return true;
          }
        }
        ConflictObstructs(r, tree, s);
        return false;
      }
      MoveFileEntry(r, s);
      return true;
    }

    // The destination already holds the same bytes.
    method DropDuplicate(r: Route, s: Path)
      requires Inv(r, tree) && trace != [] && trace[|trace| - 1] == tree
      requires Under(r.from, s) && s in tree && tree[s].File? && !Kept(r, s) && Paired(r, tree, s)
      modifies this
      ensures Ran(r, old(tree), old(trace)) && SourceFrame(r, old(tree), tree, s) && FinishedUnder(r, tree, s)
    {
      hide Step, RunFrom, Kept, FinishedUnder, NoClash;
      ghost var t := tree;
      RunRefl(r, tree, trace);
      SrcOfDst(r, s);
      assert ParentReady(t, Dst(r, s)) by { var d := Dst(r, s); assert d[..|d| - 1] in t; }
      NotStays(r, t, s);
      StepRefl(r, t);
      SettleSource(r, t, t, s);
      assert s[..|s|] == s;
      Take(r, t, trace, tree - {s});
      StepFacts(r, t, tree);
      GoneIsFinished(r, tree, s);
    }

    method MoveFileEntry(r: Route, s: Path)
      requires Inv(r, tree) && trace != [] && trace[|trace| - 1] == tree
      requires Under(r.from, s) && s in tree && tree[s].File? && !Kept(r, s)
      requires Dst(r, s) !in tree && ParentReady(tree, Dst(r, s))
      modifies this
      ensures Ran(r, old(tree), old(trace)) && SourceFrame(r, old(tree), tree, s) && FinishedUnder(r, tree, s)
    {
      ghost var t := tree;
      NotStays(r, t, s);
      PendingApartFile(r, t, s);
      var _ := MoveFile(r, s);
      assert trace[|trace| - 1] == tree;
      FileMoved(r, t, s);
      GoneIsFinished(r, tree, s);
    }

    /** move_directory_contents: every entry in name order, then the directory itself
        unless something had to stay. */
    method MoveDirectoryContents(r: Route, s: Path, ghost depth: nat) returns (ok: bool)
      requires Inv(r, tree) && trace != [] && trace[|trace| - 1] == tree
      requires Under(r.from, s) && !Kept(r, s)
      requires s in tree && s != r.from ==> ParentReady(tree, Dst(r, s))
      requires DepthWithin(tree, s, depth)
      modifies this
      ensures Ran(r, old(tree), old(trace)) && RunPins(r, old(tree), old(trace), tree, trace)
      ensures SourceFrame(r, old(tree), tree, s)
      ensures ok ==> FinishedUnder(r, tree, s)
      ensures Unobstructed(r, old(tree)) && (s in old(tree) ==> old(tree)[s].Dir?) ==> ok
      decreases depth, 0, 1
    {
      hide RunPins, Inv, Step, RunFrom, Kept, FinishedUnder, Unobstructed, Progress, WellFormed, NoClash, Evolves;
      ghost var t, past := tree, trace;
      InvFacts(r, tree);
      RunRefl(r, tree, trace);
      FrameRefl(r, tree, s);
      if s !in tree {
        GoneIsFinished(r, tree, s);
        RunKeepsPins(r, t, past, tree, trace);
        return true;
      }
      if !tree[s].Dir? {
        RunKeepsPins(r, t, past, tree, trace);
        return false;
      }
      var d := Dst(r, s);
      ok := CreateDirAll(r, s, d, t, past);
      if !ok {
        RunKeepsPins(r, t, past, tree, trace);
        return;
      }
      RunFacts(r, t, past, tree, trace);
      StepFacts(r, t, tree);
      GrewFrame(r, t, tree, s, depth);
      var names := Entries(s);
      FreshListing(r, tree, s, names);
      ghost var t1, past1 := tree, trace;
      if Unobstructed(r, t) { StaysUnobstructed(r, t, t1); }
      var retained;
      ok, retained := MoveEntries(r, s, names, depth);
      Compose(r, t, past, t1, past1, tree, trace);
      FrameTrans(r, t, t1, tree, s, s);
      if !ok {
        RunKeepsPins(r, t, past, tree, trace);
        return;
      }
      RunFacts(r, t, past, tree, trace);
      InvFacts(r, tree);
      if retained {
        RetainedDirectory(r, tree, s, names);
        RunKeepsPins(r, t, past, tree, trace);
        return true;
      }
      RemoveEmpty(r, s, names, t, past);
      RunKeepsPins(r, t, past, tree, trace);
      return true;
    }

    method RemoveEmpty(r: Route, s: Path, ghost names: seq<Name>, ghost t: Tree, ghost past: seq<Tree>)
      requires Inv(r, t) && Ran(r, t, past) && SourceFrame(r, t, tree, s)
      requires Under(r.from, s) && s in tree && tree[s].Dir? && !Kept(r, s) && Paired(r, tree, s)
      requires Progress(r, tree, s, names, |names|, false)
      modifies this
      ensures Ran(r, t, past) && SourceFrame(r, t, tree, s) && FinishedUnder(r, tree, s)
    {
      hide Step, Inv, RunFrom, Progress, FinishedUnder, Kept;
      RunFacts(r, t, past, tree, trace);
      EmptyDirectory(r, tree, s, names);
      RemoveSource(r, tree, s);
      Take(r, t, past, tree - {s});
      RunFacts(r, t, past, tree, trace);
      InvFacts(r, tree);
      GoneIsFinished(r, tree, s);
    }

    // The loop over the sorted entries.
    method MoveEntries(r: Route, s: Path, names: seq<Name>, ghost depth: nat) returns (ok: bool, retained: bool)
      requires Inv(r, tree) && trace != [] && trace[|trace| - 1] == tree
      requires Under(r.from, s) && s in tree && tree[s].Dir? && !Kept(r, s) && Paired(r, tree, s)
      requires DepthWithin(tree, s, depth) && Progress(r, tree, s, names, 0, false)
      modifies this
      ensures Ran(r, old(tree), old(trace)) && SourceFrame(r, old(tree), tree, s)
      ensures RunPins(r, old(tree), old(trace), tree, trace)
      ensures ok ==> s in tree && tree[s].Dir? && Paired(r, tree, s) && Progress(r, tree, s, names, |names|, retained)
      ensures Unobstructed(r, old(tree)) ==> ok
      decreases depth, 0, 0
    {
      hide RunPins, Inv, Step, RunFrom, Kept, FinishedUnder, Unobstructed, Progress, WellFormed, NoClash, Evolves,
        SourceFrame, DepthWithin, ParentReady, Skipped;
      ghost var t, past := tree, trace;
      RunRefl(r, tree, trace);
      FrameRefl(r, tree, s);
      ok, retained := true, false;
      var i := 0;
      while i < |names|
        invariant 0 <= i <= |names| && Ran(r, t, past) && SourceFrame(r, t, tree, s)
        invariant s in tree && tree[s].Dir? && Paired(r, tree, s)
        invariant Progress(r, tree, s, names, i, retained)
        invariant ok
      {
        var c := s + [names[i]];
        RunFacts(r, t, past, tree, trace);
        if Skipped(r, c) {
          SkipEntry(r, tree, s, names, i, retained);
          retained := true;
        } else {
          StepFacts(r, t, tree);
          InvFacts(r, tree);
          EntryPresent(r, tree, s, names, i, retained);
          EntryReady(r, tree, s, c);
          EntryDepth(r, t, tree, s, c, depth);
          ghost var t1, past1 := tree, trace;
          if Unobstructed(r, t) { StaysUnobstructed(r, t, t1); }
          ok := MovePath(r, c, depth - 1);
          Compose(r, t, past, t1, past1, tree, trace);
          RunFacts(r, t1, past1, tree, trace);
          FrameTrans(r, t, t1, tree, s, c);
          if !ok {
            RunKeepsPins(r, t, past, tree, trace);
            return;
          }
          StepFacts(r, t1, tree);
          EntryDone(r, t1, tree, s, names, i, retained);
          retained := retained || c in tree;
        }
        i := i + 1;
      }
      RunKeepsPins(r, t, past, tree, trace);
    }

    // A route whose source is a single file.
    method MoveRouteFile(r: Route, ghost depth: nat) returns (ok: bool)
      requires Inv(r, tree) && trace != [] && trace[|trace| - 1] == tree
      requires r.from in tree && tree[r.from].File? && DepthWithin(tree, r.from, depth)
      modifies this
      ensures Ran(r, old(tree), old(trace))
      ensures ok ==> FinishedUnder(r, tree, r.from)
      ensures Unobstructed(r, old(tree)) ==> ok
    {
      hide Inv, Step, RunFrom, Kept, FinishedUnder, Unobstructed, Evolves;
      ghost var t, past := tree, trace;
      InvFacts(r, t);
      RunRefl(r, tree, trace);
      RouteRoot(r);
      ok := CreateDirAll(r, r.from, r.to[..|r.to| - 1], t, past);
      if ok {
        ghost var t1, past1 := tree, trace;
        RunFacts(r, t, past, tree, trace);
        StepFacts(r, t, t1);
        if Unobstructed(r, t) { StaysUnobstructed(r, t, t1); }
        EntryDepthRoot(r, t, t1, depth);
        ok := MovePath(r, r.from, depth);
        Compose(r, t, past, t1, past1, tree, trace);
      }
    }

    /** The entry loop on a directory of files, clashing names or not: in name order, every
        file leaves its source, and it is whole at its destination unless a later file was
        copied through that very path. Then it is gone. Every state on the way is safe exactly
        when no two names clash. */
    method MoveFiles(r: Route, e: Path) returns (names: seq<Name>)
      requires ValidRoute(r) && FlatListing(r, tree, e)
      modifies this
      ensures SortedNames(names) && forall n :: n in names <==> e + [n] in old(tree)
      ensures forall n :: n in names ==> Under(r.from, e + [n]) && e + [n] !in tree
      ensures forall n :: n in names ==> (Dst(r, e + [n]) in tree <==> !Overrun(r, old(tree), e, n))
      ensures forall n :: n in names && Dst(r, e + [n]) in tree ==> tree[Dst(r, e + [n])] == old(tree)[e + [n]]
      ensures old(trace) <= trace && (names != [] ==> trace != [] && trace[|trace| - 1] == tree)
      ensures CrashSafeAt(r, old(tree), tree, e, names) <==> forall n :: n in names ==> !Overrun(r, old(tree), e, n)
      ensures AllSafe(r, old(tree), e, names, |old(trace)|, trace) <==> NoneClash(r, old(tree), e, names)
    {
      hide WellFormed, MovedFile, SortedNames, Clash, CopyTrace, Moving, AllSafe, FlatListing, CrashSafeAt, Overrun,
        NoneClash;
      ghost var t := tree;
      names := Entries(e);
      var i := 0;
      FlatStart(r, t, e, names);
      NoStates(r, t, e, names, trace);
      while i < |names|
        invariant 0 <= i <= |names| && WellFormed(tree) && Moving(r, t, tree, e, names, i)
        invariant old(trace) <= trace && (i > 0 ==> |trace| > 0 && trace[|trace| - 1] == tree)
        invariant AllSafe(r, t, e, names, |old(trace)|, trace) <==> NoneClash(r, t, e, names[..i])
      {
        MovingNext(r, t, tree, e, names, i);
        ghost var u, past := tree, trace;
        var m := MoveFile(r, e + [names[i]]);
        StatesNext(r, t, u, e, names, i, |old(trace)|, past, trace, m);
        i := i + 1;
      }
      assert names[..i] == names;
      FlatEnd(r, t, tree, e, names);
    }

    /** move_storage_path: the whole route. Every state the disk passes through is one step
        from where it began and safe; on a finished tree every one of them is that tree. */
    method MoveStoragePath(r: Route) returns (ok: bool)
      requires Inv(r, tree) && trace != [] && trace[|trace| - 1] == tree
      modifies this
      ensures Ran(r, old(tree), old(trace)) && CrashSafe(r, old(tree), tree)
      ensures forall i :: |old(trace)| <= i < |trace| ==> Inv(r, trace[i]) && CrashSafe(r, old(tree), trace[i])
      ensures RunPins(r, old(tree), old(trace), tree, trace)
      ensures ok ==> Finished(r, tree) && IsGoal(r, old(tree), tree) && AllArrived(r, old(tree), tree)
      ensures Unobstructed(r, old(tree)) ==> ok
      ensures Finished(r, old(tree)) ==> ok && tree == old(tree)
      ensures Finished(r, old(tree)) ==> forall i :: |old(trace)| <= i < |trace| ==> trace[i] == tree
    {
      hide Finished, Unobstructed, IsGoal, CrashSafe, RunFrom, RunPins, AllArrived;
      ghost var t, past := tree, trace;
      RunRefl(r, tree, trace);
      ok := true;
      RouteRoot(r);
      ghost var depth := Deepest(t);
      FinishedUnobstructed(r, t);
      if r.from in tree {
        if tree[r.from].Dir? {
          ok := MoveDirectoryContents(r, r.from, depth);
        } else {
          ok := MoveRouteFile(r, depth);
        }
        FinishedIs(r, tree);
      } else {
        NoSourceFinished(r, tree);
      }
      RouteResult(r, t, past, tree, trace);
    }
  }

  /** Replay, end to end: a migration that would succeed is stopped at any state one of its
      steps can leave, and started again. Both runs succeed and end with the same tree, the
      one the start is meant to end as, and a third run passes through no other state. */
  method Replay(r: Route, start: Tree, crash: Tree) returns (uninterrupted: Disk, rerun: Disk, third: Disk)
    requires Inv(r, start) && Unobstructed(r, start) && Step(r, start, crash)
    ensures fresh(uninterrupted) && fresh(rerun) && fresh(third)
    ensures uninterrupted.Ran(r, start, [start]) && rerun.Ran(r, crash, [crash]) && rerun.trace[0] == crash
    ensures rerun.tree == uninterrupted.tree && IsGoal(r, start, rerun.tree)
    ensures forall i :: 0 <= i < |rerun.trace| ==> Step(r, start, rerun.trace[i]) && CrashSafe(r, start, rerun.trace[i])
    ensures third.trace != [] && forall i :: 0 <= i < |third.trace| ==> third.trace[i] == third.tree == rerun.tree
  {
    hide Unobstructed, IsGoal, CrashSafe, Finished, Step, RunFrom, Inv;
    var ok;
    uninterrupted, ok := RunOn(r, start);
    StepFacts(r, start, crash) by { InvFacts(r, start); }
    StaysUnobstructed(r, start, crash);
    rerun, ok := RunOn(r, crash);
    ReplayAgrees(r, start, crash, uninterrupted.tree, rerun.tree);
    RerunStates(r, start, crash, rerun.tree, rerun.trace);
    StepFacts(r, crash, rerun.tree);
    third, ok := RunOn(r, rerun.tree);
  }

  // A migration of a disk that holds `t`.
  method RunOn(r: Route, t: Tree) returns (disk: Disk, ok: bool)
    requires Inv(r, t)
    ensures fresh(disk) && disk.Ran(r, t, [t]) && disk.trace != [] && disk.trace[0] == t
    ensures ValidRoute(r) && Step(r, t, disk.tree)
    ensures (ok ==> Finished(r, disk.tree)) && (Unobstructed(r, t) ==> ok)
    ensures Finished(r, t) ==> forall i :: 0 <= i < |disk.trace| ==> disk.trace[i] == disk.tree == t
  {
    hide Unobstructed, IsGoal, CrashSafe, Finished;
    disk := new Disk(t);
    ok := disk.MoveStoragePath(r);
    RunFacts(r, t, [t], disk.tree, disk.trace);
    assert disk.trace[0] == disk.trace[..1][0];
  }

  // Every state of a rerun is safe.
  lemma RerunStates(r: Route, start: Tree, crash: Tree, tree: Tree, trace: seq<Tree>)
    requires Inv(r, start) && Step(r, start, crash) && RunFrom(r, crash, [crash], tree, trace)
    ensures trace != [] && trace[0] == crash
    ensures forall i :: 0 <= i < |trace| ==> Step(r, start, trace[i]) && CrashSafe(r, start, trace[i])
  {
    hide CrashSafe, Step;
    assert trace[0] == trace[..1][0];
    forall i | 0 <= i < |trace| ensures Step(r, start, trace[i]) && CrashSafe(r, start, trace[i]) {
      if i > 0 { StepTrans(r, start, crash, trace[i]); }
      StepFacts(r, start, trace[i]);
      StepGoal(r, start, trace[i]);
      GoalIsCrashSafe(r, start, trace[i]);
    }
  }

  lemma StepGoal(r: Route, t: Tree, u: Tree)
    requires ValidRoute(r) && Step(r, t, u)
    ensures SameGoal(r, t, u)
  {
  }

  lemma FinishedIs(r: Route, t: Tree)
    ensures Finished(r, t) <==> FinishedUnder(r, t, r.from)
  {
  }

  lemma NoSourceFinished(r: Route, t: Tree)
    requires WellFormed(t) && r.from !in t
    ensures Finished(r, t)
  {
    GoneIsFinished(r, t, r.from);
  }

  // A finished tree has nothing in the way of what is left of its source.
  lemma FinishedUnobstructed(r: Route, t: Tree)
    requires Inv(r, t)
    ensures Finished(r, t) && r.from in t ==> Unobstructed(r, t)
  {
    if Finished(r, t) && r.from in t {
      RouteRoot(r);
      assert Paired(r, t, r.from);
      forall p | p in t && Under(p, r.to) && p != r.to ensures t[p].Dir? { PrefixIn(t, p, r.to); }
    }
  }

  lemma RouteRoot(r: Route)
    ensures !Kept(r, r.from) && Under(r.from, r.from) && Dst(r, r.from) == r.to
  {
  }

  lemma EntryDepthRoot(r: Route, t: Tree, u: Tree, depth: nat)
    requires Evolves(r, t, u) && DepthWithin(t, r.from, depth)
    ensures DepthWithin(u, r.from, depth)
  {
  }

  lemma RouteResult(r: Route, t: Tree, past: seq<Tree>, tree: Tree, trace: seq<Tree>)
    requires Inv(r, t) && RunFrom(r, t, past, tree, trace)
    ensures CrashSafe(r, t, tree)
    ensures forall i :: |past| <= i < |trace| ==> Inv(r, trace[i]) && CrashSafe(r, t, trace[i])
    ensures RunPins(r, t, past, tree, trace)
    ensures Finished(r, tree) ==> IsGoal(r, t, tree) && AllArrived(r, t, tree)
    ensures Finished(r, t) ==> tree == t && forall i :: |past| <= i < |trace| ==> trace[i] == tree
  {
    hide Finished, CrashSafe, IsGoal, Inv, RunPins, AllArrived;
    forall u | Step(r, t, u)
      ensures Inv(r, u) && CrashSafe(r, t, u) && (Finished(r, t) ==> u == t)
    {
      StepFacts(r, t, u);
      GoalIsCrashSafe(r, t, u);
      if Finished(r, t) { FinishedStays(r, t, u); }
    }
    StepRefl(r, t);
    RunKeepsPins(r, t, past, tree, trace);
    if Finished(r, tree) {
      ReplayAgrees(r, t, t, tree, tree);
      FinishedArrived(r, t, tree);
    }
  }

  // No step leaves a finished tree.
  lemma FinishedStays(r: Route, t: Tree, u: Tree)
    requires Inv(r, t) && Step(r, t, u) && Finished(r, t)
    ensures u == t
  {
    RouteRoot(r);
    FinishedEvolves(r, t, u, r.from);
    FinishedTreesAgree(r, t, u);
  }

  ghost function Deepest(t: Tree): (n: nat)
    ensures forall p :: p in t ==> |p| <= n
  {
    if t == map[] then 0 else
      var ps := t.Keys;
      assert ps != {};
      DeepestOf(ps)
  }

  ghost function DeepestOf(ps: set<Path>): (n: nat)
    ensures forall p :: p in ps ==> |p| <= n
  {
    if ps == {} then 0 else
      var p :| p in ps;
      var n := DeepestOf(ps - {p});
      if n < |p| then |p| else n
  }

  // Source entries outside `s` are untouched.
  ghost predicate SourceFrame(r: Route, t: Tree, u: Tree, s: Path) {
    forall p :: p in t && Under(r.from, p) && !Under(s, p) ==> p in u
  }

  // The directory loop after `i` entries.
  ghost predicate Progress(r: Route, t: Tree, s: Path, names: seq<Name>, i: nat, retained: bool)
    requires i <= |names|
  {
    && SortedNames(names)
    && (forall p :: p in t && Under(s, p) && |p| == |s| + 1 ==> p[|s|] in names)
    && (forall j :: i <= j < |names| ==> s + [names[j]] in t)
    && (forall j :: 0 <= j < i ==> FinishedUnder(r, t, s + [names[j]]))
    && (!retained ==> forall j :: 0 <= j < i ==> s + [names[j]] !in t)
    && (retained ==> exists q :: q in t && Under(s, q) && Kept(r, q))
  }

  lemma FreshListing(r: Route, t: Tree, s: Path, names: seq<Name>)
    requires SortedNames(names) && forall n :: n in names <==> s + [n] in t
    ensures Progress(r, t, s, names, 0, false)
  {
    forall p | p in t && Under(s, p) && |p| == |s| + 1 ensures p[|s|] in names {
      assert p == p[..|s|] + [p[|s|]];
    }
  }

  lemma GoneIsFinished(r: Route, u: Tree, s: Path)
    requires WellFormed(u) && s !in u
    ensures FinishedUnder(r, u, s)
  {
    forall p | p in u && Under(s, p) ensures false { PrefixIn(u, s, p); }
  }

  lemma ChildKept(r: Route, s: Path, c: Path)
    requires Under(r.from, s) && Under(s, c) && |c| == |s| + 1
    ensures Under(r.from, c)
    ensures Kept(r, c) <==> Kept(r, s) || Skipped(r, c)
  {
    UnderTrans(r.from, s, c);
    assert c[..|c|] == c;
    if Kept(r, s) { KeptDown(r, s, c); }
    if Kept(r, c) && !Skipped(r, c) {
      var k :| |r.from| < k <= |c| && Skipped(r, c[..k]);
      assert c[..k] == s[..k];
    }
  }

  lemma FrameRefl(r: Route, t: Tree, s: Path)
    ensures SourceFrame(r, t, t, s)
  {
  }

  lemma GrewFrame(r: Route, t: Tree, u: Tree, s: Path, depth: nat)
    requires Evolves(r, t, u) && (forall p :: p in t ==> p in u) && DepthWithin(t, s, depth) && Under(r.from, s)
    ensures SourceFrame(r, t, u, s) && DepthWithin(u, s, depth)
  {
    forall p | p in u && Under(s, p) ensures |p| <= |s| + depth { UnderTrans(r.from, s, p); }
  }

  lemma EntryPresent(r: Route, t: Tree, s: Path, names: seq<Name>, i: nat, retained: bool)
    requires i < |names| && Progress(r, t, s, names, i, retained)
    ensures var c := s + [names[i]]; c in t && Under(s, c)
  {
  }

  lemma SkipEntry(r: Route, t: Tree, s: Path, names: seq<Name>, i: nat, retained: bool)
    requires i < |names| && Progress(r, t, s, names, i, retained)
    requires Under(r.from, s) && Skipped(r, s + [names[i]])
    ensures Progress(r, t, s, names, i + 1, true)
  {
    var c := s + [names[i]];
    assert c[..|s|] == s;
    ChildKept(r, s, c);
    forall p | p in t && Under(c, p) ensures Kept(r, p) { KeptDown(r, c, p); }
    assert FinishedUnder(r, t, c);
  }

  lemma EntryReady(r: Route, u: Tree, s: Path, c: Path)
    requires ValidRoute(r) && Under(r.from, s) && !Kept(r, s) && s in u && u[s].Dir? && Paired(r, u, s)
    requires Under(s, c) && |c| == |s| + 1 && c in u && !Skipped(r, c)
    ensures Under(r.from, c) && !Kept(r, c) && ParentReady(u, Dst(r, c))
  {
    ChildKept(r, s, c);
    var d := Dst(r, c);
    assert d[..|d| - 1] == Dst(r, s) by {
      assert c[|r.from|..][..|s| - |r.from|] == c[..|s|][|r.from|..];
    }
  }

  lemma EntryDepth(r: Route, t: Tree, u: Tree, s: Path, c: Path, depth: nat)
    requires Evolves(r, t, u) && Under(r.from, s) && DepthWithin(t, s, depth)
    requires Under(s, c) && |c| == |s| + 1 && c in u
    ensures depth > 0 && DepthWithin(u, c, depth - 1)
  {
    forall p | p in u && Under(c, p) ensures |p| <= |s| + depth {
      UnderTrans(s, c, p);
      UnderTrans(r.from, s, p);
    }
    assert c[..|c|] == c;
  }

  lemma FrameTrans(r: Route, t: Tree, u: Tree, v: Tree, s: Path, c: Path)
    requires SourceFrame(r, t, u, s) && SourceFrame(r, u, v, c) && Under(s, c)
    ensures SourceFrame(r, t, v, s)
  {
    forall p | p in t && Under(r.from, p) && !Under(s, p) ensures p in v {
      if Under(c, p) { UnderTrans(s, c, p); }
    }
  }

  // The earlier entries stay finished while entry `i` moves.
  lemma EarlierFinished(r: Route, t: Tree, u: Tree, s: Path, names: seq<Name>, i: nat, retained: bool)
    requires i < |names| && Progress(r, t, s, names, i, retained) && Evolves(r, t, u) && Under(r.from, s)
    ensures forall j :: 0 <= j < i ==> FinishedUnder(r, u, s + [names[j]])
    ensures !retained ==> forall j :: 0 <= j < i ==> s + [names[j]] !in u
  {
    hide FinishedUnder;
    forall j | 0 <= j < i
      ensures FinishedUnder(r, u, s + [names[j]]) && (!retained ==> s + [names[j]] !in u)
    {
      var e := s + [names[j]];
      UnderTrans(r.from, s, e);
      FinishedEvolves(r, t, u, e);
    }
  }

  // The later entries are still there.
  lemma LaterPresent(r: Route, t: Tree, u: Tree, s: Path, names: seq<Name>, i: nat, retained: bool)
    requires i < |names| && Progress(r, t, s, names, i, retained) && Under(r.from, s)
    requires SourceFrame(r, t, u, s + [names[i]])
    ensures forall j :: i < j < |names| ==> s + [names[j]] in u
  {
    hide FinishedUnder;
    var c := s + [names[i]];
    forall j | i < j < |names| ensures s + [names[j]] in u {
      BeforeIrreflexive(names[i]);
      var e := s + [names[j]];
      UnderTrans(r.from, s, e);
      assert e[|s|] != c[|s|];
      assert e[..|c|] == e;
    }
  }

  lemma SomethingKept(r: Route, t: Tree, u: Tree, s: Path, c: Path, retained: bool)
    requires Evolves(r, t, u) && Under(r.from, s) && Under(s, c) && !Kept(r, c) && FinishedUnder(r, u, c)
    requires retained ==> exists q :: q in t && Under(s, q) && Kept(r, q)
    requires retained || c in u
    ensures exists q :: q in u && Under(s, q) && Kept(r, q)
  {
    if retained {
      var q :| q in t && Under(s, q) && Kept(r, q);
      UnderTrans(r.from, s, q);
      assert q in u;
    } else {
      assert c[..|c|] == c;
      var q :| q in u && Under(c, q) && Kept(r, q);
      UnderTrans(s, c, q);
    }
  }

  lemma ListingShrinks(r: Route, t: Tree, u: Tree, s: Path, names: seq<Name>, i: nat, retained: bool)
    requires i <= |names| && Progress(r, t, s, names, i, retained) && Evolves(r, t, u) && Under(r.from, s)
    ensures SortedNames(names)
    ensures forall p :: p in u && Under(s, p) && |p| == |s| + 1 ==> p[|s|] in names
    ensures retained ==> exists q :: q in t && Under(s, q) && Kept(r, q)
  {
    forall p | p in u && Under(s, p) && |p| == |s| + 1 ensures p[|s|] in names { UnderTrans(r.from, s, p); }
  }

  lemma StaysPaired(r: Route, t: Tree, u: Tree, s: Path, c: Path)
    requires Evolves(r, t, u) && Under(r.from, s) && !Kept(r, s) && s in t && Paired(r, t, s)
    requires SourceFrame(r, t, u, c) && |s| < |c|
    ensures s in u && u[s] == t[s] && Paired(r, u, s)
  {
  }

  lemma EntryDone(r: Route, t: Tree, u: Tree, s: Path, names: seq<Name>, i: nat, retained: bool)
    requires i < |names| && Progress(r, t, s, names, i, retained)
    requires Evolves(r, t, u) && Under(r.from, s) && !Kept(r, s) && s in t && Paired(r, t, s)
    requires var c := s + [names[i]]; SourceFrame(r, t, u, c) && FinishedUnder(r, u, c) && !Kept(r, c)
    ensures s in u && u[s] == t[s] && Paired(r, u, s)
    ensures Progress(r, u, s, names, i + 1, retained || s + [names[i]] in u)
  {
    hide FinishedUnder, Kept, Evolves, SourceFrame, SortedNames;
    var c := s + [names[i]];
    StaysPaired(r, t, u, s, c);
    ListingShrinks(r, t, u, s, names, i, retained);
    EarlierFinished(r, t, u, s, names, i, retained);
    LaterPresent(r, t, u, s, names, i, retained);
    if retained || c in u { SomethingKept(r, t, u, s, c, retained); }
  }

  lemma RetainedDirectory(r: Route, t: Tree, s: Path, names: seq<Name>)
    requires WellFormed(t) && Under(r.from, s) && s in t && Paired(r, t, s)
    requires Progress(r, t, s, names, |names|, true)
    ensures FinishedUnder(r, t, s)
  {
    forall p | p in t && Under(s, p) && !Kept(r, p)
      ensures Paired(r, t, p) && exists q :: q in t && Under(p, q) && Kept(r, q)
    {
      if |p| == |s| {
        assert p == s by { assert p[..|p|] == p; }
      } else {
        ChildOf(t, s, p, names);
      }
    }
  }

  lemma ChildOf(t: Tree, s: Path, p: Path, names: seq<Name>)
    requires WellFormed(t) && p in t && Under(s, p) && |s| < |p|
    requires forall q :: q in t && Under(s, q) && |q| == |s| + 1 ==> q[|s|] in names
    ensures exists j :: 0 <= j < |names| && s + [names[j]] in t && Under(s + [names[j]], p)
  {
    var c := p[..|s| + 1];
    assert Under(c, p);
    PrefixIn(t, c, p);
    assert c[..|s|] == s;
    var j :| 0 <= j < |names| && names[j] == c[|s|];
    assert s + [names[j]] == c;
  }

  lemma EmptyDirectory(r: Route, t: Tree, s: Path, names: seq<Name>)
    requires Inv(r, t) && Under(r.from, s) && s in t && t[s].Dir? && !Kept(r, s) && Paired(r, t, s)
    requires Progress(r, t, s, names, |names|, false)
    ensures forall p :: p in t && Under(s, p) ==> p == s
    ensures Moves(r, t, s)
  {
    forall p | p in t && Under(s, p) ensures p == s {
      if |p| > |s| {
        ChildOf(t, s, p, names);
      } else {
        assert p[..|p|] == p;
      }
    }
    SrcOfDst(r, s);
    var d := Dst(r, s);
    assert d[..|d| - 1] in t;
    NotStays(r, t, s);
  }

  // The pending path of a file to be copied never covers a source entry.
  lemma PendingApartFile(r: Route, t: Tree, s: Path)
    requires Inv(r, t) && Moves(r, t, s) && t[s].File? && Dst(r, s) !in t
    ensures r.renames(s) || !Under(PendingOf(Dst(r, s)), s)
  {
    if !r.renames(s) { PendingApart(r, t, s, s); }
  }

  lemma FileMoved(r: Route, t: Tree, s: Path)
    requires Inv(r, t) && Moves(r, t, s) && t[s].File? && Dst(r, s) !in t
    ensures s !in MovedFile(r, t, s) && SourceFrame(r, t, MovedFile(r, t, s), s)
  {
    SrcOfDst(r, s);
    Apart(r, Dst(r, s));
    assert s[..|s|] == s;
    if !r.renames(s) {
      forall p | Under(r.from, p) ensures !Under(PendingOf(Dst(r, s)), p) { PendingApart(r, t, s, p); }
    }
  }

  lemma StepFacts(r: Route, t: Tree, u: Tree)
    requires ValidRoute(r) && Step(r, t, u)
    ensures Inv(r, u) && Evolves(r, t, u)
  {
  }

  lemma RunRefl(r: Route, tree: Tree, trace: seq<Tree>)
    requires Inv(r, tree) && trace != [] && trace[|trace| - 1] == tree
    ensures RunFrom(r, tree, trace, tree, trace)
  {
    StepRefl(r, tree);
  }

  lemma RunFacts(r: Route, t: Tree, past: seq<Tree>, tree: Tree, trace: seq<Tree>)
    requires RunFrom(r, t, past, tree, trace)
    ensures ValidRoute(r) && Step(r, t, tree) && Inv(r, tree) && trace != [] && trace[|trace| - 1] == tree
  {
  }

  lemma ConflictObstructs(r: Route, t: Tree, s: Path)
    requires s in t && !Kept(r, s) && Conflict(r, t, s)
    ensures !Unobstructed(r, t)
  {
  }

  lemma StepRefl(r: Route, t: Tree)
    requires Inv(r, t)
    ensures Step(r, t, t)
  {
  }

  ghost predicate DirTarget(r: Route, t: Tree, s: Path, d: Path)
    requires Under(r.from, s) && s in t
  {
    if t[s].Dir? then d == Dst(r, s) else s == r.from && r.to != [] && d == r.to[..|r.to| - 1]
  }

  // An unobstructed tree has no file where create_dir_all wants a directory.
  lemma BlockedPrefix(r: Route, t: Tree, s: Path, d: Path, k: nat)
    requires Inv(r, t) && Under(r.from, s) && s in t && !Kept(r, s) && DirTarget(r, t, s, d)
    requires Unobstructed(r, t) && 0 < k <= |d| && d[..k] in t
    ensures t[d[..k]].Dir?
  {
    var e := d[..k];
    SrcOfDst(r, s);
    if |e| < |r.to| {
      assert r.to[..|e|] == e by {
        if t[s].Dir? { assert d[..|r.to|] == r.to; }
      }
    } else {
      var p := s[..|r.from| + |e| - |r.to|];
      assert Under(r.from, p) by { UnderChain(r.from, p, s); }
      assert Dst(r, p) == e;
      PrefixIn(t, p, s);
      if Kept(r, p) { KeptDown(r, p, s); }
    }
  }

  // Making one missing directory on the way to the destination of `s`.
  lemma MakeStep(r: Route, t: Tree, s: Path, d: Path, k: nat)
    requires Inv(r, t) && Under(r.from, s) && s in t && !Kept(r, s) && DirTarget(r, t, s, d)
    requires s != r.from ==> ParentReady(t, Dst(r, s))
    requires 0 < k <= |d| && d[..k] !in t && d[..k - 1] in t && t[d[..k - 1]].Dir?
    ensures Step(r, t, t[d[..k] := Dir])
  {
    var e := d[..k];
    SrcOfDst(r, s);
    assert e[..|e| - 1] == d[..k - 1];
    if |e| < |r.to| {
      assert r.to[..|e|] == e by {
        if t[s].Dir? { assert d[..|r.to|] == r.to; }
      }
      if s != r.from {
        var b := d[..|d| - 1];
        assert |b| >= |r.to|;
        PrefixIn(t, e, b) by { assert b[..|e|] == e; }
      } else {
        MakeAncestor(r, t, e);
      }
    } else {
      assert t[s].Dir?;
      if k < |d| {
        var b := d[..|d| - 1];
        PrefixIn(t, e, b) by { assert b[..|e|] == e; }
      } else {
        assert e == d;
        NotStays(r, t, s);
        AddDestination(r, t, s);
      }
    }
  }

  // A rename is the destination appearing and the source disappearing at once.
  lemma RenameSteps(r: Route, t: Tree, x: Path)
    requires Inv(r, t) && Moves(r, t, x) && t[x].File? && r.renames(x)
    requires Dst(r, x) !in t && ParentReady(t, Dst(r, x))
    ensures Step(r, t, (t - {x})[Dst(r, x) := t[x]])
  {
    var d := Dst(r, x);
    AddDestination(r, t, x);
    SettleSource(r, t, t[d := t[x]], x);
    assert t[d := t[x]] - {x} == (t - {x})[d := t[x]] by { SrcOfDst(r, x); Apart(r, d); }
  }

  // After the destination has appeared, the source file may go.
  lemma SettleSource(r: Route, t: Tree, u: Tree, x: Path)
    requires Inv(r, t) && Moves(r, t, x) && t[x].File? && Step(r, t, u) && Paired(r, u, x)
    ensures Step(r, t, u - {x})
  {
    forall p | p in u && Under(x, p) ensures p == x { FileIsLeaf(u, x, p); }
    if Kept(r, x) { KeptStays(r, t, x); }
    SrcOfDst(r, x);
    assert ParentReady(u, Dst(r, x)) by { var d := Dst(r, x); assert d[..|d| - 1] in u; }
    assert x[..|x|] == x;
    NotStays(r, u, x);
    RemoveSource(r, u, x);
    StepTrans(r, t, u, u - {x});
  }

  lemma ClearedWellFormed(t: Tree, q: Path)
    requires WellFormed(t)
    ensures WellFormed(Cleared(t, q)) && SameBesides(q, t, Cleared(t, q))
  {
    var u := Cleared(t, q);
    forall p, k | p in u && 0 <= k < |p| ensures p[..k] in u && u[p[..k]].Dir? {
      if Under(q, p[..k]) { UnderTrans(q, p[..k], p); }
    }
  }

  lemma CommitSteps(r: Route, t: Tree, x: Path)
    requires Inv(r, t) && Copies(r, t, x) && ParentReady(t, Dst(r, x))
    ensures Step(r, t, Cleared(t, PendingOf(Dst(r, x)))[Dst(r, x) := t[x]])
    ensures Step(r, t, Cleared(t, PendingOf(Dst(r, x)))[Dst(r, x) := t[x]] - {x})
  {
    var d := Dst(r, x);
    var q := PendingOf(d);
    var cleared := Cleared(t, q);
    PendingFacts(r, x);
    ClearedWellFormed(t, q);
    TouchPending(r, t, x, cleared);
    assert !Under(q, d[..|d| - 1]);
    AddDestination(r, cleared, x);
    var u := cleared[d := t[x]];
    StepTrans(r, t, cleared, u);
    SrcOfDst(r, x);
    Apart(r, d);
    SettleSource(r, t, u, x);
  }

  // ---- When a pending copy gets in the way ------------------------------------------------

  // The disk while `x` is being copied, `k` bytes in.
  ghost function Staged(r: Route, t: Tree, x: Path, k: nat): (u: Tree)
    requires ValidRoute(r) && Copies(r, t, x) && k <= |t[x].bytes|
  {
    Cleared(t, PendingOf(Dst(r, x)))[PendingOf(Dst(r, x)) := File(t[x].bytes[..k])]
  }

  // A pending path that does not touch the source.
  lemma AwayFromSource(r: Route, x: Path, s: Path)
    requires ValidRoute(r) && Under(r.from, x) && Under(r.from, s)
    requires var q := PendingOf(Dst(r, x)); !Under(r.from, q) && !Under(q, r.from)
    ensures !Under(PendingOf(Dst(r, x)), s)
  {
    var q := PendingOf(Dst(r, x));
    if Under(q, s) {
      if |q| <= |r.from| { UnderChain(q, r.from, s); } else { UnderChain(r.from, q, s); }
    }
  }

  // An entry whose destination lies at or below a clear pending path is kept.
  lemma ClearKept(r: Route, t: Tree, x: Path, s: Path)
    requires ValidRoute(r) && WellFormed(t) && Under(r.from, x) && PendingClear(r, t, x)
    requires s in t && Under(r.from, s) && Under(PendingOf(Dst(r, x)), Dst(r, s))
    ensures Kept(r, s)
  {
    var q := PendingOf(Dst(r, x));
    PendingFacts(r, x);
    SrcOfDst(r, s);
    if x != r.from {
      SrcPrefix(r, q, s);
      PrefixIn(t, Src(r, q), s);
      KeptDown(r, Src(r, q), s);
    }
  }

  // Every state of the copy of `x` up to the moment it is whole.
  ghost predicate CopySafe(r: Route, t: Tree, x: Path)
    requires ValidRoute(r) && Copies(r, t, x)
  {
    && CrashSafe(r, t, Cleared(t, PendingOf(Dst(r, x))))
    && forall k: nat :: k <= |t[x].bytes| ==> CrashSafe(r, t, Staged(r, t, x, k))
  }

  // Another entry belongs at the pending path, but all that the copy puts there is what that
  // entry holds, or what was there before. A file of two bytes or more never is.
  ghost predicate Unnoticed(r: Route, t: Tree, x: Path)
    requires ValidRoute(r) && Copies(r, t, x)
  {
    var q, b := PendingOf(Dst(r, x)), t[x].bytes;
    && !Under(r.from, q) && !Under(q, r.from) && Under(r.to, q) && Src(r, q) in t
    && forall k: nat :: k <= |b| ==> File(b[..k]) == t[Src(r, q)] || (q in t && File(b[..k]) == t[q])
  }

  lemma AwaySafe(r: Route, t: Tree, x: Path, u: Tree)
    requires ValidRoute(r) && WellFormed(t) && Copies(r, t, x) && SameBesides(PendingOf(Dst(r, x)), t, u)
    requires var q := PendingOf(Dst(r, x)); !Under(r.from, q) && !Under(q, r.from)
    requires var q := PendingOf(Dst(r, x));
             forall s :: s in t && Under(r.from, s) && !Kept(r, s) && Under(q, Dst(r, s)) && Dst(r, s) in u ==>
               u[Dst(r, s)] == t[s] || (Dst(r, s) in t && u[Dst(r, s)] == t[Dst(r, s)])
    ensures CrashSafe(r, t, u)
  {
    hide Kept;
    forall s | s in t && Under(r.from, s) && !Kept(r, s) ensures !Under(PendingOf(Dst(r, x)), s) {
      AwayFromSource(r, x, s);
    }
  }

  lemma {:induction false} CopyIsSafe(r: Route, t: Tree, x: Path)
    requires ValidRoute(r) && WellFormed(t) && Copies(r, t, x) && (PendingClear(r, t, x) || Unnoticed(r, t, x))
    ensures CopySafe(r, t, x)
  {
    hide CrashSafe, Kept, WellFormed;
    var q, b := PendingOf(Dst(r, x)), t[x].bytes;
    forall s | s in t && Under(r.from, s) && !Kept(r, s) && Under(q, Dst(r, s))
      ensures Dst(r, s) == q ==> Unnoticed(r, t, x) && s == Src(r, q) {
      if PendingClear(r, t, x) { ClearKept(r, t, x, s); }
      SrcOfDst(r, s);
    }
    ClearedBesides(t, q, Dir);
    AwaySafe(r, t, x, Cleared(t, q));
    forall k: nat | k <= |b| ensures CrashSafe(r, t, Staged(r, t, x, k)) {
      ClearedBesides(t, q, File(b[..k]));
      AwaySafe(r, t, x, Staged(r, t, x, k));
    }
  }

  // A pending path that covers the source itself: copying begins by removing the source.
  lemma CoverIsRoot(r: Route, x: Path)
    requires ValidRoute(r) && Under(r.from, x)
    requires var q := PendingOf(Dst(r, x)); Under(r.from, q) || Under(q, r.from)
    ensures x == r.from && Under(PendingOf(r.to), r.from)
  {
    var q := PendingOf(Dst(r, x));
    PendingFacts(r, x);
    RouteRoot(r);
    Apart(r, q);
    assert q[..|q|] == q;
    if x != r.from {
      if Under(q, r.from) { UnderTrans(r.to, q, r.from); }
    } else if |r.from| < |q| && Under(r.from, q) {
      SiblingUnder(r.from, q, r.to);
    }
  }

  lemma SiblingUnder(a: Path, q: Path, d: Path)
    requires Under(a, q) && |a| < |q| == |d| && q[..|q| - 1] == d[..|d| - 1]
    ensures Under(a, d)
  {
    assert q[..|a|] == q[..|q| - 1][..|a|] && d[..|a|] == d[..|d| - 1][..|a|];
  }

  lemma CoverUnsafe(r: Route, t: Tree, x: Path)
    requires ValidRoute(r) && Copies(r, t, x)
    requires var q := PendingOf(Dst(r, x)); Under(r.from, q) || Under(q, r.from)
    ensures !CrashSafe(r, t, Cleared(t, PendingOf(Dst(r, x))))
  {
    CoverIsRoot(r, x);
    RouteRoot(r);
    MovesNotKept(r, t, x);
  }

  lemma SiblingUnsafe(r: Route, t: Tree, x: Path, k: nat)
    requires ValidRoute(r) && Copies(r, t, x) && k <= |t[x].bytes|
    requires var q := PendingOf(Dst(r, x));
             && Under(r.to, q) && Src(r, q) in t && !Kept(r, Src(r, q))
             && File(t[x].bytes[..k]) != t[Src(r, q)] && (q in t ==> File(t[x].bytes[..k]) != t[q])
    ensures !CrashSafe(r, t, Staged(r, t, x, k))
  {
    var q := PendingOf(Dst(r, x));
    DstOfSrc(r, q);
    assert Staged(r, t, x, k)[q] == File(t[x].bytes[..k]);
  }

  /** The states of a copy are safe if and only if its pending path is clear, or what the copy
      puts there goes unnoticed. */
  lemma {:induction false} CopySafeExact(r: Route, t: Tree, x: Path)
    requires ValidRoute(r) && WellFormed(t) && Copies(r, t, x)
    ensures CopySafe(r, t, x) <==> PendingClear(r, t, x) || Unnoticed(r, t, x)
    ensures Unnoticed(r, t, x) ==> |t[x].bytes| <= 1
  {
    hide CrashSafe, Kept, WellFormed;
    var q, b := PendingOf(Dst(r, x)), t[x].bytes;
    if PendingClear(r, t, x) || Unnoticed(r, t, x) {
      CopyIsSafe(r, t, x);
    } else if Under(r.from, q) || Under(q, r.from) {
      CoverUnsafe(r, t, x);
    } else {
      var k: nat :| k <= |b| && File(b[..k]) != t[Src(r, q)] && (q in t ==> File(b[..k]) != t[q]);
      SiblingUnsafe(r, t, x, k);
    }
    if |b| >= 2 { assert |b[..0]| == 0 && |b[..1]| == 1 && |b[..2]| == 2; }
  }

  /** So NoClash says exactly that no copy begun from the tree exposes an unsafe state, when
      every file to be copied has two bytes or more. */
  lemma {:induction false} NoClashExact(r: Route, t: Tree)
    requires ValidRoute(r) && WellFormed(t) && forall x :: Copies(r, t, x) ==> |t[x].bytes| >= 2
    ensures NoClash(r, t) <==> forall x :: Copies(r, t, x) ==> CopySafe(r, t, x)
  {
    hide CopySafe, Unnoticed, PendingClear, WellFormed, Stays;
    forall x | Copies(r, t, x) ensures PendingClear(r, t, x) <==> CopySafe(r, t, x) { CopySafeExact(r, t, x); }
  }

  // A directory of files that all have to move, with nothing of theirs at the destination.
  ghost predicate FlatListing(r: Route, t: Tree, e: Path)
    requires ValidRoute(r)
  {
    && WellFormed(t) && Under(r.from, e) && e in t && t[e].Dir? && Dst(r, e) in t && t[Dst(r, e)].Dir?
    && forall n :: e + [n] in t ==> t[e + [n]].File? && !Skipped(r, e + [n]) && Dst(r, e + [n]) !in t
  }

  // Entry `y` is named like the pending copy of a later entry that has to be copied.
  ghost predicate Overrun(r: Route, t: Tree, e: Path, y: Name) {
    exists n :: e + [n] in t && y == PendingName(n) && Before(y, n) && !r.renames(e + [n])
  }

  // One of the first `i` entries after `j` is copied through the destination of entry `j`.
  ghost predicate OverrunBy(r: Route, e: Path, names: seq<Name>, j: nat, i: nat)
    requires j < i <= |names|
  {
    exists k :: j < k < i && names[j] == PendingName(names[k]) && !r.renames(e + [names[k]])
  }

  /** A file beside one named like its pending copy: for every name that begins with a letter
      or a digit the pending name sorts first, so the copy overruns it. */
  lemma PendingClashLosesData(r: Route, t: Tree, e: Path, n: Name)
    requires n != [] && n[0] > '.' && e + [n] in t && !r.renames(e + [n])
    ensures Before(PendingName(n), n) && Overrun(r, t, e, PendingName(n))
  {
    assert PendingName(n)[0] == '.';
  }

  lemma ExampleName(n: Name)
    requires n == "x" || n == PendingName("x")
    ensures !EndsWith(n, LOCK_SUFFIX)
  {
    if n == "x" {
    } else {
      assert n == ".keeppeek-migration-" + "x" + ".partial";
      assert n[|n| - 1] == 'l' && LOCK_SUFFIX[|LOCK_SUFFIX| - 1] == 'k';
      assert n[|n| - |LOCK_SUFFIX|..][|LOCK_SUFFIX| - 1] == n[|n| - 1];
    }
  }

  /** Such a directory, with a destination on another device. */
  lemma PendingClashExample() returns (r: Route, t: Tree, e: Path)
    ensures ValidRoute(r) && FlatListing(r, t, e) && e + ["x"] in t && e + [".keeppeek-migration-x.partial"] in t
    ensures Overrun(r, t, e, ".keeppeek-migration-x.partial")
  {
    var y := PendingName("x");
    assert y == ".keeppeek-migration-x.partial";
    r := Route(["a"], ["b"], {}, _ => false);
    e := ["a"];
    t := map[[] := Dir, ["a"] := Dir, ["b"] := Dir, ["a", "x"] := File([1]), ["a", y] := File([2])];
    assert y != "x";
    forall p, k | p in t && 0 <= k < |p| ensures p[..k] in t && t[p[..k]].Dir? {
      if k == 0 { assert p[..k] == []; } else { assert p[..k] == ["a"]; }
    }
    forall n | e + [n] in t ensures n == "x" || n == y { assert (e + [n])[1] == n; }
    assert e + ["x"] == ["a", "x"] && e + [y] == ["a", y];
    assert "a" != "b" by { assert "a"[0] != "b"[0]; }
    assert r.from[0] != r.to[0];
    assert !Under(r.from, r.to) && !Under(r.to, r.from) by { assert r.to[..1] == r.to && r.from[..1] == r.from; }
    assert Dst(r, e) == ["b"];
    ExampleName("x");
    ExampleName(y);
    assert Dst(r, e + ["x"]) == ["b", "x"] && Dst(r, e + [y]) == ["b", y];
    assert ["b", "x"][0] == "b" && ["b", y][0] == "b";
    PendingClashLosesData(r, t, e, "x");
    assert e + ["x"] in t;
    assert FlatListing(r, t, e);
  }

  // The loop after `i` entries.
  ghost predicate Moving(r: Route, t: Tree, u: Tree, e: Path, names: seq<Name>, i: nat)
    requires ValidRoute(r) && i <= |names|
  {
    && Under(r.from, e) && Dst(r, e) in u && u[Dst(r, e)].Dir?
    && forall j :: 0 <= j < |names| ==> MovingAt(r, t, u, e, names, i, j)
  }

  ghost predicate MovingAt(r: Route, t: Tree, u: Tree, e: Path, names: seq<Name>, i: nat, j: nat)
    requires j < |names| && i <= |names|
  {
    var y := e + [names[j]];
    && Under(r.from, y) && y in t && t[y].File?
    && if j < i then
         y !in u && (Dst(r, y) in u <==> !OverrunBy(r, e, names, j, i)) && (Dst(r, y) in u ==> u[Dst(r, y)] == t[y])
       else y in u && u[y] == t[y] && Dst(r, y) !in u
  }

  // Every file of the listing is whole at one of its two places.
  ghost predicate CrashSafeAt(r: Route, t: Tree, u: Tree, e: Path, names: seq<Name>) {
    forall n :: n in names && Under(r.from, e + [n]) && e + [n] in t ==>
      (e + [n] in u && u[e + [n]] == t[e + [n]]) || (Dst(r, e + [n]) in u && u[Dst(r, e + [n])] == t[e + [n]])
  }

  // The entry is whole at one of its two places, and its destination holds nothing else.
  ghost predicate SafeEntry(r: Route, t: Tree, u: Tree, y: Path)
    requires Under(r.from, y) && y in t
  {
    && ((y in u && u[y] == t[y]) || (Dst(r, y) in u && u[Dst(r, y)] == t[y]))
    && (Dst(r, y) in u ==> u[Dst(r, y)] == t[y])
  }

  ghost predicate SafeState(r: Route, t: Tree, u: Tree, e: Path, names: seq<Name>) {
    forall n :: n in names && Under(r.from, e + [n]) && e + [n] in t ==> SafeEntry(r, t, u, e + [n])
  }

  // The file is copied, and another one is named like its pending copy. Only if that one
  // comes later and both are empty is there nothing to see.
  ghost predicate Clash(r: Route, t: Tree, e: Path, n: Name) {
    var x, y := e + [n], e + [PendingName(n)];
    && x in t && y in t && !r.renames(x)
    && !(Before(n, PendingName(n)) && t[x] == File([]) && t[y] == File([]))
  }

  ghost predicate NoneClash(r: Route, t: Tree, e: Path, names: seq<Name>) {
    forall k :: 0 <= k < |names| ==> !Clash(r, t, e, names[k])
  }

  // Every state since position `n`.
  ghost predicate AllSafe(r: Route, t: Tree, e: Path, names: seq<Name>, n: nat, trace: seq<Tree>) {
    forall k :: n <= k < |trace| ==> SafeState(r, t, trace[k], e, names)
  }

  lemma NoStates(r: Route, t: Tree, e: Path, names: seq<Name>, trace: seq<Tree>)
    ensures AllSafe(r, t, e, names, |trace|, trace) && NoneClash(r, t, e, names[..0])
  {
  }

  lemma {:induction false} StatesNext(r: Route, t: Tree, u: Tree, e: Path, names: seq<Name>, i: nat, n: nat,
                                      past: seq<Tree>, trace: seq<Tree>, first: nat)
    requires ValidRoute(r) && i < |names| && SortedNames(names) && WellFormed(u) && Moving(r, t, u, e, names, i)
    requires forall n :: n in names <==> e + [n] in t
    requires n <= |past| && (AllSafe(r, t, e, names, n, past) <==> NoneClash(r, t, e, names[..i]))
    requires Under(r.from, e + [names[i]]) && e + [names[i]] in u && u[e + [names[i]]].File?
    requires past < trace && trace[|trace| - 1] == MovedFile(r, u, e + [names[i]])
    requires if r.renames(e + [names[i]]) then |trace| == |past| + 1
             else CopyTrace(r, u, e + [names[i]], past, trace, first)
    ensures AllSafe(r, t, e, names, n, trace) <==> NoneClash(r, t, e, names[..i + 1])
  {
    hide MovedFile, SortedNames, WellFormed, SafeState, Clash, CopyTrace, Moving;
    assert names[..i + 1] == names[..i] + [names[i]];
    assert forall k :: n <= k < |past| ==> trace[k] == past[k];
    if NoneClash(r, t, e, names[..i]) {
      forall k | 0 <= k < i ensures !Clash(r, t, e, names[k]) { assert names[..i][k] == names[k]; }
      NewStates(r, t, u, e, names, i, past, trace, first);
    }
  }

  // Without clashes so far, the tree between two moves is safe.
  lemma MovingSafe(r: Route, t: Tree, u: Tree, e: Path, names: seq<Name>, i: nat)
    requires ValidRoute(r) && i <= |names| && SortedNames(names) && Moving(r, t, u, e, names, i)
    requires forall k :: 0 <= k < i ==> !Clash(r, t, e, names[k])
    ensures SafeState(r, t, u, e, names)
    ensures forall j :: 0 <= j < |names| ==> MovingAt(r, t, u, e, names, i, j) && SafeEntry(r, t, u, e + [names[j]])
  {
    hide SortedNames, Clash;
    forall j | 0 <= j < |names|
      ensures MovingAt(r, t, u, e, names, i, j) && SafeEntry(r, t, u, e + [names[j]])
    {
      assert MovingAt(r, t, u, e, names, i, j);
      if j < i { NoOverrun(r, t, u, e, names, i, j); }
    }
  }

  lemma NoOverrun(r: Route, t: Tree, u: Tree, e: Path, names: seq<Name>, i: nat, j: nat)
    requires ValidRoute(r) && j < i <= |names| && SortedNames(names) && Moving(r, t, u, e, names, i)
    requires forall k :: 0 <= k < i ==> !Clash(r, t, e, names[k])
    ensures !OverrunBy(r, e, names, j, i)
  {
    hide SortedNames;
    forall k | j < k < i && names[j] == PendingName(names[k]) ensures r.renames(e + [names[k]]) {
      assert MovingAt(r, t, u, e, names, i, j) && MovingAt(r, t, u, e, names, i, k);
      NamesApart(names, k, j);
      assert !Clash(r, t, e, names[k]);
    }
  }

  // How the paths of entry `m` lie to the pending path of entry `n`.
  lemma PendingOfSibling(r: Route, e: Path, n: Name, m: Name)
    requires ValidRoute(r) && Under(r.from, e)
    ensures Under(r.from, e + [n]) && Under(r.from, e + [m])
    ensures var q := PendingOf(Dst(r, e + [n]));
            && !Under(q, e + [m]) && (Under(q, Dst(r, e + [m])) <==> m == PendingName(n))
            && (m == PendingName(n) ==> q == Dst(r, e + [m]))
            && (m != n ==> e + [m] != e + [n] && Dst(r, e + [m]) != Dst(r, e + [n]))
            && e + [m] != Dst(r, e + [n]) && e + [n] != Dst(r, e + [m])
  {
    ChildDst(r, e, n);
    ChildDst(r, e, m);
    var y, d, q := e + [m], Dst(r, e), PendingOf(Dst(r, e + [n]));
    PendingFacts(r, e + [n]);
    Apart(r, y);
    assert y[|e|] == m && (e + [n])[|e|] == n;
    assert (d + [m])[|d|] == m && (d + [n])[|d|] == n && (d + [PendingName(n)])[|d|] == PendingName(n);
    assert (d + [m])[..|q|] == d + [m];
    if Under(q, y) { UnderTrans(r.to, q, y); }
  }

  lemma SafeBesides(r: Route, t: Tree, u: Tree, v: Tree, e: Path, n: Name, m: Name)
    requires ValidRoute(r) && Under(r.from, e) && Under(r.from, e + [n]) && Under(r.from, e + [m]) && e + [m] in t
    requires m != PendingName(n) && SafeEntry(r, t, u, e + [m])
    requires SameBesides(PendingOf(Dst(r, e + [n])), u, v)
    ensures SafeEntry(r, t, v, e + [m])
  {
    PendingOfSibling(r, e, n, m);
  }

  lemma ClearedBesides(t: Tree, q: Path, n: Node)
    ensures SameBesides(q, t, Cleared(t, q)) && SameBesides(q, t, Cleared(t, q)[q := n])
  {
    assert Under(q, q);
  }

  // While `n` is copied, an entry that is not in the way stays safe.
  lemma {:induction false} CopyKeepsEntry(r: Route, t: Tree, u: Tree, e: Path, n: Name, m: Name,
                                          past: seq<Tree>, trace: seq<Tree>, first: nat, k: nat)
    requires ValidRoute(r) && Under(r.from, e) && Under(r.from, e + [n]) && Under(r.from, e + [m])
    requires e + [n] in t && e + [m] in t && e + [n] in u && u[e + [n]].File? && u[e + [n]] == t[e + [n]]
    requires m != PendingName(n) && SafeEntry(r, t, u, e + [m])
    requires CopyTrace(r, u, e + [n], past, trace, first) && |past| <= k < |trace| - 1
    ensures SafeEntry(r, t, trace[k], e + [m])
  {
    var q, b, staged := PendingOf(Dst(r, e + [n])), u[e + [n]].bytes, trace[..|trace| - 2];
    PendingOfSibling(r, e, n, m);
    if k < first {
      assert trace[k] == staged[k] && Pruned(q, u, staged[k]);
      SafeBesides(r, t, u, trace[k], e, n, m);
    } else if k <= first + |b| {
      assert trace[k] == staged[first + (k - first)];
      ClearedBesides(u, q, File(b[..k - first]));
      SafeBesides(r, t, u, trace[k], e, n, m);
    } else {
      ClearedBesides(u, q, Dir);
      SafeBesides(r, t, u, Cleared(u, q), e, n, m);
    }
  }

  // While `n` is copied through the destination of a later entry, that entry is safe exactly
  // when its destination holds nothing, or what belongs there.
  lemma {:induction false} CopyHitsEntry(r: Route, t: Tree, u: Tree, e: Path, n: Name,
                                         past: seq<Tree>, trace: seq<Tree>, first: nat, k: nat)
    requires ValidRoute(r) && Under(r.from, e) && Under(r.from, e + [n]) && Under(r.from, e + [PendingName(n)])
    requires e + [n] in u && u[e + [n]].File?
    requires var y := e + [PendingName(n)]; y in t && y in u && u[y] == t[y] && Dst(r, y) !in u
    requires CopyTrace(r, u, e + [n], past, trace, first) && |past| <= k < |trace| - 1
    ensures first == |past|
    ensures var b := u[e + [n]].bytes;
            SafeEntry(r, t, trace[k], e + [PendingName(n)]) <==>
              k <= first + |b| ==> t[e + [PendingName(n)]] == File(b[..k - first])
  {
    var m := PendingName(n);
    var q, b, staged := PendingOf(Dst(r, e + [n])), u[e + [n]].bytes, trace[..|trace| - 2];
    PendingOfSibling(r, e, n, m);
    assert Under(q, q);
    if k <= first + |b| { assert trace[k] == staged[first + (k - first)]; }
  }

  // The copy of `n` clears away an entry that is already at its destination.
  lemma CopyLosesEntry(r: Route, t: Tree, u: Tree, e: Path, n: Name, past: seq<Tree>, trace: seq<Tree>, first: nat)
    requires ValidRoute(r) && Under(r.from, e) && Under(r.from, e + [n]) && Under(r.from, e + [PendingName(n)])
    requires e + [n] in u && u[e + [n]].File?
    requires var y := e + [PendingName(n)]; y in t && y !in u && Dst(r, y) in u
    requires CopyTrace(r, u, e + [n], past, trace, first)
    ensures |past| < first < |trace| && !SafeEntry(r, t, trace[first - 1], e + [PendingName(n)])
  {
    var q, staged := PendingOf(Dst(r, e + [n])), trace[..|trace| - 2];
    PendingOfSibling(r, e, n, PendingName(n));
    assert Under(q, q) && trace[first - 1] == staged[first - 1];
  }

  // An unsafe entry makes the state unsafe.
  lemma UnsafeState(r: Route, t: Tree, u: Tree, e: Path, names: seq<Name>, n: Name)
    requires n in names && Under(r.from, e + [n]) && e + [n] in t && !SafeEntry(r, t, u, e + [n])
    ensures !SafeState(r, t, u, e, names)
  {
  }

  lemma RenamedNoClash(r: Route, t: Tree, e: Path, n: Name)
    ensures r.renames(e + [n]) || e + [PendingName(n)] !in t ==> !Clash(r, t, e, n)
  {
  }

  // Copying past an entry named like the pending copy.
  lemma {:induction false} ClashStates(r: Route, t: Tree, u: Tree, e: Path, names: seq<Name>, i: nat, j: nat,
                                       past: seq<Tree>, trace: seq<Tree>, first: nat)
    requires ValidRoute(r) && i < |names| && j < |names| && SortedNames(names) && Under(r.from, e)
    requires names[j] == PendingName(names[i]) && !r.renames(e + [names[i]])
    requires forall l :: 0 <= l < |names| ==> MovingAt(r, t, u, e, names, i, l) && SafeEntry(r, t, u, e + [names[l]])
    requires Under(r.from, e + [names[i]]) && e + [names[i]] in u && u[e + [names[i]]].File?
    requires CopyTrace(r, u, e + [names[i]], past, trace, first)
    ensures Under(r.from, e + [names[j]]) && e + [names[j]] in t
    ensures Clash(r, t, e, names[i]) ==> exists k :: |past| <= k < |trace| - 1 && !SafeState(r, t, trace[k], e, names)
    ensures !Clash(r, t, e, names[i]) ==>
              forall k :: |past| <= k < |trace| - 1 ==> SafeEntry(r, t, trace[k], e + [names[j]])
  {
    hide SortedNames, CopyTrace, SafeState, SafeEntry;
    var n, m := names[i], names[j];
    var x, y := e + [n], e + [m];
    assert MovingAt(r, t, u, e, names, i, i) && MovingAt(r, t, u, e, names, i, j) && SafeEntry(r, t, u, y);
    NamesApart(names, i, j);
    assert |m| > |n|;
    if j < i {
      SafeEntryMoved(r, t, u, y);
      CopyLosesEntry(r, t, u, e, n, past, trace, first);
      UnsafeState(r, t, trace[first - 1], e, names, m);
    } else {
      var b := t[x].bytes;
      CopyTraceSize(r, u, x, past, trace, first);
      if Clash(r, t, e, n) {
        var k := if t[y] != File([]) then 0 else |b|;
        assert b[..k] == if k == 0 then [] else b;
        CopyHitsEntry(r, t, u, e, n, past, trace, first, first + k);
        UnsafeState(r, t, trace[first + k], e, names, m);
      } else {
        forall k | |past| <= k < |trace| - 1 ensures SafeEntry(r, t, trace[k], y) {
          CopyHitsEntry(r, t, u, e, n, past, trace, first, k);
        }
      }
    }
  }

  lemma SafeEntryMoved(r: Route, t: Tree, u: Tree, y: Path)
    requires Under(r.from, y) && y in t && SafeEntry(r, t, u, y) && y !in u
    ensures Dst(r, y) in u
  {
  }

  lemma CopyTraceSize(r: Route, t: Tree, x: Path, past: seq<Tree>, trace: seq<Tree>, first: nat)
    requires ValidRoute(r) && Under(r.from, x) && x in t && t[x].File? && CopyTrace(r, t, x, past, trace, first)
    ensures |past| <= first && |trace| == first + |t[x].bytes| + 3
  {
  }

  /** What one move exposes, when nothing has clashed before: a safe state each time, unless
      the entry clashes. */
  lemma {:induction false} NewStates(r: Route, t: Tree, u: Tree, e: Path, names: seq<Name>, i: nat,
                                     past: seq<Tree>, trace: seq<Tree>, first: nat)
    requires ValidRoute(r) && i < |names| && SortedNames(names) && WellFormed(u) && Moving(r, t, u, e, names, i)
    requires forall n :: n in names <==> e + [n] in t
    requires forall k :: 0 <= k < i ==> !Clash(r, t, e, names[k])
    requires Under(r.from, e + [names[i]]) && e + [names[i]] in u && u[e + [names[i]]].File?
    requires past < trace && trace[|trace| - 1] == MovedFile(r, u, e + [names[i]])
    requires if r.renames(e + [names[i]]) then |trace| == |past| + 1
             else CopyTrace(r, u, e + [names[i]], past, trace, first)
    ensures (forall k :: |past| <= k < |trace| ==> SafeState(r, t, trace[k], e, names)) <==> !Clash(r, t, e, names[i])
  {
    hide MovedFile, SortedNames, WellFormed, SafeState, SafeEntry, Clash, CopyTrace, OverrunBy;
    var n := names[i];
    RenamedNoClash(r, t, e, n);
    MovingNext(r, t, u, e, names, i);
    MovingSafe(r, t, u, e, names, i);
    if !Clash(r, t, e, n) { MovingSafe(r, t, MovedFile(r, u, e + [n]), e, names, i + 1); }
    if !r.renames(e + [n]) {
      if PendingName(n) in names {
        var j :| 0 <= j < |names| && names[j] == PendingName(n);
        ClashStates(r, t, u, e, names, i, j, past, trace, first);
      }
      if !Clash(r, t, e, n) {
        forall k | |past| <= k < |trace| - 1 ensures SafeState(r, t, trace[k], e, names) {
          OthersSafe(r, t, u, e, names, i, past, trace, first, k);
        }
      }
    }
  }

  lemma OthersSafe(r: Route, t: Tree, u: Tree, e: Path, names: seq<Name>, i: nat,
                   past: seq<Tree>, trace: seq<Tree>, first: nat, k: nat)
    requires ValidRoute(r) && i < |names| && Under(r.from, e)
    requires forall l :: 0 <= l < |names| ==> MovingAt(r, t, u, e, names, i, l) && SafeEntry(r, t, u, e + [names[l]])
    requires Under(r.from, e + [names[i]]) && e + [names[i]] in u && u[e + [names[i]]].File?
    requires CopyTrace(r, u, e + [names[i]], past, trace, first) && |past| <= k < |trace| - 1
    requires forall l :: 0 <= l < |names| && names[l] == PendingName(names[i]) ==>
               Under(r.from, e + [names[l]]) && e + [names[l]] in t && SafeEntry(r, t, trace[k], e + [names[l]])
    ensures SafeState(r, t, trace[k], e, names)
  {
    hide CopyTrace, SafeEntry;
    assert MovingAt(r, t, u, e, names, i, i);
    forall m | m in names && Under(r.from, e + [m]) && e + [m] in t ensures SafeEntry(r, t, trace[k], e + [m]) {
      var l :| 0 <= l < |names| && names[l] == m;
      assert MovingAt(r, t, u, e, names, i, l);
      if m != PendingName(names[i]) { CopyKeepsEntry(r, t, u, e, names[i], m, past, trace, first, k); }
    }
  }

  lemma FlatStart(r: Route, t: Tree, e: Path, names: seq<Name>)
    requires ValidRoute(r) && FlatListing(r, t, e) && forall n :: n in names <==> e + [n] in t
    ensures WellFormed(t) && Moving(r, t, t, e, names, 0)
  {
    forall j | 0 <= j < |names| ensures MovingAt(r, t, t, e, names, 0, j) {
      ChildDst(r, e, names[j]);
      assert names[j] in names;
    }
  }

  lemma NamesApart(names: seq<Name>, j: nat, k: nat)
    requires SortedNames(names) && j < |names| && k < |names|
    ensures names[j] == names[k] <==> j == k
    ensures Before(names[j], names[k]) <==> j < k
  {
    BeforeIrreflexive(names[j]);
    if k < j && Before(names[j], names[k]) { BeforeTrans(names[j], names[k], names[j]); }
  }

  lemma OverrunNext(r: Route, e: Path, names: seq<Name>, j: nat, i: nat)
    requires j < i < |names|
    ensures OverrunBy(r, e, names, j, i + 1) <==>
            OverrunBy(r, e, names, j, i) || (names[j] == PendingName(names[i]) && !r.renames(e + [names[i]]))
  {
  }

  lemma NotOverrunYet(r: Route, e: Path, names: seq<Name>, i: nat)
    requires i < |names|
    ensures !OverrunBy(r, e, names, i, i + 1)
  {
  }

  // Moving the next entry.
  lemma {:induction false} MovingNext(r: Route, t: Tree, u: Tree, e: Path, names: seq<Name>, i: nat)
    requires ValidRoute(r) && i < |names| && WellFormed(u) && SortedNames(names) && Moving(r, t, u, e, names, i)
    ensures var x := e + [names[i]];
            && Under(r.from, x) && x in u && u[x].File? && Dst(r, x) !in u && ParentReady(u, Dst(r, x))
            && !Under(PendingOf(Dst(r, x)), x)
            && WellFormed(MovedFile(r, u, x)) && Moving(r, t, MovedFile(r, u, x), e, names, i + 1)
  {
    hide MovedFile, OverrunBy, SortedNames, WellFormed;
    var x := e + [names[i]];
    assert MovingAt(r, t, u, e, names, i, i);
    ChildDst(r, e, names[i]);
    PendingFacts(r, x);
    Apart(r, x);
    if Under(PendingOf(Dst(r, x)), x) { UnderTrans(r.to, PendingOf(Dst(r, x)), x); }
    var d := Dst(r, x);
    assert d[..|d| - 1] == Dst(r, e);
    MovedWellFormed(r, u, e, names[i]);
    var v, next := MovedFile(r, u, x), i + 1;
    forall j | 0 <= j < |names| ensures MovingAt(r, t, v, e, names, next, j) {
      assert MovingAt(r, t, u, e, names, i, j);
      MovingEntry(r, t, u, e, names, i, j);
    }
  }

  lemma MovingEntry(r: Route, t: Tree, u: Tree, e: Path, names: seq<Name>, i: nat, j: nat)
    requires ValidRoute(r) && i < |names| && j < |names| && Under(r.from, e) && SortedNames(names)
    requires MovingAt(r, t, u, e, names, i, i) && MovingAt(r, t, u, e, names, i, j)
    ensures MovingAt(r, t, MovedFile(r, u, e + [names[i]]), e, names, i + 1, j)
  {
    hide MovedFile, OverrunBy, SortedNames;
    FlatStep(r, u, e, names[i], names[j]);
    NamesApart(names, j, i);
    if j < i { OverrunNext(r, e, names, j, i); }
    NotOverrunYet(r, e, names, i);
  }

  lemma OverrunAll(r: Route, t: Tree, e: Path, names: seq<Name>, j: nat)
    requires SortedNames(names) && (forall n :: n in names <==> e + [n] in t) && j < |names|
    ensures Overrun(r, t, e, names[j]) <==> OverrunBy(r, e, names, j, |names|)
  {
    if Overrun(r, t, e, names[j]) {
      var n :| e + [n] in t && names[j] == PendingName(n) && Before(names[j], n) && !r.renames(e + [n]);
      assert n in names;
      var k :| 0 <= k < |names| && names[k] == n;
      NamesApart(names, j, k);
    }
    if k :| j < k < |names| && names[j] == PendingName(names[k]) && !r.renames(e + [names[k]]) {
      NamesApart(names, j, k);
      assert names[k] in names;
    }
  }

  lemma {:induction false} FlatEnd(r: Route, t: Tree, u: Tree, e: Path, names: seq<Name>)
    requires ValidRoute(r) && SortedNames(names) && (forall n :: n in names <==> e + [n] in t)
    requires Moving(r, t, u, e, names, |names|)
    ensures forall n :: n in names ==> Under(r.from, e + [n]) && e + [n] in t && e + [n] !in u
    ensures forall n :: n in names ==> (Dst(r, e + [n]) in u <==> !Overrun(r, t, e, n))
    ensures forall n :: n in names && Dst(r, e + [n]) in u ==> u[Dst(r, e + [n])] == t[e + [n]]
    ensures CrashSafeAt(r, t, u, e, names) <==> forall n :: n in names ==> !Overrun(r, t, e, n)
  {
    hide OverrunBy, SortedNames, Overrun;
    forall n | n in names
      ensures Under(r.from, e + [n]) && e + [n] in t && e + [n] !in u
      ensures Dst(r, e + [n]) in u <==> !Overrun(r, t, e, n)
      ensures Dst(r, e + [n]) in u ==> u[Dst(r, e + [n])] == t[e + [n]]
    {
      var j :| 0 <= j < |names| && names[j] == n;
      assert MovingAt(r, t, u, e, names, |names|, j);
      OverrunAll(r, t, e, names, j);
    }
  }

  lemma ChildDst(r: Route, e: Path, n: Name)
    requires ValidRoute(r) && Under(r.from, e)
    ensures Under(r.from, e + [n]) && Under(r.to, Dst(r, e + [n])) && Dst(r, e + [n]) == Dst(r, e) + [n]
    ensures PendingOf(Dst(r, e + [n])) == Dst(r, e) + [PendingName(n)] && e + [n] != r.from
    ensures !Under(r.from, Dst(r, e + [n]))
  {
    SrcOfDst(r, e);
    assert (e + [n])[..|r.from|] == e[..|r.from|];
    assert (e + [n])[|r.from|..] == e[|r.from|..] + [n];
    var d := Dst(r, e) + [n];
    assert d[..|d| - 1] == Dst(r, e) && d[|d| - 1] == n;
    SrcOfDst(r, e + [n]);
    Apart(r, d);
  }

  // Where one move leaves the entries of a directory and their destinations.
  lemma FlatStep(r: Route, t: Tree, e: Path, n: Name, m: Name)
    requires ValidRoute(r) && Under(r.from, e) && e + [n] in t && t[e + [n]].File?
    requires Under(r.from, e + [n]) && Under(r.from, e + [m])
    ensures var u, x, y := MovedFile(r, t, e + [n]), e + [n], e + [m];
            && (y in u <==> y in t && m != n) && (y in u ==> u[y] == t[y])
            && (if m == n then Dst(r, y) in u && u[Dst(r, y)] == t[x]
                else if m == PendingName(n) && !r.renames(x) then Dst(r, y) !in u
                else (Dst(r, y) in u <==> Dst(r, y) in t) && (Dst(r, y) in u ==> u[Dst(r, y)] == t[Dst(r, y)]))
  {
    ChildDst(r, e, n);
    ChildDst(r, e, m);
    var x, y, q := e + [n], e + [m], PendingOf(Dst(r, e + [n]));
    assert x[|e|] == n && y[|e|] == m;
    var d := Dst(r, e);
    assert (d + [m])[|d|] == m && (d + [n])[|d|] == n && (d + [PendingName(n)])[|d|] == PendingName(n);
    assert Under(q, Dst(r, y)) <==> m == PendingName(n) by { assert (d + [m])[..|q|] == d + [m]; }
    PendingFacts(r, x);
    Apart(r, y);
    if Under(q, y) { UnderTrans(r.to, q, y); }
  }

  lemma MovedWellFormed(r: Route, t: Tree, e: Path, n: Name)
    requires ValidRoute(r) && WellFormed(t) && Under(r.from, e) && e + [n] in t && t[e + [n]].File?
    requires Under(r.from, e + [n]) && Dst(r, e + [n]) !in t && Dst(r, e) in t && t[Dst(r, e)].Dir?
    ensures var u := MovedFile(r, t, e + [n]);
            WellFormed(u) && Dst(r, e) in u && u[Dst(r, e)].Dir? && e in u && u[e].Dir?
  {
    var x, d := e + [n], Dst(r, e + [n]);
    ChildDst(r, e, n);
    var q := PendingOf(d);
    assert d[..|d| - 1] == Dst(r, e) && x[..|e|] == e;
    assert e in t && t[e].Dir?;
    forall p | p in t && Under(x, p) ensures p == x { FileIsLeaf(t, x, p); }
    assert !Under(q, Dst(r, e));
    assert !Under(q, e) && !Under(q, x) by {
      PendingFacts(r, x);
      Apart(r, e);
      Apart(r, x);
      if Under(q, e) { UnderTrans(r.to, q, e); }
      if Under(q, x) { UnderTrans(r.to, q, x); }
    }
    var base := if r.renames(x) then t else Cleared(t, q);
    if !r.renames(x) { ClearedWellFormed(t, q); }
    GrowWellFormed(base, d, t[x]);
    var grown := base[d := t[x]];
    forall p | p in grown && Under(x, p) ensures p == x {
      if p == d { UnderTrans(r.from, x, d); }
    }
    ShrinkWellFormed(grown, x);
    assert MovedFile(r, t, x) == grown - {x};
    assert Dst(r, e) != x && e != x && Dst(r, e) != d && e != d by { Apart(r, x); SrcOfDst(r, e); Apart(r, Dst(r, e)); }
  }
}

/** The tree a storage migration works on, the tree it is meant to end with,
    and the proof that no single filesystem step moves that goal. */
module StorageTree {
  import opened NameOrder

  type Path = seq<Name>
  datatype Node = Dir | File(bytes: seq<nat>)
  type Tree = map<Path, Node>

  /** One validated route. `renames` is the outcome of a direct rename of a
      source file: false models a destination on another device. */
  datatype Route = Route(from: Path, to: Path, retained: set<Path>, renames: Path -> bool)

  const LOCK_SUFFIX: string := ".authority.lock"

  predicate EndsWith(s: string, suffix: string) {
    |suffix| <= |s| && s[|s| - |suffix|..] == suffix
  }

  function PendingName(name: Name): (r: Name) {
    ".keeppeek-migration-" + name + ".partial"
  }

  predicate Under(a: Path, p: Path) { |a| <= |p| && p[..|a|] == a }

  // Parents exist and are directories, all the way to the root.
  ghost predicate WellFormed(t: Tree) {
    forall p, k :: p in t && 0 <= k < |p| ==> p[..k] in t && t[p[..k]].Dir?
  }

  predicate ValidRoute(r: Route) {
    r.from != [] && r.to != [] && !Under(r.from, r.to) && !Under(r.to, r.from)
  }

  function Dst(r: Route, p: Path): (d: Path)
    requires Under(r.from, p)
  {
    r.to + p[|r.from|..]
  }

  function Src(r: Route, p: Path): (s: Path)
    requires Under(r.to, p)
  {
    r.from + p[|r.to|..]
  }

  function PendingOf(d: Path): (q: Path)
    requires d != []
  {
    d[..|d| - 1] + [PendingName(d[|d| - 1])]
  }

  // An entry the directory loop passes over.
  predicate Skipped(r: Route, p: Path) {
    p in r.retained || (p != [] && EndsWith(p[|p| - 1], LOCK_SUFFIX))
  }

  // At or below a skipped entry.
  ghost predicate Kept(r: Route, p: Path) {
    exists k :: |r.from| < k <= |p| && Skipped(r, p[..k])
  }

  ghost predicate Conflict(r: Route, t: Tree, p: Path) {
    Under(r.from, p) && p in t && Dst(r, p) in t && t[p] != t[Dst(r, p)]
  }

  ghost predicate Held(r: Route, t: Tree, p: Path) {
    (|r.from| < |p| && Skipped(r, p)) || Conflict(r, t, p)
  }

  // The migration leaves this source path where it is.
  ghost predicate Stays(r: Route, t: Tree, p: Path) {
    exists k :: |r.from| <= k <= |p| && Held(r, t, p[..k])
  }

  ghost predicate Moves(r: Route, t: Tree, p: Path) {
    Under(r.from, p) && p in t && !Stays(r, t, p)
  }

  // A source file that will reach its destination through the pending path.
  ghost predicate Copies(r: Route, t: Tree, x: Path) {
    Moves(r, t, x) && t[x].File? && Dst(r, x) !in t && !r.renames(x)
  }

  // Leftovers of an earlier copy that the migration will clear away.
  ghost predicate Doomed(r: Route, t: Tree, p: Path)
    requires ValidRoute(r)
  {
    exists x :: Copies(r, t, x) && Under(PendingOf(Dst(r, x)), p)
  }

  // The pending path of a file that has to be copied is apart from the source, and it is
  // not the destination of another entry that moves.
  ghost predicate PendingClear(r: Route, t: Tree, x: Path)
    requires ValidRoute(r) && Under(r.from, x)
  {
    var q := PendingOf(Dst(r, x));
    && !Under(r.from, q) && !Under(q, r.from)
    && (Under(r.to, q) && Src(r, q) in t ==> Kept(r, Src(r, q)))
  }

  ghost predicate NoClash(r: Route, t: Tree)
    requires ValidRoute(r)
  {
    forall x :: Copies(r, t, x) ==> PendingClear(r, t, x)
  }

  ghost predicate Inv(r: Route, t: Tree) {
    ValidRoute(r) && WellFormed(t) && NoClash(r, t)
  }

  // ---- The tree a complete run ends with -------------------------------

  ghost predicate InGoal(r: Route, t: Tree, p: Path)
    requires ValidRoute(r)
  {
    if Under(r.from, p) then
      p in t && exists q :: q in t && Under(p, q) && Stays(r, t, q)
    else
      || (p in t && !Doomed(r, t, p))
      || (Under(r.to, p) && Moves(r, t, Src(r, p)))
      || (Under(p, r.to) && p != r.to && r.from in t)
  }

  ghost function GoalNode(r: Route, t: Tree, p: Path): (n: Node)
    requires ValidRoute(r) && InGoal(r, t, p)
  {
    if p in t && (Under(r.from, p) || !Doomed(r, t, p)) then t[p]
    else if Under(r.to, p) && Moves(r, t, Src(r, p)) then t[Src(r, p)]
    else Dir
  }

  ghost predicate SameGoalAt(r: Route, t: Tree, u: Tree, p: Path)
    requires ValidRoute(r)
  {
    && (InGoal(r, t, p) <==> InGoal(r, u, p))
    && (InGoal(r, t, p) && InGoal(r, u, p) ==> GoalNode(r, t, p) == GoalNode(r, u, p))
  }

  ghost predicate SameGoal(r: Route, t: Tree, u: Tree)
    requires ValidRoute(r)
  {
    forall p :: SameGoalAt(r, t, u, p)
  }

  // Source and destination both hold this entry.
  ghost predicate Paired(r: Route, t: Tree, p: Path) {
    Under(r.from, p) && p in t && Dst(r, p) in t && t[Dst(r, p)] == t[p]
  }

  // What later states may do to a source entry: only remove it, never a kept one,
  // and never take back a finished destination.
  ghost predicate Evolves(r: Route, t: Tree, u: Tree) {
    && (forall p :: p in u && Under(r.from, p) ==> p in t && t[p] == u[p])
    && (forall p :: p in t && Under(r.from, p) && Kept(r, p) ==> p in u)
    && (forall p :: p in u && !Kept(r, p) && Paired(r, t, p) ==> Paired(r, u, p))
  }

  ghost predicate Step(r: Route, t: Tree, u: Tree)
    requires ValidRoute(r)
  {
    Inv(r, u) && SameGoal(r, t, u) && Evolves(r, t, u)
  }

  // ---- Path arithmetic ---------------------------------------------------

  lemma DstOfSrc(r: Route, p: Path)
    requires Under(r.to, p)
    ensures Under(r.from, Src(r, p)) && Dst(r, Src(r, p)) == p
  {
  }

  lemma SrcOfDst(r: Route, p: Path)
    requires Under(r.from, p)
    ensures Under(r.to, Dst(r, p)) && Src(r, Dst(r, p)) == p
  {
  }

  lemma UnderChain(a: Path, b: Path, p: Path)
    requires Under(a, p) && Under(b, p) && |a| <= |b|
    ensures Under(a, b)
  {
    assert b[..|a|] == p[..|b|][..|a|] == p[..|a|];
  }

  lemma Apart(r: Route, p: Path)
    requires ValidRoute(r)
    ensures !(Under(r.from, p) && Under(r.to, p))
  {
    if Under(r.from, p) && Under(r.to, p) {
      if |r.from| <= |r.to| {
        UnderChain(r.from, r.to, p);
      } else {
        UnderChain(r.to, r.from, p);
      }
    }
  }

  lemma UnderTrans(a: Path, b: Path, c: Path)
    requires Under(a, b) && Under(b, c)
    ensures Under(a, c)
  {
    assert c[..|a|] == c[..|b|][..|a|];
  }

  lemma PrefixIn(t: Tree, p: Path, q: Path)
    requires WellFormed(t) && q in t && Under(p, q)
    ensures p in t && (p != q ==> t[p].Dir?)
  {
    if |p| < |q| {
      assert q[..|p|] == p;
    } else {
      assert q[..|q|] == q;
    }
  }

  lemma KeptDown(r: Route, p: Path, q: Path)
    requires Under(p, q) && Kept(r, p)
    ensures Kept(r, q)
  {
    var k :| |r.from| < k <= |p| && Skipped(r, p[..k]);
    assert q[..k] == p[..k];
  }

  lemma KeptStays(r: Route, t: Tree, p: Path)
    requires Kept(r, p)
    ensures Stays(r, t, p)
  {
    var k :| |r.from| < k <= |p| && Skipped(r, p[..k]);
    assert Held(r, t, p[..k]);
  }

  lemma PendingFacts(r: Route, x: Path)
    requires ValidRoute(r) && Under(r.from, x)
    ensures Dst(r, x) != []
    ensures var d := Dst(r, x); var q := PendingOf(d);
            && |q| == |d| && q != d && q[..|q| - 1] == d[..|d| - 1]
            && !Under(d, q) && !Under(q, d)
            && (x != r.from ==> Under(r.to, q))
            && (x == r.from ==> !Under(r.to, q))
  {
    var d := Dst(r, x);
    var q := PendingOf(d);
    var n := d[|d| - 1];
    assert |PendingName(n)| > |n|;
    assert q[|q| - 1] == PendingName(n) != n;
    assert q[..|q|] == q && d[..|d|] == d;
    if x == r.from {
      assert d == r.to;
    } else {
      assert q[..|r.to|] == d[..|r.to|] == r.to;
    }
  }

  // ---- Facts every step uses ---------------------------------------------

  lemma SrcPrefix(r: Route, q: Path, s: Path)
    requires Under(r.from, s) && Under(r.to, q) && Under(q, Dst(r, s))
    ensures Under(Src(r, q), s)
  {
    var n := |q| - |r.to|;
    assert q[|r.to|..] == Dst(r, s)[..|q|][|r.to|..] == s[|r.from|..][..n];
    assert s[..|r.from| + n] == r.from + s[|r.from|..][..n];
  }

  // The destination of a movable entry still at the source is never a leftover.
  lemma NotDoomed(r: Route, t: Tree, s: Path)
    requires Inv(r, t) && s in t && Under(r.from, s) && !Kept(r, s)
    ensures !Doomed(r, t, Dst(r, s))
  {
    if Doomed(r, t, Dst(r, s)) {
      var x :| Copies(r, t, x) && Under(PendingOf(Dst(r, x)), Dst(r, s));
      ClashKept(r, t, x, s);
    }
  }

  // A source entry whose destination lies at or below a pending path is kept.
  lemma ClashKept(r: Route, t: Tree, x: Path, s: Path)
    requires Inv(r, t) && Copies(r, t, x)
    requires s in t && Under(r.from, s) && Under(PendingOf(Dst(r, x)), Dst(r, s))
    ensures Kept(r, s)
  {
    var q := PendingOf(Dst(r, x));
    PendingFacts(r, x);
    MovesNotKept(r, t, x);
    SrcOfDst(r, s);
    if x != r.from {
      SrcPrefix(r, q, s);
      PrefixIn(t, Src(r, q), s);
      KeptDown(r, Src(r, q), s);
    }
  }

  // A file has nothing below it.
  lemma FileIsLeaf(t: Tree, x: Path, q: Path)
    requires WellFormed(t) && x in t && t[x].File? && q in t && Under(x, q)
    ensures q == x
  {
    assert q[..|q|] == q;
  }

  lemma StaysSame(r: Route, t: Tree, u: Tree, s: Path)
    requires forall k :: |r.from| <= k <= |s| ==> (Held(r, t, s[..k]) <==> Held(r, u, s[..k]))
    ensures Stays(r, t, s) <==> Stays(r, u, s)
  {
    if Stays(r, t, s) {
      var k :| |r.from| <= k <= |s| && Held(r, t, s[..k]);
      assert Held(r, u, s[..k]);
    }
    if Stays(r, u, s) {
      var k :| |r.from| <= k <= |s| && Held(r, u, s[..k]);
      assert Held(r, t, s[..k]);
    }
  }

  // Removing only movable entries leaves the source half of the goal alone.
  lemma SourceGoal(r: Route, t: Tree, u: Tree)
    requires ValidRoute(r) && WellFormed(u)
    requires forall p :: p in u && Under(r.from, p) ==> p in t && t[p] == u[p]
    requires forall p :: p in t && Under(r.from, p) && p !in u ==> Moves(r, t, p)
    requires forall s :: s in u && Under(r.from, s) ==> (Stays(r, t, s) <==> Stays(r, u, s))
    ensures forall p :: Under(r.from, p) ==> SameGoalAt(r, t, u, p)
  {
    forall p | Under(r.from, p) ensures SameGoalAt(r, t, u, p) {
      forall q | q in t && Under(p, q) && Stays(r, t, q) ensures q in u && p in u && Stays(r, u, q) {
        UnderTrans(r.from, p, q);
        PrefixIn(u, p, q);
      }
      forall q | q in u && Under(p, q) && Stays(r, u, q) ensures q in t && Stays(r, t, q) {
        UnderTrans(r.from, p, q);
      }
    }
  }

  lemma KeepsClash(r: Route, t: Tree, u: Tree)
    requires ValidRoute(r) && NoClash(r, t)
    requires forall p :: p in u && Under(r.from, p) ==> p in t && t[p] == u[p]
    requires forall x :: Copies(r, u, x) ==> Copies(r, t, x)
    ensures NoClash(r, u)
  {
    forall x | Copies(r, u, x) ensures PendingClear(r, u, x) {
      assert PendingClear(r, t, x);
      var q := PendingOf(Dst(r, x));
      if Under(r.to, q) { DstOfSrc(r, q); }
    }
  }

  lemma GrowWellFormed(t: Tree, d: Path, n: Node)
    requires WellFormed(t) && d != [] && d[..|d| - 1] in t && t[d[..|d| - 1]].Dir?
    requires d in t ==> t[d].File? && n.File?
    ensures WellFormed(t[d := n])
  {
    var u := t[d := n];
    var e := d[..|d| - 1];
    forall p, k | p in u && 0 <= k < |p| ensures p[..k] in u && u[p[..k]].Dir? {
      if p == d {
        if k < |e| { assert d[..k] == e[..k]; } else { assert d[..k] == e; }
      } else {
        assert p[..k] in t;
      }
    }
  }

  lemma ShrinkWellFormed(t: Tree, d: Path)
    requires WellFormed(t) && forall p :: p in t && Under(d, p) ==> p == d
    ensures WellFormed(t - {d})
  {
    var u := t - {d};
    forall p, k | p in u && 0 <= k < |p| ensures p[..k] in u && u[p[..k]].Dir? {
      assert p[..k] in t;
      assert |p[..k]| < |p|;
    }
  }

  // ---- The steps -----------------------------------------------------------

  lemma AncestorApart(r: Route, d: Path)
    requires ValidRoute(r) && Under(d, r.to) && d != r.to
    ensures |d| < |r.to| && !Under(r.from, d) && !Under(r.to, d)
  {
    assert r.to[..|r.to|] == r.to;
    if Under(r.from, d) { UnderTrans(r.from, d, r.to); }
  }

  lemma AncestorStays(r: Route, t: Tree, d: Path, x: Path)
    requires ValidRoute(r) && Under(d, r.to) && d != r.to && d !in t && Under(r.from, x)
    ensures Stays(r, t, x) <==> Stays(r, t[d := Dir], x)
  {
    AncestorApart(r, d);
    forall k | |r.from| <= k <= |x| ensures Held(r, t, x[..k]) <==> Held(r, t[d := Dir], x[..k]) {
      UnderChain(r.from, x[..k], x);
      SrcOfDst(r, x[..k]);
    }
    StaysSame(r, t, t[d := Dir], x);
  }

  lemma AncestorCopies(r: Route, t: Tree, d: Path, x: Path)
    requires ValidRoute(r) && Under(d, r.to) && d != r.to && d !in t
    ensures Copies(r, t, x) <==> Copies(r, t[d := Dir], x)
  {
    AncestorApart(r, d);
    if Under(r.from, x) { AncestorStays(r, t, d, x); SrcOfDst(r, x); }
  }

  lemma AncestorGoal(r: Route, t: Tree, d: Path, p: Path)
    requires ValidRoute(r) && Under(d, r.to) && d != r.to && d !in t && r.from in t && !Under(r.from, p)
    ensures SameGoalAt(r, t, t[d := Dir], p)
  {
    hide Stays;
    var u := t[d := Dir];
    AncestorApart(r, d);
    forall x ensures Copies(r, t, x) <==> Copies(r, u, x) { AncestorCopies(r, t, d, x); }
    assert Doomed(r, t, p) <==> Doomed(r, u, p);
    if p == d { NotAncestorDoomed(r, u, d); }
    if Under(r.to, p) {
      DstOfSrc(r, p);
      AncestorStays(r, t, d, Src(r, p));
    }
  }

  // create_dir_all making one missing directory above the destination.
  lemma {:induction false} MakeAncestor(r: Route, t: Tree, d: Path)
    requires Inv(r, t) && r.from in t
    requires d !in t && d != [] && d[..|d| - 1] in t && t[d[..|d| - 1]].Dir?
    requires Under(d, r.to) && d != r.to
    ensures Step(r, t, t[d := Dir])
  {
    hide Stays, SameGoalAt, Kept, NoClash;
    var u := t[d := Dir];
    AncestorApart(r, d);
    GrowWellFormed(t, d, Dir);
    forall x | Copies(r, u, x) ensures Copies(r, t, x) { AncestorCopies(r, t, d, x); }
    KeepsClash(r, t, u);
    forall x | x in u && Under(r.from, x) ensures Stays(r, t, x) <==> Stays(r, u, x) { AncestorStays(r, t, d, x); }
    SourceGoal(r, t, u);
    forall p | !Under(r.from, p) ensures SameGoalAt(r, t, u, p) { AncestorGoal(r, t, d, p); }
  }

  lemma AddStays(r: Route, t: Tree, s: Path, x: Path)
    requires Inv(r, t) && Moves(r, t, s) && Dst(r, s) !in t
    requires Under(r.from, x)
    ensures Stays(r, t, x) <==> Stays(r, t[Dst(r, s) := t[s]], x)
  {
    var u := t[Dst(r, s) := t[s]];
    Apart(r, Dst(r, s)) by { SrcOfDst(r, s); }
    SrcOfDst(r, s);
    forall k | |r.from| <= k <= |x| ensures Held(r, t, x[..k]) <==> Held(r, u, x[..k]) {
      UnderChain(r.from, x[..k], x);
      SrcOfDst(r, x[..k]);
      Apart(r, x[..k]);
    }
    StaysSame(r, t, u, x);
  }

  lemma AddCopies(r: Route, t: Tree, s: Path, x: Path)
    requires Inv(r, t) && Moves(r, t, s) && Dst(r, s) !in t && x != s
    ensures Copies(r, t, x) <==> Copies(r, t[Dst(r, s) := t[s]], x)
  {
    if Under(r.from, x) {
      AddStays(r, t, s, x);
      SrcOfDst(r, x);
      SrcOfDst(r, s);
      Apart(r, x);
    }
  }

  lemma AddDoomed(r: Route, t: Tree, s: Path, p: Path)
    requires Inv(r, t) && Moves(r, t, s) && Dst(r, s) !in t && p in t
    requires Copies(r, t, s) ==> forall p :: p in t ==> !Under(PendingOf(Dst(r, s)), p)
    ensures Doomed(r, t, p) <==> Doomed(r, t[Dst(r, s) := t[s]], p)
  {
    hide Inv, Stays;
    var u := t[Dst(r, s) := t[s]];
    forall x ensures Copies(r, t, x) && x != s <==> Copies(r, u, x) {
      if x != s { AddCopies(r, t, s, x); } else { SrcOfDst(r, s); }
    }
  }

  lemma AddGoal(r: Route, t: Tree, s: Path, p: Path)
    requires Inv(r, t) && Moves(r, t, s) && Dst(r, s) !in t && !Under(r.from, p)
    requires Copies(r, t, s) ==> forall p :: p in t ==> !Under(PendingOf(Dst(r, s)), p)
    requires Inv(r, t[Dst(r, s) := t[s]])
    ensures SameGoalAt(r, t, t[Dst(r, s) := t[s]], p)
  {
    hide Inv, Stays, Doomed;
    var d := Dst(r, s);
    var u := t[d := t[s]];
    InvFacts(r, t);
    SrcOfDst(r, s);
    Apart(r, d);
    Apart(r, r.from);
    if p in t { AddDoomed(r, t, s, p); }
    if Under(r.to, p) {
      DstOfSrc(r, p);
      Apart(r, Src(r, p));
      AddStays(r, t, s, Src(r, p));
      if p == d {
        MovesNotKept(r, t, s);
        NotDoomed(r, u, s);
      }
    }
  }

  lemma InvFacts(r: Route, t: Tree)
    requires Inv(r, t)
    ensures ValidRoute(r) && WellFormed(t) && NoClash(r, t)
  {
  }

  lemma MovesNotKept(r: Route, t: Tree, s: Path)
    requires Moves(r, t, s)
    ensures !Kept(r, s)
  {
    if Kept(r, s) { KeptStays(r, t, s); }
  }

  // A source entry appearing at its destination: a new directory, a renamed file,
  // or a committed copy whose pending path is gone.
  lemma {:induction false} AddDestination(r: Route, t: Tree, s: Path)
    requires Inv(r, t) && Moves(r, t, s)
    requires var d := Dst(r, s); d !in t && d[..|d| - 1] in t && t[d[..|d| - 1]].Dir?
    requires Copies(r, t, s) ==> forall p :: p in t ==> !Under(PendingOf(Dst(r, s)), p)
    ensures Step(r, t, t[Dst(r, s) := t[s]])
  {
    hide Stays, SameGoalAt, Kept, NoClash;
    var d := Dst(r, s);
    var u := t[d := t[s]];
    SrcOfDst(r, s);
    Apart(r, d);
    GrowWellFormed(t, d, t[s]);
    forall x | Copies(r, u, x) ensures Copies(r, t, x) { AddCopies(r, t, s, x); }
    KeepsClash(r, t, u);
    forall x | x in u && Under(r.from, x) ensures Stays(r, t, x) <==> Stays(r, u, x) { AddStays(r, t, s, x); }
    SourceGoal(r, t, u);
    forall p | !Under(r.from, p) ensures SameGoalAt(r, t, u, p) { AddGoal(r, t, s, p); }
  }

  lemma RemoveStays(r: Route, t: Tree, s: Path, x: Path)
    requires Inv(r, t) && Under(r.from, s) && Under(r.from, x)
    requires forall p :: p in t && Under(s, p) ==> p == s
    requires x in t && x != s
    ensures Stays(r, t, x) <==> Stays(r, t - {s}, x)
  {
    forall k | |r.from| <= k <= |x| ensures Held(r, t, x[..k]) <==> Held(r, t - {s}, x[..k]) {
      UnderChain(r.from, x[..k], x);
      SrcOfDst(r, x[..k]);
      Apart(r, s);
      assert Under(x[..k], x);
    }
    StaysSame(r, t, t - {s}, x);
  }

  lemma RemoveCopies(r: Route, t: Tree, s: Path, x: Path)
    requires Inv(r, t) && Moves(r, t, s) && Paired(r, t, s)
    requires forall p :: p in t && Under(s, p) ==> p == s
    ensures Copies(r, t, x) <==> Copies(r, t - {s}, x)
  {
    SrcOfDst(r, s);
    Apart(r, s);
    if Under(r.from, x) && x in t && x != s { RemoveStays(r, t, s, x); SrcOfDst(r, x); }
  }

  lemma RemoveDoomed(r: Route, t: Tree, s: Path, p: Path)
    requires Inv(r, t) && Moves(r, t, s) && Paired(r, t, s)
    requires forall p :: p in t && Under(s, p) ==> p == s
    ensures Doomed(r, t, p) <==> Doomed(r, t - {s}, p)
  {
    hide Inv, Stays, Copies;
    InvFacts(r, t);
    forall x ensures Copies(r, t, x) <==> Copies(r, t - {s}, x) { RemoveCopies(r, t, s, x); }
  }

  lemma RemoveGoal(r: Route, t: Tree, s: Path, p: Path)
    requires Inv(r, t) && Moves(r, t, s) && Paired(r, t, s)
    requires forall p :: p in t && Under(s, p) ==> p == s
    requires !Under(r.from, p)
    ensures SameGoalAt(r, t, t - {s}, p)
  {
    hide Stays, Kept, NoClash, WellFormed, Doomed;
    var d := Dst(r, s);
    var u := t - {s};
    SrcOfDst(r, s);
    Apart(r, s);
    Apart(r, d);
    RemoveDoomed(r, t, s, p);
    if Under(r.to, p) {
      DstOfSrc(r, p);
      if p == d {
        MovesNotKept(r, t, s);
        NotDoomed(r, t, s);
      } else if Src(r, p) in t {
        RemoveStays(r, t, s, Src(r, p));
      }
    } else if Under(p, r.to) {
      UnderTrans(p, r.to, d);
      PrefixIn(t, p, d);
      if |p| < |r.to| { NotAncestorDoomed(r, t, p); }
    }
  }

  // Deleting a source entry that is already at its destination.
  lemma {:induction false} RemoveSource(r: Route, t: Tree, s: Path)
    requires Inv(r, t) && Moves(r, t, s) && Paired(r, t, s)
    requires forall p :: p in t && Under(s, p) ==> p == s
    ensures Step(r, t, t - {s})
  {
    hide Stays, SameGoalAt, Kept, NoClash;
    var u := t - {s};
    SrcOfDst(r, s);
    Apart(r, s);
    ShrinkWellFormed(t, s);
    forall x | Copies(r, u, x) ensures Copies(r, t, x) { RemoveCopies(r, t, s, x); }
    KeepsClash(r, t, u);
    MovesNotKept(r, t, s);
    forall x | x in u && Under(r.from, x) ensures Stays(r, t, x) <==> Stays(r, u, x) { RemoveStays(r, t, s, x); }
    SourceGoal(r, t, u);
    forall p | !Under(r.from, p) ensures SameGoalAt(r, t, u, p) { RemoveGoal(r, t, s, p); }
    forall p | p in u && !Kept(r, p) && Paired(r, t, p) ensures Paired(r, u, p) { SrcOfDst(r, p); }
  }

  lemma NotAncestorDoomed(r: Route, t: Tree, p: Path)
    requires ValidRoute(r) && |p| < |r.to|
    ensures !Doomed(r, t, p)
  {
    forall x | Copies(r, t, x) ensures !Under(PendingOf(Dst(r, x)), p) { PendingFacts(r, x); }
  }

  // Only the pending path of `x`, or what lies below it, differs.
  ghost predicate SameBesides(q: Path, t: Tree, u: Tree) {
    forall p :: !Under(q, p) ==> (p in t <==> p in u) && (p in t && p in u ==> t[p] == u[p])
  }

  lemma PendingApart(r: Route, t: Tree, x: Path, p: Path)
    requires Inv(r, t) && Copies(r, t, x) && Under(r.from, p)
    ensures !Under(PendingOf(Dst(r, x)), p)
  {
    var q := PendingOf(Dst(r, x));
    MovesNotKept(r, t, x);
    if Under(q, p) {
      if |q| <= |r.from| { UnderChain(q, r.from, p); } else { UnderChain(r.from, q, p); }
    }
  }

  lemma PendingStays(r: Route, t: Tree, x: Path, u: Tree, s: Path)
    requires Inv(r, t) && Copies(r, t, x) && WellFormed(u)
    requires SameBesides(PendingOf(Dst(r, x)), t, u)
    requires Under(r.from, s) && s in t
    ensures Stays(r, t, s) <==> Stays(r, u, s)
  {
    if Kept(r, s) {
      KeptStays(r, t, s);
      KeptStays(r, u, s);
    } else {
      forall k | |r.from| <= k <= |s| ensures Held(r, t, s[..k]) <==> Held(r, u, s[..k]) {
        var p := s[..k];
        UnderChain(r.from, p, s);
        PrefixIn(t, p, s);
        PendingApart(r, t, x, p);
        if Under(PendingOf(Dst(r, x)), Dst(r, p)) {
          ClashKept(r, t, x, p);
          KeptDown(r, p, s);
        }
      }
      StaysSame(r, t, u, s);
    }
  }

  lemma PendingCopies(r: Route, t: Tree, x: Path, u: Tree, y: Path)
    requires Inv(r, t) && Copies(r, t, x) && WellFormed(u)
    requires SameBesides(PendingOf(Dst(r, x)), t, u)
    ensures Copies(r, t, y) <==> Copies(r, u, y)
  {
    if Under(r.from, y) {
      PendingApart(r, t, x, y);
      if y in t {
        PendingStays(r, t, x, u, y);
        if Under(PendingOf(Dst(r, x)), Dst(r, y)) {
          ClashKept(r, t, x, y);
          KeptStays(r, t, y);
        }
      }
    }
  }

  lemma PendingDoomed(r: Route, t: Tree, x: Path, u: Tree, p: Path)
    requires Inv(r, t) && Copies(r, t, x) && WellFormed(u)
    requires SameBesides(PendingOf(Dst(r, x)), t, u)
    ensures Doomed(r, t, p) <==> Doomed(r, u, p)
    ensures Under(PendingOf(Dst(r, x)), p) ==> Doomed(r, t, p)
  {
    hide Inv, Stays;
    InvFacts(r, t);
    forall y ensures Copies(r, t, y) <==> Copies(r, u, y) { PendingCopies(r, t, x, u, y); }
  }

  lemma PendingGoal(r: Route, t: Tree, x: Path, u: Tree, p: Path)
    requires Inv(r, t) && Copies(r, t, x) && WellFormed(u)
    requires SameBesides(PendingOf(Dst(r, x)), t, u)
    requires !Under(r.from, p)
    ensures SameGoalAt(r, t, u, p)
  {
    hide Stays, Kept, NoClash, WellFormed, Doomed;
    var q := PendingOf(Dst(r, x));
    PendingFacts(r, x);
    PendingApart(r, t, x, r.from);
    PendingDoomed(r, t, x, u, p);
    if Under(r.to, p) {
      DstOfSrc(r, p);
      var s := Src(r, p);
      PendingApart(r, t, x, s);
      if s in t {
        PendingStays(r, t, x, u, s);
        if Under(q, p) {
          ClashKept(r, t, x, s);
          KeptStays(r, t, s);
        }
      }
    }
  }

  // Anything happening at or below the pending path of a file still to be copied.
  lemma {:induction false} TouchPending(r: Route, t: Tree, x: Path, u: Tree)
    requires Inv(r, t) && Copies(r, t, x) && WellFormed(u)
    requires SameBesides(PendingOf(Dst(r, x)), t, u)
    ensures Step(r, t, u) && Copies(r, u, x) && u[x] == t[x]
  {
    var q := PendingOf(Dst(r, x));
    forall p | Under(r.from, p) ensures !Under(q, p) { PendingApart(r, t, x, p); }
    forall y | Copies(r, u, y) ensures Copies(r, t, y) { PendingCopies(r, t, x, u, y); }
    KeepsClash(r, t, u);
    forall s | s in u && Under(r.from, s) ensures Stays(r, t, s) <==> Stays(r, u, s) {
      PendingStays(r, t, x, u, s);
    }
    SourceGoal(r, t, u);
    PendingCopies(r, t, x, u, x);
    forall p | !Under(r.from, p) ensures SameGoalAt(r, t, u, p) { PendingGoal(r, t, x, u, p); }
    forall p | p in u && !Kept(r, p) && Paired(r, t, p) ensures Paired(r, u, p) {
      if Under(q, Dst(r, p)) { ClashKept(r, t, x, p); }
    }
  }

  lemma StepTrans(r: Route, t: Tree, u: Tree, v: Tree)
    requires ValidRoute(r) && Step(r, t, u) && Step(r, u, v)
    ensures Step(r, t, v)
  {
    forall p ensures SameGoalAt(r, t, v, p) {
      assert SameGoalAt(r, t, u, p) && SameGoalAt(r, u, v, p);
    }
    forall p | p in v && !Kept(r, p) && Paired(r, t, p) ensures Paired(r, v, p) {
      assert p in u;
      assert Paired(r, u, p);
    }
  }

  // ---- What the invariance of the goal gives ---------------------------------

  /** Every source entry that is not retained is at its source or its destination,
      whole, and its destination holds that entry, what was there before, or nothing. */
  ghost predicate CrashSafe(r: Route, t0: Tree, t: Tree) {
    forall s :: s in t0 && Under(r.from, s) && !Kept(r, s) ==>
      && ((s in t && t[s] == t0[s]) || (Dst(r, s) in t && t[Dst(r, s)] == t0[s]))
      && (Dst(r, s) in t ==>
            t[Dst(r, s)] == t0[s] || (Dst(r, s) in t0 && t[Dst(r, s)] == t0[Dst(r, s)]))
  }

  lemma {:induction false} GoalIsCrashSafe(r: Route, t0: Tree, t: Tree)
    requires Inv(r, t0) && Inv(r, t) && SameGoal(r, t0, t)
    ensures CrashSafe(r, t0, t)
  {
    forall s | s in t0 && Under(r.from, s) && !Kept(r, s)
      ensures (s in t && t[s] == t0[s]) || (Dst(r, s) in t && t[Dst(r, s)] == t0[s])
      ensures Dst(r, s) in t ==>
                t[Dst(r, s)] == t0[s] || (Dst(r, s) in t0 && t[Dst(r, s)] == t0[Dst(r, s)])
    {
      var d := Dst(r, s);
      SrcOfDst(r, s);
      Apart(r, d);
      NotDoomed(r, t0, s);
      if s in t { NotDoomed(r, t, s); }
      assert SameGoalAt(r, t0, t, s) && SameGoalAt(r, t0, t, d);
      assert s[..|s|] == s;
      if Stays(r, t0, s) {
        assert Under(s, s) && InGoal(r, t0, s);
      } else {
        assert s[..|s|] == s && !Conflict(r, t0, s);
        assert InGoal(r, t0, d) && GoalNode(r, t0, d) == t0[s];
      }
    }
  }

  // Nothing movable is left except directories above a retained entry.
  ghost predicate FinishedUnder(r: Route, t: Tree, s: Path) {
    forall p :: p in t && Under(s, p) && !Kept(r, p) ==>
      Paired(r, t, p) && exists q :: q in t && Under(p, q) && Kept(r, q)
  }

  ghost predicate Finished(r: Route, t: Tree) { FinishedUnder(r, t, r.from) }

  // The tree that `t` is meant to end as.
  ghost predicate IsGoal(r: Route, t: Tree, u: Tree)
    requires ValidRoute(r)
  {
    forall p :: (p in u <==> InGoal(r, t, p)) && (p in u && InGoal(r, t, p) ==> u[p] == GoalNode(r, t, p))
  }

  lemma {:induction false} FinishedIsGoal(r: Route, t: Tree)
    requires Inv(r, t) && Finished(r, t)
    ensures IsGoal(r, t, t)
  {
    forall x, q | x in t && t[x].File? && q in t && Under(x, q) ensures q == x { FileIsLeaf(t, x, q); }
    forall x ensures !Copies(r, t, x) {
      if Copies(r, t, x) && Kept(r, x) { KeptStays(r, t, x); }
    }
    forall p ensures p in t <==> InGoal(r, t, p) {
      if p in t && Under(r.from, p) {
        assert p[..|p|] == p;
        if Kept(r, p) {
          KeptStays(r, t, p);
        } else {
          var q :| q in t && Under(p, q) && Kept(r, q);
          KeptStays(r, t, q);
        }
      }
      if Under(r.to, p) && Moves(r, t, Src(r, p)) {
        DstOfSrc(r, p);
        if Kept(r, Src(r, p)) { KeptStays(r, t, Src(r, p)); }
        assert Paired(r, t, Src(r, p));
      }
      if Under(p, r.to) && p != r.to && r.from in t {
        assert !Kept(r, r.from) && Under(r.from, r.from);
        assert Dst(r, r.from) == r.to;
        PrefixIn(t, p, r.to);
      }
    }
  }

  // Two complete runs over the same goal end with the same tree.
  lemma {:induction false} FinishedTreesAgree(r: Route, u: Tree, v: Tree)
    requires Inv(r, u) && Inv(r, v) && Finished(r, u) && Finished(r, v) && SameGoal(r, u, v)
    ensures u == v
  {
    FinishedIsGoal(r, u);
    FinishedIsGoal(r, v);
    forall p ensures p in u <==> p in v { assert SameGoalAt(r, u, v, p); }
    forall p | p in u ensures u[p] == v[p] { assert SameGoalAt(r, u, v, p); }
  }

  /** Replay: whatever state a crash left behind, a rerun that completes ends with the
      tree an uninterrupted run would have ended with. */
  lemma {:induction false} ReplayAgrees(r: Route, start: Tree, crash: Tree, uninterrupted: Tree, rerun: Tree)
    requires Inv(r, start) && Step(r, start, crash)
    requires Step(r, start, uninterrupted) && Finished(r, uninterrupted)
    requires Step(r, crash, rerun) && Finished(r, rerun)
    ensures rerun == uninterrupted
    ensures IsGoal(r, start, rerun)
  {
    StepTrans(r, start, crash, rerun);
    forall p ensures SameGoalAt(r, uninterrupted, rerun, p) {
      assert SameGoalAt(r, start, uninterrupted, p) && SameGoalAt(r, start, rerun, p);
    }
    FinishedTreesAgree(r, uninterrupted, rerun);
    FinishedIsGoal(r, rerun);
    forall p ensures p in rerun <==> InGoal(r, start, p) { assert SameGoalAt(r, start, rerun, p); }
    forall p | p in rerun ensures rerun[p] == GoalNode(r, start, p) { assert SameGoalAt(r, start, rerun, p); }
  }

  lemma FinishedEvolves(r: Route, t: Tree, u: Tree, s: Path)
    requires Under(r.from, s) && Evolves(r, t, u) && FinishedUnder(r, t, s)
    ensures FinishedUnder(r, u, s)
  {
    forall p | p in u && Under(s, p) && !Kept(r, p)
      ensures Paired(r, u, p) && exists q :: q in u && Under(p, q) && Kept(r, q)
    {
      UnderTrans(r.from, s, p);
      var q :| q in t && Under(p, q) && Kept(r, q);
      UnderTrans(r.from, p, q);
      assert q in u;
    }
  }

  // Nothing at the destination contradicts a movable source entry.
  ghost predicate Unobstructed(r: Route, t: Tree) {
    && (forall p :: p in t && Under(r.from, p) && !Kept(r, p) ==> !Conflict(r, t, p))
    && (forall p :: p in t && Under(p, r.to) && p != r.to ==> t[p].Dir?)
  }

  lemma {:induction false} StaysUnobstructed(r: Route, t: Tree, u: Tree)
    requires Inv(r, t) && Step(r, t, u) && Unobstructed(r, t)
    ensures Unobstructed(r, u)
  {
    forall p | p in u && Under(r.from, p) && !Kept(r, p) ensures !Conflict(r, u, p) {
      var d := Dst(r, p);
      SrcOfDst(r, p);
      Apart(r, d);
      NotDoomed(r, t, p);
      NotDoomed(r, u, p);
      assert SameGoalAt(r, t, u, d);
      if Stays(r, t, p) {
        var k :| |r.from| <= k <= |p| && Held(r, t, p[..k]);
        UnderChain(r.from, p[..k], p);
        PrefixIn(t, p[..k], p);
        assert p[..k][..k] == p[..k];
        if Kept(r, p[..k]) { KeptDown(r, p[..k], p); }
      } else {
        assert p[..|p|] == p;
        assert InGoal(r, t, d) && GoalNode(r, t, d) == t[p];
      }
    }
    forall p | p in u && Under(p, r.to) && p != r.to ensures u[p].Dir? {
      assert |p| < |r.to| by { assert r.to[..|r.to|] == r.to; }
      assert !Under(r.from, p) by { if Under(r.from, p) { UnderTrans(r.from, p, r.to); } }
      assert SameGoalAt(r, t, u, p);
      NotAncestorDoomed(r, t, p);
      NotAncestorDoomed(r, u, p);
    }
  }

  // Nothing above a movable entry with a ready destination holds it back.
  lemma NotHeld(r: Route, t: Tree, s: Path, k: nat)
    requires Inv(r, t) && s in t && Under(r.from, s) && !Kept(r, s) && !Conflict(r, t, s)
    requires s != r.from ==> var d := Dst(r, s); d[..|d| - 1] in t && t[d[..|d| - 1]].Dir?
    requires |r.from| <= k <= |s|
    ensures !Held(r, t, s[..k])
  {
    var p := s[..k];
    if k == |s| {
      assert p == s;
    } else {
      UnderChain(r.from, p, s);
      PrefixIn(t, p, s);
      var d := Dst(r, s);
      var e := d[..|d| - 1];
      assert Dst(r, p) == d[..|r.to| + k - |r.from|];
      assert Under(Dst(r, p), e) by { assert e[..|Dst(r, p)|] == Dst(r, p); }
      PrefixIn(t, Dst(r, p), e);
    }
  }

  lemma NotStays(r: Route, t: Tree, s: Path)
    requires Inv(r, t) && s in t && Under(r.from, s) && !Kept(r, s) && !Conflict(r, t, s)
    requires s != r.from ==> var d := Dst(r, s); d[..|d| - 1] in t && t[d[..|d| - 1]].Dir?
    ensures Moves(r, t, s)
  {
    hide Held, Kept, Inv;
    forall k | |r.from| <= k <= |s| ensures !Held(r, t, s[..k]) { NotHeld(r, t, s, k); }
  }
}

/** Configuration values, and the two merges that must not lose a raw secret reference. */
module ConfigTree {
  import opened Base
  import opened SecretTemplate

  // A TOML value; `Scalar` stands for every value that is neither text nor a container.
  datatype Value =
    | Str(text: Text)
    | Arr(items: seq<Value>)
    | Tab(entries: map<string, Value>)
    | Scalar(id: int)

  predicate ContainsReferences(v: Value) {
    match v
    case Str(text) => ContainsReference(text)
    case Arr(items) => exists i :: 0 <= i < |items| && ContainsReferences(items[i])
    case Tab(entries) => exists k :: k in entries && ContainsReferences(entries[k])
    case Scalar(_) => false
  }

  // ---- Paths -----------------------------------------------------------------------

  datatype Hop = Key(name: string) | Index(n: nat)
  type Path = seq<Hop>

  function Child(v: Value, hop: Hop): (r: Option<Value>) {
    match (v, hop)
    case (Tab(entries), Key(name)) => if name in entries then Some(entries[name]) else None
    case (Arr(items), Index(n)) => if n < |items| then Some(items[n]) else None
    case _ => None
  }

  function At(v: Value, p: Path): (r: Option<Value>) {
    if p == [] then Some(v)
    else
      var c := Child(v, p[0]);
      if c.None? then None else At(c.value, p[1..])
  }

  function AtOpt(v: Option<Value>, p: Path): (r: Option<Value>) {
    if v.None? then None else At(v.value, p)
  }

  // ---- Updating a section: preserve_secret_reference ----------------------------------

  // The old text is a reference that already resolves to the new text.
  predicate SameSecret(existing: Value, next: Value, vault: Vault) {
    && existing.Str? && next.Str? && ContainsReference(existing.text)
    && Resolve(existing.text, vault) == Ok(next.text)
  }

  function ChildOf(v: Option<Value>, hop: Hop): (r: Option<Value>) {
    if v.None? then None else Child(v.value, hop)
  }

  // A reference stands where new text is to go, and it cannot be resolved.
  predicate Unresolvable(existing: Option<Value>, next: Value, vault: Vault) {
    && existing.Some? && existing.value.Str? && next.Str?
    && ContainsReference(existing.value.text) && Resolve(existing.value.text, vault).Err?
  }

  function Preserve(existing: Option<Value>, next: Value, vault: Vault): (r: Option<Value>)
    decreases next
  {
    match next
    case Tab(entries) =>
      if existing.Some? && existing.value.Tab? then
        if forall k :: k in entries ==> Preserve(ChildOf(existing, Key(k)), entries[k], vault).Some? then
          Some(Tab(existing.value.entries +
                   map k | k in entries :: Preserve(ChildOf(existing, Key(k)), entries[k], vault).value))
        else None
      else Some(next)
    case Arr(items) =>
      if existing.Some? && existing.value.Arr? then
        if forall i :: 0 <= i < |items| ==> Preserve(ChildOf(existing, Index(i)), items[i], vault).Some? then
          Some(Arr(seq(|items|, i requires 0 <= i < |items| =>
            Preserve(ChildOf(existing, Index(i)), items[i], vault).value)))
        else None
      else Some(next)
    case Str(text) =>
      if Unresolvable(existing, next, vault) then None
      else if existing.Some? && SameSecret(existing.value, next, vault) then existing
      else Some(next)
    case Scalar(_) => Some(next)
  }

  // What a leaf of `next` becomes, given what stood at the same path before.
  function LeafResult(existing: Option<Value>, leaf: Value, vault: Vault): (r: Value) {
    if existing.Some? && SameSecret(existing.value, leaf, vault) then existing.value else leaf
  }

  function TableKeys(v: Option<Value>): (r: set<string>) {
    if v.Some? && v.value.Tab? then v.value.entries.Keys else {}
  }

  predicate Leaf(v: Value) { v.Str? || v.Scalar? }

  lemma AtChild(v: Option<Value>, p: Path)
    requires p != []
    ensures AtOpt(v, p) == AtOpt(ChildOf(v, p[0]), p[1..])
  {
  }

  lemma PreserveChild(existing: Option<Value>, next: Value, vault: Vault, hop: Hop)
    requires Preserve(existing, next, vault).Some? && Child(next, hop).Some?
    ensures var kept := Preserve(ChildOf(existing, hop), Child(next, hop).value, vault);
            if existing.Some? && ((existing.value.Tab? && next.Tab?) || (existing.value.Arr? && next.Arr?))
            then kept.Some? && Child(Preserve(existing, next, vault).value, hop) == kept
            else Preserve(existing, next, vault).value == next && ChildOf(existing, hop) == None
  {
  }

  /** Every leaf of the new value arrives: as the old reference where that already resolved
      to the new text, and as written everywhere else. Arrays keep the new length, tables
      gain no key but the old table's. */
  lemma {:induction false} PreserveAt(existing: Option<Value>, next: Value, vault: Vault, p: Path)
    requires Preserve(existing, next, vault).Some? && At(next, p).Some?
    ensures var r, n, e := At(Preserve(existing, next, vault).value, p), At(next, p).value, AtOpt(existing, p);
            && r.Some?
            && (Leaf(n) ==> r.value == LeafResult(e, n, vault))
            && (n.Arr? ==> r.value.Arr? && |r.value.items| == |n.items|)
            && (n.Tab? ==> r.value.Tab? && r.value.entries.Keys == n.entries.Keys + TableKeys(e))
    decreases |p|
  {
    hide SameSecret, Unresolvable;
    if p == [] {
      PreserveHere(existing, next, vault);
    } else {
      AtChild(existing, p);
      PreserveChild(existing, next, vault, p[0]);
      var c := Child(next, p[0]).value;
      if Preserve(existing, next, vault).value == next && ChildOf(existing, p[0]) == None {
      } else {
        PreserveAt(ChildOf(existing, p[0]), c, vault, p[1..]);
      }
    }
  }

  lemma PreserveHere(existing: Option<Value>, next: Value, vault: Vault)
    requires Preserve(existing, next, vault).Some?
    ensures var r := Preserve(existing, next, vault).value;
            && (Leaf(next) ==> r == LeafResult(existing, next, vault))
            && (next.Arr? ==> r.Arr? && |r.items| == |next.items|)
            && (next.Tab? ==> r.Tab? && r.entries.Keys == next.entries.Keys + TableKeys(existing))
  {
  }

  // Keys of an old table that the new one does not mention are untouched, at any depth.
  lemma {:induction false} PreserveKeeps(existing: Value, next: Value, vault: Vault, p: Path, k: string)
    requires Preserve(Some(existing), next, vault).Some?
    requires At(existing, p).Some? && At(existing, p).value.Tab? && k in At(existing, p).value.entries
    requires At(next, p).Some? && At(next, p).value.Tab? && k !in At(next, p).value.entries
    ensures var r := At(Preserve(Some(existing), next, vault).value, p);
            r.Some? && r.value.Tab? && k in r.value.entries && r.value.entries[k] == At(existing, p).value.entries[k]
    decreases |p|
  {
    hide SameSecret, Unresolvable;
    if p != [] {
      PreserveChild(Some(existing), next, vault, p[0]);
      PreserveKeeps(Child(existing, p[0]).value, Child(next, p[0]).value, vault, p[1..], k);
    }
  }

  ghost predicate OpensAt(s: Text, i: int) { 0 <= i <= |s| - 8 && s[i..i + 8] == "{secret:" }

  ghost predicate ReferenceAt(v: Value, p: Path) {
    At(v, p).Some? && At(v, p).value.Str? && exists i :: OpensAt(At(v, p).value.text, i)
  }

  lemma OpensIs(s: Text)
    ensures ContainsReference(s) <==> exists i :: OpensAt(s, i)
  {
    if ContainsReference(s) {
      var i :| 0 <= i < |s| && PrefixAt(s, i);
      assert OpensAt(s, i);
    }
    if i :| OpensAt(s, i) { assert PrefixAt(s, i); }
  }

  /** A value holds a reference exactly when some text in it does. */
  lemma {:induction false} ReferencesAreInText(v: Value)
    ensures ContainsReferences(v) <==> exists p :: ReferenceAt(v, p)
  {
    hide ContainsReference;
    if ContainsReferences(v) { var p := ReferencePath(v); }
    if p :| ReferenceAt(v, p) {
      OpensIs(At(v, p).value.text);
      ReferenceAbove(v, p);
    }
  }

  lemma {:induction false} ReferencePath(v: Value) returns (p: Path)
    requires ContainsReferences(v)
    ensures ReferenceAt(v, p)
  {
    hide ContainsReference;
    match v {
      case Str(text) =>
        p := [];
        OpensIs(text);
      case Arr(items) =>
        var i :| 0 <= i < |items| && ContainsReferences(items[i]);
        var q := ReferencePath(items[i]);
        p := [Index(i)] + q;
        assert p[1..] == q;
      case Tab(entries) =>
        var k :| k in entries && ContainsReferences(entries[k]);
        var q := ReferencePath(entries[k]);
        p := [Key(k)] + q;
        assert p[1..] == q;
    }
  }

  // Text with a reference in it that cannot be resolved.
  ghost predicate BadReference(v: Option<Value>, vault: Vault) {
    && v.Some? && v.value.Str? && (exists i :: OpensAt(v.value.text, i))
    && Resolve(v.value.text, vault).Err?
  }

  lemma BadReferenceIs(v: Option<Value>, vault: Vault, text: Text)
    ensures Unresolvable(v, Str(text), vault) <==> BadReference(v, vault)
  {
    hide Resolve;
    if v.Some? && v.value.Str? { OpensIs(v.value.text); }
  }

  /** The update fails exactly when some new text would replace a reference that cannot be
      resolved. */
  lemma {:induction false} PreserveFails(existing: Option<Value>, next: Value, vault: Vault)
    ensures Preserve(existing, next, vault).None? <==>
            exists p :: At(next, p).Some? && At(next, p).value.Str? && BadReference(AtOpt(existing, p), vault)
    decreases next
  {
    hide SameSecret, Resolve, ContainsReference;
    if Preserve(existing, next, vault).None? {
      var p := FailingPath(existing, next, vault);
      BadReferenceIs(AtOpt(existing, p), vault, At(next, p).value.text);
    }
    if p :| At(next, p).Some? && At(next, p).value.Str? && BadReference(AtOpt(existing, p), vault) {
      BadReferenceIs(AtOpt(existing, p), vault, At(next, p).value.text);
      FailsAlong(existing, next, vault, p);
    }
  }

  lemma {:induction false} FailingPath(existing: Option<Value>, next: Value, vault: Vault) returns (p: Path)
    requires Preserve(existing, next, vault).None?
    ensures At(next, p).Some? && Unresolvable(AtOpt(existing, p), At(next, p).value, vault)
    decreases next
  {
    hide Unresolvable, SameSecret;
    match next {
      case Tab(entries) =>
        var k :| k in entries && Preserve(ChildOf(existing, Key(k)), entries[k], vault).None?;
        var q := FailingPath(ChildOf(existing, Key(k)), entries[k], vault);
        p := [Key(k)] + q;
        assert p[1..] == q;
      case Arr(items) =>
        var i :| 0 <= i < |items| && Preserve(ChildOf(existing, Index(i)), items[i], vault).None?;
        var q := FailingPath(ChildOf(existing, Index(i)), items[i], vault);
        p := [Index(i)] + q;
        assert p[1..] == q;
      case Str(text) => p := [];
      case Scalar(_) => assert false;
    }
  }

  lemma {:induction false} FailsAlong(existing: Option<Value>, next: Value, vault: Vault, p: Path)
    requires At(next, p).Some? && Unresolvable(AtOpt(existing, p), At(next, p).value, vault)
    ensures Preserve(existing, next, vault).None?
    decreases |p|
  {
    if p != [] {
      AtChild(existing, p);
      FailsAlong(ChildOf(existing, p[0]), Child(next, p[0]).value, vault, p[1..]);
      if Preserve(existing, next, vault).Some? { PreserveChild(existing, next, vault, p[0]); }
    }
  }

  lemma {:induction false} LeavesHoldNone(v: Value, p: Path)
    requires !ContainsReferences(v) && At(v, p).Some?
    ensures !ContainsReferences(At(v, p).value)
    decreases |p|
  {
    if p != [] {
      LeavesHoldNone(Child(v, p[0]).value, p[1..]);
    }
  }

  /** With new text that holds no reference, resolving the stored result gives the new text
      back at every path, and an old reference that already gave it is still there raw. */
  lemma {:induction false} PreserveResolves(existing: Option<Value>, next: Value, vault: Vault, p: Path)
    requires Preserve(existing, next, vault).Some? && !ContainsReferences(next)
    requires At(next, p).Some? && At(next, p).value.Str?
    ensures var r := At(Preserve(existing, next, vault).value, p);
            && r.Some? && r.value.Str? && Resolve(r.value.text, vault) == Ok(At(next, p).value.text)
            && (AtOpt(existing, p).Some? && SameSecret(AtOpt(existing, p).value, At(next, p).value, vault) ==>
                  r == AtOpt(existing, p))
  {
    hide Preserve, Resolve, ContainsReference;
    PreserveAt(existing, next, vault, p);
    LeavesHoldNone(next, p);
    PlainResolves(At(next, p).value.text, vault);
  }

  // ---- Resolving a whole tree: resolve_toml_secret_references -----------------------------

  // Every string of the tree resolves.
  predicate TreeResolves(v: Value, vault: Vault) {
    match v
    case Str(text) => Resolve(text, vault).Ok?
    case Arr(items) => forall i :: 0 <= i < |items| ==> TreeResolves(items[i], vault)
    case Tab(entries) => forall k :: k in entries ==> TreeResolves(entries[k], vault)
    case Scalar(_) => true
  }

  function ResolveTree(v: Value, vault: Vault): (r: Option<Value>)
    ensures r.Some? <==> TreeResolves(v, vault)
    decreases v
  {
    match v
    case Str(text) =>
      var t := Resolve(text, vault);
      if t.Ok? then Some(Str(t.value)) else None
    case Arr(items) =>
      if forall i :: 0 <= i < |items| ==> ResolveTree(items[i], vault).Some? then
        Some(Arr(seq(|items|, i requires 0 <= i < |items| => ResolveTree(items[i], vault).value)))
      else None
    case Tab(entries) =>
      if forall k :: k in entries ==> ResolveTree(entries[k], vault).Some? then
        Some(Tab(map k | k in entries :: ResolveTree(entries[k], vault).value))
      else None
    case Scalar(_) => Some(v)
  }

  // The same shape at the top, with the text of a string resolved.
  ghost predicate ResolvedFrom(a: Value, b: Value, vault: Vault) {
    match a
    case Str(text) => b.Str? && Resolve(text, vault) == Ok(b.text)
    case Arr(items) => b.Arr? && |b.items| == |items|
    case Tab(entries) => b.Tab? && b.entries.Keys == entries.Keys
    case Scalar(_) => b == a
  }

  /** Resolving keeps every path, and resolves the text at each. */
  lemma {:induction false} ResolveTreeAt(v: Value, vault: Vault, p: Path)
    requires ResolveTree(v, vault).Some?
    ensures At(ResolveTree(v, vault).value, p).Some? <==> At(v, p).Some?
    ensures At(v, p).Some? ==> ResolvedFrom(At(v, p).value, At(ResolveTree(v, vault).value, p).value, vault)
    decreases |p|
  {
    hide Resolve;
    if p != [] && Child(v, p[0]).Some? { ResolveTreeAt(Child(v, p[0]).value, vault, p[1..]); }
  }

  // `w` has all of `v`, and where `v` is text, an array or a scalar, nothing else.
  ghost predicate Agrees(v: Value, w: Option<Value>) {
    && w.Some?
    && match v
       case Str(_) => w.value == v
       case Scalar(_) => w.value == v
       case Arr(items) => w.value.Arr? && |w.value.items| == |items|
       case Tab(entries) => w.value.Tab? && entries.Keys <= w.value.entries.Keys
  }

  /** When the stored result resolves as a whole, what it resolves to agrees with the new
      value at every path of it. */
  lemma {:induction false} PreserveAgrees(existing: Option<Value>, next: Value, vault: Vault, p: Path)
    requires Preserve(existing, next, vault).Some? && !ContainsReferences(next) && At(next, p).Some?
    requires ResolveTree(Preserve(existing, next, vault).value, vault).Some?
    ensures Agrees(At(next, p).value, At(ResolveTree(Preserve(existing, next, vault).value, vault).value, p))
  {
    hide Preserve, Resolve, ResolveTree, ContainsReference, SameSecret;
    PreserveAt(existing, next, vault, p);
    ResolveTreeAt(Preserve(existing, next, vault).value, vault, p);
    if At(next, p).value.Str? {
      PreserveResolves(existing, next, vault, p);
    } else if At(next, p).value.Scalar? {
      ScalarKept(AtOpt(existing, p), At(next, p).value, vault);
    }
  }

  lemma ScalarKept(existing: Option<Value>, leaf: Value, vault: Vault)
    requires leaf.Scalar?
    ensures LeafResult(existing, leaf, vault) == leaf
  {
  }

  // ---- Loading a section: merge_preserving_secret_references ------------------------------

  function Merged(existing: Value, next: Value): (r: Value)
    decreases next
  {
    if !ContainsReferences(existing) then next
    else if existing.Tab? && next.Tab? then
      Tab(existing.entries + map k | k in next.entries ::
        if k in existing.entries then Merged(existing.entries[k], next.entries[k]) else next.entries[k])
    else existing
  }

  /** The in-place merge, key by key. */
  method Merge(existing: Value, next: Value) returns (r: Value)
    ensures r == Merged(existing, next)
    decreases next
  {
    if !ContainsReferences(existing) {
      return next;
    }
    if !(existing.Tab? && next.Tab?) {
      return existing;
    }
    var entries := existing.entries;
    var todo := next.entries.Keys;
    while todo != {}
      invariant todo <= next.entries.Keys
      invariant entries.Keys == existing.entries.Keys + (next.entries.Keys - todo)
      invariant forall k :: k in existing.entries && (k !in next.entries || k in todo) ==>
              entries[k] == existing.entries[k]
      invariant forall k :: k in next.entries && k !in todo ==>
        entries[k] == if k in existing.entries then Merged(existing.entries[k], next.entries[k]) else next.entries[k]
      decreases todo
    {
      var k :| k in todo;
      if k in entries {
        var merged := Merge(entries[k], next.entries[k]);
        entries := entries[k := merged];
      } else {
        entries := entries[k := next.entries[k]];
      }
      todo := todo - {k};
    }
    assert entries == Merged(existing, next).entries;
    r := Tab(entries);
  }

  /** Every string that holds a reference is still at its path, unchanged. */
  lemma {:induction false} MergeKeepsReferences(existing: Value, next: Value, p: Path)
    requires At(existing, p).Some? && At(existing, p).value.Str? && ContainsReference(At(existing, p).value.text)
    ensures At(Merged(existing, next), p) == At(existing, p)
    decreases |p|
  {
    hide ContainsReference;
    ReferenceAbove(existing, p);
    if p != [] && existing.Tab? && next.Tab? && p[0].Key? && p[0].name in next.entries {
      MergeKeepsReferences(existing.entries[p[0].name], next.entries[p[0].name], p[1..]);
    }
  }

  lemma {:induction false} ReferenceAbove(v: Value, p: Path)
    requires At(v, p).Some? && ContainsReferences(At(v, p).value)
    ensures ContainsReferences(v)
    decreases |p|
  {
    if p != [] {
      ReferenceAbove(Child(v, p[0]).value, p[1..]);
    }
  }

  // On the way to the path the old value is kept whole: it holds a reference there, and the
  // two are not both tables.
  ghost predicate KeptAbove(v: Value, next: Value, p: Path) {
    exists n :: 0 <= n < |p| && KeptAt(v, next, p[..n])
  }

  ghost predicate KeptAt(v: Value, next: Value, q: Path) {
    && At(v, q).Some? && ContainsReferences(At(v, q).value)
    && !(At(v, q).value.Tab? && At(next, q).Some? && At(next, q).value.Tab?)
  }

  /** At every path of the new value where the old one has nothing or no reference, the new
      value is taken, unless the old one is kept whole further up. Then it stays as it was. */
  lemma {:induction false} MergeTakesNew(existing: Value, next: Value, p: Path)
    requires At(next, p).Some?
    requires At(existing, p).Some? ==> !ContainsReferences(At(existing, p).value)
    ensures At(Merged(existing, next), p) == if KeptAbove(existing, next, p) then At(existing, p) else At(next, p)
    decreases |p|
  {
    hide ContainsReference;
    if !ContainsReferences(existing) {
      forall n | 0 <= n < |p| && At(existing, p[..n]).Some? ensures !ContainsReferences(At(existing, p[..n]).value) {
        LeavesHoldNone(existing, p[..n]);
      }
    } else if !(existing.Tab? && next.Tab?) {
      assert p[..0] == [] && KeptAt(existing, next, p[..0]);
    } else {
      var k := p[0].name;
      if k in existing.entries {
        MergeTakesNew(existing.entries[k], next.entries[k], p[1..]);
        KeptBelow(existing, next, p);
      } else {
        NotKeptBelow(existing, next, p);
      }
    }
  }

  lemma KeptBelow(v: Value, next: Value, p: Path)
    requires p != [] && v.Tab? && next.Tab? && Child(v, p[0]).Some? && Child(next, p[0]).Some?
    ensures KeptAbove(v, next, p) <==> KeptAbove(Child(v, p[0]).value, Child(next, p[0]).value, p[1..])
  {
    hide ContainsReferences;
    var c, d := Child(v, p[0]).value, Child(next, p[0]).value;
    forall n | 0 < n <= |p| ensures KeptAt(v, next, p[..n]) <==> KeptAt(c, d, p[1..][..n - 1]) {
      assert p[..n][1..] == p[1..][..n - 1];
    }
    if KeptAbove(v, next, p) {
      var n :| 0 <= n < |p| && KeptAt(v, next, p[..n]);
      assert n > 0 && KeptAt(c, d, p[1..][..n - 1]);
    }
    if KeptAbove(c, d, p[1..]) {
      var n :| 0 <= n < |p[1..]| && KeptAt(c, d, p[1..][..n]);
      assert p[1..][..n + 1 - 1] == p[1..][..n] && KeptAt(v, next, p[..n + 1]);
    }
  }

  lemma NotKeptBelow(v: Value, next: Value, p: Path)
    requires p != [] && v.Tab? && next.Tab? && Child(v, p[0]).None?
    ensures !KeptAbove(v, next, p)
  {
    hide ContainsReferences;
    forall n | 0 <= n < |p| ensures !KeptAt(v, next, p[..n]) {
      if n > 0 { assert p[..n][0] == p[0]; }
    }
  }

  // At the n-th step to a path that the new value lacks, the old value holds a reference, and
  // the new one goes another way: the two are not both tables, or the new one lacks the key.
  ghost predicate HeldAt(v: Value, next: Value, p: Path, n: nat)
    requires n < |p|
  {
    && At(v, p[..n]).Some? && ContainsReferences(At(v, p[..n]).value)
    && (KeptAt(v, next, p[..n]) || At(next, p[..n + 1]).None?)
  }

  ghost predicate HeldAbove(v: Value, next: Value, p: Path) { exists n :: 0 <= n < |p| && HeldAt(v, next, p, n) }

  /** What only the old value has stays as it was exactly where that value held a reference
      when the two parted ways, and goes otherwise. */
  lemma {:induction false} MergeKeepsOld(existing: Value, next: Value, p: Path)
    requires At(existing, p).Some? && At(next, p).None?
    ensures At(Merged(existing, next), p) == if HeldAbove(existing, next, p) then At(existing, p) else None
    decreases |p|
  {
    hide ContainsReference;
    assert p[..0] == [];
    if !ContainsReferences(existing) {
      forall n | 0 <= n < |p| && At(existing, p[..n]).Some? ensures !ContainsReferences(At(existing, p[..n]).value) {
        LeavesHoldNone(existing, p[..n]);
      }
    } else if !(existing.Tab? && next.Tab?) {
      assert HeldAt(existing, next, p, 0);
    } else if p[0].name !in next.entries {
      assert p[..1] == [p[0]] && HeldAt(existing, next, p, 0);
    } else {
      MergeKeepsOld(Child(existing, p[0]).value, Child(next, p[0]).value, p[1..]);
      HeldBelow(existing, next, p);
    }
  }

  lemma HeldBelow(v: Value, next: Value, p: Path)
    requires p != [] && v.Tab? && next.Tab? && Child(v, p[0]).Some? && Child(next, p[0]).Some?
    ensures HeldAbove(v, next, p) <==> HeldAbove(Child(v, p[0]).value, Child(next, p[0]).value, p[1..])
  {
    hide ContainsReferences;
    var c, d := Child(v, p[0]).value, Child(next, p[0]).value;
    forall n | 0 < n < |p| ensures HeldAt(v, next, p, n) <==> HeldAt(c, d, p[1..], n - 1) {
      assert p[..n][1..] == p[1..][..n - 1] && p[..n + 1][1..] == p[1..][..n];
    }
    assert p[..0] == [] && p[..1] == [p[0]] && At(next, [p[0]]) == Some(d);
    if HeldAbove(v, next, p) {
      var n :| 0 <= n < |p| && HeldAt(v, next, p, n);
      assert n > 0;
      assert HeldAt(c, d, p[1..], n - 1);
    }
    if HeldAbove(c, d, p[1..]) {
      var n :| 0 <= n < |p[1..]| && HeldAt(c, d, p[1..], n);
      assert HeldAt(v, next, p, n + 1);
    }
  }

  lemma {:induction false} MergeSelf(v: Value)
    ensures Merged(v, v) == v
  {
    if ContainsReferences(v) && v.Tab? {
      forall k | k in v.entries ensures Merged(v.entries[k], v.entries[k]) == v.entries[k] {
        MergeSelf(v.entries[k]);
      }
      assert Merged(v, v).entries == v.entries;
    }
  }

  /** Merging the same value again changes nothing. */
  lemma {:induction false} MergeIdempotent(existing: Value, next: Value)
    ensures Merged(Merged(existing, next), next) == Merged(existing, next)
    decreases next
  {
    hide ContainsReference;
    var r := Merged(existing, next);
    if !ContainsReferences(existing) {
      MergeSelf(next);
    } else if existing.Tab? && next.Tab? {
      MergeStillReferences(existing, next);
      forall k | k in next.entries ensures Merged(r.entries[k], next.entries[k]) == r.entries[k] {
        if k in existing.entries {
          MergeIdempotent(existing.entries[k], next.entries[k]);
        } else {
          MergeSelf(next.entries[k]);
        }
      }
      assert Merged(r, next).entries == r.entries;
    }
  }

  lemma {:induction false} MergeStillReferences(existing: Value, next: Value)
    requires ContainsReferences(existing)
    ensures ContainsReferences(Merged(existing, next))
    decreases next
  {
    hide ContainsReference;
    if existing.Tab? && next.Tab? {
      var r := Merged(existing, next);
      var k :| k in existing.entries && ContainsReferences(existing.entries[k]);
      if k in next.entries {
        MergeStillReferences(existing.entries[k], next.entries[k]);
      }
      assert ContainsReferences(r.entries[k]);
    }
  }
}

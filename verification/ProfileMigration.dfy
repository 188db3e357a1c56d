/** The one-time migration from address targets to identities, run as one unit on a loaded
    configuration and written back at most once. */
module ProfileMigration {
  import opened Base
  import opened Profiles
  import opened ProfileIdentity

  const IDENTITY_SCHEMA_VERSION := 1

  // How addresses are read and shown. All that is assumed is `AddressesLookLikeAddresses`.
  datatype Names = Names(parse: string -> Option<Ip>, show: Ip -> string)

  predicate AddressChar(c: char) {
    '0' <= c <= '9' || 'a' <= c <= 'f' || 'A' <= c <= 'F' || c == ':' || c == '.'
  }

  ghost predicate AddressesLookLikeAddresses(names: Names) {
    forall s :: names.parse(s).Some? ==> forall i :: 0 <= i < |s| ==> AddressChar(s[i])
  }

  // A canonical version 4 UUID: the only form an identity may take.
  predicate IsUuid(s: string) {
    && |s| == 36 && s[14] == '4'
    && forall i :: 0 <= i < 36 ==>
         if i == 8 || i == 13 || i == 18 || i == 23 then s[i] == '-'
         else '0' <= s[i] <= '9' || 'a' <= s[i] <= 'f'
  }

  predicate UuidsOnly(cs: seq<Camera>) {
    forall i :: 0 <= i < |cs| && cs[i].identity.Known? ==> IsUuid(cs[i].identity.id)
  }

  function MissingName(names: Names, ip: Ip): (s: string) { "missing-ip:" + names.show(ip) }

  lemma NotAnAddress(names: Names, s: string, i: nat)
    requires AddressesLookLikeAddresses(names) && i < |s| && !AddressChar(s[i])
    ensures names.parse(s).None?
  {
  }

  // ---- Assigning identities --------------------------------------------------------------

  predicate AllKnown(cs: seq<Camera>) { forall i :: 0 <= i < |cs| ==> cs[i].identity.Known? }

  // The same cameras; identities already there are kept.
  ghost predicate Extends(cs: seq<Camera>, ds: seq<Camera>) {
    && |cs| == |ds|
    && forall i :: 0 <= i < |cs| ==>
         && ds[i].slot == cs[i].slot && ds[i].ip == cs[i].ip
         && (!cs[i].identity.Missing? ==> ds[i].identity == cs[i].identity)
  }

  // The first of three draws that is not in use, or the position after them.
  function FreeDraw(known: set<string>, draws: nat -> string, at: nat): (n: nat) {
    if draws(at) !in known then at else if draws(at + 1) !in known then at + 1
    else if draws(at + 2) !in known then at + 2 else at + 3
  }

  // Every one of `count` identities is found within three draws of the one before.
  predicate DrawsSuffice(count: nat, known: set<string>, draws: nat -> string, at: nat) {
    count == 0 ||
    (var n := FreeDraw(known, draws, at); n < at + 3 && DrawsSuffice(count - 1, known + {draws(n)}, draws, n + 1))
  }

  /** Draws that never repeat and are not in use always suffice. */
  lemma {:induction false} FreshDrawsSuffice(count: nat, known: set<string>, draws: nat -> string, at: nat)
    requires forall n :: at <= n ==> draws(n) !in known
    requires forall n, m :: at <= n < m ==> draws(n) != draws(m)
    ensures DrawsSuffice(count, known, draws, at)
  {
    if count > 0 { FreshDrawsSuffice(count - 1, known + {draws(at)}, draws, at + 1); }
  }

  /** Up to three fresh draws; the first one not yet in use wins. */
  method DrawIdentity(known: set<string>, draws: nat -> string, at: nat) returns (id: Option<string>, next: nat)
    requires forall n :: IsUuid(draws(n))
    ensures id.Some? ==> IsUuid(id.value) && id.value !in known
    ensures id.None? <==> draws(at) in known && draws(at + 1) in known && draws(at + 2) in known
    ensures at < next <= at + 3
    ensures id.Some? ==> id.value == draws(next - 1) && forall n :: at <= n < next - 1 ==> draws(n) in known
    ensures id.Some? <==> FreeDraw(known, draws, at) < at + 3
    ensures id.Some? ==> next == FreeDraw(known, draws, at) + 1 && id.value == draws(FreeDraw(known, draws, at))
  {
    next := at;
    while next < at + 3
      invariant at <= next <= at + 3
      invariant forall n :: at <= n < next ==> draws(n) in known
    {
      next := next + 1;
      if draws(next - 1) !in known {
        return Some(draws(next - 1)), next;
      }
    }
    id := None;
  }

  // Identities that are in use are in `known`, and no two cameras share one.
  ghost predicate Consistent(cs: seq<Camera>, known: set<string>) {
    && (forall i :: 0 <= i < |cs| && cs[i].identity.Known? ==> cs[i].identity.id in known)
    && (forall i, j :: 0 <= i < j < |cs| && cs[i].identity.Known? ==> cs[i].identity != cs[j].identity)
  }

  lemma ConsistentIsWellFormed(cs: seq<Camera>, known: set<string>)
    requires Consistent(cs, known) && AllKnown(cs) && forall i :: 0 <= i < |cs| ==> cs[i].ip.Some?
    ensures WellFormed(cs)
  {
    forall c, d | c in cs && d in cs && c.identity.Known? && c.identity == d.identity ensures c == d {
      var i :| 0 <= i < |cs| && cs[i] == c;
      var j :| 0 <= j < |cs| && cs[j] == d;
    }
  }

  lemma WellFormedIsConsistent(cs: seq<Camera>, x: Index)
    requires WellFormed(cs) && IsIndex(cs, x) && DistinctSlots(cs)
    ensures Consistent(cs, x.known.Keys)
    ensures forall i :: 0 <= i < |cs| ==> cs[i].ip.Some? && (cs[i].identity.Known? || cs[i].identity.Missing?)
  {
    forall i | 0 <= i < |cs| ensures cs[i].ip.Some? && (cs[i].identity.Known? || cs[i].identity.Missing?)
      && (cs[i].identity.Known? ==> cs[i].identity.id in x.known)
    {
      assert cs[i] in cs;
    }
    forall i, j | 0 <= i < j < |cs| && cs[i].identity.Known? ensures cs[i].identity != cs[j].identity {
      assert cs[i] in cs && cs[j] in cs && cs[i].slot != cs[j].slot;
    }
  }

  function KnownIds(cs: seq<Camera>): (r: set<string>) { set c | c in cs && c.identity.Known? :: c.identity.id }

  /** assign_camera_profile_identities: refused exactly for cameras that are not well formed
      or when three draws in a row are taken. */
  method AssignIdentities(cs: seq<Camera>, draws: nat -> string) returns (r: Option<seq<Camera>>, changed: bool)
    requires DistinctSlots(cs) && UuidsOnly(cs) && forall n :: IsUuid(draws(n))
    ensures r.Some? <==> WellFormed(cs) && DrawsSuffice(MissingCount(cs), KnownIds(cs), draws, 0)
    ensures r.Some? ==> Extends(cs, r.value) && AllKnown(r.value)
    ensures r.Some? ==> WellFormed(r.value) && DistinctSlots(r.value) && UuidsOnly(r.value)
    ensures r.Some? ==> (changed <==> !AllKnown(cs))
    ensures changed ==> !AllKnown(cs)
    ensures WellFormed(cs) && AllKnown(cs) ==> r == Some(cs) && !changed
  {
    hide IsIndex, IsUuid, WellFormed, Consistent, DrawsSuffice;
    var index := CollectIndex(cs);
    if index.None? {
      return None, false;
    }
    var x := index.value;
    WellFormedIsConsistent(cs, x);
    MissingPositions(cs, x);
    NothingToDraw(x.known.Keys, draws);
    if x.missing == [] {
      return Some(cs), false;
    }
    changed := true;
    r := FillMissing(cs, x.missing, x.known.Keys, draws);
  }

  lemma MissingPositions(cs: seq<Camera>, x: Index)
    requires IsIndex(cs, x) && WellFormed(cs)
    ensures forall k :: 0 <= k < |x.missing| ==> x.missing[k] < |cs| && cs[x.missing[k]].identity.Missing?
    ensures forall i :: 0 <= i < |cs| && !cs[i].identity.Known? ==> i in x.missing
    ensures x.missing == [] <==> AllKnown(cs)
    ensures |x.missing| == MissingCount(cs) && x.known.Keys == KnownIds(cs)
  {
    forall k | 0 <= k < |x.missing| ensures x.missing[k] < |cs| && cs[x.missing[k]].identity.Missing? {
      assert x.missing[k] in x.missing;
    }
    forall i | 0 <= i < |cs| && !cs[i].identity.Known? ensures i in x.missing { assert cs[i] in cs; }
    if x.missing != [] { assert cs[x.missing[0]].identity.Missing?; }
  }

  lemma NothingToDraw(known: set<string>, draws: nat -> string)
    ensures DrawsSuffice(0, known, draws, 0)
  {
  }

  // Gives each listed camera an identity of its own.
  method FillMissing(cs: seq<Camera>, missing: seq<nat>, used: set<string>, draws: nat -> string)
    returns (r: Option<seq<Camera>>)
    requires DistinctSlots(cs) && UuidsOnly(cs) && (forall n :: IsUuid(draws(n))) && Consistent(cs, used)
    requires forall i :: 0 <= i < |cs| ==> cs[i].ip.Some?
    requires forall k :: 0 <= k < |missing| ==> missing[k] < |cs| && cs[missing[k]].identity.Missing?
    requires forall i :: 0 <= i < |cs| && !cs[i].identity.Known? ==> i in missing
    ensures r.Some? <==> DrawsSuffice(|missing|, used, draws, 0)
    ensures r.Some? ==> Extends(cs, r.value) && AllKnown(r.value) && WellFormed(r.value)
    ensures r.Some? ==> DistinctSlots(r.value) && UuidsOnly(r.value)
  {
    hide IsUuid, WellFormed;
    var ds, known, at := cs, used, 0;
    var m := 0;
    while m < |missing|
      invariant 0 <= m <= |missing| && |ds| == |cs|
      invariant Extends(cs, ds) && UuidsOnly(ds) && Consistent(ds, known)
      invariant forall k :: 0 <= k < m ==> ds[missing[k]].identity.Known?
      invariant DrawsSuffice(|missing|, used, draws, 0) <==> DrawsSuffice(|missing| - m, known, draws, at)
    {
      var id, next := DrawIdentity(known, draws, at);
      if id.None? {
        return None;
      }
      var n := missing[m];
      ConsistentStep(ds, known, n, id.value);
      ds := ds[n := ds[n].(identity := Known(id.value))];
      known := known + {id.value};
      at := next;
      m := m + 1;
    }
    forall i | 0 <= i < |cs| ensures ds[i].identity.Known? {
      if !cs[i].identity.Known? {
        var k :| 0 <= k < |missing| && missing[k] == i;
      }
    }
    ConsistentIsWellFormed(ds, known);
    return Some(ds);
  }

  lemma ConsistentStep(cs: seq<Camera>, known: set<string>, n: nat, id: string)
    requires n < |cs| && Consistent(cs, known) && id !in known
    ensures Consistent(cs[n := cs[n].(identity := Known(id))], known + {id})
  {
  }

  // ---- Rewriting profile targets --------------------------------------------------------------

  type Targets = map<string, Override>

  function NextId(names: Names, ids: map<Ip, string>, key: string): (r: string) {
    match names.parse(key)
    case None => key
    case Some(ip) => if ip in ids then ids[ip] else MissingName(names, ip)
  }

  // Two targets would become one.
  ghost predicate Merges(names: Names, ids: map<Ip, string>, m: Targets) {
    exists k, l :: k in m && l in m && k != l && NextId(names, ids, k) == NextId(names, ids, l)
  }

  ghost predicate HasAddress(names: Names, m: Targets) { exists k :: k in m && names.parse(k).Some? }

  // Every override has moved to its new key, and there is nothing else.
  ghost predicate Rewritten(names: Names, ids: map<Ip, string>, m: Targets, r: Targets) {
    && (forall k :: k in m ==> NextId(names, ids, k) in r && r[NextId(names, ids, k)] == m[k])
    && (forall j :: j in r ==> exists k :: k in m && NextId(names, ids, k) == j)
  }

  /** The inner loop: one profile's targets. */
  method RewriteTargets(names: Names, ids: map<Ip, string>, m: Targets) returns (r: Option<Targets>, changed: bool)
    ensures r.None? <==> Merges(names, ids, m)
    ensures r.Some? ==> Rewritten(names, ids, m, r.value) && (changed <==> HasAddress(names, m))
  {
    hide NextId;
    var rewritten: Targets := map[];
    changed := false;
    var todo := m.Keys;
    while todo != {}
      invariant todo <= m.Keys
      invariant forall k :: k in m && k !in todo ==>
        NextId(names, ids, k) in rewritten && rewritten[NextId(names, ids, k)] == m[k]
      invariant forall j :: j in rewritten ==> exists k :: k in m && k !in todo && NextId(names, ids, k) == j
      invariant changed <==> exists k :: k in m && k !in todo && names.parse(k).Some?
      invariant forall k, l :: k in m && k !in todo && l in m && l !in todo && k != l ==>
              NextId(names, ids, k) != NextId(names, ids, l)
      decreases todo
    {
      var key :| key in todo;
      if names.parse(key).Some? {
        changed := true;
      }
      var next := NextId(names, ids, key);
      if next in rewritten {
        var k :| k in m && k !in todo && NextId(names, ids, k) == next;
        return None, changed;
      }
      rewritten := rewritten[next := m[key]];
      todo := todo - {key};
    }
    return Some(rewritten), changed;
  }

  ghost predicate UuidValues(ids: map<Ip, string>) { forall ip :: ip in ids ==> IsUuid(ids[ip]) }

  lemma NextIsNoAddress(names: Names, ids: map<Ip, string>, key: string)
    requires AddressesLookLikeAddresses(names) && UuidValues(ids)
    ensures names.parse(NextId(names, ids, key)).None?
  {
    hide AddressesLookLikeAddresses;
    if names.parse(key).Some? {
      var ip := names.parse(key).value;
      if ip in ids {
        assert ids[ip][8] == '-';
        NotAnAddress(names, ids[ip], 8);
      } else {
        assert MissingName(names, ip)[0] == 'm';
        NotAnAddress(names, MissingName(names, ip), 0);
      }
    }
  }

  /** After the rewrite no target is an address, and each override sits under exactly one
      key: the map from old keys to new is one to one and onto. */
  lemma {:induction false} RewriteIsExact(names: Names, ids: map<Ip, string>, m: Targets, r: Targets)
    requires AddressesLookLikeAddresses(names) && UuidValues(ids)
    requires !Merges(names, ids, m) && Rewritten(names, ids, m, r)
    ensures !HasAddress(names, r)
    ensures |r| == |m| && r.Keys == Image(names, ids, m.Keys)
    ensures forall j :: j in r ==> exists k :: k in m && NextId(names, ids, k) == j && m[k] == r[j] &&
                                            forall l :: l in m && NextId(names, ids, l) == j ==> l == k
  {
    hide NextId, AddressesLookLikeAddresses, UuidValues;
    forall j | j in r
      ensures names.parse(j).None?
      ensures exists k :: k in m && NextId(names, ids, k) == j && m[k] == r[j] &&
                          forall l :: l in m && NextId(names, ids, l) == j ==> l == k
    {
      var k :| k in m && NextId(names, ids, k) == j;
      NextIsNoAddress(names, ids, k);
    }
    ImageSize(names, ids, m.Keys);
    assert r.Keys == Image(names, ids, m.Keys);
    assert |r| == |r.Keys| && |m| == |m.Keys|;
  }

  lemma PlainStays(names: Names, ids: map<Ip, string>, k: string)
    requires names.parse(k).None?
    ensures NextId(names, ids, k) == k
  {
  }

  ghost function Image(names: Names, ids: map<Ip, string>, ks: set<string>): (r: set<string>) {
    set k | k in ks :: NextId(names, ids, k)
  }

  lemma {:induction false} ImageSize(names: Names, ids: map<Ip, string>, ks: set<string>)
    requires forall k, l :: k in ks && l in ks && NextId(names, ids, k) == NextId(names, ids, l) ==> k == l
    ensures |Image(names, ids, ks)| == |ks|
  {
    hide NextId;
    if ks != {} {
      var k :| k in ks;
      var rest := ks - {k};
      ImageSize(names, ids, rest);
      assert Image(names, ids, ks) == Image(names, ids, rest) + {NextId(names, ids, k)};
      assert NextId(names, ids, k) !in Image(names, ids, rest);
    }
  }

  ghost predicate MigratedProfile(names: Names, ids: map<Ip, string>, p: Profile, q: Profile) {
    if HasAddress(names, p.cameras) then
      && !Merges(names, ids, p.cameras) && Rewritten(names, ids, p.cameras, q.cameras)
      && p.revision < MAX_REVISION && q == p.(revision := p.revision + 1, cameras := q.cameras)
    else q == p
  }

  ghost predicate AnyAddress(names: Names, r: Registry) {
    exists k :: k in r.profiles && HasAddress(names, r.profiles[k].cameras)
  }

  ghost predicate MigratedRegistry(names: Names, ids: map<Ip, string>, r: Registry, s: Registry) {
    && s.profiles.Keys == r.profiles.Keys && s.active == r.active
    && s.revision == r.revision + (if AnyAddress(names, r) then 1 else 0)
    && forall k :: k in r.profiles && k in s.profiles ==> MigratedProfile(names, ids, r.profiles[k], s.profiles[k])
  }

  // The profile can be rewritten: no two targets merge, its revision can rise, and the new
  // keys are valid.
  ghost predicate Movable(names: Names, ids: map<Ip, string>, p: Profile) {
    && !Merges(names, ids, p.cameras) && p.revision < MAX_REVISION
    && forall k :: k in p.cameras ==> ValidLabel(NextId(names, ids, k), 256)
  }

  ghost predicate AllMovable(names: Names, ids: map<Ip, string>, r: Registry) {
    && r.revision < MAX_REVISION
    && forall k :: k in r.profiles && HasAddress(names, r.profiles[k].cameras) ==> Movable(names, ids, r.profiles[k])
  }

  lemma RewrittenValid(names: Names, ids: map<Ip, string>, p: Profile, q: Profile)
    requires ValidProfile(p) && MigratedProfile(names, ids, p, q)
    ensures ValidProfile(q) <==> HasAddress(names, p.cameras) ==> Movable(names, ids, p)
  {
    hide NextId, ValidLabel, ValidProfileId;
    if HasAddress(names, p.cameras) {
      ImageSize(names, ids, p.cameras.Keys);
      assert q.cameras.Keys == Image(names, ids, p.cameras.Keys);
      assert |q.cameras| == |q.cameras.Keys| && |p.cameras| == |p.cameras.Keys|;
    }
  }

  // What validation makes of the rewritten registry.
  lemma {:induction false} MigratedValid(names: Names, ids: map<Ip, string>, r: Registry, s: Registry)
    requires ValidRegistry(r) && AnyAddress(names, r) && MigratedRegistry(names, ids, r, s)
    ensures ValidRegistry(s) <==> AllMovable(names, ids, r)
  {
    hide ValidProfile, MigratedProfile, Movable, HasAddress, ValidProfileId;
    assert |s.profiles| == |s.profiles.Keys| && |r.profiles| == |r.profiles.Keys|;
    forall k | k in r.profiles
      ensures s.profiles[k].id == r.profiles[k].id
      ensures ValidProfile(s.profiles[k]) <==>
              HasAddress(names, r.profiles[k].cameras) ==> Movable(names, ids, r.profiles[k])
    {
      RewrittenValid(names, ids, r.profiles[k], s.profiles[k]);
      SameId(names, ids, r.profiles[k], s.profiles[k]);
    }
  }

  lemma SameId(names: Names, ids: map<Ip, string>, p: Profile, q: Profile)
    requires MigratedProfile(names, ids, p, q)
    ensures p.id == q.id
  {
  }

  /** migrate_legacy_profile_targets: refused exactly for an invalid registry, or for one with
      addresses that cannot all be moved. */
  method MigrateTargets(names: Names, ids: map<Ip, string>, r: Registry) returns (s: Option<Registry>, changed: bool)
    ensures s.Some? <==> ValidRegistry(r) && (AnyAddress(names, r) ==> AllMovable(names, ids, r))
    ensures s.Some? ==> ValidRegistry(s.value) && MigratedRegistry(names, ids, r, s.value)
    ensures s.Some? ==> (changed <==> AnyAddress(names, r))
    ensures ValidRegistry(r) && !AnyAddress(names, r) ==> s == Some(r) && !changed
  {
    hide ValidRegistry, HasAddress, Merges, Rewritten;
    if !ValidRegistry(r) {
      return None, false;
    }
    changed := false;
    var profiles := r.profiles;
    var todo := r.profiles.Keys;
    while todo != {}
      invariant todo <= r.profiles.Keys && profiles.Keys == r.profiles.Keys
      invariant forall k :: k in todo ==> profiles[k] == r.profiles[k]
      invariant forall k :: k in r.profiles && k !in todo ==> MigratedProfile(names, ids, r.profiles[k], profiles[k])
      invariant changed <==> exists k :: k in r.profiles && k !in todo && HasAddress(names, r.profiles[k].cameras)
      decreases todo
    {
      var id :| id in todo;
      var p := r.profiles[id];
      var rewritten, profileChanged := RewriteTargets(names, ids, p.cameras);
      if rewritten.None? {
        if !HasAddress(names, p.cameras) { PlainNeverMerges(names, ids, p.cameras); }
        return None, changed;
      }
      if profileChanged {
        if p.revision >= MAX_REVISION {
          return None, changed;
        }
        profiles := profiles[id := p.(revision := p.revision + 1, cameras := rewritten.value)];
        changed := true;
      }
      todo := todo - {id};
    }
    if !changed {
      assert profiles == r.profiles;
      return Some(r), false;
    }
    var next := Registry(r.revision + 1, r.active, profiles);
    MigratedValid(names, ids, r, next);
    if r.revision >= MAX_REVISION || !ValidRegistry(next) {
      return None, true;
    }
    return Some(next), true;
  }

  lemma PlainNeverMerges(names: Names, ids: map<Ip, string>, m: Targets)
    requires !HasAddress(names, m)
    ensures !Merges(names, ids, m)
  {
    forall k | k in m ensures NextId(names, ids, k) == k { PlainStays(names, ids, k); }
  }

  // ---- The whole configuration --------------------------------------------------------------

  datatype Section = Section(registry: Registry, schema: Option<int>)

  datatype Root = Root(cameras: seq<Camera>, profiles: Option<Section>)

  // The camera a target of the active profile stands for, if any, has an address of its own.
  ghost predicate TargetsUnambiguous(names: Names, cs: seq<Camera>, r: Registry) {
    forall k :: k in ActiveTargets(r) ==> TargetUnambiguous(names, cs, k)
  }

  ghost predicate TargetUnambiguous(names: Names, cs: seq<Camera>, k: string) {
    if names.parse(k).Some? then !Ambiguous(cs, names.parse(k).value)
    else forall c :: c in cs && c.identity == Known(k) && c.ip.Some? ==> !Ambiguous(cs, c.ip.value)
  }

  /** Nothing left to migrate. */
  ghost predicate Settled(names: Names, root: Root, accepts: Root -> bool) {
    && DistinctSlots(root.cameras) && UuidsOnly(root.cameras) && WellFormed(root.cameras) && AllKnown(root.cameras)
    && (root.profiles.Some? ==>
          && root.profiles.value.schema == Some(1)
          && ValidRegistry(root.profiles.value.registry) && !AnyAddress(names, root.profiles.value.registry)
          && TargetsUnambiguous(names, root.cameras, root.profiles.value.registry))
    && accepts(root)
  }

  /** reject_ambiguous_active_profile_targets. */
  method ActiveTargetsUnambiguous(names: Names, cs: seq<Camera>, x: Index, r: Registry) returns (ok: bool)
    requires IsIndex(cs, x) && WellFormed(cs)
    ensures ok <==> TargetsUnambiguous(names, cs, r)
  {
    hide Ambiguous, ActiveTargets, OnlyOwner;
    var todo := ActiveTargets(r).Keys;
    while todo != {}
      invariant todo <= ActiveTargets(r).Keys
      invariant forall k :: k in ActiveTargets(r) && k !in todo ==> TargetUnambiguous(names, cs, k)
      decreases todo
    {
      var k :| k in todo;
      var ip := if names.parse(k).Some? then names.parse(k) else if k in x.known then Some(x.known[k]) else None;
      if ip.Some? && ip.value in x.ambiguous {
        if names.parse(k).None? { var c :| c in cs && c.identity == Known(k); }
        return false;
      }
      todo := todo - {k};
    }
    return true;
  }

  lemma NoOwnerOrOne(cs: seq<Camera>, ip: Ip)
    requires !Ambiguous(cs, ip)
    ensures (forall c :: !Owns(cs, c, ip)) || exists c :: OnlyOwner(cs, c, ip)
  {
    if c :| Owns(cs, c, ip) {
      assert OnlyOwner(cs, c, ip);
    }
  }

  // The identities handed to the rewrite are those of the cameras that own an address alone.
  ghost predicate OwnerIds(cs: seq<Camera>, ids: map<Ip, string>) {
    && (forall ip :: ip in ids ==> exists c :: OnlyOwner(cs, c, ip) && c.identity == Known(ids[ip]))
    && (forall c, ip :: OnlyOwner(cs, c, ip) ==> ip in ids)
  }

  // An address target of the active profile goes to the one camera that owns the address,
  // or is marked missing when no camera has it.
  ghost predicate Placed(names: Names, cs: seq<Camera>, m: Targets, r: Targets, k: string, ip: Ip)
    requires k in m
  {
    || (exists c :: OnlyOwner(cs, c, ip) && c.identity.Known? && c.identity.id in r && r[c.identity.id] == m[k])
    || (var marker := "missing-ip:" + names.show(ip);
        (forall c :: !Owns(cs, c, ip)) && marker in r && r[marker] == m[k])
  }

  lemma ActivePlaced(names: Names, cs: seq<Camera>, ids: map<Ip, string>, r: Registry, s: Registry, k: string)
    requires OwnerIds(cs, ids) && MigratedRegistry(names, ids, r, s) && TargetsUnambiguous(names, cs, r)
    requires k in ActiveTargets(r) && names.parse(k).Some?
    ensures Placed(names, cs, ActiveTargets(r), ActiveTargets(s), k, names.parse(k).value)
  {
    hide Ambiguous, OnlyOwner, Owns, Merges;
    var ip := names.parse(k).value;
    assert TargetUnambiguous(names, cs, k);
    NoOwnerOrOne(cs, ip);
    var p := r.profiles[r.active.value];
    assert HasAddress(names, p.cameras);
    assert MigratedProfile(names, ids, p, s.profiles[r.active.value]);
    assert NextId(names, ids, k) in ActiveTargets(s);
    if ip in ids {
      var c :| OnlyOwner(cs, c, ip) && c.identity == Known(ids[ip]);
    }
  }

  lemma {:induction false} StillUnambiguous(names: Names, cs: seq<Camera>, ids: map<Ip, string>, r: Registry,
                                            s: Registry)
    requires WellFormed(cs) && UuidsOnly(cs) && OwnerIds(cs, ids)
    requires AddressesLookLikeAddresses(names) && UuidValues(ids)
    requires MigratedRegistry(names, ids, r, s) && TargetsUnambiguous(names, cs, r)
    ensures TargetsUnambiguous(names, cs, s)
  {
    hide AddressesLookLikeAddresses, UuidValues, Ambiguous, WellFormed, UuidsOnly, OwnerIds;
    forall j | j in ActiveTargets(s) ensures TargetUnambiguous(names, cs, j) {
      var p := r.profiles[r.active.value];
      var q := s.profiles[r.active.value];
      assert MigratedProfile(names, ids, p, q);
      if HasAddress(names, p.cameras) {
        var k :| k in p.cameras && NextId(names, ids, k) == j;
        assert TargetUnambiguous(names, cs, k);
        MovedUnambiguous(names, cs, ids, k);
      }
    }
  }

  lemma KnownAreUuids(cs: seq<Camera>, id: string)
    requires UuidsOnly(cs) && !IsUuid(id)
    ensures forall c :: c in cs ==> c.identity != Known(id)
  {
  }

  lemma MovedUnambiguous(names: Names, cs: seq<Camera>, ids: map<Ip, string>, k: string)
    requires WellFormed(cs) && UuidsOnly(cs) && OwnerIds(cs, ids)
    requires AddressesLookLikeAddresses(names) && UuidValues(ids)
    requires TargetUnambiguous(names, cs, k)
    ensures TargetUnambiguous(names, cs, NextId(names, ids, k))
  {
    hide AddressesLookLikeAddresses, UuidValues, Ambiguous;
    var j := NextId(names, ids, k);
    NextIsNoAddress(names, ids, k);
    if names.parse(k).Some? {
      var ip := names.parse(k).value;
      if ip !in ids {
        assert !IsUuid(j) by { assert j[0] == 'm'; }
        KnownAreUuids(cs, j);
      }
      forall c | c in cs && c.identity == Known(j) && c.ip.Some? ensures !Ambiguous(cs, c.ip.value) {
        if ip in ids {
          var d :| OnlyOwner(cs, d, ip) && d.identity == Known(ids[ip]);
          assert d in cs && d == c;
        }
      }
    }
  }

  lemma {:induction false} NoAddressLeft(names: Names, ids: map<Ip, string>, r: Registry, s: Registry)
    requires AddressesLookLikeAddresses(names) && UuidValues(ids) && MigratedRegistry(names, ids, r, s)
    ensures !AnyAddress(names, s)
  {
    hide AddressesLookLikeAddresses, UuidValues, Rewritten, Merges;
    forall k | k in s.profiles ensures !HasAddress(names, s.profiles[k].cameras) {
      var p, q := r.profiles[k], s.profiles[k];
      assert MigratedProfile(names, ids, p, q);
      if HasAddress(names, p.cameras) { RewriteIsExact(names, ids, p.cameras, q.cameras); }
    }
  }

  lemma IndexOwners(cs: seq<Camera>, x: Index)
    requires IsIndex(cs, x) && AllKnown(cs) && UuidsOnly(cs)
    ensures OwnerIds(cs, x.identities) && UuidValues(x.identities)
  {
    hide IsUuid;
    forall c, ip | OnlyOwner(cs, c, ip) ensures ip in x.identities {
      var i :| 0 <= i < |cs| && cs[i] == c;
    }
    forall ip | ip in x.identities ensures IsUuid(x.identities[ip]) {
      var c :| OnlyOwner(cs, c, ip) && c.identity == Known(x.identities[ip]);
      var i :| 0 <= i < |cs| && cs[i] == c;
    }
  }

  // What the profile section has to be like, given the cameras with their identities.
  ghost predicate Migratable(names: Names, root: Root, cs: seq<Camera>, ids: map<Ip, string>) {
    root.profiles.Some? ==>
      var section := root.profiles.value;
      && (section.schema.Some? ==> section.schema.value == IDENTITY_SCHEMA_VERSION)
      && TargetsUnambiguous(names, cs, section.registry) && ValidRegistry(section.registry)
      && (AnyAddress(names, section.registry) ==> AllMovable(names, ids, section.registry))
  }

  // The configuration the migration makes of it.
  ghost predicate MigratedRoot(names: Names, root: Root, cs: seq<Camera>, ids: map<Ip, string>, next: Root) {
    && next.cameras == cs && (next.profiles.Some? <==> root.profiles.Some?)
    && (root.profiles.Some? ==>
          && next.profiles.value.schema == Some(IDENTITY_SCHEMA_VERSION)
          && MigratedRegistry(names, ids, root.profiles.value.registry, next.profiles.value.registry))
  }

  /** migrate_camera_profile_configuration: identities, targets and schema stamp in one unit.
      `accepts` is the final validation; None stands for any error, which writes nothing. */
  method MigrateConfiguration(root: Root, names: Names, draws: nat -> string, accepts: Root -> bool)
    returns (r: Option<Root>, write: bool, ghost filled: Option<seq<Camera>>, ghost ids: map<Ip, string>)
    requires DistinctSlots(root.cameras) && UuidsOnly(root.cameras) && forall n :: IsUuid(draws(n))
    requires AddressesLookLikeAddresses(names)
    // It is refused exactly when identities cannot be assigned, the profiles cannot be moved,
    // or the result is not accepted.
    ensures filled.Some? <==>
            WellFormed(root.cameras) && DrawsSuffice(MissingCount(root.cameras), KnownIds(root.cameras), draws, 0)
    ensures filled.Some? ==>
            Extends(root.cameras, filled.value) && AllKnown(filled.value) && OwnerIds(filled.value, ids)
    ensures r.Some? ==> filled.Some? && Migratable(names, root, filled.value, ids) &&
                        MigratedRoot(names, root, filled.value, ids, r.value)
    ensures r.None? && filled.Some? && Migratable(names, root, filled.value, ids) ==>
              exists next :: MigratedRoot(names, root, filled.value, ids, next) && !accepts(next)
    // A second run finds nothing to do.
    ensures r.Some? ==> Settled(names, r.value, accepts)
    ensures Settled(names, root, accepts) ==> r == Some(root) && !write
    ensures write <==> r.Some? && r.value != root
    ensures r.Some? ==> Extends(root.cameras, r.value.cameras) && (r.value.profiles.Some? <==> root.profiles.Some?)
    ensures r.Some? && root.profiles.Some? ==>
              var m := ActiveTargets(root.profiles.value.registry);
              forall k :: k in m && names.parse(k).Some? ==>
                Placed(names, r.value.cameras, m, ActiveTargets(r.value.profiles.value.registry), k,
                       names.parse(k).value)
  {
    hide IsIndex, WellFormed, ValidRegistry, TargetsUnambiguous, AnyAddress, AllMovable, MigratedRegistry, IsUuid,
      Placed,
      ActiveTargets, DrawsSuffice, KnownIds, OwnerIds;
    write, ids := false, map[];
    var cameras, identitiesChanged := AssignIdentities(root.cameras, draws);
    filled := cameras;
    if cameras.None? {
      return None, false, filled, ids;
    }
    var cs := cameras.value;
    var index := CollectIndex(cs);
    var x := index.value;
    ids := x.identities;
    IndexOwners(cs, x);
    ExtendsSame(root.cameras, cs);
    if root.profiles.None? {
      var next := Root(cs, None);
      assert MigratedRoot(names, root, cs, ids, next);
      if !accepts(next) {
        return None, false, filled, ids;
      }
      return Some(next), identitiesChanged, filled, ids;
    }
    var section := root.profiles.value;
    if section.schema.Some? && section.schema.value != IDENTITY_SCHEMA_VERSION {
      return None, false, filled, ids;
    }
    var ok := ActiveTargetsUnambiguous(names, cs, x, section.registry);
    if !ok {
      return None, false, filled, ids;
    }
    var registry, profilesChanged := MigrateTargets(names, x.identities, section.registry);
    if registry.None? {
      return None, false, filled, ids;
    }
    MigrationFacts(names, cs, x.identities, section.registry, registry.value);
    var schemaChanged := !profilesChanged && section.schema.None?;
    var next := Root(cs, Some(Section(registry.value, Some(IDENTITY_SCHEMA_VERSION))));
    assert MigratedRoot(names, root, cs, ids, next);
    if !accepts(next) {
      return None, false, filled, ids;
    }
    return Some(next), identitiesChanged || profilesChanged || schemaChanged, filled, ids;
  }

  lemma ExtendsSame(cs: seq<Camera>, ds: seq<Camera>)
    requires Extends(cs, ds) && AllKnown(ds)
    ensures AllKnown(cs) ==> cs == ds
    ensures !AllKnown(cs) ==> cs != ds
  {
  }

  lemma MigrationFacts(names: Names, cs: seq<Camera>, ids: map<Ip, string>, r: Registry, s: Registry)
    requires WellFormed(cs) && UuidsOnly(cs) && OwnerIds(cs, ids) && UuidValues(ids) &&
             AddressesLookLikeAddresses(names)
    requires MigratedRegistry(names, ids, r, s) && TargetsUnambiguous(names, cs, r)
    ensures TargetsUnambiguous(names, cs, s) && !AnyAddress(names, s)
    ensures AnyAddress(names, r) ==> s != r
    ensures forall k :: k in ActiveTargets(r) && names.parse(k).Some? ==>
              Placed(names, cs, ActiveTargets(r), ActiveTargets(s), k, names.parse(k).value)
  {
    hide AddressesLookLikeAddresses, TargetsUnambiguous, Placed, WellFormed, UuidValues, UuidsOnly, OwnerIds,
      MigratedProfile;
    StillUnambiguous(names, cs, ids, r, s);
    NoAddressLeft(names, ids, r, s);
    forall k | k in ActiveTargets(r) && names.parse(k).Some?
      ensures Placed(names, cs, ActiveTargets(r), ActiveTargets(s), k, names.parse(k).value)
    {
      ActivePlaced(names, cs, ids, r, s, k);
    }
  }
}
